/**
  What the records of a file are, from the writing side: any list of contents printed
  with their terminators is read back as exactly these contents.
 */
module PrintedLines {
  import opened Bytes
  import opened Framing
  import opened Outcomes
  import J = JsonText

  /** Part of a record: bytes outside quotes, or a quoted stretch. A doubled quote is the
      border of two quoted pieces. */
  datatype Piece = Bare(bytes: seq<byte>) | Quoted(bytes: seq<byte>)

  /** A record and how its line ends. */
  datatype Line = Line(pieces: seq<Piece>, crlf: bool)

  /** The quote character is not one of the line terminators. */
  predicate FramerOk(f: Framer) { f.quote != LF && f.quote != CR }

  /** Line feeds are inside quotes only, and quotes mean something only with `multiline`. */
  predicate PieceOk(f: Framer, p: Piece) {
    match p
    case Bare(b) => LF !in b && (f.multiline ==> f.quote !in b)
    case Quoted(b) => f.multiline && f.quote !in b
  }

  function PieceText(f: Framer, p: Piece): seq<byte> {
    match p
    case Bare(b) => b
    case Quoted(b) => [f.quote] + b + [f.quote]
  }

  function Content(f: Framer, pieces: seq<Piece>): seq<byte> {
    if pieces == [] then [] else PieceText(f, pieces[0]) + Content(f, pieces[1..])
  }

  function Cr(crlf: bool): seq<byte> { if crlf then [CR] else [] }

  /** Without a CRLF terminator the content does not itself end like one. */
  predicate LineOk(f: Framer, l: Line) {
    && (forall i | 0 <= i < |l.pieces| :: PieceOk(f, l.pieces[i]))
    && (l.crlf || !EndsWith(Content(f, l.pieces), CR))
  }

  predicate LinesOk(f: Framer, lines: seq<Line>) {
    forall i | 0 <= i < |lines| :: LineOk(f, lines[i])
  }

  function LineText(f: Framer, l: Line): seq<byte> { Content(f, l.pieces) + Cr(l.crlf) + [LF] }

  function FileText(f: Framer, lines: seq<Line>): seq<byte> {
    if lines == [] then [] else LineText(f, lines[0]) + FileText(f, lines[1..])
  }

  // ---- What each line is read as ---------------------------------------------

  /** A byte order mark before the first CSV record is not content. */
  function Unmarked(kind: Kind, content: seq<byte>, first: bool): seq<byte> {
    if first && kind.Csv? && |content| >= 3 && content[..3] == [0xEF, 0xBB, 0xBF] then content[3..] else content
  }

  /** Too long is told by the bytes before the line feed; blank lines say nothing. */
  function Said(cfg: Config, l: Line, first: bool): seq<Event> {
    var content := Content(FramerOf(cfg), l.pieces);
    var body := Unmarked(cfg.kind, content, first);
    if |content| + |Cr(l.crlf)| > cfg.maxRecord then [Oversize] else if body == [] then [] else [Frame(body)]
  }

  function SaidAll(cfg: Config, lines: seq<Line>, first: bool): seq<Event> {
    if lines == [] then [] else Said(cfg, lines[0], first) + SaidAll(cfg, lines[1..], false)
  }

  // ---- Terminators -----------------------------------------------------------

  /** One LF or CRLF is removed, nothing else. */
  lemma StripsTerminator(kind: Kind, content: seq<byte>, crlf: bool)
    requires crlf || !EndsWith(content, CR)
    ensures Strip(kind, content + Cr(crlf) + [LF]) == content
  {
    var line := content + Cr(crlf);
    assert DropLast(line + [LF]) == line;
    if crlf { assert DropLast(line) == content; } else { assert line == content; }
  }

  /** At the end of a file without a line feed, NDJSON drops a carriage return and CSV does not. */
  lemma StripsTail(kind: Kind, content: seq<byte>, crlf: bool)
    requires (crlf || !EndsWith(content, CR)) && !EndsWith(content, LF)
    ensures Strip(kind, content + Cr(crlf)) == if kind.Json? then content else content + Cr(crlf)
  {
    var line := content + Cr(crlf);
    if crlf { assert DropLast(line) == content; } else { assert line == content; }
  }

  // ---- Where a line ends -----------------------------------------------------

  /** Bytes that neither toggle quotes nor end the record. */
  lemma {:induction false} PassBytes(f: Framer, s: seq<byte>, from: nat, at: nat, b: seq<byte>, q: bool)
    requires from <= at && J.Has(s, at, b) && OpenUntil(f, s, from, at) && QuoteAt(f, s, from, at) == q
    requires (f.multiline ==> f.quote !in b) && (q || LF !in b)
    ensures OpenUntil(f, s, from, at + |b|) && QuoteAt(f, s, from, at + |b|) == q
    decreases |b|
  {
    if b != [] {
      var n := |b| - 1;
      PassBytes(f, s, from, at, b[..n], q);
      assert s[at + n] == b[n] && b[n] in b;
    }
  }

  lemma PassPiece(f: Framer, s: seq<byte>, from: nat, at: nat, p: Piece)
    requires FramerOk(f) && PieceOk(f, p) && from <= at && J.Has(s, at, PieceText(f, p))
    requires OpenUntil(f, s, from, at) && !QuoteAt(f, s, from, at)
    ensures OpenUntil(f, s, from, at + |PieceText(f, p)|) && !QuoteAt(f, s, from, at + |PieceText(f, p)|)
  {
    match p {
      case Bare(b) => PassBytes(f, s, from, at, b, false);
      case Quoted(b) =>
        J.HasConcat(s, at, [f.quote] + b, [f.quote]);
        J.HasConcat(s, at, [f.quote], b);
        J.HasByte(s, at, f.quote);
        J.HasByte(s, at + 1 + |b|, f.quote);
        PassBytes(f, s, from, at + 1, b, true);
    }
  }

  lemma {:induction false} PassPieces(f: Framer, s: seq<byte>, from: nat, at: nat, ps: seq<Piece>)
    requires FramerOk(f) && (forall i | 0 <= i < |ps| :: PieceOk(f, ps[i]))
    requires from <= at && J.Has(s, at, Content(f, ps)) && OpenUntil(f, s, from, at) && !QuoteAt(f, s, from, at)
    ensures OpenUntil(f, s, from, at + |Content(f, ps)|) && !QuoteAt(f, s, from, at + |Content(f, ps)|)
    decreases |ps|
  {
    hide QuoteAt; hide OpenUntil; hide J.Has;
    if ps != [] {
      J.HasConcat(s, at, PieceText(f, ps[0]), Content(f, ps[1..]));
      PassPiece(f, s, from, at, ps[0]);
      PassPieces(f, s, from, at + |PieceText(f, ps[0])|, ps[1..]);
    }
  }

  /** A printed line ends at its own line feed: line feeds and quotes inside do not matter. */
  lemma LineEnds(f: Framer, s: seq<byte>, from: nat, l: Line)
    requires FramerOk(f) && LineOk(f, l) && J.Has(s, from, LineText(f, l))
    ensures from + |LineText(f, l)| <= |s| && NextEnd(f, s, from) == from + |LineText(f, l)| - 1
  {
    hide QuoteAt; hide OpenUntil; hide J.Has; hide NextEnd;
    var c := Content(f, l.pieces);
    J.HasConcat(s, from, c + Cr(l.crlf), [LF]);
    J.HasConcat(s, from, c, Cr(l.crlf));
    var k := from + |c| + |Cr(l.crlf)|;
    J.HasByte(s, k, LF);
    Nothing(f, s, from);
    PassPieces(f, s, from, from, l.pieces);
    PassBytes(f, s, from, from + |c|, Cr(l.crlf), false);
    NextEndIs(f, s, from, k) by { assert EndsAt(f, s, from, k); }
  }

  lemma Nothing(f: Framer, s: seq<byte>, from: nat)
    requires from <= |s|
    ensures OpenUntil(f, s, from, from) && !QuoteAt(f, s, from, from)
  {
  }

  // ---- One line of the walk --------------------------------------------------

  /** The raw bytes of a printed line are consumed as its content. */
  lemma ConsumesLine(cfg: Config, p: Progress, l: Line, first: bool)
    requires LineOk(FramerOf(cfg), l) && p.error.None?
    ensures var raw := LineText(FramerOf(cfg), l);
            var content := Content(FramerOf(cfg), l.pieces);
            var body := Unmarked(cfg.kind, content, first);
            var q := Consume(cfg, p, raw, first, true);
            && q.index == p.index + 1
            && (!NeedsHeader(cfg, p.mapping) ==>
                  q == p.(index := p.index + 1, events := p.events + Said(cfg, l, first)))
            && (NeedsHeader(cfg, p.mapping) ==>
                  && q.events == p.events
                  && q.error == (if |content| + |Cr(l.crlf)| > cfg.maxRecord then Some(HeaderTooLong)
                                 else if body != [] && cfg.parseHeader(body).None? then Some(HeaderInvalid) else None)
                  && (q.error.None? ==> q.mapping == if body == [] then p.mapping else cfg.parseHeader(body)))
  {
    var content := Content(FramerOf(cfg), l.pieces);
    StripsTerminator(cfg.kind, content, l.crlf);
    assert BOM <= content <==> |content| >= 3 && content[..3] == [0xEF, 0xBB, 0xBF];
    assert p.events + [] == p.events;
  }

  lemma RawIs(s: seq<byte>, from: nat, t: seq<byte>)
    requires J.Has(s, from, t)
    ensures from + |t| <= |s| && s[from..from + |t|] == t
  {
  }

  /** A walk over printed lines. */
  lemma {:induction false} Walk(cfg: Config, s: seq<byte>, from: nat, p: Progress, lines: seq<Line>)
    requires var f := FramerOf(cfg);
             FramerOk(f) && LinesOk(f, lines) && J.Has(s, from, FileText(f, lines))
    requires p.error.None? && !NeedsHeader(cfg, p.mapping)
    ensures var to := from + |FileText(FramerOf(cfg), lines)|;
            && to <= |s|
            && At(cfg, s, from, p, to) ==
               Some(p.(events := p.events + SaidAll(cfg, lines, from == 0), index := p.index + |lines|))
    decreases |lines|
  {
    hide J.Has; hide Consume; hide Said; hide At; hide LineText;
    var f := FramerOf(cfg);
    RawIs(s, from, FileText(f, lines));
    if lines == [] {
      AtSelf(cfg, s, from, p);
      assert p.events + [] == p.events;
    } else {
      var l, rest := lines[0], lines[1..];
      var text := LineText(f, l);
      J.HasConcat(s, from, text, FileText(f, rest));
      WalkLine(cfg, s, from, p, l, from + |text| + |FileText(f, rest)|);
      ConsumesLine(cfg, p, l, from == 0);
      Walk(cfg, s, from + |text|, Consume(cfg, p, text, from == 0, true), rest);
      assert p.events + Said(cfg, l, from == 0) + SaidAll(cfg, rest, false) ==
             p.events + (Said(cfg, l, from == 0) + SaidAll(cfg, rest, false));
    }
  }

  /** The walk over one printed line. */
  lemma WalkLine(cfg: Config, s: seq<byte>, from: nat, p: Progress, l: Line, o: nat)
    requires var f := FramerOf(cfg);
             FramerOk(f) && LineOk(f, l) && J.Has(s, from, LineText(f, l)) && from + |LineText(f, l)| <= o
    requires p.error.None?
    ensures var text := LineText(FramerOf(cfg), l);
            && 0 < |text| && from + |text| <= |s|
            && At(cfg, s, from, p, o) == At(cfg, s, from + |text|, Consume(cfg, p, text, from == 0, true), o)
  {
    hide J.Has; hide NextEnd; hide Consume; hide At;
    LineEnds(FramerOf(cfg), s, from, l);
    RawIs(s, from, LineText(FramerOf(cfg), l));
    AtLine(cfg, s, from, p, o);
  }

  lemma AtSelf(cfg: Config, s: seq<byte>, from: nat, p: Progress)
    requires from <= |s|
    ensures At(cfg, s, from, p, from) == Some(p)
  {
  }

  lemma AtLine(cfg: Config, s: seq<byte>, from: nat, p: Progress, o: nat)
    requires from <= |s| && p.error.None?
    requires NextEnd(FramerOf(cfg), s, from) < |s| && NextEnd(FramerOf(cfg), s, from) < o
    ensures var e := NextEnd(FramerOf(cfg), s, from);
            At(cfg, s, from, p, o) == At(cfg, s, e + 1, Consume(cfg, p, s[from..e + 1], from == 0, true), o)
  {
    hide Consume; hide NextEnd;
  }

  // ---- Whole files -----------------------------------------------------------

  /** Every printed NDJSON file, and every printed CSV file without a header, is read as its
      contents: in order, blank ones skipped, overlong ones reported as such. */
  lemma PrintedFile(cfg: Config, lines: seq<Line>)
    requires FramerOk(FramerOf(cfg)) && LinesOk(FramerOf(cfg), lines)
    requires cfg.kind.Csv? ==> !cfg.kind.header
    ensures var w := Whole(cfg, FileText(FramerOf(cfg), lines));
            w.events == SaidAll(cfg, lines, true) && w.index == |lines| && w.error.None?
  {
    hide At; hide Rest; hide NextEnd;
    var s := FileText(FramerOf(cfg), lines);
    J.HasAll(s);
    Walk(cfg, s, 0, Start(cfg), lines);
    RestVia(cfg, s, 0, Start(cfg), |s|);
    AtEnd(cfg, s, At(cfg, s, 0, Start(cfg), |s|).value);
    assert [] + SaidAll(cfg, lines, true) == SaidAll(cfg, lines, true);
  }

  lemma AtEnd(cfg: Config, s: seq<byte>, p: Progress)
    ensures Rest(cfg, s, |s|, p) == p
  {
  }

  /** What is read of an unterminated last record: nothing while the file may still grow. */
  function SaidTail(cfg: Config, tail: Line, first: bool): seq<Event> {
    var content := Content(FramerOf(cfg), tail.pieces);
    var raw := content + Cr(tail.crlf);
    var body := Unmarked(cfg.kind, if cfg.kind.Json? then content else raw, first);
    if !cfg.terminal || raw == [] then []
    else if |raw| > cfg.maxRecord then [Oversize]
    else if body == [] then [] else [Frame(body)]
  }

  /** The same with an unterminated last record. */
  lemma PrintedTail(cfg: Config, lines: seq<Line>, tail: Line)
    requires FramerOk(FramerOf(cfg)) && LinesOk(FramerOf(cfg), lines) && LineOk(FramerOf(cfg), tail)
    requires cfg.kind.Csv? ==> !cfg.kind.header
    ensures var f := FramerOf(cfg);
            Whole(cfg, FileText(f, lines) + (Content(f, tail.pieces) + Cr(tail.crlf))).events ==
            SaidAll(cfg, lines, true) + SaidTail(cfg, tail, lines == [])
  {
    hide At; hide Rest; hide J.Has; hide Content; hide LineText; hide SaidTail;
    var f := FramerOf(cfg);
    var text, raw := FileText(f, lines), Content(f, tail.pieces) + Cr(tail.crlf);
    var s := text + raw;
    J.HasAll(s);
    J.HasConcat(s, 0, text, raw);
    Walk(cfg, s, 0, Start(cfg), lines);
    RestVia(cfg, s, 0, Start(cfg), |text|);
    var p := At(cfg, s, 0, Start(cfg), |text|).value;
    assert [] + SaidAll(cfg, lines, true) == SaidAll(cfg, lines, true) == p.events;
    RawIs(s, |text|, raw);
    TailOpen(f, s, |text|, tail);
    TextEmpty(f, lines);
    NoFinalFeed(f, tail.pieces);
    TailRead(cfg, s, |text|, p, tail);
  }

  lemma {:induction false} NoFinalFeed(f: Framer, pieces: seq<Piece>)
    requires FramerOk(f) && forall i | 0 <= i < |pieces| :: PieceOk(f, pieces[i])
    ensures !EndsWith(Content(f, pieces), LF)
  {
    if pieces != [] {
      NoFinalFeed(f, pieces[1..]);
      var a, b := PieceText(f, pieces[0]), Content(f, pieces[1..]);
      if b == [] && a != [] {
        assert (a + b)[|a + b| - 1] == a[|a| - 1];
        assert pieces[0].Bare? ==> a[|a| - 1] in a;
      }
    }
  }

  /** Without `multiline` every file is such a print, so nothing is left out above. */
  lemma {:induction false} EveryFileIsPrinted(f: Framer, s: seq<byte>) returns (lines: seq<Line>, tail: Line)
    requires !f.multiline
    ensures LinesOk(f, lines) && LineOk(f, tail)
    ensures s == FileText(f, lines) + (Content(f, tail.pieces) + Cr(tail.crlf))
    decreases |s|
  {
    hide Content; hide FileText;
    if LF in s {
      var k := FirstFeed(s);
      var l := LineOf(f, s[..k]);
      var rest;
      rest, tail := EveryFileIsPrinted(f, s[k + 1..]);
      assert s == s[..k] + [LF] + s[k + 1..];
      Prepend(f, l, rest, Content(f, tail.pieces) + Cr(tail.crlf));
      lines := [l] + rest;
    } else {
      NoLines(f, s);
      lines := [];
      tail := LineOf(f, s);
    }
  }

  lemma Prepend(f: Framer, l: Line, lines: seq<Line>, end: seq<byte>)
    ensures FileText(f, [l] + lines) + end == LineText(f, l) + (FileText(f, lines) + end)
  {
    hide LineText;
    assert ([l] + lines)[1..] == lines;
    assert FileText(f, [l] + lines) == LineText(f, l) + FileText(f, lines);
  }

  lemma NoLines(f: Framer, s: seq<byte>)
    ensures FileText(f, []) + s == s
  {
  }

  /** Bytes without a line feed as a record, a final carriage return as its terminator's. */
  lemma LineOf(f: Framer, b: seq<byte>) returns (l: Line)
    requires !f.multiline && LF !in b
    ensures LineOk(f, l) && Content(f, l.pieces) + Cr(l.crlf) == b
  {
    var crlf := EndsWith(b, CR);
    var c := if crlf then b[..|b| - 1] else b;
    l := Line([Bare(c)], crlf);
    assert l.pieces[1..] == [] && Content(f, l.pieces) == c + [] == c;
  }

  lemma {:induction false} FirstFeed(s: seq<byte>) returns (k: nat)
    requires LF in s
    ensures k < |s| && s[k] == LF && LF !in s[..k]
  {
    k := 0;
    while s[k] != LF
      invariant k < |s| && LF !in s[..k] && LF in s[k..]
      decreases |s| - k
    {
      assert s[k..] == [s[k]] + s[k + 1..];
      assert s[..k + 1] == s[..k] + [s[k]];
      k := k + 1;
    }
  }

  lemma TextEmpty(f: Framer, lines: seq<Line>)
    ensures FileText(f, lines) == [] <==> lines == []
  {
  }

  lemma TailOpen(f: Framer, s: seq<byte>, from: nat, tail: Line)
    requires FramerOk(f) && LineOk(f, tail) && J.Has(s, from, Content(f, tail.pieces) + Cr(tail.crlf))
    requires from + |Content(f, tail.pieces) + Cr(tail.crlf)| == |s|
    ensures NextEnd(f, s, from) == |s|
  {
    hide QuoteAt; hide OpenUntil; hide J.Has; hide NextEnd; hide Content;
    var c := Content(f, tail.pieces);
    J.HasConcat(s, from, c, Cr(tail.crlf));
    Nothing(f, s, from);
    PassPieces(f, s, from, from, tail.pieces);
    PassBytes(f, s, from, from + |c|, Cr(tail.crlf), false);
    NextEndIs(f, s, from, |s|);
  }

  lemma TailRead(cfg: Config, s: seq<byte>, from: nat, p: Progress, tail: Line)
    requires LineOk(FramerOf(cfg), tail) && !EndsWith(Content(FramerOf(cfg), tail.pieces), LF)
    requires from <= |s| && s[from..] == Content(FramerOf(cfg), tail.pieces) + Cr(tail.crlf)
    requires NextEnd(FramerOf(cfg), s, from) == |s| && p.error.None? && !NeedsHeader(cfg, p.mapping)
    ensures Rest(cfg, s, from, p).events == p.events + SaidTail(cfg, tail, from == 0)
  {
    hide NextEnd; hide Content;
    var content := Content(FramerOf(cfg), tail.pieces);
    StripsTail(cfg.kind, content, tail.crlf);
    var line := if cfg.kind.Json? then content else content + Cr(tail.crlf);
    assert BOM <= line <==> |line| >= 3 && line[..3] == [0xEF, 0xBB, 0xBF];
    assert p.events + [] == p.events;
  }

  // ---- CSV headers -----------------------------------------------------------

  predicate Blank(l: Line) { l.pieces == [] }

  /** Blank lines before the header are passed over. */
  lemma {:induction false} WalkBlanks(cfg: Config, s: seq<byte>, from: nat, p: Progress, blanks: seq<Line>, o: nat)
    requires FramerOk(FramerOf(cfg)) && 1 <= cfg.maxRecord && p.error.None?
    requires (forall i | 0 <= i < |blanks| :: Blank(blanks[i])) && J.Has(s, from, FileText(FramerOf(cfg), blanks))
    requires from + |FileText(FramerOf(cfg), blanks)| <= o
    ensures var to := from + |FileText(FramerOf(cfg), blanks)|;
            to <= |s| && At(cfg, s, from, p, o) == At(cfg, s, to, p.(index := p.index + |blanks|), o)
    decreases |blanks|
  {
    hide J.Has; hide Consume; hide At; hide LineText;
    var f := FramerOf(cfg);
    RawIs(s, from, FileText(f, blanks));
    if blanks != [] {
      var l, rest := blanks[0], blanks[1..];
      var text := LineText(f, l);
      J.HasConcat(s, from, text, FileText(f, rest));
      WalkLine(cfg, s, from, p, l, o);
      ConsumesBlank(cfg, p, l, from == 0);
      WalkBlanks(cfg, s, from + |text|, p.(index := p.index + 1), rest, o);
    }
  }

  lemma ConsumesBlank(cfg: Config, p: Progress, l: Line, first: bool)
    requires Blank(l) && 1 <= cfg.maxRecord && p.error.None?
    ensures Consume(cfg, p, LineText(FramerOf(cfg), l), first, true) == p.(index := p.index + 1)
  {
    StripsTerminator(cfg.kind, [], l.crlf);
  }

  /** A CSV file with a header: the first record that is not blank is the header and never a
      row; a header that is too long or does not parse ends the file. */
  lemma PrintedHeader(cfg: Config, blanks: seq<Line>, h: Line, lines: seq<Line>)
    requires cfg.kind.Csv? && cfg.kind.header && FramerOk(FramerOf(cfg)) && 1 <= cfg.maxRecord
    requires (forall i | 0 <= i < |blanks| :: Blank(blanks[i])) && LinesOk(FramerOf(cfg), lines)
    requires LineOk(FramerOf(cfg), h)
    requires Unmarked(cfg.kind, Content(FramerOf(cfg), h.pieces), blanks == []) != []
    ensures var f := FramerOf(cfg);
            var content := Content(f, h.pieces);
            var parsed := cfg.parseHeader(Unmarked(cfg.kind, content, blanks == []));
            var w := Whole(cfg, FileText(f, blanks) + (LineText(f, h) + FileText(f, lines)));
            if |content| + |Cr(h.crlf)| > cfg.maxRecord then w.events == [] && w.error == Some(HeaderTooLong)
            else if parsed.None? then w.events == [] && w.error == Some(HeaderInvalid)
            else w.events == SaidAll(cfg, lines, false) && w.mapping == parsed && w.error.None?
  {
    hide At; hide Rest; hide J.Has; hide Consume; hide LineText; hide Content; hide FileText; hide SaidAll;
    var f := FramerOf(cfg);
    var a, b, c := FileText(f, blanks), LineText(f, h), FileText(f, lines);
    var s := a + (b + c);
    J.HasAll(s);
    J.HasConcat(s, 0, a, b + c);
    J.HasConcat(s, |a|, b, c);
    TextEmpty(f, blanks);
    ReachHeader(cfg, s, blanks, h);
    var p := Start(cfg).(index := |blanks|);
    var q := Consume(cfg, p, b, |a| == 0, true);
    RestVia(cfg, s, 0, Start(cfg), |a| + |b|);
    ConsumesLine(cfg, p, h, |a| == 0);
    if q.error.Some? {
      Failed(cfg, s, |a| + |b|, q);
    } else {
      AfterHeader(cfg, s, |a| + |b|, q, lines);
    }
  }

  lemma ReachHeader(cfg: Config, s: seq<byte>, blanks: seq<Line>, h: Line)
    requires FramerOk(FramerOf(cfg)) && 1 <= cfg.maxRecord && LineOk(FramerOf(cfg), h)
    requires forall i | 0 <= i < |blanks| :: Blank(blanks[i])
    requires var a := FileText(FramerOf(cfg), blanks);
             J.Has(s, 0, a) && J.Has(s, |a|, LineText(FramerOf(cfg), h))
    ensures var a, b := FileText(FramerOf(cfg), blanks), LineText(FramerOf(cfg), h);
            && 0 < |b| && |a| + |b| <= |s|
            && At(cfg, s, 0, Start(cfg), |a| + |b|) ==
               Some(Consume(cfg, Start(cfg).(index := |blanks|), b, |a| == 0, true))
  {
    hide At; hide J.Has; hide Consume; hide LineText; hide FileText;
    var a, b := FileText(FramerOf(cfg), blanks), LineText(FramerOf(cfg), h);
    var p := Start(cfg).(index := |blanks|);
    RawIs(s, |a|, b);
    WalkBlanks(cfg, s, 0, Start(cfg), blanks, |a| + |b|);
    WalkLine(cfg, s, |a|, p, h, |a| + |b|);
    AtSelf(cfg, s, |a| + |b|, Consume(cfg, p, b, |a| == 0, true));
  }

  lemma AfterHeader(cfg: Config, s: seq<byte>, from: nat, q: Progress, lines: seq<Line>)
    requires 0 < from && FramerOk(FramerOf(cfg)) && LinesOk(FramerOf(cfg), lines)
    requires J.Has(s, from, FileText(FramerOf(cfg), lines)) && from + |FileText(FramerOf(cfg), lines)| == |s|
    requires q.error.None? && !NeedsHeader(cfg, q.mapping)
    ensures var w := Rest(cfg, s, from, q);
            w.events == q.events + SaidAll(cfg, lines, false) && w.mapping == q.mapping && w.error.None?
  {
    hide At; hide Rest; hide J.Has; hide FileText; hide SaidAll;
    Walk(cfg, s, from, q, lines);
    RestVia(cfg, s, from, q, |s|);
    AtEnd(cfg, s, At(cfg, s, from, q, |s|).value);
  }

  lemma Failed(cfg: Config, s: seq<byte>, o: nat, p: Progress)
    requires o <= |s| && p.error.Some?
    ensures Rest(cfg, s, o, p) == p
  {
  }

  // ---- Lines in reverse ----------------------------------------------------------

  lemma {:induction false} FileTextSnoc(f: Framer, lines: seq<Line>, l: Line)
    ensures FileText(f, lines + [l]) == FileText(f, lines) + LineText(f, l)
  {
    hide LineText;
    if lines == [] {
      assert [] + [l] == [l] && [l][1..] == [];
    } else {
      assert (lines + [l])[1..] == lines[1..] + [l];
      FileTextSnoc(f, lines[1..], l);
    }
  }

  lemma {:induction false} SaidSnoc(cfg: Config, lines: seq<Line>, l: Line, first: bool)
    ensures SaidAll(cfg, lines + [l], first) == SaidAll(cfg, lines, first) + Said(cfg, l, first && lines == [])
  {
    hide Said;
    if lines == [] {
      assert [] + [l] == [l] && [l][1..] == [];
    } else {
      assert (lines + [l])[1..] == lines[1..] + [l];
      SaidSnoc(cfg, lines[1..], l, false);
    }
  }
}
