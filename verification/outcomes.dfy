/**
  The outcome of every record of a file, as a walk over the whole byte string:
  frames, oversize records, blank lines, the CSV header and a header failure.
 */
module Outcomes {
  import opened Bytes
  import opened Framing

  /** Column mapping of a CSV file: what `header_mapping` makes of the header record. */
  datatype Mapping = Mapping(columns: seq<nat>)

  datatype Kind = Json | Csv(framer: Framer, header: bool, positional: Mapping)

  /** `terminal` is the sealed/immutable file contract, otherwise the file is append-only. */
  datatype Config = Config(
    kind: Kind,
    maxRecord: nat,
    terminal: bool,
    parseHeader: seq<byte> -> Option<Mapping>)

  function FramerOf(cfg: Config): Framer {
    match cfg.kind
    case Json => Framer(QUOTE, false)
    case Csv(framer, _, _) => framer
  }

  datatype Event = Frame(payload: seq<byte>) | Oversize

  datatype HeaderError = HeaderTooLong | HeaderInvalid

  /** Everything a reader has produced once it stands at a record boundary. */
  datatype Progress = Progress(
    events: seq<Event>,
    index: nat,
    mapping: Option<Mapping>,
    error: Option<HeaderError>)

  function Start(cfg: Config): Progress {
    Progress([], 0, InitialMapping(cfg), None)
  }

  function InitialMapping(cfg: Config): Option<Mapping> {
    if cfg.kind.Csv? && !cfg.kind.header then Some(cfg.kind.positional) else None
  }

  predicate NeedsHeader(cfg: Config, mapping: Option<Mapping>) {
    cfg.kind.Csv? && mapping.None?
  }

  predicate EndsWith(s: seq<byte>, b: byte) { s != [] && s[|s| - 1] == b }

  function DropLast(s: seq<byte>): seq<byte>
    requires s != []
  {
    s[..|s| - 1]
  }

  /** NDJSON drops one line feed and one carriage return, each if present. CSV
      drops a carriage return only together with the line feed. */
  function Strip(kind: Kind, raw: seq<byte>): seq<byte> {
    if kind.Json? then
      var line := if EndsWith(raw, LF) then DropLast(raw) else raw;
      if EndsWith(line, CR) then DropLast(line) else line
    else if EndsWith(raw, LF) then
      var line := DropLast(raw);
      if EndsWith(line, CR) then DropLast(line) else line
    else raw
  }

  /** Record content: terminator stripped, and the BOM of a CSV file's first record. */
  function Body(kind: Kind, raw: seq<byte>, first: bool): seq<byte> {
    var line := Strip(kind, raw);
    if first && kind.Csv? && BOM <= line then line[|BOM|..] else line
  }

  /** Too long when the bytes before the terminator exceed the bound. */
  predicate TooLong(cfg: Config, raw: seq<byte>, terminated: bool) {
    |raw| - (if terminated then 1 else 0) > cfg.maxRecord
  }

  function Consume(cfg: Config, p: Progress, raw: seq<byte>, first: bool, terminated: bool): Progress {
    var q := p.(index := p.index + 1);
    var body := Body(cfg.kind, raw, first);
    if TooLong(cfg, raw, terminated) then
      if NeedsHeader(cfg, p.mapping) then q.(error := Some(HeaderTooLong))
      else q.(events := p.events + [Oversize])
    else if body == [] then q
    else if NeedsHeader(cfg, p.mapping) then
      match cfg.parseHeader(body)
      case Some(m) => q.(mapping := Some(m))
      case None => q.(error := Some(HeaderInvalid))
    else q.(events := p.events + [Frame(body)])
  }

  /** Progress when the walk that stands at `from` with `p` reaches offset `o`; `None`
      when `o` is not a record boundary or a bad header stops the walk before it. */
  function At(cfg: Config, s: seq<byte>, from: nat, p: Progress, o: nat): Option<Progress>
    requires from <= |s|
    decreases |s| - from
  {
    if from == o then Some(p)
    else
      var e := NextEnd(FramerOf(cfg), s, from);
      if e < |s| && e < o && p.error.None?
      then At(cfg, s, e + 1, Consume(cfg, p, s[from..e + 1], from == 0, true), o)
      else None
  }

  /** Outcomes of the rest of a file, from a boundary. Under a terminal contract the
      unterminated tail is a record too; otherwise it may still grow and is not. */
  function Rest(cfg: Config, s: seq<byte>, from: nat, p: Progress): Progress
    requires from <= |s|
    decreases |s| - from
  {
    var e := NextEnd(FramerOf(cfg), s, from);
    if p.error.Some? then p
    else if e < |s| then Rest(cfg, s, e + 1, Consume(cfg, p, s[from..e + 1], from == 0, true))
    else if cfg.terminal && from < |s| then Consume(cfg, p, s[from..], from == 0, false)
    else p
  }

  /** Outcomes of a whole file. */
  function Whole(cfg: Config, s: seq<byte>): Progress { Rest(cfg, s, 0, Start(cfg)) }

  function AtCut(cfg: Config, s: seq<byte>, o: nat): Option<Progress> {
    At(cfg, s, 0, Start(cfg), o)
  }

  // ---- Laws of the walk ---------------------------------------------------

  /** One record: outcomes accumulate, a known header stays, and only a missing
      header can fail. */
  lemma ConsumeKeeps(cfg: Config, p: Progress, raw: seq<byte>, first: bool, terminated: bool)
    ensures var q := Consume(cfg, p, raw, first, terminated);
            && p.events <= q.events
            && q.index == p.index + 1
            && (p.mapping.Some? ==> q.mapping == p.mapping)
            && (!NeedsHeader(cfg, p.mapping) ==> q.error == p.error && q.mapping == p.mapping)
  {
  }

  /** The walk passes through every boundary it reaches. */
  lemma {:induction false} RestVia(cfg: Config, s: seq<byte>, from: nat, p: Progress, o: nat)
    requires from <= |s| && At(cfg, s, from, p, o).Some?
    ensures o <= |s|
    ensures Rest(cfg, s, from, p) == Rest(cfg, s, o, At(cfg, s, from, p, o).value)
    decreases |s| - from
  {
    hide Consume;
    if from != o {
      var e := NextEnd(FramerOf(cfg), s, from);
      RestVia(cfg, s, e + 1, Consume(cfg, p, s[from..e + 1], from == 0, true), o);
    }
  }

  /** A terminal file whose last record is unterminated ends with that record. */
  lemma TailWhole(cfg: Config, s: seq<byte>, o: nat)
    requires cfg.terminal && o < |s| && OpenUntil(FramerOf(cfg), s, o, |s|)
    requires AtCut(cfg, s, o).Some? && AtCut(cfg, s, o).value.error.None?
    ensures Whole(cfg, s) == Consume(cfg, AtCut(cfg, s, o).value, s[o..], o == 0, false)
  {
    hide Consume;
    RestVia(cfg, s, 0, Start(cfg), o);
    NextEndIs(FramerOf(cfg), s, o, |s|);
  }

  /** One more record. */
  lemma {:induction false} AtSnoc(cfg: Config, s: seq<byte>, from: nat, p: Progress, o: nat)
    requires from <= |s| && At(cfg, s, from, p, o).Some?
    requires At(cfg, s, from, p, o).value.error.None?
    requires o <= |s| && NextEnd(FramerOf(cfg), s, o) < |s|
    ensures var e := NextEnd(FramerOf(cfg), s, o);
            At(cfg, s, from, p, e + 1) ==
            Some(Consume(cfg, At(cfg, s, from, p, o).value, s[o..e + 1], o == 0, true))
    decreases |s| - from
  {
    hide Consume;
    var e := NextEnd(FramerOf(cfg), s, from);
    if from != o {
      AtSnoc(cfg, s, e + 1, Consume(cfg, p, s[from..e + 1], from == 0, true), o);
    }
  }

  /** Appending bytes changes nothing at or before the old end. */
  lemma {:induction false} AtPrefix(cfg: Config, s: seq<byte>, t: seq<byte>, from: nat, p: Progress, o: nat)
    requires s <= t && from <= |s| && o <= |s|
    ensures At(cfg, s, from, p, o) == At(cfg, t, from, p, o)
    decreases |s| - from
  {
    hide Consume;
    NextEndPrefix(FramerOf(cfg), s, t, from);
    var e := NextEnd(FramerOf(cfg), s, from);
    if from == o || p.error.Some? || e >= o {
    } else {
      assert e < |s| && NextEnd(FramerOf(cfg), t, from) == e;
      var raw := s[from..e + 1];
      assert raw == t[from..e + 1];
      AtPrefix(cfg, s, t, e + 1, Consume(cfg, p, raw, from == 0, true), o);
    }
  }

  lemma {:induction false} CutPrefix(f: Framer, s: seq<byte>, t: seq<byte>, from: nat, o: nat)
    requires s <= t && from <= |s| && o <= |s|
    ensures Cut(f, s, from, o) == Cut(f, t, from, o)
    decreases |s| - from
  {
    NextEndPrefix(f, s, t, from);
    var e := NextEnd(f, s, from);
    if from != o && e < |s| && e < o { CutPrefix(f, s, t, e + 1, o); }
  }

  /** The walk stops only at cuts. */
  lemma {:induction false} AtIsCut(cfg: Config, s: seq<byte>, from: nat, p: Progress, o: nat)
    requires from <= |s| && At(cfg, s, from, p, o).Some?
    ensures Cut(FramerOf(cfg), s, from, o) && from <= o <= |s|
    decreases |s| - from
  {
    hide Consume;
    if from != o {
      var e := NextEnd(FramerOf(cfg), s, from);
      AtIsCut(cfg, s, e + 1, Consume(cfg, p, s[from..e + 1], from == 0, true), o);
    }
  }

  /** A walk splits at any boundary in between. */
  lemma {:induction false} AtVia(cfg: Config, s: seq<byte>, from: nat, p: Progress, a: nat, b: nat)
    requires from <= |s| && a <= b
    requires At(cfg, s, from, p, a).Some?
    ensures a <= |s|
    ensures At(cfg, s, from, p, b) == At(cfg, s, a, At(cfg, s, from, p, a).value, b)
    decreases |s| - from
  {
    hide Consume;
    if from != a {
      var e := NextEnd(FramerOf(cfg), s, from);
      AtIsCut(cfg, s, from, p, a);
      AtVia(cfg, s, e + 1, Consume(cfg, p, s[from..e + 1], from == 0, true), a, b);
    }
  }

  /** Once a header is known it stays, and outcomes only accumulate. */
  lemma {:induction false} AtKeeps(cfg: Config, s: seq<byte>, from: nat, p: Progress, o: nat)
    requires from <= |s| && At(cfg, s, from, p, o).Some?
    ensures var q := At(cfg, s, from, p, o).value;
            p.events <= q.events && (p.mapping.Some? ==> q.mapping == p.mapping)
    decreases |s| - from
  {
    hide Consume;
    if from != o {
      var e := NextEnd(FramerOf(cfg), s, from);
      ConsumeKeeps(cfg, p, s[from..e + 1], from == 0, true);
      AtKeeps(cfg, s, e + 1, Consume(cfg, p, s[from..e + 1], from == 0, true), o);
    }
  }

  /** With a header (or none needed) every cut is reached: only a header can stop the walk. */
  lemma {:induction false} EveryCutReached(cfg: Config, s: seq<byte>, from: nat, p: Progress, o: nat)
    requires from <= |s| && Cut(FramerOf(cfg), s, from, o)
    requires p.error.None? && !NeedsHeader(cfg, p.mapping)
    ensures At(cfg, s, from, p, o).Some? && At(cfg, s, from, p, o).value.error.None?
    decreases |s| - from
  {
    hide Consume;
    if from != o {
      var e := NextEnd(FramerOf(cfg), s, from);
      ConsumeKeeps(cfg, p, s[from..e + 1], from == 0, true);
      EveryCutReached(cfg, s, e + 1, Consume(cfg, p, s[from..e + 1], from == 0, true), o);
    }
  }

  /** Every file outcome seen at a boundary is a prefix of the outcomes of any longer file. */
  lemma {:induction false} RestExtends(cfg: Config, s: seq<byte>, from: nat, p: Progress)
    requires from <= |s|
    ensures p.events <= Rest(cfg, s, from, p).events
    decreases |s| - from
  {
    var e := NextEnd(FramerOf(cfg), s, from);
    if p.error.None? && e < |s| {
      ConsumeKeeps(cfg, p, s[from..e + 1], from == 0, true);
      RestExtends(cfg, s, e + 1, Consume(cfg, p, s[from..e + 1], from == 0, true));
    } else {
      ConsumeKeeps(cfg, p, s[from..], from == 0, false);
    }
  }

  /** A growing file keeps the outcomes it already had. */
  lemma {:induction false} RestGrows(cfg: Config, s: seq<byte>, t: seq<byte>, from: nat, p: Progress)
    requires !cfg.terminal && s <= t && from <= |s|
    ensures Rest(cfg, s, from, p).events <= Rest(cfg, t, from, p).events
    decreases |s| - from
  {
    hide Consume;
    var e := NextEnd(FramerOf(cfg), s, from);
    NextEndPrefix(FramerOf(cfg), s, t, from);
    if p.error.None? && e < |s| {
      var raw := s[from..e + 1];
      assert raw == t[from..e + 1];
      RestGrows(cfg, s, t, e + 1, Consume(cfg, p, raw, from == 0, true));
    } else {
      RestExtends(cfg, t, from, p);
    }
  }

  lemma WholeGrows(cfg: Config, s: seq<byte>, t: seq<byte>)
    requires s <= t && (cfg.terminal ==> s == t)
    ensures Whole(cfg, s).events <= Whole(cfg, t).events
  {
    if !cfg.terminal { RestGrows(cfg, s, t, 0, Start(cfg)); }
  }

  // ---- Cuts a drain can stop at -------------------------------------------

  /** The offsets at which a drain that met no header failure can stand. */
  predicate Sound(cfg: Config, s: seq<byte>, k: nat) {
    || (AtCut(cfg, s, k).Some? && AtCut(cfg, s, k).value.error.None?)
    || (cfg.terminal && k == |s| && Whole(cfg, s).error.None?)
  }

  /** A record on the way to a sound offset has not failed. */
  lemma SoundStep(cfg: Config, s: seq<byte>, o: nat, k: nat)
    requires o <= |s| && AtCut(cfg, s, o).Some? && AtCut(cfg, s, o).value.error.None?
    requires NextEnd(FramerOf(cfg), s, o) < |s| && NextEnd(FramerOf(cfg), s, o) < k
    requires Sound(cfg, s, k)
    ensures var e := NextEnd(FramerOf(cfg), s, o);
            var q := Consume(cfg, AtCut(cfg, s, o).value, s[o..e + 1], o == 0, true);
            AtCut(cfg, s, e + 1) == Some(q) && q.error.None?
  {
    hide Consume;
    var e := NextEnd(FramerOf(cfg), s, o);
    AtSnoc(cfg, s, 0, Start(cfg), o);
    AtVia(cfg, s, 0, Start(cfg), e + 1, k);
    RestVia(cfg, s, 0, Start(cfg), e + 1);
  }

  /** A header record already longer than the bound leads to no sound offset. */
  lemma LongHeaderUnsound(cfg: Config, s: seq<byte>, o: nat, n: nat, k: nat)
    requires o <= |s| && AtCut(cfg, s, o).Some? && AtCut(cfg, s, o).value.error.None?
    requires NeedsHeader(cfg, AtCut(cfg, s, o).value.mapping)
    requires cfg.maxRecord + 1 < n && o + n <= k <= |s| && OpenUntil(FramerOf(cfg), s, o, o + n - 1)
    ensures !Sound(cfg, s, k)
  {
    hide Strip; hide Body;
    var f := FramerOf(cfg);
    var e := NextEnd(f, s, o);
    assert o + n - 1 <= e;
    if Sound(cfg, s, k) {
      if e < |s| && e < k {
        SoundStep(cfg, s, o, k);
      } else {
        if AtCut(cfg, s, k).Some? {
          AtIsCut(cfg, s, 0, Start(cfg), o);
          AtIsCut(cfg, s, 0, Start(cfg), k);
          CutOrder(f, s, 0, o, k);
        }
        assert k == |s| && e == |s|;
        TailWhole(cfg, s, o);
      }
    }
  }

  /** A file whose header is fine can be cut at every record end. */
  lemma {:induction false} CleanFileReaches(cfg: Config, s: seq<byte>, from: nat, p: Progress, k: nat)
    requires from <= |s| && Cut(FramerOf(cfg), s, from, k) && Rest(cfg, s, from, p).error.None?
    ensures At(cfg, s, from, p, k).Some? && At(cfg, s, from, p, k).value.error.None?
    decreases |s| - from
  {
    hide Consume;
    if from != k {
      var e := NextEnd(FramerOf(cfg), s, from);
      CleanFileReaches(cfg, s, e + 1, Consume(cfg, p, s[from..e + 1], from == 0, true), k);
    }
  }

  /** In a clean file the sound offsets are the record ends, 0, and under a terminal
      contract the end of the file. */
  lemma SoundIffCut(cfg: Config, s: seq<byte>, k: nat)
    requires Whole(cfg, s).error.None?
    ensures Sound(cfg, s, k) <==> Cut(FramerOf(cfg), s, 0, k) || (cfg.terminal && k == |s|)
  {
    hide At; hide Rest; hide Cut;
    if AtCut(cfg, s, k).Some? { AtIsCut(cfg, s, 0, Start(cfg), k); }
    if Cut(FramerOf(cfg), s, 0, k) { CleanFileReaches(cfg, s, 0, Start(cfg), k); }
  }
}
