/**
  The HTTP poll record splitter: a lazy scanner that yields the byte spans of the
  elements of a JSON array (or one root object), and of the lines of NDJSON.
 */
module HttpRecords {
  import opened Bytes
  import opened JsonText

  datatype SplitState = Start | ArrayFirst | ArrayNext | Done

  datatype Outcome = Span(start: nat, end: nat) | Bad | NoMore

  ghost predicate AllWs(s: seq<byte>, a: nat, b: nat)
    requires a <= b <= |s|
  {
    forall i | a <= i < b :: IsWs(s[i])
  }

  function SkipWs(s: seq<byte>, i: nat): (j: nat)
    requires i <= |s|
    ensures i <= j <= |s| && AllWs(s, i, j) && (j < |s| ==> !IsWs(s[j]))
    decreases |s| - i
  {
    if i < |s| && IsWs(s[i]) then SkipWs(s, i + 1) else i
  }

  /** End of the value that starts at `i`, `None` when the text stops inside it. */
  function Scan(s: seq<byte>, i: nat, depth: nat, quoted: bool, escaped: bool): (end: Option<nat>)
    requires i <= |s|
    ensures end.Some? ==> i <= end.value <= |s|
    decreases |s| - i
  {
    if i == |s| then (if depth == 0 && !quoted then Some(i) else None)
    else
      var b := s[i];
      if quoted then
        if escaped then Scan(s, i + 1, depth, true, false)
        else if b == BACKSLASH then Scan(s, i + 1, depth, true, true)
        else if b == QUOTE then (if depth == 0 then Some(i + 1) else Scan(s, i + 1, depth, false, false))
        else Scan(s, i + 1, depth, true, false)
      else if b == QUOTE then Scan(s, i + 1, depth, true, false)
      else if b == LBRACE || b == LBRACKET then Scan(s, i + 1, depth + 1, false, false)
      else if b == RBRACE || b == RBRACKET then
        if depth == 0 then Some(i)
        else if depth == 1 then Some(i + 1)
        else Scan(s, i + 1, depth - 1, false, false)
      else if depth == 0 && (b == COMMA || IsWs(b)) then Some(i)
      else Scan(s, i + 1, depth, false, false)
  }

  function TrimEnd(s: seq<byte>, start: nat, end: nat): (e: nat)
    requires start <= end <= |s|
    ensures start <= e <= end && AllWs(s, e, end) && (start < e ==> !IsWs(s[e - 1]))
  {
    if start < end && IsWs(s[end - 1]) then TrimEnd(s, start, end - 1) else end
  }

  /** One call of `next_json`: its answer, and the position and state it leaves. */
  function NextJson(s: seq<byte>, pos: nat, st: SplitState): (r: (Outcome, nat, SplitState))
    requires pos <= |s|
    ensures pos <= r.1 <= |s|
    ensures r.0.Span? ==> pos <= r.0.start < r.0.end <= |s|
    ensures r.0.Span? && !r.2.Done? ==> r.1 == r.0.end && r.2.ArrayNext?
    ensures !r.0.Span? ==> r.2.Done?
    decreases st.Start?
  {
    var i := SkipWs(s, pos);
    if st.Done? then (NoMore, pos, Done)
    else if st.Start? then
      if i == |s| then (NoMore, i, Done)
      else if s[i] == LBRACE then (Span(i, TrimEnd(s, i, |s|)), i, Done)
      else if s[i] == LBRACKET then NextJson(s, i + 1, ArrayFirst)
      else (Bad, i, Done)
    else if i == |s| then (Bad, i, Done)
    else if s[i] == RBRACKET then
      var j := SkipWs(s, i + 1);
      (if j == |s| then NoMore else Bad, j, Done)
    else if s[i] == COMMA && st.ArrayNext? then Element(s, SkipWs(s, i + 1))
    else if st.ArrayFirst? then Element(s, i)
    else (Bad, i, Done)
  }

  function Element(s: seq<byte>, i: nat): (r: (Outcome, nat, SplitState))
    requires i <= |s|
    ensures i <= r.1 <= |s|
    ensures r.0.Span? ==> i == r.0.start < r.0.end == r.1 && r.2.ArrayNext?
    ensures !r.0.Span? ==> r.0.Bad? && r.2.Done?
  {
    match Scan(s, i, 0, false, false)
    case Some(end) => if end > i then (Span(i, end), end, ArrayNext) else (Bad, end, Done)
    case None => (Bad, |s|, Done)
  }

  /** All spans from here on, and whether the splitter ended without an error. */
  function Spans(s: seq<byte>, pos: nat, st: SplitState): (r: (seq<(nat, nat)>, bool))
    requires pos <= |s|
    decreases !st.Done?, |s| - pos
  {
    var n := NextJson(s, pos, st);
    match n.0
    case NoMore => ([], true)
    case Bad => ([], false)
    case Span(a, b) =>
      var rest := Spans(s, n.1, n.2);
      ([(a, b)] + rest.0, rest.1)
  }

  // ---- One step of the splitter --------------------------------------------

  lemma SpansStep(s: seq<byte>, pos: nat, st: SplitState, a: nat, b: nat)
    requires pos <= |s| && NextJson(s, pos, st) == (Span(a, b), b, ArrayNext)
    ensures Spans(s, pos, st) == ([(a, b)] + Spans(s, b, ArrayNext).0, Spans(s, b, ArrayNext).1)
  {
  }

  lemma SpansLast(s: seq<byte>, pos: nat, st: SplitState, a: nat, b: nat, p: nat)
    requires pos <= |s| && NextJson(s, pos, st) == (Span(a, b), p, Done)
    ensures Spans(s, pos, st) == ([(a, b)], true)
  {
    assert Spans(s, p, Done) == ([], true);
    assert [(a, b)] + [] == [(a, b)];
  }

  lemma SpansEnd(s: seq<byte>, pos: nat, st: SplitState)
    requires pos <= |s| && NextJson(s, pos, st).0 == NoMore
    ensures Spans(s, pos, st) == ([], true)
  {
  }

  /** Whitespace, the closing bracket, and whitespace to the end. */
  lemma StepClose(s: seq<byte>, pos: nat, st: SplitState)
    requires pos <= |s| && (st.ArrayFirst? || st.ArrayNext?)
    requires SkipWs(s, pos) < |s| && s[SkipWs(s, pos)] == RBRACKET && SkipWs(s, SkipWs(s, pos) + 1) == |s|
    ensures NextJson(s, pos, st) == (NoMore, |s|, Done)
  {
  }

  lemma StepComma(s: seq<byte>, pos: nat)
    requires pos <= |s| && SkipWs(s, pos) < |s| && s[SkipWs(s, pos)] == COMMA
    ensures NextJson(s, pos, ArrayNext) == Element(s, SkipWs(s, SkipWs(s, pos) + 1))
  {
  }

  lemma StepOpen(s: seq<byte>)
    requires SkipWs(s, 0) < |s| && s[SkipWs(s, 0)] == LBRACKET
    ensures NextJson(s, 0, Start) == NextJson(s, SkipWs(s, 0) + 1, ArrayFirst)
  {
  }

  lemma StepFirst(s: seq<byte>, pos: nat)
    requires pos <= |s| && SkipWs(s, pos) < |s| && s[SkipWs(s, pos)] != RBRACKET
    ensures NextJson(s, pos, ArrayFirst) == Element(s, SkipWs(s, pos))
  {
  }

  // ---- The scanner agrees with the grammar ---------------------------------

  /** Inside a nested value whitespace, commas and colons are passed over. */
  lemma {:induction false} PassBytes(s: seq<byte>, i: nat, t: seq<byte>, depth: nat)
    requires Has(s, i, t)
    requires forall k | 0 <= k < |t| ::
               IsTokenByte(t[k]) || (depth > 0 && (IsWs(t[k]) || t[k] == COMMA || t[k] == COLON))
    ensures Scan(s, i, depth, false, false) == Scan(s, i + |t|, depth, false, false)
    decreases |t|
  {
    if t != [] {
      assert s[i + 0] == t[0];
      assert Has(s, i + 1, t[1..]) by {
        forall k | 0 <= k < |t| - 1 ensures s[i + 1 + k] == t[1..][k] { assert s[i + (k + 1)] == t[k + 1]; }
      }
      PassBytes(s, i + 1, t[1..], depth);
    }
  }

  /** String content never ends the string. */
  lemma {:induction false} PassItems(s: seq<byte>, i: nat, xs: StrItems, depth: nat)
    requires Has(s, i, ItemsText(xs))
    ensures Scan(s, i, depth, true, false) == Scan(s, i + |ItemsText(xs)|, depth, true, false)
    decreases |xs|
  {
    if xs != [] {
      var x := xs[0];
      HasConcat(s, i, ItemText(x), ItemsText(xs[1..]));
      assert ItemOk(x);
      assert s[i + 0] == ItemText(x)[0];
      if x.Escape? {
        assert s[i + 1] == ItemText(x)[1];
        assert Scan(s, i, depth, true, false) == Scan(s, i + 1, depth, true, true);
      }
      PassItems(s, i + |ItemText(x)|, xs[1..], depth);
    }
  }

  /** A string at any depth but 0 is passed over; at depth 0 it is the value. */
  lemma PassString(s: seq<byte>, i: nat, xs: StrItems, depth: nat)
    requires Has(s, i, StrText(xs))
    ensures Scan(s, i, depth, false, false) ==
            if depth == 0 then Some(i + |StrText(xs)|) else Scan(s, i + |StrText(xs)|, depth, false, false)
  {
    var body := ItemsText(xs);
    HasConcat(s, i, [QUOTE] + body, [QUOTE]);
    HasConcat(s, i, [QUOTE], body);
    HasByte(s, i, QUOTE);
    HasByte(s, i + 1 + |body|, QUOTE);
    PassItems(s, i + 1, xs, depth);
  }

  /** Inside another value, a value is passed over as a whole. */
  lemma {:induction false} PassValue(s: seq<byte>, i: nat, v: Json, depth: nat)
    requires 0 < depth && Has(s, i, Text(v))
    ensures Scan(s, i, depth, false, false) == Scan(s, i + |Text(v)|, depth, false, false)
    decreases v
  {
    match v {
      case Scalar(token) => PassBytes(s, i, token, depth);
      case Str(items) => PassString(s, i, items, depth);
      case _ => PassNested(s, i, v, depth);
    }
  }

  /** Brackets around content that is passed over one level deeper. */
  lemma PassBrackets(s: seq<byte>, i: nat, open: byte, lead: Ws, inner: seq<byte>, close: byte, depth: nat)
    requires (open == LBRACKET || open == LBRACE) && (close == RBRACKET || close == RBRACE)
    requires Has(s, i, [open] + lead + inner + [close])
    requires var at := i + 1 + |lead|;
             Scan(s, at, depth + 1, false, false) == Scan(s, at + |inner|, depth + 1, false, false)
    ensures Scan(s, i, depth, false, false) ==
            if depth == 0 then Some(i + |lead| + |inner| + 2)
            else Scan(s, i + |lead| + |inner| + 2, depth, false, false)
  {
    HasConcat(s, i, [open] + lead + inner, [close]);
    HasConcat(s, i, [open] + lead, inner);
    HasConcat(s, i, [open], lead);
    HasByte(s, i, open);
    HasByte(s, i + 1 + |lead| + |inner|, close);
    PassBytes(s, i + 1, lead, depth + 1);
  }

  /** An array or object, from its opening bracket to the byte after its closing one. */
  lemma {:induction false} PassNested(s: seq<byte>, i: nat, v: Json, depth: nat)
    requires !v.Scalar? && !v.Str? && Has(s, i, Text(v))
    ensures Scan(s, i, depth, false, false) ==
            if depth == 0 then Some(i + |Text(v)|) else Scan(s, i + |Text(v)|, depth, false, false)
    decreases v, 0
  {
    hide Scan; hide Has;
    match v {
      case EmptyArr(gap) => PassEmpty(s, i, LBRACKET, gap, RBRACKET, depth);
      case EmptyObj(gap) => PassEmpty(s, i, LBRACE, gap, RBRACE, depth);
      case Arr(lead, elems) =>
        HasInner(s, i, [LBRACKET] + lead, ElemsText(elems), [RBRACKET]);
        PassElems(s, i + 1 + |lead|, elems, depth + 1);
        PassBrackets(s, i, LBRACKET, lead, ElemsText(elems), RBRACKET, depth);
      case Obj(lead, members) =>
        HasInner(s, i, [LBRACE] + lead, MembersText(members), [RBRACE]);
        PassMembers(s, i + 1 + |lead|, members, depth + 1);
        PassBrackets(s, i, LBRACE, lead, MembersText(members), RBRACE, depth);
    }
  }

  lemma PassEmpty(s: seq<byte>, i: nat, open: byte, gap: Ws, close: byte, depth: nat)
    requires (open == LBRACKET || open == LBRACE) && (close == RBRACKET || close == RBRACE)
    requires Has(s, i, [open] + gap + [close])
    ensures Scan(s, i, depth, false, false) ==
            if depth == 0 then Some(i + |gap| + 2) else Scan(s, i + |gap| + 2, depth, false, false)
  {
    hide Scan; hide Has;
    assert [open] + gap + [close] == [open] + gap + [] + [close];
    PassBrackets(s, i, open, gap, [], close, depth);
  }

  lemma HasInner(s: seq<byte>, i: nat, a: seq<byte>, b: seq<byte>, c: seq<byte>)
    requires Has(s, i, a + b + c)
    ensures Has(s, i + |a|, b)
  {
    hide Has;
    HasConcat(s, i, a + b, c);
    HasConcat(s, i, a, b);
  }

  lemma {:induction false} PassElems(s: seq<byte>, i: nat, es: Elems, depth: nat)
    requires 0 < depth && Has(s, i, ElemsText(es))
    ensures Scan(s, i, depth, false, false) == Scan(s, i + |ElemsText(es)|, depth, false, false)
    decreases es
  {
    hide Scan;
    var v := Text(es.value);
    match es {
      case LastElem(value, after) =>
        HasConcat(s, i, v, after);
        PassValue(s, i, value, depth);
        PassBytes(s, i + |v|, after, depth);
      case MoreElems(value, after, before, rest) =>
        HasConcat(s, i, v + after + [COMMA] + before, ElemsText(rest));
        HasConcat(s, i, v + after + [COMMA], before);
        HasConcat(s, i, v + after, [COMMA]);
        HasConcat(s, i, v, after);
        PassValue(s, i, value, depth);
        PassBytes(s, i + |v|, after, depth);
        PassBytes(s, i + |v| + |after|, [COMMA], depth);
        PassBytes(s, i + |v| + |after| + 1, before, depth);
        PassElems(s, i + |v| + |after| + 1 + |before|, rest, depth);
    }
  }

  lemma {:induction false} PassMembers(s: seq<byte>, i: nat, ms: Members, depth: nat)
    requires 0 < depth && Has(s, i, MembersText(ms))
    ensures Scan(s, i, depth, false, false) == Scan(s, i + |MembersText(ms)|, depth, false, false)
    decreases ms
  {
    hide Scan;
    var head := StrText(ms.key) + ms.beforeColon + [COLON] + ms.afterColon + Text(ms.value) + ms.after;
    match ms {
      case LastMember(_, _, _, _, _) =>
        PassMember(s, i, ms, depth);
      case MoreMembers(_, _, _, _, _, before, rest) =>
        HasConcat(s, i, head + [COMMA] + before, MembersText(rest));
        HasConcat(s, i, head + [COMMA], before);
        HasConcat(s, i, head, [COMMA]);
        PassMember(s, i, ms, depth);
        PassBytes(s, i + |head|, [COMMA], depth);
        PassBytes(s, i + |head| + 1, before, depth);
        PassMembers(s, i + |head| + 1 + |before|, rest, depth);
    }
  }

  lemma {:induction false} PassMember(s: seq<byte>, i: nat, ms: Members, depth: nat)
    requires 0 < depth
    requires Has(s, i, StrText(ms.key) + ms.beforeColon + [COLON] + ms.afterColon + Text(ms.value) + ms.after)
    ensures Scan(s, i, depth, false, false) ==
            Scan(s, i + |StrText(ms.key) + ms.beforeColon + [COLON] + ms.afterColon + Text(ms.value) + ms.after|,
                 depth, false, false)
    decreases ms, 0
  {
    hide Scan;
    var k, w1, w2, v := StrText(ms.key), ms.beforeColon, ms.afterColon, Text(ms.value);
    HasConcat(s, i, k + w1 + [COLON] + w2 + v, ms.after);
    HasConcat(s, i, k + w1 + [COLON] + w2, v);
    HasConcat(s, i, k + w1 + [COLON], w2);
    HasConcat(s, i, k + w1, [COLON]);
    HasConcat(s, i, k, w1);
    PassString(s, i, ms.key, depth);
    PassBytes(s, i + |k|, w1, depth);
    PassBytes(s, i + |k| + |w1|, [COLON], depth);
    PassBytes(s, i + |k| + |w1| + 1, w2, depth);
    PassValue(s, i + |k| + |w1| + 1 + |w2|, ms.value, depth);
    PassBytes(s, i + |k| + |w1| + 1 + |w2| + |v|, ms.after, depth);
  }

  // ---- Round trip: printing an array and splitting it -----------------------

  function Values(es: Elems): seq<Json> {
    match es
    case LastElem(v, _) => [v]
    case MoreElems(v, _, _, rest) => [v] + Values(rest)
  }

  /** Where the elements of `es` stand when they are printed from offset `at` on. */
  function SpansOf(es: Elems, at: nat): seq<(nat, nat)> {
    var end := at + |Text(es.value)|;
    match es
    case LastElem(_, _) => [(at, end)]
    case MoreElems(_, after, before, rest) => [(at, end)] + SpansOf(rest, end + |after| + 1 + |before|)
  }

  lemma {:induction false} SpansOfTexts(s: seq<byte>, es: Elems, at: nat)
    requires Has(s, at, ElemsText(es))
    ensures |SpansOf(es, at)| == |Values(es)|
    ensures forall k | 0 <= k < |Values(es)| ::
              var (a, b) := SpansOf(es, at)[k]; a <= b <= |s| && s[a..b] == Text(Values(es)[k])
  {
    var v := Text(es.value);
    match es {
      case LastElem(_, after) =>
        HasConcat(s, at, v, after);
        assert s[at..at + |v|] == v;
      case MoreElems(_, after, before, rest) =>
        HasConcat(s, at, v + after + [COMMA] + before, ElemsText(rest));
        HasConcat(s, at, v + after + [COMMA], before);
        HasConcat(s, at, v + after, [COMMA]);
        HasConcat(s, at, v, after);
        assert s[at..at + |v|] == v;
        SpansOfTexts(s, rest, at + |v| + |after| + 1 + |before|);
    }
  }

  /** At depth 0 a value ends where its text ends, if a delimiter or the end follows. */
  lemma TopValue(s: seq<byte>, i: nat, v: Json)
    requires Has(s, i, Text(v))
    requires var e := i + |Text(v)|; e == |s| || IsWs(s[e]) || s[e] == COMMA || s[e] == RBRACKET
    ensures Scan(s, i, 0, false, false) == Some(i + |Text(v)|)
  {
    match v {
      case Scalar(token) => PassBytes(s, i, token, 0);
      case Str(items) => PassString(s, i, items, 0);
      case EmptyArr(_) => PassNested(s, i, v, 0);
      case Arr(_, _) => PassNested(s, i, v, 0);
      case EmptyObj(_) => PassNested(s, i, v, 0);
      case Obj(_, _) => PassNested(s, i, v, 0);
    }
  }

  lemma {:induction false} SkipTo(s: seq<byte>, i: nat, w: Ws)
    requires Has(s, i, w)
    requires i + |w| == |s| || !IsWs(s[i + |w|])
    ensures SkipWs(s, i) == i + |w|
  {
    forall k | i <= k < i + |w| ensures IsWs(s[k]) { assert s[i + (k - i)] == w[k - i]; }
  }

  /** The rest of an array after the opening of its element list: one element, then the
      others in order, then the end. */
  lemma {:induction false} SplitElems(s: seq<byte>, at: nat, es: Elems, w: Ws)
    requires Has(s, at, ElemsText(es) + [RBRACKET] + w) && at + |ElemsText(es)| + 1 + |w| == |s|
    ensures Element(s, at) == (Span(at, at + |Text(es.value)|), at + |Text(es.value)|, ArrayNext)
    ensures [(at, at + |Text(es.value)|)] + Spans(s, at + |Text(es.value)|, ArrayNext).0 == SpansOf(es, at)
    ensures Spans(s, at + |Text(es.value)|, ArrayNext).1
    decreases es
  {
    hide Scan; hide Has; hide Text; hide Spans; hide NextJson; hide SkipWs;
    var end := at + |Text(es.value)|;
    FirstByte(es.value);
    match es {
      case LastElem(v, after) =>
        SplitLast(s, at, es, w);
        TopValue(s, at, v);
        StepClose(s, end, ArrayNext);
        SpansEnd(s, end, ArrayNext);
      case MoreElems(v, after, before, rest) =>
        SplitMore(s, at, es, w);
        TopValue(s, at, v);
        var next := end + |after| + 1 + |before|;
        SplitElems(s, next, rest, w);
        StepComma(s, end);
        SpansStep(s, end, ArrayNext, next, next + |Text(rest.value)|);
    }
  }

  /** The last element is followed by whitespace, the bracket, and whitespace to the end. */
  lemma SplitLast(s: seq<byte>, at: nat, es: Elems, w: Ws)
    requires es.LastElem? && Has(s, at, ElemsText(es) + [RBRACKET] + w)
    requires at + |ElemsText(es)| + 1 + |w| == |s|
    ensures var end := at + |Text(es.value)|;
            && Has(s, at, Text(es.value)) && end < |s| && (IsWs(s[end]) || s[end] == RBRACKET)
            && SkipWs(s, end) == end + |es.after| < |s| && s[end + |es.after|] == RBRACKET
            && SkipWs(s, end + |es.after| + 1) == |s|
  {
    var v, after := Text(es.value), es.after;
    HasConcat(s, at, v + after + [RBRACKET], w);
    HasConcat(s, at, v + after, [RBRACKET]);
    HasConcat(s, at, v, after);
    var end := at + |v|;
    HasByte(s, end + |after|, RBRACKET);
    NextByteOf(s, end, after);
    SkipTo(s, end, after);
    SkipTo(s, end + |after| + 1, w);
  }

  /** The byte after a value is its trailing whitespace, or what follows that. */
  lemma NextByteOf(s: seq<byte>, i: nat, w: Ws)
    requires Has(s, i, w) && i < |s|
    ensures IsWs(s[i]) || (w == [] && s[i] == s[i + |w|])
  {
    if w != [] { assert s[i + 0] == w[0]; }
  }

  /** One comma and whitespace lead from one element to the next. */
  lemma SplitMore(s: seq<byte>, at: nat, es: Elems, w: Ws)
    requires es.MoreElems? && Has(s, at, ElemsText(es) + [RBRACKET] + w)
    requires at + |ElemsText(es)| + 1 + |w| == |s|
    ensures var end := at + |Text(es.value)|;
            var next := end + |es.after| + 1 + |es.before|;
            && Has(s, at, Text(es.value)) && end < |s| && (IsWs(s[end]) || s[end] == COMMA)
            && SkipWs(s, end) == end + |es.after| < |s| && s[end + |es.after|] == COMMA
            && SkipWs(s, end + |es.after| + 1) == next
            && Has(s, next, ElemsText(es.rest) + [RBRACKET] + w)
  {
    hide Scan;
    var v, after, before, rest := Text(es.value), es.after, es.before, ElemsText(es.rest);
    var tail := [RBRACKET] + w;
    assert ElemsText(es) + [RBRACKET] + w == v + after + [COMMA] + before + (rest + [RBRACKET] + w);
    HasConcat(s, at, v + after + [COMMA] + before, rest + [RBRACKET] + w);
    HasConcat(s, at, v + after + [COMMA], before);
    HasConcat(s, at, v + after, [COMMA]);
    HasConcat(s, at, v, after);
    var end := at + |v|;
    HasByte(s, end + |after|, COMMA);
    NextByteOf(s, end, after);
    SkipTo(s, end, after);
    FirstByte(es.rest.value);
    var next := end + |after| + 1 + |before|;
    assert s[next + 0] == (rest + [RBRACKET] + w)[0] == Text(es.rest.value)[0];
    SkipTo(s, end + |after| + 1, before);
  }

  /** A printed array splits into exactly the texts of its elements, in order, and the
      splitter then ends without an error. */
  lemma ArrayRoundTrip(before: Ws, lead: Ws, es: Elems, after: Ws)
    ensures var s := before + Text(Arr(lead, es)) + after;
            var spans := Spans(s, 0, Start);
            && spans.1
            && |spans.0| == |Values(es)|
            && forall k | 0 <= k < |Values(es)| ::
                 var (a, b) := spans.0[k]; a <= b <= |s| && s[a..b] == Text(Values(es)[k])
  {
    hide Scan; hide Has; hide Text; hide SpansOf; hide Spans; hide NextJson; hide SkipWs; hide Element;
    var s := before + Text(Arr(lead, es)) + after;
    var at := |before| + 1 + |lead|;
    HasParts(s, before, Text(Arr(lead, es)), after);
    OpenArray(s, before, lead, es, after);
    SplitElems(s, at, es, after);
    StepOpen(s);
    StepFirst(s, |before| + 1);
    SpansStep(s, 0, Start, at, at + |Text(es.value)|);
    HasConcat(s, at, ElemsText(es) + [RBRACKET], after);
    HasConcat(s, at, ElemsText(es), [RBRACKET]);
    SpansOfTexts(s, es, at);
  }

  /** The opening of a printed array leads to its first element. */
  lemma OpenArray(s: seq<byte>, before: Ws, lead: Ws, es: Elems, after: Ws)
    requires var t := Text(Arr(lead, es));
             && Has(s, 0, before) && Has(s, |before|, t) && Has(s, |before| + |t|, after)
             && |before| + |t| + |after| == |s|
    ensures var at := |before| + 1 + |lead|;
            && SkipWs(s, 0) == |before| < |s| && s[|before|] == LBRACKET
            && SkipWs(s, |before| + 1) == at < |s| && s[at] != RBRACKET && s[at] != COMMA
            && Has(s, at, ElemsText(es) + [RBRACKET] + after)
            && at + |ElemsText(es)| + 1 + |after| == |s|
  {
    hide Has; hide SkipWs; hide Text; hide ElemsText;
    HasArray(s, |before|, lead, es, after);
    OpenSkips(s, before, lead, es);
  }

  lemma OpenSkips(s: seq<byte>, before: Ws, lead: Ws, es: Elems)
    requires Has(s, 0, before) && |before| < |s| && s[|before|] == LBRACKET
    requires Has(s, |before| + 1, lead) && Has(s, |before| + 1 + |lead|, ElemsText(es))
    ensures var at := |before| + 1 + |lead|;
            && SkipWs(s, 0) == |before|
            && SkipWs(s, |before| + 1) == at < |s| && s[at] != RBRACKET && s[at] != COMMA
  {
    hide Has; hide SkipWs; hide Text; hide ElemsText;
    SkipTo(s, 0, before);
    ElemsStart(s, |before| + 1 + |lead|, es);
    SkipTo(s, |before| + 1, lead);
  }

  lemma HasParts(s: seq<byte>, a: seq<byte>, b: seq<byte>, c: seq<byte>)
    requires s == a + b + c
    ensures Has(s, 0, a) && Has(s, |a|, b) && Has(s, |a| + |b|, c)
    ensures |s| == |a| + |b| + |c|
  {
    HasAll(s);
    HasConcat(s, 0, a + b, c);
    HasConcat(s, 0, a, b);
  }

  lemma HasArray(s: seq<byte>, i: nat, lead: Ws, es: Elems, after: seq<byte>)
    requires var t := Text(Arr(lead, es)); Has(s, i, t) && Has(s, i + |t|, after)
    ensures i < |s| && s[i] == LBRACKET && Has(s, i + 1, lead)
    ensures var at := i + 1 + |lead|;
            Has(s, at, ElemsText(es)) && Has(s, at, ElemsText(es) + [RBRACKET] + after)
    ensures |Text(Arr(lead, es))| == |lead| + |ElemsText(es)| + 2
  {
    hide Has; hide ElemsText;
    var inner := ElemsText(es);
    HasConcat(s, i, [LBRACKET] + lead + inner, [RBRACKET]);
    HasConcat(s, i, [LBRACKET] + lead, inner);
    HasConcat(s, i, [LBRACKET], lead);
    HasByte(s, i, LBRACKET);
    HasJoin(s, i + 1 + |lead|, inner, [RBRACKET]);
    HasJoin(s, i + 1 + |lead|, inner + [RBRACKET], after);
  }

  lemma ElemsStart(s: seq<byte>, at: nat, es: Elems)
    requires Has(s, at, ElemsText(es))
    ensures at < |s| && !IsWs(s[at]) && s[at] != COMMA && s[at] != RBRACKET
  {
    FirstByte(es.value);
    assert ElemsText(es)[0] == Text(es.value)[0];
    assert s[at + 0] == ElemsText(es)[0];
  }

  /** An empty array, or no body at all, has no records. */
  lemma EmptyRoundTrip(before: Ws, gap: Ws, after: Ws)
    ensures Spans(before, 0, Start) == ([], true)
    ensures Spans(before + Text(EmptyArr(gap)) + after, 0, Start) == ([], true)
  {
    hide Has; hide Scan; hide Spans; hide NextJson; hide SkipWs;
    HasAll(before);
    SkipTo(before, 0, before);
    StepNothing(before);
    SpansEnd(before, 0, Start);
    var s := before + Text(EmptyArr(gap)) + after;
    HasParts(s, before, Text(EmptyArr(gap)), after);
    EmptyArray(s, before, gap, after);
  }

  lemma EmptyArray(s: seq<byte>, before: Ws, gap: Ws, after: Ws)
    requires Has(s, 0, before) && Has(s, |before|, [LBRACKET] + gap + [RBRACKET])
    requires Has(s, |before| + |gap| + 2, after) && |s| == |before| + |gap| + 2 + |after|
    ensures Spans(s, 0, Start) == ([], true)
  {
    hide Has; hide Scan; hide Spans; hide NextJson; hide SkipWs;
    HasConcat(s, |before|, [LBRACKET] + gap, [RBRACKET]);
    HasConcat(s, |before|, [LBRACKET], gap);
    HasByte(s, |before|, LBRACKET);
    HasByte(s, |before| + 1 + |gap|, RBRACKET);
    SkipTo(s, 0, before);
    SkipTo(s, |before| + 1, gap);
    SkipTo(s, |before| + |gap| + 2, after);
    StepOpen(s);
    StepClose(s, |before| + 1, ArrayFirst);
    SpansEnd(s, 0, Start);
  }

  lemma StepNothing(s: seq<byte>)
    requires SkipWs(s, 0) == |s|
    ensures NextJson(s, 0, Start).0 == NoMore
  {
  }

  /** A root object is one record, without the whitespace around it. */
  lemma RootObject(before: Ws, v: Json, after: Ws)
    requires v.Obj? || v.EmptyObj?
    ensures Spans(before + Text(v) + after, 0, Start) == ([(|before|, |before| + |Text(v)|)], true)
  {
    hide Has; hide SkipWs; hide TrimEnd; hide Scan;
    var s, end := before + Text(v) + after, |before| + |Text(v)|;
    HasParts(s, before, Text(v), after);
    Braces(s, |before|, v);
    SkipTo(s, 0, before);
    TrimTo(s, |before|, end, after);
    assert NextJson(s, 0, Start) == (Span(|before|, end), |before|, Done);
    SpansLast(s, 0, Start, |before|, end, |before|);
  }

  lemma Braces(s: seq<byte>, i: nat, v: Json)
    requires (v.Obj? || v.EmptyObj?) && Has(s, i, Text(v))
    ensures |Text(v)| >= 2 && i + |Text(v)| <= |s| && s[i] == LBRACE && s[i + |Text(v)| - 1] == RBRACE
  {
    assert Text(v)[0] == LBRACE && Text(v)[|Text(v)| - 1] == RBRACE;
    assert s[i + 0] == Text(v)[0] && s[i + (|Text(v)| - 1)] == Text(v)[|Text(v)| - 1];
  }

  lemma TrimTo(s: seq<byte>, start: nat, mid: nat, w: Ws)
    requires start < mid && Has(s, mid, w) && mid + |w| == |s| && !IsWs(s[mid - 1])
    ensures TrimEnd(s, start, |s|) == mid
  {
    forall k | mid <= k < |s| ensures IsWs(s[k]) { assert s[mid + (k - mid)] == w[k - mid]; }
  }

  // ---- Converse: what a clean run says about the bytes -----------------------

  /** Outside the spans there is only whitespace, the closing bracket, and exactly one
      comma per gap. */
  ghost predicate Layout(s: seq<byte>, pos: nat, first: bool, spans: seq<(nat, nat)>)
    decreases |spans|
  {
    if spans == [] then
      exists c: nat :: pos <= c < |s| && AllWs(s, pos, c) && s[c] == RBRACKET && AllWs(s, c + 1, |s|)
    else
      var (a, b) := spans[0];
      && pos <= a < b <= |s|
      && (if first then AllWs(s, pos, a) else CommaGap(s, pos, a))
      && Layout(s, b, false, spans[1..])
  }

  ghost predicate CommaGap(s: seq<byte>, pos: nat, a: nat)
    requires pos <= a <= |s|
  {
    exists c: nat :: pos <= c < a && AllWs(s, pos, c) && s[c] == COMMA && AllWs(s, c + 1, a)
  }

  lemma {:induction false} CleanRest(s: seq<byte>, pos: nat, st: SplitState)
    requires pos <= |s| && (st.ArrayFirst? || st.ArrayNext?) && Spans(s, pos, st).1
    ensures Layout(s, pos, st.ArrayFirst?, Spans(s, pos, st).0)
    decreases |s| - pos
  {
    hide Scan;
    var n := NextJson(s, pos, st);
    var spans := Spans(s, pos, st).0;
    var i := SkipWs(s, pos);
    if n.0.Span? {
      CleanRest(s, n.1, ArrayNext);
      assert spans[1..] == Spans(s, n.1, ArrayNext).0;
      if st.ArrayNext? {
        assert AllWs(s, pos, i) && s[i] == COMMA && AllWs(s, i + 1, n.0.start);
        assert CommaGap(s, pos, n.0.start);
      }
    } else {
      assert pos <= i < |s| && AllWs(s, pos, i) && s[i] == RBRACKET && AllWs(s, i + 1, |s|);
    }
  }

  /** Every run over a JSON array that ends without an error accounts for every byte. */
  lemma CleanArray(s: seq<byte>)
    requires Spans(s, 0, Start).1 && SkipWs(s, 0) < |s| && s[SkipWs(s, 0)] == LBRACKET
    ensures Layout(s, SkipWs(s, 0) + 1, true, Spans(s, 0, Start).0)
  {
    var i := SkipWs(s, 0);
    assert NextJson(s, 0, Start) == NextJson(s, i + 1, ArrayFirst);
    assert Spans(s, 0, Start) == Spans(s, i + 1, ArrayFirst);
    CleanRest(s, i + 1, ArrayFirst);
  }

  /** A body that splits without an error is blank, one object, or an array of that layout:
      any other root is an error. */
  lemma CleanBody(s: seq<byte>)
    requires Spans(s, 0, Start).1
    ensures var i := SkipWs(s, 0);
            var spans := Spans(s, 0, Start).0;
            || (i == |s| && spans == [])
            || (i < |s| && s[i] == LBRACE && spans == [(i, TrimEnd(s, i, |s|))])
            || (i < |s| && s[i] == LBRACKET && Layout(s, i + 1, true, spans))
  {
    hide Spans; hide SkipWs; hide TrimEnd; hide Layout; hide Scan;
    var i := SkipWs(s, 0);
    if i < |s| && s[i] == LBRACKET {
      CleanArray(s);
    } else if i < |s| && s[i] == LBRACE {
      SpansLast(s, 0, Start, i, TrimEnd(s, i, |s|), i);
    } else {
      RootlessBody(s);
    }
  }

  lemma RootlessBody(s: seq<byte>)
    requires var i := SkipWs(s, 0); i == |s| || (s[i] != LBRACE && s[i] != LBRACKET)
    ensures Spans(s, 0, Start) == ([], SkipWs(s, 0) == |s|)
  {
    hide SkipWs; hide Scan;
  }

  // ---- The scanner itself ----------------------------------------------------

  datatype Format = Json | Ndjson

  class Records {
    const bytes: seq<byte>
    const format: Format
    var pos: nat
    var state: SplitState

    constructor (bytes: seq<byte>, format: Format)
      ensures this.bytes == bytes && this.format == format && pos == 0 && state == Start
    {
      this.bytes, this.format := bytes, format;
      pos, state := 0, Start;
    }

    method SkipSpace()
      requires pos <= |bytes|
      modifies this`pos
      ensures pos == SkipWs(bytes, old(pos))
    {
      while pos < |bytes| && IsWs(bytes[pos])
        invariant pos <= |bytes| && SkipWs(bytes, pos) == SkipWs(bytes, old(pos))
      {
        pos := pos + 1;
      }
    }

    /** `scan_value`: string-aware bracket matching. */
    method ScanValue() returns (end: Option<nat>)
      requires pos <= |bytes|
      modifies this`pos
      ensures end == Scan(bytes, old(pos), 0, false, false)
      ensures old(pos) <= pos <= |bytes| && (end.Some? ==> pos == end.value)
      ensures end.None? ==> pos == |bytes|
    {
      var depth: nat, quoted, escaped := 0, false, false;
      while pos < |bytes|
        invariant old(pos) <= pos <= |bytes|
        invariant Scan(bytes, pos, depth, quoted, escaped) == Scan(bytes, old(pos), 0, false, false)
        invariant escaped ==> quoted
      {
        var b := bytes[pos];
        if quoted {
          if escaped {
            escaped := false;
          } else if b == BACKSLASH {
            escaped := true;
          } else if b == QUOTE {
            quoted := false;
            if depth == 0 {
              pos := pos + 1;
              return Some(pos);
            }
          }
        } else if b == QUOTE {
          quoted := true;
        } else if b == LBRACE || b == LBRACKET {
          depth := depth + 1;
        } else if b == RBRACE || b == RBRACKET {
          if depth == 0 { return Some(pos); }
          depth := depth - 1;
          if depth == 0 {
            pos := pos + 1;
            return Some(pos);
          }
        } else if depth == 0 && (b == COMMA || IsWs(b)) {
          return Some(pos);
        }
        pos := pos + 1;
      }
      return if depth == 0 && !quoted then Some(pos) else None;
    }

    /** The end of a root object, before trailing whitespace. */
    method RootEnd() returns (end: nat)
      requires pos <= |bytes|
      ensures end == TrimEnd(bytes, pos, |bytes|)
    {
      end := |bytes|;
      while end > pos && IsWs(bytes[end - 1])
        invariant pos <= end <= |bytes| && TrimEnd(bytes, pos, end) == TrimEnd(bytes, pos, |bytes|)
      {
        end := end - 1;
      }
    }

    /** `next_json`, one span per call. */
    method NextJsonSpan() returns (r: Outcome)
      requires pos <= |bytes|
      modifies this
      ensures (r, pos, state) == NextJson(bytes, old(pos), old(state))
    {
      hide Scan;
      if state.Done? { return NoMore; }
      SkipSpace();
      if state.Start? {
        if pos == |bytes| { state := Done; return NoMore; }
        if bytes[pos] == LBRACE {
          state := Done;
          var end := RootEnd();
          return Span(pos, end);
        }
        if bytes[pos] != LBRACKET { state := Done; return Bad; }
        pos, state := pos + 1, ArrayFirst;
        SkipSpace();
      }
      r := NextElement();
    }

    /** The array states of `next_json`, after leading whitespace. */
    method NextElement() returns (r: Outcome)
      requires pos <= |bytes| && (state.ArrayFirst? || state.ArrayNext?) && SkipWs(bytes, pos) == pos
      modifies this
      ensures (r, pos, state) == NextJson(bytes, old(pos), old(state))
    {
      hide Scan;
      if pos == |bytes| { state := Done; return Bad; }
      if bytes[pos] == RBRACKET {
        pos := pos + 1;
        SkipSpace();
        state := Done;
        return if pos != |bytes| then Bad else NoMore;
      }
      if bytes[pos] == COMMA && state.ArrayNext? {
        pos := pos + 1;
        SkipSpace();
      } else if !state.ArrayFirst? {
        state := Done;
        return Bad;
      }
      state := ArrayNext;
      var start := pos;
      var end := ScanValue();
      if end.None? { state := Done; return Bad; }
      if end.value > start { return Span(start, end.value); }
      state := Done;
      return Bad;
    }

    /** `next_line`: the next line that is not blank, trimmed on both sides. */
    method NextLine() returns (r: Outcome)
      requires format.Ndjson?
      modifies this`pos
      ensures r.NoMore? ==> old(pos) <= |bytes| ==> AllWs(bytes, old(pos), |bytes|)
      ensures !r.Bad? && (r.NoMore? ==> pos >= |bytes|)
      ensures r.Span? ==>
                && old(pos) <= r.start < r.end <= |bytes| && r.end <= pos - 1 <= |bytes|
                && AllWs(bytes, old(pos), r.start) && AllWs(bytes, r.end, pos - 1)
                && !IsWs(bytes[r.start]) && !IsWs(bytes[r.end - 1])
                && (pos - 1 == |bytes| || bytes[pos - 1] == LF)
                && forall k | r.start <= k < r.end :: bytes[k] != LF
    {
      while pos < |bytes|
        invariant old(pos) <= pos && (old(pos) <= |bytes| ==> pos <= |bytes| + 1)
        invariant old(pos) <= |bytes| ==> AllWs(bytes, old(pos), if pos <= |bytes| then pos else |bytes|)
      {
        var start := pos;
        var end := start;
        while end < |bytes| && bytes[end] != LF
          invariant start <= end <= |bytes| && forall k | start <= k < end :: bytes[k] != LF
        {
          end := end + 1;
        }
        pos := end + 1;
        var a := start;
        while a < end && IsWs(bytes[a])
          invariant start <= a <= end && AllWs(bytes, start, a)
        {
          a := a + 1;
        }
        var b := end;
        while b > a && IsWs(bytes[b - 1])
          invariant a <= b <= end && AllWs(bytes, b, end)
        {
          b := b - 1;
        }
        if a < b { return Span(a, b); }
      }
      return NoMore;
    }
  }
}
