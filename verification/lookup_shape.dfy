/**
  The HTTP lookup's shape scan: one pass over the response that finds the only
  nested object, and what the span it returns stands for.
 */
module LookupShape {
  import opened Bytes
  import opened JsonText

  const MAX_FRAME_BYTES: nat := 64 * 1024
  const MAX_FIELDS: nat := 16

  /** `outer` and `inner` count the members seen at depth 1 and 2. */
  datatype Shape = Shape(
    depth: nat, outer: nat, inner: nat, quoted: bool, escaped: bool,
    start: Option<nat>, span: Option<(nat, nat)>)

  const FRESH := Shape(0, 0, 0, false, false, None, None)

  datatype Answer = Refused | Found(span: Option<(nat, nat)>)

  /** One byte; `None` when the response is refused. */
  function Next(st: Shape, i: nat, b: byte): Option<Shape> {
    if st.quoted then
      if st.escaped then Some(st.(escaped := false))
      else if b == BACKSLASH then Some(st.(escaped := true))
      else if b == QUOTE then Some(st.(quoted := false))
      else Some(st)
    else if b == QUOTE then Some(st.(quoted := true))
    else if b == LBRACKET || b == RBRACKET then None
    else if b == LBRACE then
      if st.depth == 0 then Some(st.(depth := 1, outer := 0))
      else if st.depth == 1 && st.start.None? then Some(st.(depth := 2, inner := 0, start := Some(i)))
      else None
    else if b == RBRACE then
      if st.depth == 0 then None
      else
        var span := if st.depth == 2 && st.start.Some? then Some((st.start.value, i + 1)) else st.span;
        Some(st.(span := span, depth := st.depth - 1))
    else if b == COLON && st.depth == 1 then
      if st.outer + 1 > 1 then None else Some(st.(outer := st.outer + 1))
    else if b == COLON && st.depth == 2 then
      if st.inner + 1 > MAX_FIELDS then None else Some(st.(inner := st.inner + 1))
    else Some(st)
  }

  /** The scan after the first `i` bytes. */
  function After(s: seq<byte>, i: nat): Option<Shape>
    requires i <= |s|
  {
    if i == 0 then Some(FRESH)
    else
      var before := After(s, i - 1);
      if before.Some? then Next(before.value, i - 1, s[i - 1]) else None
  }

  function AnswerOf(s: seq<byte>): Answer {
    if |s| > MAX_FRAME_BYTES then Refused
    else
      var end := After(s, |s|);
      if end.Some? then Found(end.value.span) else Refused
  }

  lemma {:induction false} RefusedStays(s: seq<byte>, i: nat, j: nat)
    requires i <= j <= |s| && After(s, i).None?
    ensures After(s, j).None?
  {
    if i < j { RefusedStays(s, i, j - 1); }
  }

  method ResponseShape(s: seq<byte>) returns (r: Answer)
    ensures r == AnswerOf(s)
  {
    if |s| > MAX_FRAME_BYTES { return Refused; }
    var depth, outer, inner := 0, 0, 0;
    var quoted, escaped := false, false;
    var start: Option<nat> := None;
    var span: Option<(nat, nat)> := None;
    for i := 0 to |s|
      invariant 0 <= depth <= 2 && 0 <= outer && 0 <= inner && (depth == 2 ==> start.Some?)
      invariant After(s, i) == Some(Shape(depth, outer, inner, quoted, escaped, start, span))
    {
      var b := s[i];
      if After(s, i + 1).None? { RefusedStays(s, i + 1, |s|); }
      if quoted {
        if escaped {
          escaped := false;
        } else if b == BACKSLASH {
          escaped := true;
        } else if b == QUOTE {
          quoted := false;
        }
        continue;
      }
      if b == QUOTE {
        quoted := true;
      } else if b == LBRACKET || b == RBRACKET {
        return Refused;
      } else if b == LBRACE {
        depth := depth + 1;
        if depth > 2 { return Refused; }
        if depth == 1 { outer := 0; } else { inner := 0; }
        if depth == 2 {
          if start.Some? { return Refused; }
          start := Some(i);
        }
      } else if b == RBRACE {
        if depth == 0 { return Refused; }
        if depth == 2 { span := Some((start.value, i + 1)); }
        depth := depth - 1;
      } else if b == COLON && depth > 0 {
        if depth == 1 { outer := outer + 1; } else { inner := inner + 1; }
        if (if depth == 1 then outer > 1 else inner > MAX_FIELDS) { return Refused; }
      }
    }
    return Found(span);
  }

  // ---- Soundness: what a returned span is --------------------------------------

  /** Whether byte `i` is inside a string, and whether it is escaped there. */
  function Lex(s: seq<byte>, i: nat): (bool, bool)
    requires i <= |s|
  {
    if i == 0 then (false, false)
    else
      var (quoted, escaped) := Lex(s, i - 1);
      var b := s[i - 1];
      if !quoted then (b == QUOTE, false)
      else if escaped then (true, false)
      else (b != QUOTE, b == BACKSLASH)
  }

  /** Byte `i` is `b`, outside any string. */
  predicate Bare(s: seq<byte>, i: nat, b: byte) { i < |s| && !Lex(s, i).0 && s[i] == b }

  /** How many objects are open before byte `i`. */
  function Level(s: seq<byte>, i: nat): int
    requires i <= |s|
  {
    if i == 0 then 0
    else Level(s, i - 1) + (if Bare(s, i - 1, LBRACE) then 1 else if Bare(s, i - 1, RBRACE) then -1 else 0)
  }

  predicate BraceAt(s: seq<byte>, i: nat) { Bare(s, i, LBRACE) || Bare(s, i, RBRACE) }

  predicate BracketAt(s: seq<byte>, i: nat) { Bare(s, i, LBRACKET) || Bare(s, i, RBRACKET) }

  /** An opening brace of a nested object. */
  predicate InnerOpen(s: seq<byte>, i: nat) { i < |s| && Bare(s, i, LBRACE) && Level(s, i) == 1 }

  ghost predicate NoBraces(s: seq<byte>, a: nat, b: nat) {
    forall k | a <= k < b :: !BraceAt(s, k)
  }

  /** `start` is the only nested opening brace before `i`. */
  ghost predicate OnlyInner(s: seq<byte>, i: nat, start: Option<nat>) {
    && (forall k | 0 <= k < i && InnerOpen(s, k) :: start == Some(k))
    && (start.Some? ==> start.value < i && InnerOpen(s, start.value))
  }

  ghost predicate Sound(s: seq<byte>, i: nat, st: Shape)
    requires i <= |s|
  {
    && (st.quoted, st.escaped) == Lex(s, i)
    && st.depth == Level(s, i) <= 2
    && (forall k | 0 <= k < i :: !BracketAt(s, k))
    && OnlyInner(s, i, st.start)
    && (st.depth == 2 <==> st.start.Some? && st.span.None?)
    && (st.depth == 2 ==> NoBraces(s, st.start.value + 1, i))
    && (st.span.Some? ==> Spanned(s, i, st.start, st.span.value))
  }

  /** The span runs from that brace to the brace that closes it. */
  ghost predicate Spanned(s: seq<byte>, i: nat, start: Option<nat>, span: (nat, nat)) {
    && start == Some(span.0) && span.0 + 1 < span.1 <= i
    && Bare(s, span.1 - 1, RBRACE) && NoBraces(s, span.0 + 1, span.1 - 1)
  }

  lemma {:induction false} AlwaysSound(s: seq<byte>, i: nat)
    requires i <= |s| && After(s, i).Some?
    ensures Sound(s, i, After(s, i).value)
  {
    if i > 0 {
      AlwaysSound(s, i - 1);
      SoundStep(s, i - 1, After(s, i - 1).value);
    }
  }

  lemma SoundStep(s: seq<byte>, i: nat, st: Shape)
    requires i < |s| && Sound(s, i, st) && Next(st, i, s[i]).Some?
    ensures Sound(s, i + 1, Next(st, i, s[i]).value)
  {
  }

  /** Any span starts at the only nested opening brace of the response and ends at the next
      brace, which closes it; and the response has no array at all. */
  lemma SpanIsSound(s: seq<byte>)
    requires AnswerOf(s).Found? && AnswerOf(s).span.Some?
    ensures var (a, e) := AnswerOf(s).span.value;
            && a + 1 < e <= |s|
            && InnerOpen(s, a) && (forall k | 0 <= k < |s| && InnerOpen(s, k) :: k == a)
            && Bare(s, e - 1, RBRACE) && (forall k | a < k < e - 1 :: !BraceAt(s, k))
            && (forall k | 0 <= k < |s| :: !BracketAt(s, k))
  {
    AlwaysSound(s, |s|);
  }

  /** Colons outside strings, at this level, in `p..i`: the members begun there. */
  function Members(s: seq<byte>, p: nat, i: nat, level: nat): nat
    requires p <= i <= |s|
  {
    if p == i then 0
    else Members(s, p, i - 1, level) + if Bare(s, i - 1, COLON) && Level(s, i - 1) == level then 1 else 0
  }

  /** No object closes below this level in `p..i`. */
  ghost predicate StaysIn(s: seq<byte>, p: nat, i: nat, level: nat)
    requires i <= |s|
  {
    forall k | p <= k <= i :: Level(s, k) >= level
  }

  /** The scan counts the members of the object it is in. */
  lemma {:induction false} CountsMembers(s: seq<byte>, p: nat, i: nat)
    requires p <= i <= |s| && After(s, i).Some?
    ensures After(s, p).Some? && After(s, i).value.outer <= 1 && After(s, i).value.inner <= MAX_FIELDS
    ensures StaysIn(s, p, i, 1) ==> After(s, i).value.outer == After(s, p).value.outer + Members(s, p, i, 1)
    ensures StaysIn(s, p, i, 2) ==> After(s, i).value.inner == After(s, p).value.inner + Members(s, p, i, 2)
    decreases i
  {
    hide Level; hide Lex; hide Sound;
    if After(s, p).None? { RefusedStays(s, p, i); }
    if i > 0 {
      AlwaysSound(s, i - 1);
      AlwaysSound(s, i);
      SoundMeans(s, i - 1, After(s, i - 1).value);
      SoundMeans(s, i, After(s, i).value);
      CountsMembers(s, if p < i then p else i - 1, i - 1);
    }
  }

  lemma SoundMeans(s: seq<byte>, i: nat, st: Shape)
    requires i <= |s| && Sound(s, i, st)
    ensures st.quoted == Lex(s, i).0 && st.depth == Level(s, i) <= 2
  {
  }

  /** A response that is not refused is within the size bound, closes no object it has not
      opened, nests objects at most once, has no second outer member and at most 16 inner ones. */
  lemma FoundIsBounded(s: seq<byte>, p: nat, i: nat)
    requires AnswerOf(s).Found? && p <= i <= |s|
    ensures |s| <= MAX_FRAME_BYTES && 0 <= Level(s, i) <= 2
    ensures StaysIn(s, p, i, 1) ==> Members(s, p, i, 1) <= 1
    ensures StaysIn(s, p, i, 2) ==> Members(s, p, i, 2) <= MAX_FIELDS
    ensures forall k | 0 <= k < |s| :: !BracketAt(s, k)
    ensures forall j, k | 0 <= j < |s| && 0 <= k < |s| && InnerOpen(s, j) && InnerOpen(s, k) :: j == k
  {
    hide Level; hide Lex;
    if After(s, i).None? { RefusedStays(s, i, |s|); }
    CountsMembers(s, p, i);
    AlwaysSound(s, i);
    AlwaysSound(s, |s|);
  }

  // ---- Exactness: the span of a well-formed row --------------------------------

  predicate IsScalar(v: Json) { v.Scalar? || v.Str? }

  predicate Flat(ms: Members) {
    IsScalar(ms.value) && (ms.MoreMembers? ==> Flat(ms.rest))
  }

  function Count(ms: Members): nat {
    1 + if ms.MoreMembers? then Count(ms.rest) else 0
  }

  /** A row object: empty, or with scalar members only. */
  predicate IsRow(v: Json) { v.EmptyObj? || (v.Obj? && Flat(v.members)) }

  function Fields(v: Json): nat
    requires IsRow(v)
  {
    if v.Obj? then Count(v.members) else 0
  }

  predicate Unquoted(s: seq<byte>, i: nat, st: Shape) {
    i <= |s| && After(s, i) == Some(st) && !st.quoted && !st.escaped
  }

  lemma {:induction false} PassPlain(s: seq<byte>, i: nat, t: seq<byte>, st: Shape)
    requires Unquoted(s, i, st) && Has(s, i, t)
    requires forall k | 0 <= k < |t| :: IsTokenByte(t[k]) || IsWs(t[k]) || t[k] == COMMA
    ensures Unquoted(s, i + |t|, st)
    decreases |t|
  {
    if t != [] {
      var n := |t| - 1;
      PassPlain(s, i, t[..n], st);
      assert s[i + n] == t[n];
    }
  }

  /** String content, whatever quotes, escapes and brackets it holds, never ends the string. */
  lemma {:induction false} PassItems(s: seq<byte>, i: nat, xs: StrItems, st: Shape)
    requires i <= |s| && After(s, i) == Some(st) && st.quoted && !st.escaped && Has(s, i, ItemsText(xs))
    ensures After(s, i + |ItemsText(xs)|) == Some(st)
    decreases |xs|
  {
    if xs != [] {
      var x := xs[0];
      HasConcat(s, i, ItemText(x), ItemsText(xs[1..]));
      assert ItemOk(x);
      assert s[i + 0] == ItemText(x)[0];
      if x.Escape? {
        assert s[i + 1] == ItemText(x)[1];
        assert After(s, i + 1) == Some(st.(escaped := true));
        assert After(s, i + 2) == Some(st);
      }
      PassItems(s, i + |ItemText(x)|, xs[1..], st);
    }
  }

  lemma PassString(s: seq<byte>, i: nat, xs: StrItems, st: Shape)
    requires Unquoted(s, i, st) && Has(s, i, StrText(xs))
    ensures Unquoted(s, i + |StrText(xs)|, st)
  {
    var body := ItemsText(xs);
    HasConcat(s, i, [QUOTE] + body, [QUOTE]);
    HasConcat(s, i, [QUOTE], body);
    HasByte(s, i, QUOTE);
    HasByte(s, i + 1 + |body|, QUOTE);
    PassItems(s, i + 1, xs, st.(quoted := true));
  }

  lemma PassScalar(s: seq<byte>, i: nat, v: Json, st: Shape)
    requires IsScalar(v) && Unquoted(s, i, st) && Has(s, i, Text(v))
    ensures Unquoted(s, i + |Text(v)|, st)
  {
    if v.Scalar? { PassPlain(s, i, v.token, st); } else { PassString(s, i, v.items, st); }
  }

  /** A member name, up to its value: one more member at this depth, or a refusal. */
  lemma PassName(s: seq<byte>, i: nat, key: StrItems, w1: Ws, w2: Ws, st: Shape)
    requires Unquoted(s, i, st) && 1 <= st.depth <= 2 && Has(s, i, StrText(key) + w1 + [COLON] + w2)
    ensures var to := i + |StrText(key) + w1 + [COLON] + w2|;
            && (st.depth == 1 && st.outer == 0 ==> Unquoted(s, to, st.(outer := 1)))
            && (st.depth == 2 && st.inner < MAX_FIELDS ==> Unquoted(s, to, st.(inner := st.inner + 1)))
            && (st.depth == 2 && st.inner >= MAX_FIELDS ==> After(s, to).None?)
  {
    var k := StrText(key);
    var colon := i + |k| + |w1|;
    HasConcat(s, i, k + w1 + [COLON], w2);
    HasConcat(s, i, k + w1, [COLON]);
    HasConcat(s, i, k, w1);
    HasByte(s, colon, COLON);
    PassString(s, i, key, st);
    PassPlain(s, i + |k|, w1, st);
    if st.depth == 1 && st.outer == 0 {
      PassPlain(s, colon + 1, w2, st.(outer := 1));
    } else if st.depth == 2 && st.inner < MAX_FIELDS {
      PassPlain(s, colon + 1, w2, st.(inner := st.inner + 1));
    } else if st.depth == 2 {
      assert After(s, colon + 1).None?;
      RefusedStays(s, colon + 1, colon + 1 + |w2|);
    }
  }

  /** The members of a row, refused exactly when there are too many. */
  lemma {:induction false} PassMembers(s: seq<byte>, i: nat, ms: Members, st: Shape)
    requires Flat(ms) && Unquoted(s, i, st) && st.depth == 2 && st.inner <= MAX_FIELDS && Has(s, i, MembersText(ms))
    ensures var to := i + |MembersText(ms)|;
            if st.inner + Count(ms) <= MAX_FIELDS then Unquoted(s, to, st.(inner := st.inner + Count(ms)))
            else After(s, to).None?
    decreases ms
  {
    hide Unquoted;
    var name := StrText(ms.key) + ms.beforeColon + [COLON] + ms.afterColon;
    var head := name + Text(ms.value) + ms.after;
    if ms.LastMember? {
      PassMember(s, i, ms, st);
    } else {
      HasConcat(s, i, head + [COMMA] + ms.before, MembersText(ms.rest));
      HasConcat(s, i, head + [COMMA], ms.before);
      HasConcat(s, i, head, [COMMA]);
      PassMember(s, i, ms, st);
      if st.inner < MAX_FIELDS {
        var more := st.(inner := st.inner + 1);
        PassPlain(s, i + |head|, [COMMA], more);
        PassPlain(s, i + |head| + 1, ms.before, more);
        PassMembers(s, i + |head| + 1 + |ms.before|, ms.rest, more);
      } else {
        RefusedStays(s, i + |head|, i + |MembersText(ms)|);
      }
    }
  }

  lemma PassMember(s: seq<byte>, i: nat, ms: Members, st: Shape)
    requires IsScalar(ms.value) && Unquoted(s, i, st) && st.depth == 2 && st.inner <= MAX_FIELDS
    requires Has(s, i, StrText(ms.key) + ms.beforeColon + [COLON] + ms.afterColon + Text(ms.value) + ms.after)
    ensures var to := i + |StrText(ms.key) + ms.beforeColon + [COLON] + ms.afterColon + Text(ms.value) + ms.after|;
            if st.inner < MAX_FIELDS then Unquoted(s, to, st.(inner := st.inner + 1)) else After(s, to).None?
  {
    hide Unquoted;
    var name := StrText(ms.key) + ms.beforeColon + [COLON] + ms.afterColon;
    HasConcat(s, i, name + Text(ms.value), ms.after);
    HasConcat(s, i, name, Text(ms.value));
    PassName(s, i, ms.key, ms.beforeColon, ms.afterColon, st);
    var at := i + |name|;
    if st.inner < MAX_FIELDS {
      var more := st.(inner := st.inner + 1);
      PassScalar(s, at, ms.value, more);
      PassPlain(s, at + |Text(ms.value)|, ms.after, more);
    } else {
      RefusedStays(s, at, at + |Text(ms.value)| + |ms.after|);
    }
  }

  /** A row object: its span is recorded, unless it has too many fields. */
  lemma PassRow(s: seq<byte>, i: nat, v: Json, st: Shape)
    requires IsRow(v) && Unquoted(s, i, st) && st.depth == 1 && st.start.None? && Has(s, i, Text(v))
    ensures var to := i + |Text(v)|;
            if Fields(v) <= MAX_FIELDS then
              Unquoted(s, to, st.(inner := Fields(v), start := Some(i), span := Some((i, to))))
            else After(s, to).None?
  {
    hide After; hide Unquoted;
    var open := st.(depth := 2, inner := 0, start := Some(i));
    if v.EmptyObj? {
      HasConcat(s, i, [LBRACE] + v.gap, [RBRACE]);
      HasConcat(s, i, [LBRACE], v.gap);
      HasByte(s, i, LBRACE);
      HasByte(s, i + 1 + |v.gap|, RBRACE);
      RowOpens(s, i, st);
      PassPlain(s, i + 1, v.gap, open);
      RowCloses(s, i + 1 + |v.gap|, open);
    } else {
      var members := MembersText(v.members);
      var at := i + 1 + |v.lead|;
      HasConcat(s, i, [LBRACE] + v.lead + members, [RBRACE]);
      HasConcat(s, i, [LBRACE] + v.lead, members);
      HasConcat(s, i, [LBRACE], v.lead);
      HasByte(s, i, LBRACE);
      HasByte(s, at + |members|, RBRACE);
      RowOpens(s, i, st);
      PassPlain(s, i + 1, v.lead, open);
      PassMembers(s, at, v.members, open);
      if Fields(v) <= MAX_FIELDS {
        RowCloses(s, at + |members|, open.(inner := Fields(v)));
      } else {
        RefusedStays(s, at + |members|, at + |members| + 1);
      }
    }
  }

  lemma RowOpens(s: seq<byte>, i: nat, st: Shape)
    requires Unquoted(s, i, st) && i < |s| && s[i] == LBRACE && st.depth == 1 && st.start.None?
    ensures Unquoted(s, i + 1, st.(depth := 2, inner := 0, start := Some(i)))
  {
  }

  lemma RowCloses(s: seq<byte>, i: nat, st: Shape)
    requires Unquoted(s, i, st) && i < |s| && s[i] == RBRACE && st.depth == 2 && st.start.Some?
    ensures Unquoted(s, i + 1, st.(depth := 1, span := Some((st.start.value, i + 1))))
  {
  }

  /** A response: an object with one member, with any whitespace. */
  function Envelope(before: Ws, lead: Ws, key: StrItems, w1: Ws, w2: Ws, v: Json, after: Ws, end: Ws): seq<byte> {
    before + [LBRACE] + lead + (StrText(key) + w1 + [COLON] + w2) + Text(v) + after + [RBRACE] + end
  }

  /** Up to the value of the only member. */
  lemma PassOpening(s: seq<byte>, before: Ws, lead: Ws, key: StrItems, w1: Ws, w2: Ws)
    requires Has(s, 0, before + [LBRACE] + lead + (StrText(key) + w1 + [COLON] + w2))
    ensures Unquoted(s, |before + [LBRACE] + lead + (StrText(key) + w1 + [COLON] + w2)|,
                     Shape(1, 1, 0, false, false, None, None))
  {
    hide After;
    var name := StrText(key) + w1 + [COLON] + w2;
    HasConcat(s, 0, before + [LBRACE] + lead, name);
    HasConcat(s, 0, before + [LBRACE], lead);
    HasConcat(s, 0, before, [LBRACE]);
    HasByte(s, |before|, LBRACE);
    Beginning(s);
    PassPlain(s, 0, before, FRESH);
    AfterOpen(s, |before|, FRESH);
    var inside := FRESH.(depth := 1);
    PassPlain(s, |before| + 1, lead, inside);
    PassName(s, |before| + 1 + |lead|, key, w1, w2, inside);
  }

  lemma Beginning(s: seq<byte>)
    ensures Unquoted(s, 0, FRESH)
  {
  }

  lemma AfterOpen(s: seq<byte>, i: nat, st: Shape)
    requires Unquoted(s, i, st) && i < |s| && s[i] == LBRACE && st.depth == 0
    ensures Unquoted(s, i + 1, st.(depth := 1, outer := 0))
  {
  }

  /** After the value: whitespace, the closing brace, whitespace. */
  lemma PassClosing(s: seq<byte>, i: nat, after: Ws, end: Ws, st: Shape)
    requires Unquoted(s, i, st) && st.depth == 1 && Has(s, i, after + [RBRACE] + end)
    ensures Unquoted(s, i + |after + [RBRACE] + end|, st.(depth := 0))
  {
    HasConcat(s, i, after + [RBRACE], end);
    HasConcat(s, i, after, [RBRACE]);
    HasByte(s, i + |after|, RBRACE);
    PassPlain(s, i, after, st);
    PassPlain(s, i + |after| + 1, end, st.(depth := 0));
  }

  lemma EnvelopeParts(before: Ws, lead: Ws, key: StrItems, w1: Ws, w2: Ws, v: Json, after: Ws, end: Ws)
    ensures var s := Envelope(before, lead, key, w1, w2, v, after, end);
            var opening := before + [LBRACE] + lead + (StrText(key) + w1 + [COLON] + w2);
            && Has(s, 0, opening) && Has(s, |opening|, Text(v))
            && Has(s, |opening| + |Text(v)|, after + [RBRACE] + end)
            && |s| == |opening| + |Text(v)| + |after + [RBRACE] + end|
  {
    var s := Envelope(before, lead, key, w1, w2, v, after, end);
    var opening := before + [LBRACE] + lead + (StrText(key) + w1 + [COLON] + w2);
    assert s == opening + Text(v) + (after + [RBRACE] + end);
    HasAll(s);
    HasConcat(s, 0, opening + Text(v), after + [RBRACE] + end);
    HasConcat(s, 0, opening, Text(v));
  }

  /** For a response whose only member is a row object, the span is exactly that object's
      text; the response is refused exactly when it is too long or has too many fields. */
  lemma RowSpanExact(before: Ws, lead: Ws, key: StrItems, w1: Ws, w2: Ws, v: Json, after: Ws, end: Ws)
    requires IsRow(v)
    ensures var s := Envelope(before, lead, key, w1, w2, v, after, end);
            var a := |before + [LBRACE] + lead + (StrText(key) + w1 + [COLON] + w2)|;
            && a + |Text(v)| <= |s| && s[a..a + |Text(v)|] == Text(v)
            && AnswerOf(s) == if |s| <= MAX_FRAME_BYTES && Fields(v) <= MAX_FIELDS
                              then Found(Some((a, a + |Text(v)|))) else Refused
  {
    hide After; hide Text; hide Fields;
    var s := Envelope(before, lead, key, w1, w2, v, after, end);
    var opening := before + [LBRACE] + lead + (StrText(key) + w1 + [COLON] + w2);
    var a := |opening|;
    EnvelopeParts(before, lead, key, w1, w2, v, after, end);
    PassOpening(s, before, lead, key, w1, w2);
    var st := Shape(1, 1, 0, false, false, None, None);
    PassRow(s, a, v, st);
    var to := a + |Text(v)|;
    assert s[a..to] == Text(v);
    if Fields(v) <= MAX_FIELDS {
      PassClosing(s, to, after, end, st.(inner := Fields(v), start := Some(a), span := Some((a, to))));
    } else {
      RefusedStays(s, to, |s|);
    }
  }

  /** A scalar member, `null` for a missing row among them, has no span. */
  lemma ScalarHasNoSpan(before: Ws, lead: Ws, key: StrItems, w1: Ws, w2: Ws, v: Json, after: Ws, end: Ws)
    requires IsScalar(v)
    ensures var s := Envelope(before, lead, key, w1, w2, v, after, end);
            AnswerOf(s) == if |s| <= MAX_FRAME_BYTES then Found(None) else Refused
  {
    hide After; hide Text;
    var s := Envelope(before, lead, key, w1, w2, v, after, end);
    var opening := before + [LBRACE] + lead + (StrText(key) + w1 + [COLON] + w2);
    EnvelopeParts(before, lead, key, w1, w2, v, after, end);
    PassOpening(s, before, lead, key, w1, w2);
    var st := Shape(1, 1, 0, false, false, None, None);
    PassScalar(s, |opening|, v, st);
    PassClosing(s, |opening| + |Text(v)|, after, end, st);
  }
}
