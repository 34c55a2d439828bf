/**
  JSON texts (RFC 8259) as trees with their whitespace, and their bytes. Scalars
  are any run of bytes without structure, which covers every number and literal;
  string items are any unescaped byte or any escape pair.
 */
module JsonText {
  import opened Bytes

  predicate IsWs(b: byte) { b == SPACE || b == TAB || b == CR || b == LF }

  /** Bytes of numbers, `true`, `false` and `null`. */
  predicate IsTokenByte(b: byte) {
    !IsWs(b) && b != QUOTE && b != BACKSLASH && b != COMMA && b != COLON
    && b != LBRACE && b != RBRACE && b != LBRACKET && b != RBRACKET
  }

  type Ws = w: seq<byte> | forall i | 0 <= i < |w| :: IsWs(w[i])

  type Token = t: seq<byte> | t != [] && forall i | 0 <= i < |t| :: IsTokenByte(t[i]) witness [48]

  datatype StrItem = Plain(b: byte) | Escape(b: byte)

  predicate ItemOk(x: StrItem) { x.Plain? ==> x.b != QUOTE && x.b != BACKSLASH }

  type StrItems = xs: seq<StrItem> | forall i | 0 <= i < |xs| :: ItemOk(xs[i])

  datatype Json =
    | Scalar(token: Token)
    | Str(items: StrItems)
    | EmptyArr(gap: Ws)
    | Arr(lead: Ws, elems: Elems)
    | EmptyObj(gap: Ws)
    | Obj(lead: Ws, members: Members)

  /** Array elements, each with the whitespace around it; at least one. */
  datatype Elems =
    | LastElem(value: Json, after: Ws)
    | MoreElems(value: Json, after: Ws, before: Ws, rest: Elems)

  /** Object members, at least one. */
  datatype Members =
    | LastMember(key: StrItems, beforeColon: Ws, afterColon: Ws, value: Json, after: Ws)
    | MoreMembers(key: StrItems, beforeColon: Ws, afterColon: Ws, value: Json, after: Ws, before: Ws, rest: Members)

  function ItemText(x: StrItem): (t: seq<byte>)
    ensures t != []
  {
    match x
    case Plain(b) => [b]
    case Escape(b) => [BACKSLASH, b]
  }

  function ItemsText(xs: StrItems): seq<byte> {
    if xs == [] then [] else ItemText(xs[0]) + ItemsText(xs[1..])
  }

  function StrText(xs: StrItems): seq<byte> { [QUOTE] + ItemsText(xs) + [QUOTE] }

  function Text(v: Json): seq<byte> {
    match v
    case Scalar(token) => token
    case Str(items) => StrText(items)
    case EmptyArr(gap) => [LBRACKET] + gap + [RBRACKET]
    case Arr(lead, elems) => [LBRACKET] + lead + ElemsText(elems) + [RBRACKET]
    case EmptyObj(gap) => [LBRACE] + gap + [RBRACE]
    case Obj(lead, members) => [LBRACE] + lead + MembersText(members) + [RBRACE]
  }

  function ElemsText(es: Elems): seq<byte> {
    match es
    case LastElem(v, after) => Text(v) + after
    case MoreElems(v, after, before, rest) => Text(v) + after + [COMMA] + before + ElemsText(rest)
  }

  function MembersText(ms: Members): seq<byte> {
    match ms
    case LastMember(key, w1, w2, v, after) => StrText(key) + w1 + [COLON] + w2 + Text(v) + after
    case MoreMembers(key, w1, w2, v, after, before, rest) =>
      StrText(key) + w1 + [COLON] + w2 + Text(v) + after + [COMMA] + before + MembersText(rest)
  }

  /** `t` stands in `s` at offset `i`. */
  predicate Has(s: seq<byte>, i: nat, t: seq<byte>) {
    i + |t| <= |s| && forall k | 0 <= k < |t| :: s[i + k] == t[k]
  }

  lemma HasConcat(s: seq<byte>, i: nat, a: seq<byte>, b: seq<byte>)
    requires Has(s, i, a + b)
    ensures Has(s, i, a) && Has(s, i + |a|, b)
  {
    assert forall k | 0 <= k < |a| :: (a + b)[k] == a[k];
    assert forall k | 0 <= k < |b| :: (a + b)[|a| + k] == b[k];
    forall k | 0 <= k < |b| ensures s[i + |a| + k] == b[k] {
      assert s[i + (|a| + k)] == (a + b)[|a| + k];
    }
  }

  lemma HasJoin(s: seq<byte>, i: nat, a: seq<byte>, b: seq<byte>)
    requires Has(s, i, a) && Has(s, i + |a|, b)
    ensures Has(s, i, a + b)
  {
    forall k | 0 <= k < |a + b| ensures s[i + k] == (a + b)[k] {
      if k >= |a| { assert s[i + |a| + (k - |a|)] == b[k - |a|]; }
    }
  }

  lemma HasAll(s: seq<byte>)
    ensures Has(s, 0, s)
  {
  }

  lemma HasByte(s: seq<byte>, i: nat, b: byte)
    requires Has(s, i, [b])
    ensures i < |s| && s[i] == b
  {
    assert s[i + 0] == [b][0];
  }

  /** A value starts with a byte that is neither whitespace nor a separator or closer. */
  lemma FirstByte(v: Json)
    ensures Text(v) != []
    ensures var b := Text(v)[0];
            !IsWs(b) && b != COMMA && b != RBRACKET && b != RBRACE && b != BACKSLASH && b != COLON
  {
  }
}
