/**
  What the file replay reader has to agree with: walk the whole byte string
  record by record and turn each record into an outcome. Nothing here knows
  about read chunks, budgets, buffers or partially read records.
 */
module Framing {
  import opened Bytes

  /** How a record ends: at the first line feed, or (CSV with `multiline`) at the
      first line feed outside quotes. */
  datatype Framer = Framer(quote: byte, multiline: bool)

  predicate Toggles(f: Framer, b: byte) { f.multiline && b == f.quote }

  /** Quote state after one byte. */
  function QuoteStep(f: Framer, inQuote: bool, b: byte): bool {
    if Toggles(f, b) then !inQuote else inQuote
  }

  predicate Terminates(f: Framer, inQuote: bool, b: byte) {
    b == LF && !inQuote && !Toggles(f, b)
  }

  /** Quote state before byte `to` of a record that starts at `from`. */
  function QuoteAt(f: Framer, s: seq<byte>, from: nat, to: nat): bool
    requires from <= to <= |s|
  {
    if to == from then false else QuoteStep(f, QuoteAt(f, s, from, to - 1), s[to - 1])
  }

  /** Byte `k` terminates the record that starts at `from`, unless an earlier one does. */
  predicate EndsAt(f: Framer, s: seq<byte>, from: nat, k: nat)
    requires from <= k < |s|
  {
    Terminates(f, QuoteAt(f, s, from, k), s[k])
  }

  /** No byte in `from..to` terminates the record that starts at `from`. */
  ghost predicate OpenUntil(f: Framer, s: seq<byte>, from: nat, to: nat)
    requires from <= to <= |s|
  {
    forall k | from <= k < to :: !EndsAt(f, s, from, k)
  }

  function Search(f: Framer, s: seq<byte>, from: nat, at: nat): (k: nat)
    requires from <= at <= |s|
    requires OpenUntil(f, s, from, at)
    ensures at <= k <= |s|
    ensures OpenUntil(f, s, from, k)
    ensures k < |s| ==> EndsAt(f, s, from, k)
    decreases |s| - at
  {
    if at == |s| || EndsAt(f, s, from, at) then at else Search(f, s, from, at + 1)
  }

  /** Index of the terminator of the record that starts at `from`, or `|s|`. */
  function NextEnd(f: Framer, s: seq<byte>, from: nat): (k: nat)
    requires from <= |s|
    ensures from <= k <= |s|
    ensures OpenUntil(f, s, from, k)
    ensures k < |s| ==> EndsAt(f, s, from, k) && s[k] == LF
  {
    Search(f, s, from, from)
  }

  /** The first terminator is the only one with no terminator before it. */
  lemma NextEndIs(f: Framer, s: seq<byte>, from: nat, k: nat)
    requires from <= k <= |s|
    requires OpenUntil(f, s, from, k)
    requires k < |s| ==> EndsAt(f, s, from, k)
    ensures NextEnd(f, s, from) == k
  {
  }

  // ---- Growing the file ---------------------------------------------------

  lemma {:induction false} QuotePrefix(f: Framer, s: seq<byte>, t: seq<byte>, from: nat, to: nat)
    requires s <= t && from <= to <= |s|
    ensures QuoteAt(f, s, from, to) == QuoteAt(f, t, from, to)
  {
    if from < to { QuotePrefix(f, s, t, from, to - 1); }
  }

  /** A terminator found in a prefix is found in every longer file; a record still
      open at the end of the prefix stays open at least that long. */
  lemma NextEndPrefix(f: Framer, s: seq<byte>, t: seq<byte>, from: nat)
    requires s <= t && from <= |s|
    ensures NextEnd(f, s, from) < |s| ==> NextEnd(f, t, from) == NextEnd(f, s, from)
    ensures NextEnd(f, s, from) == |s| ==> NextEnd(f, t, from) >= |s|
  {
    forall k | from <= k <= |s| ensures QuoteAt(f, s, from, k) == QuoteAt(f, t, from, k) {
      QuotePrefix(f, s, t, from, k);
    }
    assert forall k | from <= k < |s| :: EndsAt(f, s, from, k) == EndsAt(f, t, from, k);
  }

  // ---- Cuts ---------------------------------------------------------------

  /** Offset `k` is `from` or the end of a record reached from it. */
  predicate Cut(f: Framer, s: seq<byte>, from: nat, k: nat)
    requires from <= |s|
    decreases |s| - from
  {
    from == k ||
    (var e := NextEnd(f, s, from); e < |s| && e < k && Cut(f, s, e + 1, k))
  }

  /** Without `multiline` the cuts are 0 and every offset just after a line feed. */
  lemma {:induction false} PlainCut(f: Framer, s: seq<byte>, from: nat, k: nat)
    requires !f.multiline && from <= k <= |s|
    ensures Cut(f, s, from, k) <==> k == from || s[k - 1] == LF
    decreases |s| - from
  {
    NeverQuoted(f, s, from);
    var e := NextEnd(f, s, from);
    if from < k && e < k {
      PlainCut(f, s, e + 1, k);
    } else if from < k {
      assert !EndsAt(f, s, from, k - 1);
    }
  }

  lemma NeverQuoted(f: Framer, s: seq<byte>, from: nat)
    requires !f.multiline && from <= |s|
    ensures forall k | from <= k <= |s| :: !QuoteAt(f, s, from, k)
  {
    forall k | from <= k <= |s| ensures !QuoteAt(f, s, from, k) { NeverQuotedAt(f, s, from, k); }
  }

  lemma {:induction false} NeverQuotedAt(f: Framer, s: seq<byte>, from: nat, k: nat)
    requires !f.multiline && from <= k <= |s|
    ensures !QuoteAt(f, s, from, k)
  {
    if from < k { NeverQuotedAt(f, s, from, k - 1); }
  }

  /** Whatever the dialect, a cut past the start follows a line feed. */
  lemma {:induction false} CutAfterFeed(f: Framer, s: seq<byte>, from: nat, k: nat)
    requires from <= |s| && Cut(f, s, from, k)
    ensures from <= k <= |s|
    ensures from < k ==> s[k - 1] == LF
    decreases |s| - from
  {
    if from != k { CutAfterFeed(f, s, NextEnd(f, s, from) + 1, k); }
  }

  /** One more record after a cut leads to a cut. */
  lemma {:induction false} CutSnoc(f: Framer, s: seq<byte>, from: nat, k: nat)
    requires from <= |s| && k <= |s| && Cut(f, s, from, k)
    requires NextEnd(f, s, k) < |s|
    ensures Cut(f, s, from, NextEnd(f, s, k) + 1)
    decreases |s| - from
  {
    if from != k {
      CutSnoc(f, s, NextEnd(f, s, from) + 1, k);
    }
  }

  /** No cut lies strictly inside a record. */
  lemma {:induction false} CutOrder(f: Framer, s: seq<byte>, from: nat, a: nat, b: nat)
    requires from <= |s| && Cut(f, s, from, a) && Cut(f, s, from, b) && a < b
    ensures a <= |s| && NextEnd(f, s, a) < b
    decreases |s| - from
  {
    if from != a { CutOrder(f, s, NextEnd(f, s, from) + 1, a, b); }
  }
}
