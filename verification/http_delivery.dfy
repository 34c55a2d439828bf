/**
  Request bodies of the HTTP sink: merging two encoded bodies in place is
  encoding the concatenated rows, within the size cap and the billed credit.
 */
module HttpDelivery {
  import opened Bytes
  import opened JsonText
  import R = HttpRecords

  const DELIVERY_OVERHEAD: nat := 512

  /** Row texts separated by commas. */
  function Joined(rows: seq<seq<byte>>): seq<byte> {
    if rows == [] then []
    else if |rows| == 1 then rows[0]
    else rows[0] + [COMMA] + Joined(rows[1..])
  }

  /** The JSON array of these row texts. */
  function JsonBody(rows: seq<seq<byte>>): seq<byte> { [LBRACKET] + Joined(rows) + [RBRACKET] }

  function Flat(records: seq<seq<byte>>): seq<byte> {
    if records == [] then [] else records[0] + Flat(records[1..])
  }

  /** A header followed by records (CSV), or records alone (no header, protobuf). */
  function ConcatBody(header: seq<byte>, records: seq<seq<byte>>): seq<byte> { header + Flat(records) }

  lemma {:induction false} JoinedConcat(a: seq<seq<byte>>, b: seq<seq<byte>>)
    ensures a == [] ==> Joined(a + b) == Joined(b)
    ensures b == [] ==> Joined(a + b) == Joined(a)
    ensures a != [] && b != [] ==> Joined(a + b) == Joined(a) + [COMMA] + Joined(b)
  {
    if a == [] {
      assert a + b == b;
    } else if b == [] {
      assert a + b == a;
    } else if |a| == 1 {
      assert (a + b)[1..] == b;
    } else {
      assert (a + b)[1..] == a[1..] + b;
      JoinedConcat(a[1..], b);
      assert Joined(a + b) == a[0] + [COMMA] + (Joined(a[1..]) + [COMMA] + Joined(b));
    }
  }

  lemma {:induction false} FlatConcat(a: seq<seq<byte>>, b: seq<seq<byte>>)
    ensures Flat(a + b) == Flat(a) + Flat(b)
  {
    if a == [] {
      assert a + b == b;
    } else {
      assert (a + b)[1..] == a[1..] + b;
      FlatConcat(a[1..], b);
    }
  }

  /** Values as array elements without whitespace. */
  function Packed(vs: seq<Json>): Elems
    requires vs != []
  {
    if |vs| == 1 then LastElem(vs[0], []) else MoreElems(vs[0], [], [], Packed(vs[1..]))
  }

  function Texts(vs: seq<Json>): seq<seq<byte>> {
    if vs == [] then [] else [Text(vs[0])] + Texts(vs[1..])
  }

  /** A body of JSON rows is the JSON array of these values. */
  lemma {:induction false} BodyIsArray(vs: seq<Json>)
    ensures JsonBody(Texts(vs)) == if vs == [] then Text(EmptyArr([])) else Text(Arr([], Packed(vs)))
  {
    if vs != [] { JoinedIsElems(vs); }
  }

  lemma {:induction false} JoinedIsElems(vs: seq<Json>)
    requires vs != []
    ensures Joined(Texts(vs)) == ElemsText(Packed(vs))
  {
    hide Text;
    if |vs| == 1 {
      assert vs[1..] == [] && Texts(vs) == [Text(vs[0])];
      assert Text(vs[0]) + [] == Text(vs[0]);
    } else {
      JoinedIsElems(vs[1..]);
      assert Texts(vs)[1..] == Texts(vs[1..]) && |Texts(vs[1..])| >= 1;
      var v, rest := Text(vs[0]), ElemsText(Packed(vs[1..]));
      assert v + [] + [COMMA] + [] + rest == v + [COMMA] + rest;
    }
  }

  /** A receiver that splits a body of rows gets exactly these rows. */
  lemma BodySplits(vs: seq<Json>)
    ensures var body := JsonBody(Texts(vs));
            var (spans, clean) := R.Spans(body, 0, R.Start);
            && clean && |spans| == |vs|
            && forall k | 0 <= k < |vs| ::
                 spans[k].0 <= spans[k].1 <= |body| && body[spans[k].0..spans[k].1] == Text(vs[k])
  {
    BodyIsArray(vs);
    if vs == [] {
      R.EmptyRoundTrip([], [], []);
      assert [] + Text(EmptyArr([])) + [] == Text(EmptyArr([]));
    } else {
      R.ArrayRoundTrip([], [], Packed(vs), []);
      assert [] + Text(Arr([], Packed(vs))) + [] == Text(Arr([], Packed(vs)));
      PackedValues(vs);
    }
  }

  lemma {:induction false} PackedValues(vs: seq<Json>)
    requires vs != []
    ensures R.Values(Packed(vs)) == vs
  {
    if |vs| > 1 { PackedValues(vs[1..]); }
  }

  /** Dropping one closing and one opening bracket, with a comma only between rows,
      concatenates arrays. */
  lemma MergeArrays(a: seq<seq<byte>>, b: seq<seq<byte>>)
    ensures var x, y := JsonBody(a), JsonBody(b);
            var comma := if a != [] && b != [] then [COMMA] else [];
            x[..|x| - 1] + comma + y[1..|y| - 1] + [RBRACKET] == JsonBody(a + b)
  {
    var x, y := JsonBody(a), JsonBody(b);
    assert x[..|x| - 1] == [LBRACKET] + Joined(a);
    assert y[1..|y| - 1] == Joined(b);
    JoinedConcat(a, b);
    if a == [] {
      assert Joined(a) == [];
    } else if b == [] {
      assert Joined(b) == [];
    }
  }

  /** Dropping the second header concatenates documents. */
  lemma MergeDocuments(h: seq<byte>, a: seq<seq<byte>>, g: seq<byte>, b: seq<seq<byte>>)
    ensures ConcatBody(h, a) + ConcatBody(g, b)[|g|..] == ConcatBody(h, a + b)
  {
    assert ConcatBody(g, b)[|g|..] == Flat(b);
    FlatConcat(a, b);
  }

  function NextPowerOfTwo(n: nat, from: nat): (p: nat)
    requires 0 < from
    ensures n <= p && from <= p && (p == from || p < 2 * n)
    decreases if n < from then 0 else n - from
  {
    if n <= from then from else NextPowerOfTwo(n, 2 * from)
  }

  class Outbox {
    var acked: nat
    var failed: nat
  }

  datatype Merge = Merged | Separate | Discard

  /** What the owner and the allocator answer when a buffer has to grow: the credit, the
      bytes beyond those asked for or a failure, and the credit for these. */
  datatype Memory = Memory(granted: bool, surplus: Option<nat>, regranted: bool)

  class Delivery {
    var bytes: seq<byte>
    /** Allocated size of the byte buffer. */
    var capacity: nat
    /** Bytes of credit held for it. */
    var lease: nat
    var rows: nat
    /** Batches whose receipts this delivery still has to settle. */
    var batches: nat
    const schema: nat
    const owner: nat
    /** Length of the leading header of a concatenating body; `None` for a JSON array. */
    const concatHeader: Option<nat>
    ghost const header: seq<byte>
    /** The encoded rows. */
    ghost var content: seq<seq<byte>>

    /** The body that encodes these rows. */
    ghost function Encoding(rows: seq<seq<byte>>): seq<byte> {
      if concatHeader.None? then JsonBody(rows) else ConcatBody(header, rows)
    }

    ghost predicate Encodes()
      reads `rows, `content, `bytes
    {
      && rows == |content| && bytes == Encoding(content)
      && (concatHeader.Some? ==> concatHeader.value == |header|)
    }

    ghost predicate Billed()
      reads `bytes, `capacity, `lease
    {
      |bytes| <= capacity && capacity + DELIVERY_OVERHEAD <= lease
    }

    /** `MemoryLease::grow_to`; whether more credit is granted is up to the owner. */
    method GrowLease(n: nat, granted: bool) returns (ok: bool)
      modifies this`lease
      ensures lease == (if ok && old(lease) < n then n else old(lease)) && (ok <==> n <= old(lease) || granted)
    {
      ok := n <= lease || granted;
      if ok && lease < n { lease := n; }
    }

    /** `Vec::try_reserve_exact`: room for `n` bytes and perhaps some more, or a failure. */
    method Reserve(n: nat, surplus: Option<nat>) returns (ok: bool)
      requires capacity < n
      modifies this`capacity
      ensures ok <==> surplus.Some?
      ensures capacity == if ok then n + surplus.value else old(capacity)
    {
      ok := surplus.Some?;
      if ok { capacity := n + surplus.value; }
    }

    /** Bill and allocate a larger buffer, before anything is copied into it. */
    method Grow(size: nat, cap: nat, memory: Memory) returns (r: Merge)
      requires Billed() && capacity < size <= cap
      modifies this`lease, this`capacity
      ensures !r.Discard? ==> Billed()
      ensures r.Merged? ==> size <= capacity
      ensures r.Separate? ==> !memory.granted || memory.surplus.None?
      ensures r.Discard? ==> memory.surplus.Some? && memory.surplus.value > 0 && !memory.regranted
    {
      var wanted := NextPowerOfTwo(size, 1);
      var target := if wanted < cap then wanted else cap;
      var billed := GrowLease(target + DELIVERY_OVERHEAD, memory.granted);
      if !billed { return Separate; }
      var reserved := Reserve(target, memory.surplus);
      if !reserved { return Separate; }
      if capacity > target {
        billed := GrowLease(capacity + DELIVERY_OVERHEAD, memory.regranted);
        if !billed { return Discard; }
      }
      return Merged;
    }

    /** The length of the merged body. */
    function MergedSize(next: Delivery): int
      reads `bytes, `rows, next`bytes, next`rows
    {
      var comma := if concatHeader.None? && rows > 0 && next.rows > 0 then 1 else 0;
      match next.concatHeader
      case Some(h) => |bytes| + |next.bytes| - h
      case None => |bytes| + |next.bytes| - 2 + comma
    }

    /** The two deliveries may share a request. */
    predicate Mergeable(next: Delivery, cap: nat, targetRows: nat)
      reads `bytes, `rows, next`bytes, next`rows
    {
      && MergedSize(next) <= cap && concatHeader == next.concatHeader && rows + next.rows <= targetRows
      && schema == next.schema && owner == next.owner
    }

    /** The rows of `next` go behind these, in place. */
    method Splice(next: Delivery, comma: bool)
      requires this != next && Encodes() && next.Encodes() && concatHeader == next.concatHeader
      requires comma == (concatHeader.None? && rows > 0 && next.rows > 0)
      modifies this`bytes
      ensures bytes == Encoding(content + next.content) && |bytes| == old(MergedSize(next))
    {
      hide Joined; hide Flat;
      if next.concatHeader.Some? {
        MergeDocuments(header, content, next.header, next.content);
        bytes := bytes + next.bytes[next.concatHeader.value..];
      } else {
        MergeArrays(content, next.content);
        bytes := bytes[..|bytes| - 1] + (if comma then [COMMA] else [])
                 + next.bytes[1..|next.bytes| - 1] + [RBRACKET];
      }
    }

    /** `merge`: on success this body encodes both row lists and settles both receipts;
        otherwise neither body and neither receipt has changed. Deliveries that may share a
        request are merged unless the buffer has to grow and the memory for it is refused. */
    method MergeWith(next: Delivery, cap: nat, targetRows: nat, memory: Memory) returns (r: Merge)
      requires this != next && Encodes() && Billed() && next.Encodes() && next.Billed()
      modifies `bytes, `capacity, `lease, `rows, `batches, `content, next`batches
      ensures Encodes() && (!r.Discard? ==> Billed())
      ensures r.Merged? ==>
                && content == old(content) + next.content && rows == old(rows) + next.rows
                && rows <= targetRows && |bytes| == old(MergedSize(next)) <= cap
                && batches == old(batches) + old(next.batches) && next.batches == 0
      ensures !r.Merged? ==>
                && bytes == old(bytes) && rows == old(rows) && content == old(content)
                && batches == old(batches) && next.batches == old(next.batches)
      ensures r.Merged? || r.Discard? ==> old(Mergeable(next, cap, targetRows))
      ensures schema != next.schema || owner != next.owner || concatHeader != next.concatHeader ==> r.Separate?
      ensures old(rows) + next.rows > targetRows ==> r.Separate?
      ensures r.Separate? && old(Mergeable(next, cap, targetRows)) ==>
                old(MergedSize(next)) > old(capacity) && (!memory.granted || memory.surplus.None?)
      ensures r.Discard? ==>
                && old(MergedSize(next)) > old(capacity)
                && memory.surplus.Some? && memory.surplus.value > 0 && !memory.regranted
    {
      hide Encoding;
      var comma := if concatHeader.None? && rows > 0 && next.rows > 0 then 1 else 0;
      var size := match next.concatHeader
                  case Some(h) => |bytes| + |next.bytes| - h
                  case None => |bytes| + |next.bytes| - 2 + comma;
      if size > cap || concatHeader != next.concatHeader || rows + next.rows > targetRows
         || schema != next.schema || owner != next.owner {
        return Separate;
      }
      if size > capacity {
        r := Grow(size, cap, memory);
        if !r.Merged? { return; }
      }
      Splice(next, comma == 1);
      rows := rows + next.rows;
      content := content + next.content;
      batches := batches + next.batches;
      next.batches := 0;
      r := Merged;
    }

    /** `Receipts::ack`. */
    method Ack(outbox: Outbox)
      modifies this`batches, outbox
      ensures batches == 0 && outbox.acked == old(outbox.acked) + old(batches) && outbox.failed == old(outbox.failed)
    {
      outbox.acked := outbox.acked + batches;
      batches := 0;
    }

    /** Dropping the receipts fails whatever was not acknowledged. */
    method Drop(outbox: Outbox)
      modifies outbox
      ensures outbox.failed == old(outbox.failed) + batches && outbox.acked == old(outbox.acked)
    {
      outbox.failed := outbox.failed + batches;
    }
  }

  /** A task that posts a delivery: each of its batches is settled exactly once. */
  method PostTask(d: Delivery, outbox: Outbox, accepted: bool)
    modifies d, outbox
    ensures outbox.acked == old(outbox.acked) + (if accepted then old(d.batches) else 0)
    ensures outbox.failed == old(outbox.failed) + (if accepted then 0 else old(d.batches))
  {
    d.bytes := [];
    if accepted { d.Ack(outbox); }
    d.Drop(outbox);
  }
}
