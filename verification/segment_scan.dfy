/**
  The file sink's directory and the restart scan over it, whatever order the
  directory is listed in.
 */
module SegmentScan {
  import opened Bytes

  const MAX_U64: nat := 0xFFFF_FFFF_FFFF_FFFF
  const MAX_MARKER_BYTES: nat := 1024

  datatype Config = Config(segmentBytes: nat, maxBytes: nat, maxFiles: nat, syncData: bool, marker: seq<byte>)

  predicate ValidConfig(c: Config) {
    && 1024 <= c.segmentBytes <= 64 * 1024 * 1024
    && c.segmentBytes <= c.maxBytes <= 1024 * 1024 * 1024 * 1024
    && 1 <= c.maxFiles <= 1024
  }

  /** A directory: the writer lock, the FORMAT marker, the segments by number, and the names
      that are none of these. */
  datatype Disk = Disk(lock: bool, format: Option<seq<byte>>, segments: map<nat, seq<byte>>, foreign: set<nat>)

  datatype Entry = Lock | Format(raw: seq<byte>) | Part(id: nat, content: seq<byte>) | Foreign(name: nat)

  predicate Has(disk: Disk, e: Entry) {
    match e
    case Lock => disk.lock
    case Format(raw) => disk.format == Some(raw)
    case Part(id, content) => id in disk.segments && disk.segments[id] == content
    case Foreign(name) => name in disk.foreign
  }

  /** `entries` lists the directory, each entry once, in some order. */
  ghost predicate Lists(entries: seq<Entry>, disk: Disk) {
    && (forall i, j | 0 <= i < j < |entries| :: entries[i] != entries[j])
    && (forall e :: e in entries <==> Has(disk, e))
  }

  /** Nothing, or bytes that end with a line feed: what the tail check accepts. */
  predicate Whole(content: seq<byte>) { content == [] || content[|content| - 1] == LF }

  predicate GoodPart(c: Config, checkTail: bool, id: nat, content: seq<byte>) {
    1 <= id < MAX_U64 && |content| <= c.segmentBytes && (checkTail ==> Whole(content))
  }

  // ---- Sizes of a set of segments --------------------------------------------

  ghost function Pick(m: map<nat, seq<byte>>): (id: nat)
    requires m != map[]
    ensures id in m
  {
    var id :| id in m;
    id
  }

  ghost function Total(m: map<nat, seq<byte>>): nat
    decreases |m|
  {
    if m == map[] then 0 else |m[Pick(m)]| + Total(m - {Pick(m)})
  }

  lemma {:induction false} TotalWithout(m: map<nat, seq<byte>>, id: nat)
    requires id in m
    ensures Total(m) == |m[id]| + Total(m - {id})
    decreases |m|
  {
    var p := Pick(m);
    if p != id {
      TotalWithout(m - {p}, id);
      TotalWithout(m - {id}, p);
      assert m - {p} - {id} == m - {id} - {p};
    }
  }

  /** Writing one segment moves the total by that segment's growth. */
  lemma TotalSet(m: map<nat, seq<byte>>, id: nat, content: seq<byte>)
    ensures Total(m[id := content]) == Total(m) - (if id in m then |m[id]| else 0) + |content|
  {
    TotalWithout(m[id := content], id);
    if id in m {
      TotalWithout(m, id);
      assert m[id := content] - {id} == m - {id};
    } else {
      assert m[id := content] - {id} == m;
    }
  }

  lemma {:induction false} TotalMonotone(a: map<nat, seq<byte>>, b: map<nat, seq<byte>>)
    requires forall id | id in a :: id in b && b[id] == a[id]
    ensures Total(a) <= Total(b) && |a| <= |b|
    decreases |a|
  {
    if a != map[] {
      var id := Pick(a);
      TotalMonotone(a - {id}, b - {id});
      TotalWithout(b, id);
    }
  }

  /** `next` is one past the largest number in use, or 1. */
  predicate IsNext(segments: map<nat, seq<byte>>, next: nat) {
    1 <= next && (forall id | id in segments :: id < next) && (next == 1 || next - 1 in segments)
  }

  // ---- The scan --------------------------------------------------------------

  datatype Census = Census(bytes: nat, files: nat, next: nat, marked: bool)

  ghost predicate Acceptable(disk: Disk, c: Config, checkTail: bool) {
    && disk.foreign == {}
    && (disk.format.Some? ==> |disk.format.value| <= MAX_MARKER_BYTES && disk.format.value == c.marker)
    && (disk.segments != map[] ==> disk.format.Some?)
    && |disk.segments| <= c.maxFiles
    && Total(disk.segments) <= c.maxBytes
    && (forall id | id in disk.segments :: GoodPart(c, checkTail, id, disk.segments[id]))
  }

  /** What the scan knows after some of the entries. */
  ghost predicate Counted(c: Config, checkTail: bool, seen: map<nat, seq<byte>>, n: Census) {
    && n.bytes == Total(seen) <= c.maxBytes
    && n.files == |seen| <= c.maxFiles
    && IsNext(seen, n.next)
    && (forall id | id in seen :: GoodPart(c, checkTail, id, seen[id]))
  }

  /** `seen` holds the segments, and nothing but them, among the first `i` entries; the
      other entries there are the lock and the marker. */
  ghost predicate Seen(entries: seq<Entry>, i: nat, seen: map<nat, seq<byte>>, locked: bool, marked: bool)
    requires i <= |entries|
  {
    && i == |seen| + (if locked then 1 else 0) + (if marked then 1 else 0)
    && (locked <==> exists k :: 0 <= k < i && entries[k].Lock?)
    && (marked <==> exists k :: 0 <= k < i && entries[k].Format?)
    && (forall id | id in seen :: exists k :: 0 <= k < i && entries[k] == Part(id, seen[id]))
    && (forall k | 0 <= k < i :: if entries[k].Part? then entries[k].id in seen else !entries[k].Foreign?)
  }

  /** Counting one more segment: the checks after it fail exactly when the directory can
      no longer be accepted. */
  method CountPart(c: Config, checkTail: bool, id: nat, content: seq<byte>, n: Census,
                   ghost seen: map<nat, seq<byte>>)
    returns (r: Option<Census>)
    requires ValidConfig(c) && Counted(c, checkTail, seen, n) && id !in seen
    ensures r.Some? <==>
              GoodPart(c, checkTail, id, content) && n.bytes + |content| <= c.maxBytes && n.files < c.maxFiles
    ensures r.Some? ==> Counted(c, checkTail, seen[id := content], r.value) && r.value.marked == n.marked
  {
    hide Counted;
    if id > MAX_U64 { return None; }
    if id == 0 { return None; }
    if id + 1 > MAX_U64 { return None; }
    var next := if id + 1 > n.next then id + 1 else n.next;
    var files, bytes := n.files + 1, n.bytes + |content|;
    if bytes > MAX_U64 { return None; }
    if |content| > c.segmentBytes || bytes > c.maxBytes || files > c.maxFiles { return None; }
    if checkTail && |content| > 0 && content[|content| - 1] != LF { return None; }
    r := Some(Census(bytes, files, next, n.marked));
    CountedMore(c, checkTail, seen, n, id, content);
  }

  lemma CountedMore(c: Config, checkTail: bool, seen: map<nat, seq<byte>>, n: Census, id: nat, content: seq<byte>)
    requires Counted(c, checkTail, seen, n) && id !in seen && GoodPart(c, checkTail, id, content)
    requires n.bytes + |content| <= c.maxBytes && n.files < c.maxFiles
    ensures Counted(c, checkTail, seen[id := content],
                    Census(n.bytes + |content|, n.files + 1, if id + 1 > n.next then id + 1 else n.next, n.marked))
  {
    hide Total; hide GoodPart;
    TotalSet(seen, id, content);
    CountSet(seen, id, content);
  }

  /** The scan succeeds exactly on acceptable directories, in any listing order, and then
      returns the directory's own totals. */
  method Scan(entries: seq<Entry>, c: Config, checkTail: bool, ghost disk: Disk)
    returns (r: Option<Census>)
    requires ValidConfig(c) && Lists(entries, disk)
    ensures r.Some? <==> Acceptable(disk, c, checkTail)
    ensures r.Some? ==> Counted(c, checkTail, disk.segments, r.value) && r.value.marked == disk.format.Some?
  {
    hide Total; hide IsNext; hide Lists; hide Has; hide GoodPart; hide Seen;
    var n := Census(0, 0, 1, false);
    NothingSeen(entries, c, checkTail);
    ghost var seen: map<nat, seq<byte>> := map[];
    ghost var locked := false;
    for i := 0 to |entries|
      invariant Seen(entries, i, seen, locked, n.marked) && Counted(c, checkTail, seen, n)
      invariant n.marked ==> disk.format == Some(c.marker) && |c.marker| <= MAX_MARKER_BYTES
    {
      var e := entries[i];
      SeenPart(entries, i, seen, locked, n.marked, disk);
      if i + 1 > c.maxFiles + 2 {
        return None;
      }
      match e {
        case Lock => locked := true;
        case Format(raw) =>
          if |raw| > MAX_MARKER_BYTES || raw != c.marker { return None; }
          n := n.(marked := true);
        case Part(id, content) =>
          var counted := CountPart(c, checkTail, id, content, n, seen);
          if counted.None? { return None; }
          n := counted.value;
          seen := seen[id := content];
        case Foreign(_) => return None;
      }
    }
    SeenAll(entries, seen, locked, n.marked, disk);
    if n.files > 0 && !n.marked { return None; }
    r := Some(n);
  }

  lemma NothingSeen(entries: seq<Entry>, c: Config, checkTail: bool)
    ensures Seen(entries, 0, map[], false, false) && Counted(c, checkTail, map[], Census(0, 0, 1, false))
  {
  }

  /** The segments seen are among the directory's, and the next entry is a new one. */
  lemma SeenPart(entries: seq<Entry>, i: nat, seen: map<nat, seq<byte>>, locked: bool, marked: bool, disk: Disk)
    requires Lists(entries, disk) && i < |entries| && Seen(entries, i, seen, locked, marked)
    ensures Has(disk, entries[i])
    ensures i == |seen| + (if locked then 1 else 0) + (if marked then 1 else 0)
    ensures var e := entries[i];
            && (e.Lock? ==> !locked && Seen(entries, i + 1, seen, true, marked))
            && (e.Format? ==> !marked && disk.format == Some(e.raw) && Seen(entries, i + 1, seen, locked, true))
            && (e.Part? ==>
                  && e.id !in seen && Seen(entries, i + 1, seen[e.id := e.content], locked, marked)
                  && Total(seen) + |e.content| <= Total(disk.segments) && |seen| < |disk.segments|)
            && (e.Foreign? ==> disk.foreign != {})
  {
    var e := entries[i];
    assert Has(disk, e);
    if e.Part? {
      SeenNewPart(entries, i, seen, locked, marked, disk);
    }
    forall k | 0 <= k < i ensures Has(disk, entries[k]) && entries[k] != e {}
  }

  lemma SeenNewPart(entries: seq<Entry>, i: nat, seen: map<nat, seq<byte>>, locked: bool, marked: bool, disk: Disk)
    requires Lists(entries, disk) && i < |entries| && Seen(entries, i, seen, locked, marked) && entries[i].Part?
    ensures var e := entries[i];
            && e.id !in seen && Seen(entries, i + 1, seen[e.id := e.content], locked, marked)
            && Total(seen) + |e.content| <= Total(disk.segments) && |seen| < |disk.segments|
  {
    hide Total;
    var e := entries[i];
    assert Has(disk, e);
    forall id | id in seen ensures Has(disk, Part(id, seen[id])) && Part(id, seen[id]) != e {
      assert Part(id, seen[id]) in entries;
    }
    TotalSet(seen, e.id, e.content);
    TotalMonotone(seen[e.id := e.content], disk.segments);
    assert e.id !in seen;
    SeenGrows(entries, i, seen, locked, marked);
  }

  lemma SeenGrows(entries: seq<Entry>, i: nat, seen: map<nat, seq<byte>>, locked: bool, marked: bool)
    requires i < |entries| && Seen(entries, i, seen, locked, marked) && entries[i].Part? && entries[i].id !in seen
    ensures Seen(entries, i + 1, seen[entries[i].id := entries[i].content], locked, marked)
  {
    var e := entries[i];
    var more := seen[e.id := e.content];
    CountSet(seen, e.id, e.content);
    Found(entries, i, seen);
  }

  lemma Found(entries: seq<Entry>, i: nat, seen: map<nat, seq<byte>>)
    requires i < |entries| && entries[i].Part? && entries[i].id !in seen
    requires forall id | id in seen :: exists k :: 0 <= k < i && entries[k] == Part(id, seen[id])
    ensures var more := seen[entries[i].id := entries[i].content];
            forall id | id in more :: exists k :: 0 <= k < i + 1 && entries[k] == Part(id, more[id])
  {
    var more := seen[entries[i].id := entries[i].content];
    forall id | id in more ensures exists k :: 0 <= k < i + 1 && entries[k] == Part(id, more[id]) {
      if id == entries[i].id {
        assert entries[i] == Part(id, more[id]);
      } else {
        var k :| 0 <= k < i && entries[k] == Part(id, seen[id]);
      }
    }
  }

  lemma CountSet(m: map<nat, seq<byte>>, id: nat, content: seq<byte>)
    requires id !in m
    ensures |m[id := content]| == |m| + 1
  {
    assert m[id := content].Keys == m.Keys + {id};
  }

  lemma SeenAll(entries: seq<Entry>, seen: map<nat, seq<byte>>, locked: bool, marked: bool, disk: Disk)
    requires Lists(entries, disk) && Seen(entries, |entries|, seen, locked, marked)
    ensures seen == disk.segments && disk.foreign == {}
    ensures |seen| > 0 <==> seen != map[]
    ensures marked <==> disk.format.Some?
  {
    forall id | id in seen ensures id in disk.segments && disk.segments[id] == seen[id] {
      assert Has(disk, Part(id, seen[id]));
    }
    forall id | id in disk.segments ensures id in seen {
      assert Has(disk, Part(id, disk.segments[id]));
    }
    if name :| name in disk.foreign {
      assert Has(disk, Foreign(name));
      assert false;
    }
    if disk.format.Some? {
      assert Has(disk, Format(disk.format.value));
    }
    forall k | 0 <= k < |entries| && entries[k].Format? ensures disk.format.Some? {
      assert Has(disk, entries[k]);
    }
  }
}
