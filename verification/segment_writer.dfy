/**
  The file sink's segment writer: rotation, quotas and layout changes keep the
  in-memory counters equal to what a restart scan finds, and keep every accepted
  row, in order, in segments that never mix headers.
 */
module SegmentWriter {
  import opened Bytes
  import opened SegmentScan
  import F = Framing
  import O = Outcomes
  import P = PrintedLines

  /** A segment's header and the rows after it. */
  datatype Layout = Layout(header: seq<byte>, rows: seq<seq<byte>>)

  function Lines(rows: seq<seq<byte>>): seq<byte> {
    if rows == [] then [] else Lines(rows[..|rows| - 1]) + (rows[|rows| - 1] + [LF])
  }

  function Image(l: Layout): seq<byte> { l.header + Lines(l.rows) }

  /** The rows of a list of segments, read in order. */
  function RowsOf(layout: seq<Layout>): seq<seq<byte>> {
    if layout == [] then [] else RowsOf(layout[..|layout| - 1]) + layout[|layout| - 1].rows
  }

  /** Where a row goes: into the open segment, or into a new one that starts with the header. */
  function Placed(layout: seq<Layout>, open: bool, header: seq<byte>, row: seq<byte>): seq<Layout>
    requires open ==> layout != []
  {
    if open then
      var last := layout[|layout| - 1];
      layout[|layout| - 1 := last.(rows := last.rows + [row])]
    else layout + [Layout(header, [row])]
  }

  /** Reading all segments in order gives the rows in the order they were written. */
  lemma PlacedRows(layout: seq<Layout>, open: bool, header: seq<byte>, row: seq<byte>)
    requires open ==> layout != []
    ensures RowsOf(Placed(layout, open, header, row)) == RowsOf(layout) + [row]
  {
    var placed := Placed(layout, open, header, row);
    if open {
      assert placed[..|placed| - 1] == layout[..|layout| - 1];
    } else {
      assert placed[..|placed| - 1] == layout;
    }
  }

  lemma PlacedNew(layout: seq<Layout>, header: seq<byte>, row: seq<byte>)
    ensures Placed(layout + [Layout(header, [])], true, header, row) == Placed(layout, false, header, row)
  {
    var none: seq<seq<byte>> := [];
    assert none + [row] == [row];
  }

  /** How segments may change: only the open one gains rows, new ones start with the header. */
  ghost predicate Extends(was: seq<Layout>, open: bool, now: seq<Layout>, header: seq<byte>) {
    && |was| <= |now|
    && (forall i | 0 <= i < |was| :: now[i].header == was[i].header && was[i].rows <= now[i].rows)
    && (forall i | 0 <= i < |was| :: i < |was| - 1 || !open ==> now[i] == was[i])
    && (forall i | |was| <= i < |now| :: now[i].header == header)
  }

  lemma ExtendsSelf(layout: seq<Layout>, open: bool, header: seq<byte>)
    ensures Extends(layout, open, layout, header)
  {
  }

  lemma PlacedExtends(was: seq<Layout>, open: bool, now: seq<Layout>, more: bool, header: seq<byte>, row: seq<byte>)
    requires Extends(was, open, now, header) && (more ==> now != [])
    requires more && |now| == |was| ==> open
    ensures Extends(was, open, Placed(now, more, header, row), header)
    ensures |Placed(now, more, header, row)| == |was| ==> open
  {
  }

  lemma LinesSnoc(rows: seq<seq<byte>>, row: seq<byte>)
    ensures Lines(rows + [row]) == Lines(rows) + (row + [LF])
  {
    assert (rows + [row])[..|rows|] == rows;
  }

  lemma ImageSnoc(l: Layout, row: seq<byte>)
    ensures Image(l.(rows := l.rows + [row])) == Image(l) + (row + [LF])
  {
    LinesSnoc(l.rows, row);
  }

  // ---- Reading segments back -----------------------------------------------------

  function AsLines(rows: seq<seq<byte>>): seq<P.Line> {
    if rows == [] then [] else AsLines(rows[..|rows| - 1]) + [P.Line([P.Bare(rows[|rows| - 1])], false)]
  }

  /** Rows an NDJSON reader takes for one record each. */
  predicate Readable(cfg: O.Config, row: seq<byte>) {
    row != [] && LF !in row && row[|row| - 1] != CR && |row| <= cfg.maxRecord
  }

  lemma {:induction false} LinesArePrinted(f: F.Framer, rows: seq<seq<byte>>)
    ensures P.FileText(f, AsLines(rows)) == Lines(rows) && |AsLines(rows)| == |rows|
  {
    if rows != [] {
      var init, row := rows[..|rows| - 1], rows[|rows| - 1];
      LinesArePrinted(f, init);
      var l := P.Line([P.Bare(row)], false);
      P.FileTextSnoc(f, AsLines(init), l);
      assert l.pieces[1..] == [] && P.Content(f, l.pieces) == row + [] == row;
      assert row + [] + [LF] == row + [LF];
    }
  }

  lemma {:induction false} ReadableLines(cfg: O.Config, rows: seq<seq<byte>>, first: bool)
    requires cfg.kind.Json? && forall i | 0 <= i < |rows| :: Readable(cfg, rows[i])
    ensures P.LinesOk(O.FramerOf(cfg), AsLines(rows))
    ensures P.SaidAll(cfg, AsLines(rows), first) == Frames(rows)
  {
    if rows != [] {
      var init, row := rows[..|rows| - 1], rows[|rows| - 1];
      ReadableLines(cfg, init, first);
      var l := P.Line([P.Bare(row)], false);
      assert l.pieces[1..] == [] && P.Content(O.FramerOf(cfg), l.pieces) == row + [] == row;
      P.SaidSnoc(cfg, AsLines(init), l, first);
    }
  }

  function Frames(rows: seq<seq<byte>>): seq<O.Event> {
    if rows == [] then [] else Frames(rows[..|rows| - 1]) + [O.Frame(rows[|rows| - 1])]
  }

  /** The file source reads an NDJSON segment back as exactly the rows written to it. */
  lemma SegmentReadsBack(cfg: O.Config, rows: seq<seq<byte>>)
    requires cfg.kind.Json? && forall i | 0 <= i < |rows| :: Readable(cfg, rows[i])
    ensures O.Whole(cfg, Image(Layout([], rows))).events == Frames(rows)
  {
    hide O.Whole; hide P.FileText; hide P.SaidAll; hide Lines; hide Frames; hide AsLines;
    LinesArePrinted(O.FramerOf(cfg), rows);
    ReadableLines(cfg, rows, true);
    P.PrintedFile(cfg, AsLines(rows));
    assert [] + Lines(rows) == Lines(rows);
  }

  // ---- Torn tails ------------------------------------------------------------

  ghost predicate NoLineFeeds(rows: seq<seq<byte>>) {
    forall i | 0 <= i < |rows| :: LF !in rows[i]
  }

  /** Whatever the crash point, rows without raw line feeds pass the tail check exactly when
      the segment holds a whole number of them. */
  lemma {:induction false} TornTail(rows: seq<seq<byte>>, k: nat)
    requires NoLineFeeds(rows) && k <= |Lines(rows)|
    ensures Whole(Lines(rows)[..k]) <==> exists j :: 0 <= j <= |rows| && k == |Lines(rows[..j])|
    ensures forall j | 0 <= j <= |rows| && k == |Lines(rows[..j])| :: Lines(rows)[..k] == Lines(rows[..j])
  {
    if rows == [] {
      assert rows[..0] == [];
    } else {
      var init, row := rows[..|rows| - 1], rows[|rows| - 1];
      var line := row + [LF];
      assert Lines(rows) == Lines(init) + line;
      assert rows[..|rows|] == rows;
      forall j | 0 <= j <= |init| ensures rows[..j] == init[..j] {}
      forall j | 0 <= j <= |init| ensures |Lines(rows[..j])| <= |Lines(init)| { LinesShorter(init, j); }
      if k <= |Lines(init)| {
        TornTail(init, k);
        assert Lines(rows)[..k] == Lines(init)[..k];
      } else {
        assert Lines(rows)[..k][k - 1] == line[k - 1 - |Lines(init)|];
        assert k < |Lines(rows)| ==> line[k - 1 - |Lines(init)|] == row[k - 1 - |Lines(init)|];
      }
    }
  }

  lemma {:induction false} LinesShorter(rows: seq<seq<byte>>, j: nat)
    requires j <= |rows|
    ensures |Lines(rows[..j])| <= |Lines(rows)|
  {
    if j < |rows| {
      assert rows[..|rows| - 1][..j] == rows[..j];
      LinesShorter(rows[..|rows| - 1], j);
    } else {
      assert rows[..j] == rows;
    }
  }

  /** The tail check accepts a segment cut at `k` exactly when whole rows precede the cut. */
  ghost predicate TailToldAt(rows: seq<seq<byte>>, k: nat)
    requires k <= |Lines(rows)|
  {
    Whole(Lines(rows)[..k]) <==> exists j :: 0 <= j <= |rows| && k == |Lines(rows[..j])|
  }

  /** The tail check tells a torn segment from a whole one at every crash point exactly for
      rows without raw line feeds; a quoted CSV field may hold one. */
  lemma TailToldExactly(rows: seq<seq<byte>>)
    ensures (forall k: nat | k <= |Lines(rows)| :: TailToldAt(rows, k)) <==> NoLineFeeds(rows)
  {
    if NoLineFeeds(rows) {
      forall k: nat | k <= |Lines(rows)| ensures TailToldAt(rows, k) {
        TornTail(rows, k);
      }
    } else {
      var i :| 0 <= i < |rows| && LF in rows[i];
      var n :| 0 <= n < |rows[i]| && rows[i][n] == LF;
      TornUnnoticed(rows, i, n);
    }
  }

  /** Cutting right after a line feed inside row `i` tears that row and passes the check. */
  lemma TornUnnoticed(rows: seq<seq<byte>>, i: nat, n: nat)
    requires i < |rows| && n < |rows[i]| && rows[i][n] == LF
    ensures var k := |Lines(rows[..i])| + n + 1;
            && k <= |Lines(rows)| && Whole(Lines(rows)[..k])
            && !(exists j :: 0 <= j <= |rows| && k == |Lines(rows[..j])|)
            && !TailToldAt(rows, k)
  {
    var before := Lines(rows[..i]);
    var k := |before| + n + 1;
    LinesAt(rows, i);
    assert Lines(rows)[k - 1] == LF;
    forall j | 0 <= j <= |rows| ensures k != |Lines(rows[..j])| {
      if j <= i {
        assert rows[..i][..j] == rows[..j];
        LinesShorter(rows[..i], j);
      } else {
        assert rows[..j][..i + 1] == rows[..i + 1];
        LinesShorter(rows[..j], i + 1);
      }
    }
  }

  /** Row `i` stands in the segment behind the lines of the rows before it. */
  lemma {:induction false} LinesAt(rows: seq<seq<byte>>, i: nat)
    requires i < |rows|
    ensures Lines(rows[..i + 1]) == Lines(rows[..i]) + (rows[i] + [LF])
    ensures Lines(rows[..i + 1]) <= Lines(rows)
  {
    assert rows[..i + 1] == rows[..i] + [rows[i]];
    LinesSnoc(rows[..i], rows[i]);
    if i + 1 == |rows| {
      assert rows[..i + 1] == rows;
    } else {
      var init := rows[..|rows| - 1];
      assert init[..i + 1] == rows[..i + 1];
      LinesAt(init, i);
    }
  }

  // ---- The directory as the writer knows it ----------------------------------

  /** The directory holds the segments found at opening, unchanged, and after them one
      segment per layout. */
  ghost predicate Stored(segments: map<nat, seq<byte>>, before: map<nat, seq<byte>>, base: nat,
                         layout: seq<Layout>)
  {
    && (forall id | id in before :: id < base && id in segments && segments[id] == before[id])
    && (forall id | base <= id < base + |layout| :: id in segments && segments[id] == Image(layout[id - base]))
    && (forall id | id in segments :: id in before || base <= id < base + |layout|)
  }

  lemma StoredNew(segments: map<nat, seq<byte>>, before: map<nat, seq<byte>>, base: nat,
                  layout: seq<Layout>, header: seq<byte>)
    requires Stored(segments, before, base, layout)
    ensures base + |layout| !in segments
    ensures Stored(segments[base + |layout| := header], before, base, layout + [Layout(header, [])])
  {
    hide Image;
    assert Image(Layout(header, [])) == header by { EmptyImage(header); }
  }

  lemma EmptyImage(header: seq<byte>)
    ensures Image(Layout(header, [])) == header
  {
  }

  lemma StoredRow(segments: map<nat, seq<byte>>, before: map<nat, seq<byte>>, base: nat,
                  layout: seq<Layout>, row: seq<byte>)
    requires Stored(segments, before, base, layout) && layout != []
    ensures var id := base + |layout| - 1;
            Stored(segments[id := segments[id] + (row + [LF])], before, base, Placed(layout, true, [], row))
  {
    hide Image;
    ImageSnoc(layout[|layout| - 1], row);
  }

  /** The counters and the layouts both describe the directory. */
  ghost predicate Agrees(c: Config, segments: map<nat, seq<byte>>, n: Census, before: map<nat, seq<byte>>,
                         base: nat, layout: seq<Layout>)
  {
    Counted(c, true, segments, n) && n.next == base + |layout| && Stored(segments, before, base, layout)
  }

  lemma AgreesMeans(c: Config, segments: map<nat, seq<byte>>, n: Census, before: map<nat, seq<byte>>,
                    base: nat, layout: seq<Layout>)
    requires Agrees(c, segments, n, before, base, layout)
    ensures Counted(c, true, segments, n) && n.next !in segments && 1 <= n.next
    ensures layout != [] ==> n.next - 1 in segments && segments[n.next - 1] == Image(layout[|layout| - 1])
  {
    hide Image;
  }

  lemma AgreesNew(c: Config, segments: map<nat, seq<byte>>, n: Census, before: map<nat, seq<byte>>,
                  base: nat, layout: seq<Layout>, header: seq<byte>)
    requires Agrees(c, segments, n, before, base, layout) && Whole(header)
    requires n.files < c.maxFiles && n.next < MAX_U64
    requires |header| <= c.segmentBytes && n.bytes + |header| <= c.maxBytes
    ensures n.next !in segments
    ensures Agrees(c, segments[n.next := header], Census(n.bytes + |header|, n.files + 1, n.next + 1, n.marked),
                   before, base, layout + [Layout(header, [])])
  {
    hide Total; hide Stored;
    StoredNew(segments, before, base, layout, header);
    TotalSet(segments, n.next, header);
    CountSet(segments, n.next, header);
  }

  lemma AgreesRow(c: Config, segments: map<nat, seq<byte>>, n: Census, before: map<nat, seq<byte>>,
                  base: nat, layout: seq<Layout>, row: seq<byte>)
    requires Agrees(c, segments, n, before, base, layout) && layout != []
    requires |Image(layout[|layout| - 1])| + |row| + 1 <= c.segmentBytes && n.bytes + |row| + 1 <= c.maxBytes
    ensures n.next - 1 in segments
    ensures Agrees(c, segments[n.next - 1 := segments[n.next - 1] + (row + [LF])], n.(bytes := n.bytes + |row| + 1),
                   before, base, Placed(layout, true, [], row))
  {
    hide Total; hide Image;
    var id := n.next - 1;
    assert id in segments && segments[id] == Image(layout[|layout| - 1]);
    StoredRow(segments, before, base, layout, row);
    GrownPart(c, segments, n, row);
  }

  lemma GrownPart(c: Config, segments: map<nat, seq<byte>>, n: Census, row: seq<byte>)
    requires Counted(c, true, segments, n) && n.next != 1
    requires |segments[n.next - 1]| + |row| + 1 <= c.segmentBytes && n.bytes + |row| + 1 <= c.maxBytes
    ensures Counted(c, true, segments[n.next - 1 := segments[n.next - 1] + (row + [LF])],
                    n.(bytes := n.bytes + |row| + 1))
  {
    hide Total;
    var id := n.next - 1;
    var grown := segments[id := segments[id] + (row + [LF])];
    TotalSet(segments, id, grown[id]);
    assert grown.Keys == segments.Keys;
    assert |grown| == |grown.Keys| && |segments| == |segments.Keys|;
    assert Whole(grown[id]);
  }

  /** Writing `data` after `segments[id]` got some way. */
  ghost predicate Partly(was: map<nat, seq<byte>>, now: map<nat, seq<byte>>, id: nat, data: seq<byte>) {
    now == was || exists n :: 0 <= n <= |data| && now == was[id := ContentAt(was, id) + data[..n]]
  }

  function ContentAt(segments: map<nat, seq<byte>>, id: nat): seq<byte> {
    if id in segments then segments[id] else []
  }

  /** After a failed NDJSON row write, in an open or in a new segment, the tail check accepts
      the segment exactly when the row is entirely absent or entirely there. */
  lemma TornRow(was: map<nat, seq<byte>>, now: map<nat, seq<byte>>, id: nat, row: seq<byte>)
    requires Partly(was, now, id, row + [LF]) && LF !in row && Whole(ContentAt(was, id))
    ensures var a, b := ContentAt(was, id), ContentAt(now, id);
            Whole(b) <==> b == a || b == a + row + [LF]
    ensures forall other | other != id ::
              (other in was <==> other in now) && ContentAt(now, other) == ContentAt(was, other)
  {
    if now != was {
      var line := row + [LF];
      var n :| 0 <= n <= |line| && now == was[id := ContentAt(was, id) + line[..n]];
      if 0 < n {
        assert now[id][|now[id]| - 1] == line[n - 1];
        assert n == |line| ==> line[..n] == line;
      } else {
        assert now[id] == ContentAt(was, id);
      }
    }
  }

  /** A write that stopped part way keeps the quotas, and only the tail of the segment it
      went to can keep a restart from accepting the directory. */
  lemma FailedWrite(c: Config, was: Disk, n: Census, now: Disk, id: nat, data: seq<byte>)
    requires Counted(c, true, was.segments, n) && was.foreign == {} && was.format == Some(c.marker)
    requires now == was.(segments := now.segments) && Partly(was.segments, now.segments, id, data)
    requires now != was ==>
               && |ContentAt(was.segments, id)| + |data| <= c.segmentBytes && n.bytes + |data| <= c.maxBytes
               && (id in was.segments || (1 <= id < MAX_U64 && n.files < c.maxFiles))
    ensures Acceptable(now, c, true) <==>
              |c.marker| <= MAX_MARKER_BYTES && Whole(ContentAt(now.segments, id))
  {
    hide Total;
    if now.segments != was.segments {
      var k :| 0 <= k <= |data| && now.segments == was.segments[id := ContentAt(was.segments, id) + data[..k]];
      var grown := ContentAt(was.segments, id) + data[..k];
      TotalSet(was.segments, id, grown);
      if id in was.segments {
        assert now.segments.Keys == was.segments.Keys;
        assert |now.segments| == |now.segments.Keys| == |was.segments|;
      } else {
        CountSet(was.segments, id, grown);
      }
      assert GoodPart(c, false, id, grown);
      forall other | other in now.segments && other != id
        ensures GoodPart(c, true, other, now.segments[other])
      {
        assert other in was.segments;
      }
    }
  }

  ghost predicate AllWhole(segments: map<nat, seq<byte>>) {
    forall id | id in segments :: Whole(segments[id])
  }

  lemma OnlyTouched(disk: Disk, c: Config, id: nat)
    requires Acceptable(disk, c, true) <==> |c.marker| <= MAX_MARKER_BYTES && Whole(ContentAt(disk.segments, id))
    ensures AllWhole(disk.segments) && |c.marker| <= MAX_MARKER_BYTES ==> Acceptable(disk, c, true)
    ensures Acceptable(disk, c, true) ==> AllWhole(disk.segments) && |c.marker| <= MAX_MARKER_BYTES
  {
  }

  datatype Outcome = Written | Refused | Failed

  datatype BatchEnd = Done | NoRoom | Stopped | BatchFailed

  class Writer {
    const config: Config
    /** The system's answers to the writes and flushes, in order: success, or a failure after
        some bytes. */
    const system: nat -> Option<nat>
    var calls: nat
    var disk: Disk
    /** A segment is open for writing; it is number `next - 1`. */
    var file: bool
    var bytes: nat
    var currentBytes: nat
    var files: nat
    var next: nat
    var header: seq<byte>

    ghost const before: map<nat, seq<byte>>
    ghost const base: nat
    /** The segments this writer created. */
    ghost var layout: seq<Layout>

    ghost predicate Valid()
      reads `disk, `file, `bytes, `currentBytes, `files, `next, `header, `layout
    {
      && ValidConfig(config) && Whole(header)
      && disk.foreign == {} && disk.format == Some(config.marker)
      && Agrees(config, disk.segments, Census(bytes, files, next, true), before, base, layout)
      && (file ==> layout != [] && layout[|layout| - 1].header == header
                   && currentBytes == |Image(layout[|layout| - 1])|)
    }

    constructor (disk: Disk, config: Config, census: Census, system: nat -> Option<nat>)
      requires ValidConfig(config) && disk.foreign == {} && disk.format == Some(config.marker)
      requires Counted(config, true, disk.segments, census)
      ensures Valid() && this.config == config && this.disk == disk && !file && layout == []
      ensures before == disk.segments && bytes == census.bytes && files == census.files && next == census.next
    {
      this.disk, this.config, this.system, calls := disk, config, system, 0;
      file, bytes, currentBytes, files, next, header := false, census.bytes, 0, census.files, census.next, [];
      before, base, layout := disk.segments, census.next, [];
    }

    /** Opening succeeds exactly on acceptable directories whose lock is free. */
    static method Open(disk: Disk, config: Config, lockFree: bool, first: seq<Entry>, second: seq<Entry>,
                       system: nat -> Option<nat>)
      returns (w: Writer?)
      requires Lists(first, disk) && Lists(second, disk.(lock := true))
      ensures w != null <==> ValidConfig(config) && Acceptable(disk, config, true) && lockFree
      ensures w != null ==>
                && disk.foreign == {} && (disk.format.Some? ==> disk.format.value == config.marker)
                && (disk.segments != map[] ==> disk.format.Some?)
                && |disk.segments| <= config.maxFiles && Total(disk.segments) <= config.maxBytes
                && (forall id | id in disk.segments ::
                      && 1 <= id < MAX_U64 && |disk.segments[id]| <= config.segmentBytes
                      && (disk.segments[id] != [] ==> disk.segments[id][|disk.segments[id]| - 1] == LF))
      ensures w != null ==>
                && fresh(w) && w.Valid() && w.config == config && !w.file && w.layout == []
                && w.disk == disk.(lock := true, format := Some(config.marker))
    {
      if !ValidConfig(config) { return null; }
      var foreign := Scan(first, config, false, disk);
      if foreign.None? || !lockFree { return null; }
      var census := Scan(second, config, true, disk.(lock := true));
      if census.None? { return null; }
      w := new Writer(disk.(lock := true, format := Some(config.marker)), config, census.value, system);
    }

    ghost predicate Fits(row: seq<byte>)
      reads `file, `currentBytes
    {
      file && currentBytes + |row| + 1 <= config.segmentBytes
    }

    /** There is room for the row, and for the header and a new segment if it needs one. */
    ghost predicate Room(row: seq<byte>)
      reads `file, `bytes, `currentBytes, `files, `next, `header
    {
      var cost := |row| + 1 + if Fits(row) then 0 else |header|;
      && cost <= config.segmentBytes
      && bytes + cost <= config.maxBytes
      && (Fits(row) || (files < config.maxFiles && next < MAX_U64))
    }

    /** Fitting and room are facts about the directory: the open segment's size, the total,
        and the number of segments. */
    lemma RoomOnDisk(row: seq<byte>)
      requires Valid()
      ensures file ==> next - 1 in disk.segments
      ensures Fits(row) <==> file && |disk.segments[next - 1]| + |row| + 1 <= config.segmentBytes
      ensures Room(row) <==>
                var cost := |row| + 1 + if Fits(row) then 0 else |header|;
                && cost <= config.segmentBytes && Total(disk.segments) + cost <= config.maxBytes
                && (Fits(row) || (|disk.segments| < config.maxFiles && next < MAX_U64))
    {
      hide Image; hide Total;
      AgreesMeans(config, disk.segments, Census(bytes, files, next, true), before, base, layout);
    }

    /** No call between these two failed. */
    ghost predicate Clear(a: nat, b: nat) {
      forall i | a <= i < b :: system(i).None?
    }

    lemma ClearThen(a: nat, b: nat, c: nat)
      requires a <= b <= c
      ensures Clear(a, c) <==> Clear(a, b) && Clear(b, c)
    {
    }

    /** Writing to the open segment may stop part way. */
    method Write(data: seq<byte>) returns (ok: bool)
      requires 1 <= next && next - 1 in disk.segments
      modifies `disk, `calls
      ensures disk == old(disk).(segments := disk.segments)
      ensures Partly(old(disk.segments), disk.segments, next - 1, data)
      ensures ok ==> disk.segments == old(disk.segments)[next - 1 := old(disk.segments[next - 1]) + data]
      ensures old(calls) <= calls && (ok <==> Clear(old(calls), calls))
    {
      var n := |data|;
      if system(calls).Some? && system(calls).value < n { n := system(calls).value; }
      ok := system(calls).None?;
      calls := calls + 1;
      disk := disk.(segments := disk.segments[next - 1 := disk.segments[next - 1] + data[..n]]);
      assert ok ==> data[..n] == data;
    }

    /** Without an open segment there is nothing to flush. */
    method Flush() returns (ok: bool)
      modifies `calls
      ensures old(calls) <= calls && (ok <==> Clear(old(calls), calls)) && (!file ==> ok)
    {
      ok := true;
      if file {
        ok := system(calls).None?;
        calls := calls + 1;
      }
    }

    /** Creating a segment may fail, and so may the sync of the directory behind it, which
        leaves an empty segment. */
    method CreateSegment() returns (ok: bool)
      modifies `disk, `file, `currentBytes, `files, `next, `calls
      ensures old(calls) <= calls && (ok <==> Clear(old(calls), calls))
      ensures ok ==>
                && disk == old(disk).(segments := old(disk.segments)[old(next) := []])
                && file && next == old(next) + 1 && files == old(files) + 1 && currentBytes == 0
      ensures !ok ==>
                && (disk == old(disk) || disk == old(disk).(segments := old(disk.segments)[old(next) := []]))
                && next == old(next)
    {
      ok := system(calls).None?;
      calls := calls + 1;
      if !ok { return; }
      disk := disk.(segments := disk.segments[next := []]);
      if config.syncData {
        ok := system(calls).None?;
        calls := calls + 1;
        if !ok { return; }
      }
      file, next, files, currentBytes := true, next + 1, files + 1, 0;
    }

    /** A new segment, with its header; or the header write failed. */
    method Rotate() returns (ok: bool)
      requires Valid() && files < config.maxFiles && next < MAX_U64
      requires |header| <= config.segmentBytes && bytes + |header| <= config.maxBytes
      modifies `disk, `file, `bytes, `currentBytes, `files, `next, `layout, `calls
      ensures old(next) !in old(disk.segments)
      ensures old(calls) <= calls && (ok <==> Clear(old(calls), calls))
      ensures ok ==>
                && Valid() && file && next == old(next) + 1 && files == old(files) + 1
                && bytes == old(bytes) + |header| && currentBytes == |header|
                && layout == old(layout) + [Layout(header, [])]
                && disk.segments == old(disk.segments)[old(next) := header]
      ensures !ok ==> Partly(old(disk.segments), disk.segments, old(next), header)
      ensures disk == old(disk).(segments := disk.segments)
    {
      hide Agrees; hide Partly; hide Image; hide Clear; hide Whole;
      ghost var segments := disk.segments;
      AgreesNew(config, segments, Census(bytes, files, next, true), before, base, layout, header);
      EmptyImage(header);
      ok := CreateSegment();
      if !ok {
        PartlyCreated(segments, disk.segments, next, header);
        return;
      }
      ghost var created := calls;
      ok := WriteHeader();
      ClearThen(old(calls), created, calls);
      PartlyNew(segments, disk.segments, next - 1, header);
      Overwritten(segments, next - 1, header);
      if ok { layout := layout + [Layout(header, [])]; }
    }

    /** The header goes first into an empty segment. */
    method WriteHeader() returns (ok: bool)
      requires 1 <= next && next - 1 in disk.segments && disk.segments[next - 1] == []
      modifies `disk, `bytes, `currentBytes, `calls
      ensures old(calls) <= calls && (ok <==> Clear(old(calls), calls))
      ensures disk == old(disk).(segments := disk.segments)
      ensures Partly(old(disk.segments), disk.segments, next - 1, header)
      ensures ok ==>
                && disk.segments == old(disk.segments)[next - 1 := header]
                && bytes == old(bytes) + |header| && currentBytes == old(currentBytes) + |header|
    {
      ok := true;
      if |header| > 0 {
        assert [] + header == header;
        ok := Write(header);
        if !ok { return; }
        currentBytes, bytes := currentBytes + |header|, bytes + |header|;
      } else {
        assert disk.segments[next - 1 := header] == disk.segments;
      }
    }

    /** A row that fits the open segment goes after its other rows; or its write failed. */
    method Append(row: seq<byte>) returns (ok: bool)
      requires Valid() && Fits(row) && bytes + |row| + 1 <= config.maxBytes
      modifies `disk, `bytes, `currentBytes, `layout, `calls
      ensures old(calls) <= calls && (ok <==> Clear(old(calls), calls))
      ensures next - 1 in old(disk.segments)
      ensures ok ==>
                && Valid() && layout == Placed(old(layout), true, header, row)
                && disk.segments == old(disk.segments)[next - 1 := old(disk.segments[next - 1]) + (row + [LF])]
      ensures !ok ==> Partly(old(disk.segments), disk.segments, next - 1, row + [LF])
      ensures disk == old(disk).(segments := disk.segments)
    {
      hide Agrees; hide Partly; hide Image;
      ghost var segments := disk.segments;
      ghost var id := next - 1;
      AgreesRow(config, segments, Census(bytes, files, next, true), before, base, layout, row);
      ImageSnoc(layout[|layout| - 1], row);
      ok := Write(row);
      if !ok {
        PartlyLonger(segments, disk.segments, id, row, [LF]);
        return;
      }
      ok := Write([LF]);
      PartlyThen(segments, disk.segments, id, row, [LF]);
      if !ok { return; }
      layout := Placed(layout, true, header, row);
      currentBytes, bytes := currentBytes + |row| + 1, bytes + |row| + 1;
      assert segments[id] + row + [LF] == segments[id] + (row + [LF]);
      assert disk.segments == segments[id := segments[id] + (row + [LF])];
    }

    /** A row that starts a new segment. */
    method AppendNew(row: seq<byte>) returns (ok: bool)
      requires Valid() && files < config.maxFiles && next < MAX_U64
      requires |header| + |row| + 1 <= config.segmentBytes && bytes + |header| + |row| + 1 <= config.maxBytes
      modifies `disk, `file, `bytes, `currentBytes, `files, `next, `layout, `calls
      ensures old(calls) <= calls && (ok <==> Clear(old(calls), calls))
      ensures disk == old(disk).(segments := disk.segments)
      ensures ok ==>
                && Valid() && file && layout == Placed(old(layout), false, header, row)
                && disk.segments == old(disk.segments)[old(next) := header + (row + [LF])]
      ensures !ok ==> Partly(old(disk.segments), disk.segments, old(next), header + (row + [LF]))
    {
      hide Agrees; hide Partly; hide Image; hide Placed;
      ghost var segments := disk.segments;
      ok := Rotate();
      if !ok {
        PartlyLonger(segments, disk.segments, old(next), header, row + [LF]);
        return;
      }
      ok := Append(row);
      assert [] + header == header;
      if !ok { PartlyThen(segments, disk.segments, old(next), header, row + [LF]); }
      Rewritten(segments, old(next), header, header + (row + [LF]));
      PlacedNew(old(layout), header, row);
    }

    /** A row is refused, with nothing changed, exactly when there is no room; otherwise it is
        written after all earlier rows, unless the system fails a call. After such a failure
        a restart accepts the directory exactly when the segment written to is not torn. */
    method Row(row: seq<byte>) returns (r: Outcome)
      requires Valid()
      modifies `disk, `file, `bytes, `currentBytes, `files, `next, `layout, `calls
      ensures old(calls) <= calls && (r.Failed? <==> !Clear(old(calls), calls))
      ensures r.Refused? ==>
                !old(Room(row)) && unchanged(`disk, `file, `bytes, `currentBytes, `files, `next, `layout)
      ensures r.Written? ==> old(Room(row)) && Valid() && file
                             && layout == Placed(old(layout), old(Fits(row)), header, row)
      ensures r.Failed? ==>
                if old(Fits(row)) then Partly(old(disk.segments), disk.segments, old(next) - 1, row + [LF])
                else Partly(old(disk.segments), disk.segments, old(next), header + (row + [LF]))
      ensures r.Failed? ==>
                (Acceptable(disk, config, true) <==>
                 && |config.marker| <= MAX_MARKER_BYTES
                 && Whole(ContentAt(disk.segments, if old(Fits(row)) then old(next) - 1 else old(next))))
      ensures r.Failed? ==> AcceptedIfWhole()
      ensures r.Written? ==>
                disk.segments ==
                if old(Fits(row)) then old(disk.segments)[old(next) - 1 := old(disk.segments[next - 1]) + (row + [LF])]
                else old(disk.segments)[old(next) := header + (row + [LF])]
    {
      hide Agrees; hide Partly; hide Image; hide Placed; hide Acceptable; hide Counted; hide Whole; hide AllWhole;
      ghost var was, n := disk, Census(bytes, files, next, true);
      AgreesMeans(config, disk.segments, n, before, base, layout);
      var size := |row| + 1;
      var rotate := !file || currentBytes + size > config.segmentBytes;
      var head := if rotate then |header| else 0;
      if size + head > config.segmentBytes || bytes + size + head > config.maxBytes { return Refused; }
      var ok;
      if rotate {
        if files >= config.maxFiles { return Refused; }
        ok := Flush();
        if !ok {
          PartlyNone(disk.segments, next, header + (row + [LF]));
        } else {
          if next + 1 > MAX_U64 { return Refused; }
          ok := AppendNew(row);
        }
        if !ok {
          FailedWrite(config, was, n, disk, n.next, header + (row + [LF]));
          OnlyTouched(disk, config, n.next);
        }
      } else {
        ok := Append(row);
        if !ok {
          FailedWrite(config, was, n, disk, n.next - 1, row + [LF]);
          OnlyTouched(disk, config, n.next - 1);
        }
      }
      r := if ok then Written else Failed;
    }

    /** A different header closes the open segment, so that no segment mixes layouts. */
    method SetHeader(layoutHeader: seq<byte>) returns (ok: bool)
      requires Valid() && Whole(layoutHeader)
      modifies `file, `header, `calls
      ensures old(calls) <= calls && (ok <==> Clear(old(calls), calls))
      ensures ok ==> Valid() && header == layoutHeader && file == (old(file) && layoutHeader == old(header))
      ensures !ok ==> file == old(file) && header == old(header)
    {
      if file && layoutHeader != header {
        ok := Flush();
        if !ok { return; }
        file := false;
      }
      header, ok := layoutHeader, true;
    }

    /** A batch writes its rows in order, all of them or up to the first that is refused,
        fails to encode, or finds the sink cancelled (`stops`). They only go into segments
        that carry the batch's header. */
    method Batch(layoutHeader: Option<seq<byte>>, rows: seq<seq<byte>>, stops: nat -> bool)
      returns (r: BatchEnd, accepted: nat)
      requires Valid() && (layoutHeader.Some? ==> Whole(layoutHeader.value))
      modifies this
      ensures accepted <= |rows| && (r.Done? ==> accepted == |rows|)
      ensures !r.BatchFailed? ==>
                && Valid() && RowsOf(layout) == old(RowsOf(layout)) + rows[..accepted]
                && header == (if layoutHeader.Some? then layoutHeader.value else old(header))
                && Extends(old(layout), old(file) && header == old(header), layout, header)
      ensures r.NoRoom? ==> accepted < |rows| && !Room(rows[accepted])
      ensures r.Stopped? ==> accepted < |rows| && stops(accepted)
      ensures forall i | 0 <= i < accepted :: !stops(i)
      ensures old(calls) <= calls && (r.BatchFailed? <==> !Clear(old(calls), calls))
      ensures r.BatchFailed? ==> AcceptedIfWhole()
    {
      hide AcceptedIfWhole; hide Room; hide Whole;
      hide Valid; hide Extends; hide RowsOf; hide Placed;
      accepted := 0;
      if layoutHeader.Some? {
        var ok := SetHeader(layoutHeader.value);
        WhenValid();
        if !ok { return BatchFailed, 0; }
      }
      ghost var open := file;
      ExtendsSelf(layout, open, header);
      while accepted < |rows|
        invariant accepted <= |rows| && Valid() && old(calls) <= calls && Clear(old(calls), calls)
        invariant forall i | 0 <= i < accepted :: !stops(i)
        invariant header == if layoutHeader.Some? then layoutHeader.value else old(header)
        invariant open == (old(file) && header == old(header))
        invariant RowsOf(layout) == old(RowsOf(layout)) + rows[..accepted]
        invariant Extends(old(layout), open, layout, header)
        invariant file && |layout| == |old(layout)| ==> open
      {
        if stops(accepted) { return Stopped, accepted; }
        var row := rows[accepted];
        ghost var now, more := layout, Fits(row);
        FitsOpen(row);
        var outcome := Row(row);
        match outcome {
          case Refused => return NoRoom, accepted;
          case Failed => return BatchFailed, accepted;
          case Written =>
        }
        PlacedExtends(old(layout), open, now, more, header, row);
        PlacedRows(now, more, header, row);
        assert rows[..accepted + 1] == rows[..accepted] + [row];
        accepted := accepted + 1;
      }
      WhenValid();
      var flushed := Flush();
      assert rows[..accepted] == rows;
      r := if flushed then Done else BatchFailed;
    }

    /** A directory the writer keeps is one a restart accepts. */
    lemma WhenValid()
      requires Valid()
      ensures AcceptedIfWhole()
    {
    }

    /** Only a torn segment, or a marker too long to read, keeps a restart from accepting. */
    ghost predicate AcceptedIfWhole()
      reads `disk
    {
      Acceptable(disk, config, true) <==> |config.marker| <= MAX_MARKER_BYTES && AllWhole(disk.segments)
    }

    lemma FitsOpen(row: seq<byte>)
      requires Valid()
      ensures Fits(row) ==> file && layout != []
    {
    }

    /** A directory that has been written to is never opened for another format or dialect. */
    method OtherDialect(other: Config, lockFree: bool, first: seq<Entry>, second: seq<Entry>) returns (w: Writer?)
      requires Valid() && other.marker != config.marker
      requires Lists(first, disk) && Lists(second, disk.(lock := true))
      ensures w == null
    {
      w := Open(disk, other, lockFree, first, second, system);
    }

    /** Reopening after any run succeeds exactly when the marker is one a scan can read, and
        recomputes the same counters. */
    method Restart(lockFree: bool, first: seq<Entry>, second: seq<Entry>) returns (again: Writer?)
      requires Valid() && Lists(first, disk) && Lists(second, disk.(lock := true))
      ensures again != null <==> |config.marker| <= MAX_MARKER_BYTES && lockFree
      ensures again != null ==>
                && fresh(again) && again.Valid() && again.disk.segments == disk.segments
                && again.bytes == bytes && again.files == files && again.next == next
    {
      again := Open(disk, config, lockFree, first, second, system);
    }
  }

  // ---- Writes in two parts ---------------------------------------------------

  lemma Rewritten(was: map<nat, seq<byte>>, id: nat, a: seq<byte>, b: seq<byte>)
    ensures was[id := a][id := b] == was[id := b]
  {
  }

  lemma Overwritten(was: map<nat, seq<byte>>, id: nat, data: seq<byte>)
    ensures was[id := []][id := data] == was[id := data]
  {
  }

  lemma PartlyCreated(was: map<nat, seq<byte>>, now: map<nat, seq<byte>>, id: nat, data: seq<byte>)
    requires id !in was && (now == was || now == was[id := []])
    ensures Partly(was, now, id, data)
  {
    assert data[..0] == [] && ContentAt(was, id) + data[..0] == [];
  }

  lemma PartlyNone(was: map<nat, seq<byte>>, id: nat, data: seq<byte>)
    ensures Partly(was, was, id, data)
  {
  }

  lemma PartlyLonger(was: map<nat, seq<byte>>, now: map<nat, seq<byte>>, id: nat, a: seq<byte>, b: seq<byte>)
    requires Partly(was, now, id, a)
    ensures Partly(was, now, id, a + b)
  {
    if now != was {
      var n :| 0 <= n <= |a| && now == was[id := ContentAt(was, id) + a[..n]];
      assert (a + b)[..n] == a[..n];
    }
  }

  lemma PartlyThen(was: map<nat, seq<byte>>, now: map<nat, seq<byte>>, id: nat, a: seq<byte>, b: seq<byte>)
    requires Partly(was[id := ContentAt(was, id) + a], now, id, b)
    ensures Partly(was, now, id, a + b)
  {
    var start := ContentAt(was, id);
    var middle := was[id := start + a];
    if now == middle {
      assert (a + b)[..|a|] == a;
    } else {
      var n :| 0 <= n <= |b| && now == middle[id := middle[id] + b[..n]];
      assert (a + b)[..|a| + n] == a + b[..n];
      assert middle[id] + b[..n] == start + (a + b[..n]);
      assert now == was[id := start + (a + b)[..|a| + n]];
    }
  }

  lemma PartlyNew(was: map<nat, seq<byte>>, now: map<nat, seq<byte>>, id: nat, data: seq<byte>)
    requires id !in was && Partly(was[id := []], now, id, data)
    ensures Partly(was, now, id, data)
  {
    var start: seq<byte> := [];
    assert start + start == start;
    PartlyThen(was, now, id, [], data);
    assert [] + data == data;
  }
}
