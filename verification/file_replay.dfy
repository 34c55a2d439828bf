/**
  The file replay source: an incremental reader over a file that may grow, with
  arbitrary read chunks, a scan budget per call, oversize skipping, a CSV header,
  seek to a stored cut and a bounded replay range.
 */
module FileReplay {
  import opened Bytes
  import opened Framing
  import opened Outcomes
  import F = Fingerprint

  datatype FramePoll =
    | Ready(payload: seq<byte>)
    | Pending
    | AtEof
    | RecordTooLong
    | HeaderFailed(error: HeaderError)

  /** What completing one record produced. */
  datatype Finished = Skipped | Payload(bytes: seq<byte>) | Discarded | Failed(error: HeaderError)

  datatype SourcePosition = SourcePosition(offset: nat, index: nat, identity: F.Identity)

  datatype SeekError = StartRefused | IdentityMismatch | PastEnd | MidRecord | InsideQuotes | ResumeHeader

  /** The search of one chunk, carrying the quote state from earlier chunks of the
      record that starts at `from`; the chunk itself starts at `at`. */
  method FindTerminator(f: Framer, inQuote: bool, chunk: seq<byte>, ghost s: seq<byte>, ghost from: nat, ghost at: nat)
    returns (found: Option<nat>, q: bool)
    requires from <= at && at + |chunk| <= |s| && chunk == s[at..at + |chunk|]
    requires OpenUntil(f, s, from, at) && inQuote == QuoteAt(f, s, from, at)
    ensures match found
            case Some(i) => i < |chunk| && NextEnd(f, s, from) == at + i
            case None => OpenUntil(f, s, from, at + |chunk|) && q == QuoteAt(f, s, from, at + |chunk|)
  {
    q := inQuote;
    if !f.multiline {
      NeverQuoted(f, s, from);
    }
    for i := 0 to |chunk|
      invariant q == QuoteAt(f, s, from, at + i)
      invariant OpenUntil(f, s, from, at + i)
    {
      assert chunk[i] == s[at + i];
      if f.multiline && chunk[i] == f.quote {
        q := !q;
      } else if chunk[i] == LF && !q {
        NextEndIs(f, s, from, at + i);
        return Some(i), q;
      }
    }
    return None, q;
  }

  /** A growing file keeps the quote state and the openness of a record in progress. */
  lemma GrowOpen(f: Framer, s: seq<byte>, t: seq<byte>, from: nat, to: nat)
    requires s <= t && from <= to <= |s| && OpenUntil(f, s, from, to)
    ensures OpenUntil(f, t, from, to)
    ensures QuoteAt(f, s, from, to) == QuoteAt(f, t, from, to)
  {
    forall k | from <= k <= to ensures QuoteAt(f, s, from, k) == QuoteAt(f, t, from, k) {
      QuotePrefix(f, s, t, from, k);
    }
    assert forall k | from <= k < to :: EndsAt(f, s, from, k) == EndsAt(f, t, from, k);
  }

  /** Bytes kept of a record in progress: all of them, or none once it is too long. */
  predicate Held(max: nat, record: seq<byte>, pending: seq<byte>, discarding: bool) {
    && discarding == (|record| > max)
    && pending == if discarding then [] else record
  }

  /** The length test of one chunk keeps that, and at a terminator decides the record. */
  lemma HeldStep(cfg: Config, record: seq<byte>, pending: seq<byte>, discarding: bool, chunk: seq<byte>, ended: bool)
    requires Held(cfg.maxRecord, record, pending, discarding) && chunk != []
    ensures var drop := |pending| + |chunk| - (if ended then 1 else 0) > cfg.maxRecord || discarding;
            var kept := if drop then [] else pending + chunk;
            && (!ended ==> Held(cfg.maxRecord, record + chunk, kept, drop))
            && (ended ==> drop == TooLong(cfg, record + chunk, true))
            && (!drop ==> kept == record + chunk)
  {
  }

  /** Strip the terminator, and the BOM of a CSV file's first record. */
  method Trim(kind: Kind, raw: seq<byte>, first: bool) returns (line: seq<byte>)
    ensures line == Body(kind, raw, first)
  {
    line := raw;
    if kind.Csv? {
      // A bare carriage return is data.
      if EndsWith(line, LF) {
        line := DropLast(line);
        if EndsWith(line, CR) { line := DropLast(line); }
      }
    } else {
      if EndsWith(line, LF) { line := DropLast(line); }
      if EndsWith(line, CR) { line := DropLast(line); }
    }
    if first && kind.Csv? && BOM <= line {
      line := line[|BOM|..];
    }
  }

  /** The result of completing a record tells exactly how the outcomes changed. */
  predicate Tells(done: Finished, p: Progress, q: Progress) {
    match done
    case Skipped => q.events == p.events && q.error.None?
    case Payload(b) => q.events == p.events + [Frame(b)] && q.error.None?
    case Discarded => q.events == p.events + [Oversize] && q.error.None?
    case Failed(e) => q.events == p.events && q.error == Some(e)
  }

  /** What one completed record amounts to; also the mapping and the buffer it leaves. */
  method Classify(cfg: Config, mapping: Option<Mapping>, pending: seq<byte>, discarding: bool, first: bool,
                  ghost p: Progress, ghost raw: seq<byte>, ghost terminated: bool)
    returns (done: Finished, m: Option<Mapping>, left: seq<byte>)
    requires p.mapping == mapping && p.error.None?
    requires discarding == TooLong(cfg, raw, terminated) && pending == if discarding then [] else raw
    ensures var q := Consume(cfg, p, raw, first, terminated);
            m == q.mapping && Tells(done, p, q)
    ensures !done.Failed? ==> left == []
  {
    hide Body;
    m, left := mapping, [];
    if discarding {
      done := if cfg.kind.Csv? && mapping.None? then Failed(HeaderTooLong) else Discarded;
      return;
    }
    var line := Trim(cfg.kind, pending, first);
    if line == [] {
      done := Skipped;
    } else if cfg.kind.Csv? && mapping.None? {
      // The first non-blank record is the header: consumed, never a row.
      m := cfg.parseHeader(line);
      if m.Some? {
        done := Skipped;
      } else {
        done, left := Failed(HeaderInvalid), line;
      }
    } else {
      done := Payload(line);
    }
  }

  lemma HeldTail(cfg: Config, raw: seq<byte>, pending: seq<byte>, discarding: bool)
    requires Held(cfg.maxRecord, raw, pending, discarding)
    ensures discarding == TooLong(cfg, raw, false) && pending == if discarding then [] else raw
  {
  }

  lemma FreshRecord(cfg: Config, s: seq<byte>, o: nat)
    requires o <= |s|
    ensures OpenUntil(FramerOf(cfg), s, o, o) && !QuoteAt(FramerOf(cfg), s, o, o)
    ensures Held(cfg.maxRecord, s[o..o], [], false)
  {
  }

  lemma SliceConcat(s: seq<byte>, a: nat, b: nat, c: nat)
    requires a <= b <= c <= |s|
    ensures s[a..b] + s[b..c] == s[a..c]
  {
  }

  function Polled(done: Finished): FramePoll {
    match done
    case Skipped => AtEof
    case Payload(b) => Ready(b)
    case Discarded => RecordTooLong
    case Failed(e) => HeaderFailed(e)
  }

  /** What a poll reports is how the outcomes of the file prefix read so far have grown. */
  predicate Yields(r: FramePoll, p: Progress, q: Progress) {
    match r
    case Ready(b) => q.events == p.events + [Frame(b)]
    case RecordTooLong => q.events == p.events + [Oversize]
    case Pending => q.events == p.events
    case AtEof => q.events == p.events
    case HeaderFailed(e) => q.events == p.events && q.error == Some(e)
  }

  // ---- Rebuilding the header at a cut -------------------------------------

  datatype Resume = Resumed(mapping: Option<Mapping>) | Refused(error: SeekError)

  /** The walk stands at boundary `o`, has not failed, and has header mapping `m`. */
  predicate Knows(cfg: Config, s: seq<byte>, o: nat, m: Option<Mapping>) {
    && AtCut(cfg, s, o).Some? && AtCut(cfg, s, o).value.error.None?
    && AtCut(cfg, s, o).value.mapping == m
  }

  lemma ResumeStart(cfg: Config, s: seq<byte>, k: nat)
    ensures OpenUntil(FramerOf(cfg), s, 0, 0) && !QuoteAt(FramerOf(cfg), s, 0, 0)
    ensures Cut(FramerOf(cfg), s, 0, 0) && Knows(cfg, s, 0, InitialMapping(cfg))
  {
  }

  /** One more complete record before `k`. */
  lemma ResumeStep(cfg: Config, s: seq<byte>, start: nat, end: nat, k: nat, m: Option<Mapping>)
    requires cfg.kind.Csv? && start < end <= k <= |s| && NextEnd(FramerOf(cfg), s, start) == end - 1
    requires Cut(FramerOf(cfg), s, 0, start)
    requires Sound(cfg, s, k) ==> Knows(cfg, s, start, m)
    ensures Cut(FramerOf(cfg), s, 0, end)
    ensures Sound(cfg, s, k) && m.Some? ==> Knows(cfg, s, end, m)
    ensures Sound(cfg, s, k) && m.None? ==>
              var line := Body(cfg.kind, s[start..end], start == 0);
              Knows(cfg, s, end, if line == [] then None else cfg.parseHeader(line)) &&
              (line != [] ==> cfg.parseHeader(line).Some?)
  {
    hide At; hide Rest; hide Body; hide QuoteAt; hide Search; hide NextEnd; hide Sound;
    CutSnoc(FramerOf(cfg), s, 0, start);
    if Sound(cfg, s, k) { SoundStep(cfg, s, start, k); }
  }

  /** The resume length test refuses only files whose header a drain refuses as well. */
  lemma ResumeTooLong(cfg: Config, s: seq<byte>, start: nat, pos: nat, take: nat, k: nat, ended: bool)
    requires cfg.kind.Csv? && start <= pos && pos + take <= k <= |s| && 0 < take
    requires pos - start + take > cfg.maxRecord + 2
    requires if ended then NextEnd(FramerOf(cfg), s, start) == pos + take - 1
             else OpenUntil(FramerOf(cfg), s, start, pos + take)
    requires Sound(cfg, s, k) ==> Knows(cfg, s, start, None)
    ensures !Sound(cfg, s, k)
  {
    hide At; hide Rest; hide QuoteAt; hide Search; hide Sound;
    if Sound(cfg, s, k) { LongHeaderUnsound(cfg, s, start, pos - start + take, k); }
  }

  /** A record that is still open at `k` makes `k` no boundary. */
  lemma ResumeInside(cfg: Config, s: seq<byte>, start: nat, k: nat)
    requires start < k <= |s| && Cut(FramerOf(cfg), s, 0, start) && OpenUntil(FramerOf(cfg), s, start, k)
    ensures AtCut(cfg, s, k).None? && !Cut(FramerOf(cfg), s, 0, k)
    ensures !(cfg.terminal && k == |s|) ==> !Sound(cfg, s, k)
  {
    hide At; hide Rest; hide QuoteAt; hide Search;
    if Cut(FramerOf(cfg), s, 0, k) { CutOrder(FramerOf(cfg), s, 0, start, k); }
    if AtCut(cfg, s, k).Some? { AtIsCut(cfg, s, 0, Start(cfg), k); }
  }

  /** Where a sound offset lies, and what byte stands before it. */
  lemma SoundOffset(cfg: Config, s: seq<byte>, k: nat)
    ensures Sound(cfg, s, k) ==> k <= |s| && (k == 0 || s[k - 1] == LF || (cfg.terminal && k == |s|))
    ensures Sound(cfg, s, k) && AtCut(cfg, s, k).Some? ==> AtCut(cfg, s, k).value.error.None?
    ensures Sound(cfg, s, k) && AtCut(cfg, s, k).None? ==> cfg.terminal && k == |s| && Whole(cfg, s).error.None?
    ensures cfg.kind.Json? && AtCut(cfg, s, k).Some? ==> AtCut(cfg, s, k).value.mapping == InitialMapping(cfg)
  {
    hide At; hide Rest; hide Cut; hide QuoteAt; hide Search; hide NextEnd;
    if AtCut(cfg, s, k).Some? {
      AtIsCut(cfg, s, 0, Start(cfg), k);
      CutAfterFeed(FramerOf(cfg), s, 0, k);
      RestVia(cfg, s, 0, Start(cfg), k);
      if AtCut(cfg, s, k).value.error.Some? { ErrorSticks(cfg, s, k, AtCut(cfg, s, k).value); }
    }
    if cfg.kind.Json? && AtCut(cfg, s, k).Some? { JsonUnmapped(cfg, s, 0, Start(cfg), k); }
  }

  lemma ErrorSticks(cfg: Config, s: seq<byte>, o: nat, p: Progress)
    requires o <= |s| && p.error.Some?
    ensures Rest(cfg, s, o, p) == p
  {
  }

  /** A header failure ends the outcomes of the file. */
  lemma FailureIsFinal(cfg: Config, s: seq<byte>, o: nat, p: Progress)
    requires o <= |s| && p.error.Some? && (AtCut(cfg, s, o) == Some(p) || p == Whole(cfg, s))
    ensures Whole(cfg, s) == p
  {
    hide At; hide Rest;
    if AtCut(cfg, s, o) == Some(p) {
      RestVia(cfg, s, 0, Start(cfg), o);
      ErrorSticks(cfg, s, o, p);
    }
  }

  lemma {:induction false} JsonUnmapped(cfg: Config, s: seq<byte>, from: nat, p: Progress, k: nat)
    requires cfg.kind.Json? && from <= |s| && p.mapping == None && At(cfg, s, from, p, k).Some?
    ensures At(cfg, s, from, p, k).value.mapping == None
    decreases |s| - from
  {
    if from != k {
      var e := NextEnd(FramerOf(cfg), s, from);
      ConsumeKeeps(cfg, p, s[from..e + 1], from == 0, true);
      JsonUnmapped(cfg, s, e + 1, Consume(cfg, p, s[from..e + 1], from == 0, true), k);
    }
  }

  // ---- Where a read stops -------------------------------------------------

  /** An NDJSON record that yields an outcome, as opposed to a blank one. */
  predicate Loud(cfg: Config, raw: seq<byte>, terminated: bool) {
    TooLong(cfg, raw, terminated) || Body(cfg.kind, raw, false) != []
  }

  /** Only blank records lie between the boundaries `a` and `b`. */
  predicate Quiet(cfg: Config, s: seq<byte>, a: nat, b: nat)
    requires a <= |s|
    decreases |s| - a
  {
    a == b ||
    (var e := NextEnd(FramerOf(cfg), s, a);
     e < |s| && e < b && !Loud(cfg, s[a..e + 1], true) && Quiet(cfg, s, e + 1, b))
  }

  /** The end of the first record at or after boundary `a` that is not blank. */
  function NextStop(cfg: Config, s: seq<byte>, a: nat): Option<nat>
    requires a <= |s|
    decreases |s| - a
  {
    var e := NextEnd(FramerOf(cfg), s, a);
    if e < |s| then
      if Loud(cfg, s[a..e + 1], true) then Some(e + 1) else NextStop(cfg, s, e + 1)
    else if cfg.terminal && a < |s| && Loud(cfg, s[a..], false) then Some(|s|)
    else None
  }

  lemma {:induction false} QuietStop(cfg: Config, s: seq<byte>, a: nat, b: nat)
    requires a <= |s| && Quiet(cfg, s, a, b)
    ensures a <= b <= |s| && NextStop(cfg, s, a) == NextStop(cfg, s, b)
    decreases |s| - a
  {
    hide Loud;
    if a != b { QuietStop(cfg, s, NextEnd(FramerOf(cfg), s, a) + 1, b); }
  }

  lemma {:induction false} QuietGrows(cfg: Config, s: seq<byte>, t: seq<byte>, a: nat, b: nat)
    requires s <= t && a <= |s| && b <= |s| && Quiet(cfg, s, a, b)
    ensures Quiet(cfg, t, a, b)
    decreases |s| - a
  {
    hide Loud;
    if a != b {
      var e := NextEnd(FramerOf(cfg), s, a);
      NextEndPrefix(FramerOf(cfg), s, t, a);
      assert s[a..e + 1] == t[a..e + 1];
      QuietGrows(cfg, s, t, e + 1, b);
    }
  }

  lemma {:induction false} QuietTrans(cfg: Config, s: seq<byte>, a: nat, b: nat, c: nat)
    requires a <= |s| && b <= |s| && Quiet(cfg, s, a, b) && Quiet(cfg, s, b, c)
    ensures Quiet(cfg, s, a, c)
    decreases |s| - a
  {
    hide Loud;
    if a != b {
      QuietStop(cfg, s, b, c);
      QuietStop(cfg, s, a, b);
      QuietTrans(cfg, s, NextEnd(FramerOf(cfg), s, a) + 1, b, c);
    }
  }

  /** An NDJSON record is loud exactly when it adds an outcome. */
  lemma LoudConsume(cfg: Config, p: Progress, raw: seq<byte>, first: bool, terminated: bool)
    requires cfg.kind.Json?
    ensures Consume(cfg, p, raw, first, terminated).events != p.events <==> Loud(cfg, raw, terminated)
    ensures Consume(cfg, p, raw, first, terminated).error == p.error
  {
  }

  lemma QuietHere(cfg: Config, s: seq<byte>, a: nat)
    requires a <= |s|
    ensures Quiet(cfg, s, a, a)
  {
  }

  /** One line, one step. */
  lemma StopOfLine(cfg: Config, s: seq<byte>, a: nat, e: nat)
    requires a <= e < |s| && NextEnd(FramerOf(cfg), s, a) == e
    ensures Loud(cfg, s[a..e + 1], true) ==> NextStop(cfg, s, a) == Some(e + 1)
    ensures !Loud(cfg, s[a..e + 1], true) ==> Quiet(cfg, s, a, e + 1)
  {
  }

  lemma StopOfTail(cfg: Config, s: seq<byte>, a: nat)
    requires a <= |s| && NextEnd(FramerOf(cfg), s, a) == |s|
    ensures NextStop(cfg, s, a) ==
            if cfg.terminal && a < |s| && Loud(cfg, s[a..], false) then Some(|s|) else None
  {
  }

  class FileReplaySource {
    const cfg: Config
    const hash: seq<byte> -> F.Word
    const format: Option<seq<byte>>

    var file: seq<byte>
    /** Bytes the buffered reader holds ahead of the record in progress. */
    var prefetched: nat
    var identity: F.Identity
    var offset: nat
    var recordIndex: nat
    var pending: seq<byte>
    var recordBytes: nat
    var discarding: bool
    var inQuote: bool
    var mapping: Option<Mapping>
    var replayEnd: Option<nat>
    /** What framing `file[..offset]` directly produces. */
    ghost var now: Progress
    /** Record index given to the last seek, less the records before that cut. */
    ghost var base: int

    ghost function Fr(): Framer { FramerOf(cfg) }

    /** How far the reader has taken the file, the record in progress included. */
    ghost function Cursor(): nat
      reads this`offset, this`recordBytes
    {
      offset + recordBytes
    }

    /** The file and what the reader was opened with are untouched. */
    twostate predicate SameFile()
      reads this
    {
      file == old(file) && identity == old(identity) && replayEnd == old(replayEnd)
    }

    /** The record in progress and the prefetched bytes behind it. */
    ghost predicate Scanning()
      reads this`file, this`prefetched, this`offset, this`recordBytes, this`inQuote, this`discarding, this`pending
    {
      var at := offset + recordBytes;
      && BufferFollows()
      && OpenUntil(Fr(), file, offset, at)
      && inQuote == QuoteAt(Fr(), file, offset, at)
      && Held(cfg.maxRecord, file[offset..at], pending, discarding)
    }

    /** The offset is a record boundary and the reader knows what lies before it. */
    ghost predicate AtBoundary()
      reads this`file, this`offset, this`now, this`mapping
    {
      AtCut(cfg, file, offset) == Some(now) && now.error.None? && mapping == now.mapping
    }

    /** The whole of a terminal file has been read, its unterminated tail included. */
    ghost predicate Ended()
      reads this`file, this`offset, this`now
    {
      cfg.terminal && offset == |file| && now == Whole(cfg, file) && now.error.None?
    }

    ghost predicate Settled()
      reads this`file, this`identity, this`mapping, this`recordIndex, this`now, this`base
    {
      && recordIndex == base + now.index
      && (InitialMapping(cfg).Some? || cfg.kind.Json? ==> mapping == InitialMapping(cfg))
      && F.IdentityHolds(hash, format, cfg.terminal, identity, file)
    }

    ghost predicate Valid()
      reads this
    {
      Scanning() && Settled() && (AtBoundary() || Ended())
    }

    constructor Open(cfg: Config, hash: seq<byte> -> F.Word, format: Option<seq<byte>>, contents: seq<byte>)
      ensures Valid() && file == contents && offset == 0 && recordIndex == 0 && recordBytes == 0
      ensures this.cfg == cfg && this.hash == hash && this.format == format
      ensures now == Start(cfg) && replayEnd == None
      ensures identity == F.IdentityOf(hash, format, contents)
    {
      this.cfg, this.hash, this.format := cfg, hash, format;
      file, prefetched, offset, recordIndex := contents, 0, 0, 0;
      pending, recordBytes, discarding, inQuote := [], 0, false, false;
      mapping, replayEnd := InitialMapping(cfg), None;
      identity := F.IdentityOf(hash, format, contents);
      now, base := Start(cfg), 0;
    }

    /** Another process appends to the file, at any point while an append-only source is open. */
    method Append(more: seq<byte>)
      requires Valid() && !cfg.terminal
      modifies this`file
      ensures Valid() && file == old(file) + more
    {
      hide At; hide Rest; hide QuoteAt; hide Search; hide NextEnd; hide Consume; hide F.WindowMix;
      var grown := file + more;
      GrowOpen(Fr(), file, grown, offset, offset + recordBytes);
      AtPrefix(cfg, file, grown, 0, Start(cfg), offset);
      F.AppendKeepsIdentity(hash, format, identity, file, more);
      file := grown;
    }

    /** Growth that an append-only file may or may not see between two reads. */
    method MayGrow()
      requires Valid()
      modifies this`file
      ensures Valid() && old(file) <= file && (cfg.terminal ==> file == old(file))
    {
      if !cfg.terminal {
        var more: seq<byte> := *;
        Append(more);
      }
    }

    /** `BufReader::fill_buf`: keep what is buffered, else read any non-empty part of
        what is left. */
    method FillBuf()
      requires Scanning()
      modifies this`prefetched
      ensures Scanning() && BufferFollows()
      ensures prefetched == 0 ==> offset + recordBytes == |file|
    {
      var at := offset + recordBytes;
      if prefetched == 0 && at < |file| {
        var n :| 1 <= n <= |file| - at;
        prefetched := n;
      }
    }

    /** Take one chunk, up to its first terminator and within the budget. */
    method Take(left: nat) returns (taken: nat, ended: bool)
      requires Scanning() && 0 < prefetched && 0 < left
      modifies this`prefetched, this`pending, this`recordBytes, this`discarding, this`inQuote
      ensures 1 <= taken <= left && recordBytes == old(recordBytes) + taken
      ensures !ended ==> Scanning()
      ensures ended ==>
                Completed() && BufferFollows() && NextEnd(Fr(), file, offset) == offset + recordBytes - 1 < |file|
    {
      var at := offset + recordBytes;
      hide QuoteAt; hide Search; hide NextEnd; hide Held; hide TooLong; hide OpenUntil;
      var available := file[at..at + (if prefetched <= left then prefetched else left)];
      var newline, q := FindTerminator(FramerOf(cfg), inQuote, available, file, offset, at);
      taken := if newline.Some? then newline.value + 1 else |available|;
      var payload := |pending| + taken - (if newline.Some? then 1 else 0);
      var chunk := available[..taken];
      assert chunk == file[at..at + taken];
      SliceConcat(file, offset, at, at + taken);
      HeldStep(cfg, file[offset..at], pending, discarding, chunk, newline.Some?);
      var drop := payload > cfg.maxRecord || discarding;
      Hold(taken, if drop then [] else pending + chunk, drop, q);
      ended := newline.Some?;
    }

    /** The bytes taken join the record in progress. */
    method Hold(taken: nat, kept: seq<byte>, drop: bool, q: bool)
      requires taken <= prefetched
      modifies this`prefetched, this`pending, this`recordBytes, this`discarding, this`inQuote
      ensures prefetched == old(prefetched) - taken && recordBytes == old(recordBytes) + taken
      ensures pending == kept && discarding == drop && inQuote == q
    {
      pending, discarding := kept, drop;
      prefetched := prefetched - taken;
      recordBytes := recordBytes + taken;
      inQuote := q;
    }

    ghost predicate BufferFollows()
      reads this`file, this`prefetched, this`offset, this`recordBytes
    {
      offset + recordBytes + prefetched <= |file|
    }

    /** A whole terminated record has been taken and not yet turned into an outcome. */
    ghost predicate Completed()
      reads this`file, this`offset, this`recordBytes, this`discarding, this`pending
    {
      var at := offset + recordBytes;
      && 0 < recordBytes && at <= |file|
      && NextEnd(Fr(), file, offset) == at - 1
      && discarding == TooLong(cfg, file[offset..at], true)
      && pending == (if discarding then [] else file[offset..at])
    }

    /** The bytes of the record in progress, as far as the reader has taken them. */
    ghost function Raw(): seq<byte>
      requires BufferFollows()
      reads this`file, this`prefetched, this`offset, this`recordBytes
    {
      file[offset..offset + recordBytes]
    }

    /** Between records there is nothing in progress. */
    lemma NothingInProgress()
      requires BufferFollows() && recordBytes == 0 && pending == [] && !discarding && !inQuote
      ensures Scanning()
    {
      FreshRecord(cfg, file, offset);
    }

    /** `finish_record`: close the record in progress and classify it. */
    method FinishRecord(ghost terminated: bool) returns (done: Finished)
      requires BufferFollows() && Settled() && now.error.None? && mapping == now.mapping
      requires discarding == TooLong(cfg, Raw(), terminated)
      requires pending == if discarding then [] else Raw()
      modifies this
      ensures SameFile() && base == old(base) && prefetched == old(prefetched)
      ensures offset == old(Cursor()) && recordBytes == 0
      ensures now == Consume(cfg, old(now), old(Raw()), old(offset) == 0, terminated)
      ensures Tells(done, old(now), now) && mapping == now.mapping && BufferFollows()
      ensures !done.Failed? ==> Scanning() && Settled()
    {
      hide Consume; hide F.IdentityHolds; hide Scanning; hide TooLong; hide InitialMapping; hide Tells;
      ConsumeKeeps(cfg, now, Raw(), offset == 0, terminated);
      ghost var after := Consume(cfg, now, Raw(), offset == 0, terminated);
      var m, left;
      done, m, left := Classify(cfg, mapping, pending, discarding, offset == 0, now, Raw(), terminated);
      StartRecord(offset + recordBytes, recordIndex + 1, m, left, after);
      if !done.Failed? { NothingInProgress(); }
    }

    /** The cursor stands at `k` with nothing taken behind it. */
    method StartRecord(k: nat, index: nat, m: Option<Mapping>, left: seq<byte>, ghost p: Progress)
      modifies `offset, `recordIndex, `recordBytes, `pending, `discarding, `inQuote, `mapping, `now
      ensures offset == k && recordIndex == index && recordBytes == 0 && pending == left
      ensures !discarding && !inQuote && mapping == m && now == p
    {
      offset, recordIndex := k, index;
      pending, recordBytes, discarding, inQuote := left, 0, false, false;
      mapping, now := m, p;
    }

    /** Close a record that its terminator has ended. */
    method FinishLine() returns (done: Finished)
      requires AtBoundary() && Settled() && BufferFollows() && Completed()
      modifies this
      ensures SameFile() && base == old(base) && prefetched == old(prefetched)
      ensures offset == old(Cursor()) && recordBytes == 0
      ensures now == Consume(cfg, old(now), file[old(offset)..offset], old(offset) == 0, true)
      ensures AtCut(cfg, file, offset) == Some(now) && Tells(done, old(now), now)
      ensures !done.Failed? ==> Valid()
    {
      hide At; hide NextEnd; hide Search; hide Consume; hide TooLong; hide Settled; hide Scanning;
      AtSnoc(cfg, file, 0, Start(cfg), offset);
      done := FinishRecord(true);
    }

    /** Close the unterminated last record of a terminal file. */
    method FinishTail() returns (done: Finished)
      requires AtBoundary() && Settled() && Scanning()
      requires cfg.terminal && 0 < recordBytes && offset + recordBytes == |file|
      modifies this
      ensures SameFile() && base == old(base) && prefetched == old(prefetched)
      ensures offset == |file| && recordBytes == 0 && now == Whole(cfg, file) && Tells(done, old(now), now)
      ensures now == Consume(cfg, old(now), file[old(offset)..], old(offset) == 0, false)
      ensures !done.Failed? ==> Valid() && Exhausted()
    {
      hide At; hide NextEnd; hide Search; hide Consume; hide Whole; hide TooLong; hide Held; hide Settled; hide QuoteAt;
      assert Raw() == file[offset..];
      TailWhole(cfg, file, offset);
      HeldTail(cfg, Raw(), pending, discarding);
      done := FinishRecord(false);
    }

    /** Nothing is left to read and every outcome of the file is out. */
    ghost predicate Exhausted()
      reads this`file, this`offset, this`recordBytes, this`now
    {
      && offset + recordBytes == |file| && (cfg.terminal ==> recordBytes == 0)
      && now.events == Whole(cfg, file).events
    }

    /** How a read by an NDJSON source ended, told by the file alone: it stopped at the
        first record that is not blank, or (still going) skipped blank records only. */
    twostate predicate Stopped(r: Option<FramePoll>)
      requires old(offset) <= |file|
      reads this
    {
      match r
      case None => Quiet(cfg, file, old(offset), offset)
      case Some(Pending) => Quiet(cfg, file, old(offset), offset)
      case Some(AtEof) => NextStop(cfg, file, old(offset)) == None
      case Some(_) => NextStop(cfg, file, old(offset)) == Some(offset)
    }

    /** One turn of the `read_frame` loop. A turn that completes a blank record or the
        header, or no record at all, reports nothing and the loop goes on. */
    method Turn(left: nat) returns (taken: nat, r: Option<FramePoll>)
      requires Valid() && 0 < left
      modifies this
      ensures identity == old(identity) && replayEnd == old(replayEnd) && base == old(base)
      ensures old(file) <= file && (cfg.terminal ==> file == old(file))
      ensures old(offset) <= offset <= |file| && taken <= left && (r.None? ==> 0 < taken)
      ensures Cursor() == old(Cursor()) + taken
      ensures r.Some? && (r.value.Ready? || r.value.RecordTooLong?) ==> recordBytes == 0
      ensures r.Some? ==> !r.value.Pending? && Yields(r.value, old(now), now)
      ensures r.None? ==> now.events == old(now.events)
      ensures r.None? || !r.value.HeaderFailed? ==> Valid()
      ensures r.Some? && r.value.HeaderFailed? ==> AtCut(cfg, file, offset) == Some(now) || now == Whole(cfg, file)
      ensures r.Some? && (r.value.Ready? || r.value.RecordTooLong?) ==> old(offset) < offset
      ensures r == Some(AtEof) ==> Exhausted()
      ensures cfg.kind.Json? ==> Stopped(r) && (r.Some? ==> !r.value.HeaderFailed?)
    {
      hide At; hide Rest; hide QuoteAt; hide Search; hide NextEnd; hide Consume; hide F.WindowMix; hide NextStop;
      hide Loud; hide Scanning; hide Settled; hide AtBoundary; hide Ended; hide BufferFollows; hide Completed;
      hide Exhausted;
      taken := 0;
      MayGrow();
      FillBuf();
      if prefetched == 0 {
        var answer := AtFileEnd();
        return taken, Some(answer);
      }
      ghost var start, before := offset, now;
      NotEnded();
      var ended;
      taken, ended := Take(left);
      r := None;
      QuietHere(cfg, file, start);
      if ended {
        StopOfLine(cfg, file, start, start + recordBytes - 1);
        var done := FinishLine();
        if cfg.kind.Json? { LoudConsume(cfg, before, file[start..offset], start == 0, true); }
        if !done.Skipped? { r := Some(Polled(done)); }
      }
    }

    /** Nothing is left to take: the tail of a terminal file is a record, otherwise EOF. */
    method AtFileEnd() returns (r: FramePoll)
      requires Valid() && Cursor() == |file|
      modifies this
      ensures SameFile() && base == old(base) && Cursor() == old(Cursor())
      ensures old(offset) <= offset && !r.Pending? && Yields(r, old(now), now)
      ensures if r.HeaderFailed? then now == Whole(cfg, file) else Valid()
      ensures r.Ready? || r.RecordTooLong? ==> old(offset) < offset && recordBytes == 0
      ensures r.AtEof? ==> Exhausted()
      ensures cfg.kind.Json? ==> Stopped(Some(r)) && !r.HeaderFailed?
    {
      hide At; hide Rest; hide QuoteAt; hide Search; hide NextEnd; hide Consume; hide F.WindowMix; hide NextStop;
      hide Loud; hide Scanning; hide Settled; hide AtBoundary; hide Ended; hide BufferFollows; hide Exhausted;
      ghost var start, before := offset, now;
      TailOpen();
      if !cfg.terminal || recordBytes == 0 {
        EndIsExhausted();
        return AtEof;
      }
      NotEnded();
      var done := FinishTail();
      if cfg.kind.Json? { LoudConsume(cfg, before, file[start..], start == 0, false); }
      return Polled(done);
    }

    /** `read_frame`: outcomes come out in file order, one per call, whatever the
        chunks, the budget and the growth of the file in between. */
    method ReadFrame(budget: nat) returns (r: FramePoll)
      requires Valid()
      modifies this
      ensures identity == old(identity) && replayEnd == old(replayEnd) && base == old(base)
      ensures old(file) <= file && (cfg.terminal ==> file == old(file))
      ensures old(offset) <= offset <= |file|
      // Progress: an answer without an outcome has used up the budget or the file.
      ensures old(Cursor()) <= Cursor() && (r.Pending? ==> Cursor() == old(Cursor()) + budget)
      ensures Yields(r, old(now), now)
      ensures !r.HeaderFailed? ==> Valid()
      ensures r.HeaderFailed? ==> AtCut(cfg, file, offset) == Some(now) || now == Whole(cfg, file)
      ensures r.Ready? || r.RecordTooLong? ==> old(offset) < offset && recordBytes == 0
      // At the end of a bounded replay nothing moves; before it the range is not looked at.
      ensures replayEnd.Some? && old(offset) >= replayEnd.value ==>
                r.AtEof? && offset == old(offset) && recordBytes == old(recordBytes)
      ensures (replayEnd.Some? ==> old(offset) < replayEnd.value) ==>
                && (r.AtEof? ==> Exhausted())
                && (cfg.kind.Json? ==> Stopped(Some(r)))
      ensures cfg.kind.Json? ==> !r.HeaderFailed?
    {
      hide At; hide Rest; hide Valid; hide Exhausted; hide NextStop; hide Quiet;
      Facts();
      if replayEnd.Some? && offset >= replayEnd.value { return AtEof; }
      var left := budget;
      ghost var start := offset;
      QuietHere(cfg, file, start);
      while left > 0
        invariant Valid()
        invariant old(file) <= file && (cfg.terminal ==> file == old(file))
        invariant identity == old(identity) && replayEnd == old(replayEnd) && base == old(base)
        invariant start <= offset <= |file|
        invariant 0 <= left <= budget && Cursor() + left == old(Cursor()) + budget
        invariant now.events == old(now.events)
        invariant cfg.kind.Json? ==> Quiet(cfg, file, start, offset)
      {
        ghost var had, at := file, offset;
        var taken, outcome := Turn(left);
        if cfg.kind.Json? {
          QuietGrows(cfg, had, file, start, at);
          QuietStop(cfg, file, start, at);
          if outcome.None? { QuietTrans(cfg, file, start, at, offset); }
        }
        if outcome.Some? { return outcome.value; }
        left := left - taken;
      }
      return Pending;
    }

    /** What a valid reader says about itself. */
    lemma Facts()
      requires Valid()
      ensures offset <= |file| && recordIndex == base + now.index && now.error.None?
      ensures AtCut(cfg, file, offset) == Some(now) || (cfg.terminal && offset == |file| && now == Whole(cfg, file))
      ensures F.IdentityHolds(hash, format, cfg.terminal, identity, file)
    {
    }

    /** The cursor stays within the file. */
    lemma Inside()
      requires Valid()
      ensures offset <= Cursor() <= |file|
    {
    }

    /** At the end of the file the reader's progress is that of the whole file. */
    lemma AllRead()
      requires Valid() && offset == |file|
      ensures now == Whole(cfg, file)
    {
      hide At;
      if AtBoundary() { RestVia(cfg, file, 0, Start(cfg), offset); }
    }

    /** What has been reported is never more than the file holds. */
    lemma Ahead()
      requires Valid()
      ensures now.events <= Whole(cfg, file).events
    {
      hide At; hide Rest;
      if AtBoundary() {
        RestVia(cfg, file, 0, Start(cfg), offset);
        RestExtends(cfg, file, offset, now);
      }
    }

    lemma NotEnded()
      requires Valid() && (0 < prefetched || 0 < recordBytes)
      ensures AtBoundary()
    {
    }

    /** With nothing left to read, all outcomes of the file are out. */
    lemma EndIsExhausted()
      requires Valid() && offset + recordBytes == |file|
      requires !cfg.terminal || recordBytes == 0
      ensures Exhausted()
    {
      if AtBoundary() {
        NextEndIs(Fr(), file, offset, |file|);
        RestVia(cfg, file, 0, Start(cfg), offset);
      }
    }

    /** With nothing left to read, the record in progress is the tail of the file. */
    lemma TailOpen()
      requires Valid() && offset + recordBytes == |file|
      ensures NextStop(cfg, file, offset) ==
              if cfg.terminal && offset < |file| && Loud(cfg, file[offset..], false) then Some(|file|) else None
    {
      NextEndIs(Fr(), file, offset, |file|);
      StopOfTail(cfg, file, offset);
    }

    /** `csv_resume`: the header mapping valid at offset `k`, read from the file start,
        and with `multiline` the refusal of a line feed inside quotes. */
    method CsvResume(k: nat) returns (r: Resume)
      requires k <= |file|
      requires InitialMapping(cfg).Some? ==> mapping == InitialMapping(cfg)
      ensures Sound(cfg, file, k) ==> r.Resumed?
      ensures cfg.kind.Csv? && r.Resumed? && Sound(cfg, file, k) && AtCut(cfg, file, k).Some? ==>
                r.mapping == AtCut(cfg, file, k).value.mapping
      ensures r.Resumed? && Fr().multiline ==> Cut(Fr(), file, 0, k) || (cfg.terminal && k == |file|)
      ensures InitialMapping(cfg).Some? && r.Resumed? ==> r.mapping == InitialMapping(cfg)
    {
      hide At; hide Rest; hide QuoteAt; hide Search; hide NextEnd; hide Consume; hide Sound; hide Cut; hide Body;
      hide OpenUntil; hide TooLong;
      if cfg.kind.Json? { return Resumed(None); }
      var f := FramerOf(cfg);
      if !cfg.kind.header && !f.multiline {
        if AtCut(cfg, file, k).Some? { AtKeeps(cfg, file, 0, Start(cfg), k); }
        return Resumed(mapping);
      }
      var m := if cfg.kind.header then None else mapping;
      var pos, recordStart, boundary, q := 0, 0, true, false;
      var record: seq<byte> := [];
      ghost var start: nat := 0;
      ResumeStart(cfg, file, k);
      while pos < k
        invariant start <= pos <= k && boundary == (start == pos)
        invariant OpenUntil(f, file, start, pos) && q == QuoteAt(f, file, start, pos)
        invariant m.None? ==> record == file[start..pos] && recordStart == start
        invariant Cut(f, file, 0, start)
        invariant Sound(cfg, file, k) ==> Knows(cfg, file, start, m)
        invariant InitialMapping(cfg).Some? ==> m == InitialMapping(cfg)
      {
        var n :| 1 <= n <= k - pos;
        var chunk := file[pos..pos + n];
        var end, q' := FindTerminator(f, q, chunk, file, start, pos);
        var take := if end.Some? then end.value + 1 else n;
        if m.None? {
          if |record| + take > cfg.maxRecord + 2 {
            ResumeTooLong(cfg, file, start, pos, take, k, end.Some?);
            return Refused(ResumeHeader);
          }
          assert chunk[..take] == file[pos..pos + take];
          SliceConcat(file, start, pos, pos + take);
          record := record + chunk[..take];
        }
        pos, q, boundary := pos + take, q', end.Some?;
        if boundary {
          q := false;
          ResumeStep(cfg, file, start, pos, k, m);
          FreshRecord(cfg, file, pos);
          if m.None? {
            var line := Trim(cfg.kind, record, recordStart == 0);
            if line != [] {
              m := cfg.parseHeader(line);
              if m.None? { return Refused(ResumeHeader); }
              if !f.multiline {
                if Sound(cfg, file, k) && AtCut(cfg, file, k).Some? {
                  AtVia(cfg, file, 0, Start(cfg), pos, k);
                  AtKeeps(cfg, file, pos, AtCut(cfg, file, pos).value, k);
                }
                return Resumed(m);
              }
            }
            record, recordStart := [], pos;
          }
          start := pos;
        }
      }
      if !boundary { ResumeInside(cfg, file, start, k); }
      if !boundary && !(cfg.terminal && k == |file|) {
        return Refused(InsideQuotes);
      }
      return Resumed(m);
    }

    /** The tests of `seek` before anything moves. */
    method CheckCut(k: nat) returns (r: Resume)
      requires Valid()
      ensures Sound(cfg, file, k) ==> r.Resumed?
      ensures r.Resumed? ==> k <= |file| && (Cut(Fr(), file, 0, k) || (cfg.terminal && k == |file|))
      ensures r.Resumed? ==> CutMapping(k, r.mapping)
    {
      hide At; hide Rest; hide QuoteAt; hide Search; hide NextEnd; hide Sound; hide Cut; hide OpenUntil; hide Held;
      hide F.IdentityHolds;
      SoundOffset(cfg, file, k);
      if k > |file| { return Refused(PastEnd); }
      if k > 0 && file[k - 1] != LF && !(cfg.terminal && k == |file|) { return Refused(MidRecord); }
      r := CsvResume(k);
      if !Fr().multiline { PlainCut(Fr(), file, 0, k); }
    }

    /** The mapping rebuilt at `k` is the one a drain has there, as long as something is
        left to read. */
    ghost predicate CutMapping(k: nat, m: Option<Mapping>)
      reads this`file
    {
      && (InitialMapping(cfg).Some? ==> m == InitialMapping(cfg))
      && (cfg.kind.Csv? && Sound(cfg, file, k) && AtCut(cfg, file, k).Some? ==>
            m == AtCut(cfg, file, k).value.mapping)
    }

    /** `seek`: move to a stored cut. `admitted` is the quarantine's answer to the start
        check, true without one. A refused seek changes nothing. */
    method Seek(pos: SourcePosition, admitted: bool) returns (r: Option<SeekError>)
      requires Valid()
      modifies this
      ensures SameFile()
      ensures r.Some? ==>
                && Valid() && offset == old(offset) && recordIndex == old(recordIndex) && mapping == old(mapping)
                && recordBytes == old(recordBytes) && pending == old(pending) && discarding == old(discarding)
                && prefetched == old(prefetched) && inQuote == old(inQuote) && now == old(now)
      ensures r.None? ==>
                && Accepts(pos, admitted) && (Cut(Fr(), file, 0, offset) || (cfg.terminal && offset == |file|))
                && offset == pos.offset && recordIndex == pos.index && recordBytes == 0 && prefetched == 0
      ensures Accepts(pos, admitted) && Sound(cfg, file, pos.offset) ==> r.None?
      ensures r.None? && Sound(cfg, file, offset) ==> Valid() && now == ProgressAt(offset)
      ensures base == if r.Some? then old(base) else recordIndex - now.index
    {
      hide Sound; hide Cut; hide Valid; hide F.IdentityHolds; hide CutMapping; hide ProgressAt;
      if !admitted { return Some(StartRefused); }
      if !F.IdentityHolds(hash, format, cfg.terminal, pos.identity, file) { return Some(IdentityMismatch); }
      var check := CheckCut(pos.offset);
      if check.Refused? { return Some(check.error); }
      MoveTo(pos.offset, pos.index, check.mapping);
      r := None;
    }

    /** The stored identity and the quarantine allow a start at this position. */
    predicate Accepts(pos: SourcePosition, admitted: bool)
      reads this`file
    {
      admitted && F.IdentityHolds(hash, format, cfg.terminal, pos.identity, file)
    }

    /** What a drain has produced when it stands at `k`. */
    ghost function ProgressAt(k: nat): Progress
      reads this`file
    {
      if AtCut(cfg, file, k).Some? then AtCut(cfg, file, k).value else Whole(cfg, file)
    }

    method MoveTo(k: nat, index: nat, m: Option<Mapping>)
      requires Valid() && k <= |file| && CutMapping(k, m)
      modifies this
      ensures SameFile()
      ensures offset == k && recordIndex == index && recordBytes == 0 && prefetched == 0
      ensures now == ProgressAt(k) && base == recordIndex - now.index
      ensures Sound(cfg, file, k) ==> Valid()
    {
      hide At; hide Rest; hide Sound; hide Scanning; hide F.IdentityHolds; hide InitialMapping; hide AtCut; hide Whole;
      SoundOffset(cfg, file, k);
      prefetched := 0;
      StartRecord(k, index, if cfg.kind.Csv? then m else mapping, [], ProgressAt(k));
      base := recordIndex - now.index;
      NothingInProgress();
    }

    /** `checkpoint_position`: the cut to store, whose identity covers the bytes before it,
        or all of a terminal file. */
    method CheckpointPosition() returns (pos: SourcePosition)
      requires Valid()
      ensures pos.offset == offset && pos.index == recordIndex
      ensures offset <= |file|
      ensures pos.identity == F.IdentityOf(hash, format, if cfg.terminal then file else file[..offset])
      ensures F.IdentityHolds(hash, format, cfg.terminal, pos.identity, file)
    {
      hide At; hide Rest; hide F.Content;
      Facts();
      F.PrefixContent(hash, file, offset);
      var size := if cfg.terminal then |file| else offset;
      var content := F.ContentFingerprint(hash, file, size);
      pos := SourcePosition(offset, recordIndex, F.Identity(size, F.Bind(hash, content.value, format)));
    }

    /** `set_replay_end`: a bounded NDJSON range ends at a line feed at or after the cursor. */
    method SetReplayEnd(end: Option<nat>) returns (ok: bool)
      requires Valid()
      modifies this`replayEnd
      ensures Valid()
      ensures ok <==> end.None? ||
                      (cfg.kind.Json? && offset <= end.value <= |file| && Cut(Fr(), file, 0, end.value))
      ensures replayEnd == if ok then end else old(replayEnd)
    {
      hide Cut; hide Scanning; hide AtBoundary; hide Ended; hide Settled;
      if end.Some? {
        var e := end.value;
        if cfg.kind.Csv? || e < offset || e > |file| { return false; }
        PlainCut(Fr(), file, 0, e);
        if e > 0 && file[e - 1] != LF { return false; }
      }
      replayEnd := end;
      ok := true;
    }
  }
}
