/**
  Decoding polls over the file replay source: rows, dropped records, and the
  durable quarantine that must not lose or repeat a record when it is full.
 */
module FilePolls {
  import opened Bytes
  import opened Outcomes
  import opened FileReplay
  import F = Fingerprint

  /** A decoded row, by identity. */
  type RowId = nat

  /** What the codec makes of a frame. `BadRecord` is an error of the record itself,
      `BadOther` any other failure. */
  datatype Decoded = Good(row: RowId) | BadRecord | BadOther

  datatype FilePoll = Row(row: RowId) | DecodeError | Quarantined | QuarantineFull | Pending | Eof

  datatype PollResult = Ok(poll: FilePoll) | Err

  /** The quarantine's answer to a capture. */
  datatype Answer = Stored | Full | Broken

  datatype PollStep = PollStep(budget: nat, answer: Answer, admitted: bool)

  datatype Capture = Capture(offset: nat, payload: seq<byte>)

  /** Rows of a run of outcomes, in order. */
  function Rows(decode: seq<byte> -> Decoded, events: seq<Event>): seq<RowId> {
    if events == [] then []
    else
      var e := events[|events| - 1];
      var before := Rows(decode, events[..|events| - 1]);
      if e.Frame? && decode(e.payload).Good? then before + [decode(e.payload).row] else before
  }

  /** Payloads that fail to decode with a record error, in order. */
  function Poison(decode: seq<byte> -> Decoded, events: seq<Event>): seq<seq<byte>> {
    if events == [] then []
    else
      var e := events[|events| - 1];
      var before := Poison(decode, events[..|events| - 1]);
      if e.Frame? && decode(e.payload).BadRecord? then before + [e.payload] else before
  }

  /** Records that a quarantine does not take: the source fails on them. */
  predicate Unfit(decode: seq<byte> -> Decoded, e: Event) { e.Oversize? || decode(e.payload).BadOther? }

  /** The last record read is one of these. */
  predicate Stuck(decode: seq<byte> -> Decoded, p: Progress) {
    p.error.None? && p.events != [] && Unfit(decode, p.events[|p.events| - 1])
  }

  /** The quarantine itself fails, or does not let the source start again. */
  predicate Refuses(answer: Answer, admitted: bool) { answer.Broken? || (answer.Full? && !admitted) }

  lemma OneMore(decode: seq<byte> -> Decoded, events: seq<Event>, e: Event)
    ensures Rows(decode, events + [e]) ==
            Rows(decode, events) + if e.Frame? && decode(e.payload).Good? then [decode(e.payload).row] else []
    ensures Poison(decode, events + [e]) ==
            Poison(decode, events) + if e.Frame? && decode(e.payload).BadRecord? then [e.payload] else []
  {
    assert (events + [e])[..|events|] == events;
  }

  function Unfits(decode: seq<byte> -> Decoded, events: seq<Event>): nat {
    if events == [] then 0
    else Unfits(decode, events[..|events| - 1]) + if Unfit(decode, events[|events| - 1]) then 1 else 0
  }

  /** Every outcome is a row, poison, or unfit for both; poison are exactly the payloads that
      fail with a record error, as often as they occur. */
  lemma {:induction false} EveryOutcomeOnce(decode: seq<byte> -> Decoded, events: seq<Event>, b: seq<byte>)
    ensures |Rows(decode, events)| + |Poison(decode, events)| + Unfits(decode, events) == |events|
    ensures multiset(Poison(decode, events))[b] ==
            if decode(b) == BadRecord then multiset(events)[Frame(b)] else 0
  {
    if events != [] {
      var before, e := events[..|events| - 1], events[|events| - 1];
      EveryOutcomeOnce(decode, before, b);
      assert events == before + [e];
      OneMore(decode, before, e);
    }
  }

  function Payloads(captured: seq<Capture>): seq<seq<byte>> {
    seq(|captured|, i requires 0 <= i < |captured| => captured[i].payload)
  }

  /** Captures are in file order, one per position. */
  predicate Ascending(captured: seq<Capture>, below: nat) {
    && (forall i, j | 0 <= i < j < |captured| :: captured[i].offset < captured[j].offset)
    && (forall i | 0 <= i < |captured| :: captured[i].offset <= below)
  }

  lemma PayloadsSnoc(captured: seq<Capture>, c: Capture, below: nat)
    requires Ascending(captured, below) && below < c.offset
    ensures Payloads(captured + [c]) == Payloads(captured) + [c.payload]
    ensures Ascending(captured + [c], c.offset)
  {
  }

  lemma AscendingBelow(captured: seq<Capture>, below: nat, more: nat)
    requires Ascending(captured, below) && below <= more
    ensures Ascending(captured, more)
  {
  }

  function RowsOf(polls: seq<FilePoll>): seq<RowId> {
    if polls == [] then []
    else
      var p := polls[|polls| - 1];
      var before := RowsOf(polls[..|polls| - 1]);
      if p.Row? then before + [p.row] else before
  }

  lemma RowsOfSnoc(polls: seq<FilePoll>, p: FilePoll)
    ensures RowsOf(polls + [p]) == RowsOf(polls) + if p.Row? then [p.row] else []
  {
    assert (polls + [p])[..|polls|] == polls;
  }

  /** A batch ends at the first EOF, pending or full-quarantine answer. */
  predicate BatchShape(polls: seq<FilePoll>) {
    forall i | 0 <= i < |polls| - 1 :: polls[i].Row? || polls[i].DecodeError? || polls[i].Quarantined?
  }

  predicate Ends(p: FilePoll) { p.Eof? || p.Pending? || p.QuarantineFull? }

  /** Accounted size of the rows of a batch. */
  function Accounted(tracked: RowId -> nat, polls: seq<FilePoll>): nat {
    if polls == [] then 0
    else
      var p := polls[|polls| - 1];
      Accounted(tracked, polls[..|polls| - 1]) + if p.Row? then tracked(p.row) else 0
  }

  lemma AccountedSnoc(tracked: RowId -> nat, polls: seq<FilePoll>, p: FilePoll)
    ensures Accounted(tracked, polls + [p]) == Accounted(tracked, polls) + if p.Row? then tracked(p.row) else 0
  {
    assert (polls + [p])[..|polls|] == polls;
  }

  class FilePoller {
    const src: FileReplaySource
    /** The codec, for CSV with the mapping of the file's header. */
    const decode: seq<byte> -> Decoded
    const quarantined: bool
    var captured: seq<Capture>

    ghost predicate Valid()
      reads this, src
    {
      && Ascending(captured, src.offset)
      && src.Valid() && src.replayEnd.None?
      && (quarantined ==> Payloads(captured) == Poison(decode, src.now.events))
      && (!quarantined ==> captured == [])
    }

    constructor (src: FileReplaySource, decode: seq<byte> -> Decoded, quarantined: bool)
      requires src.Valid() && src.replayEnd.None? && src.offset == 0 && src.now.events == []
      ensures Valid() && this.src == src && this.decode == decode && this.quarantined == quarantined
      ensures captured == []
    {
      this.src, this.decode, this.quarantined := src, decode, quarantined;
      captured := [];
    }

    /** Return to the cut before an unaccepted record. */
    method Rollback(before: SourcePosition, admitted: bool, ghost had: seq<byte>, ghost p: Progress)
      returns (refused: bool)
      requires src.Valid() && before.identity == src.identity
      requires had <= src.file && before.offset <= |had| && AtCut(src.cfg, had, before.offset) == Some(p)
      requires p.error.None? && before.index == src.base + p.index
      modifies src
      ensures src.file == old(src.file) && src.replayEnd == old(src.replayEnd) && src.base == old(src.base)
      ensures refused == !admitted
      ensures !refused ==> src.Valid() && src.offset == before.offset && src.recordIndex == before.index
      ensures !refused ==> src.now == p
    {
      hide At; hide Rest; hide FileReplaySource.Valid; hide F.IdentityHolds;
      AtPrefix(src.cfg, had, src.file, 0, Start(src.cfg), before.offset);
      src.Facts();
      var r := src.Seek(before, admitted);
      refused := r.Some?;
    }

    /** `poll_decoded`. `answer` and `admitted` are what the quarantine says if it is asked. */
    method PollDecoded(budget: nat, answer: Answer, admitted: bool) returns (r: PollResult)
      requires Valid()
      modifies this, src
      ensures old(src.file) <= src.file && src.base == old(src.base)
      ensures r.Ok? ==> Valid()
      ensures src.replayEnd == old(src.replayEnd) && (src.cfg.terminal ==> src.file == old(src.file))
      ensures r.Ok? && !r.poll.QuarantineFull? ==> old(src.offset) <= src.offset && old(src.Cursor()) <= src.Cursor()
      ensures r.Ok? && (r.poll.Row? || r.poll.DecodeError? || r.poll.Quarantined?) ==>
                && old(src.offset) < src.offset && src.recordBytes == 0
                && |src.now.events| == |old(src.now.events)| + 1
      ensures r.Ok? && r.poll.Pending? ==> src.Cursor() == old(src.Cursor()) + budget
      ensures r.Ok? ==> old(src.now.events) <= src.now.events
      ensures r.Ok? ==> match r.poll
                        case Row(row) =>
                          && Rows(decode, src.now.events) == old(Rows(decode, src.now.events)) + [row]
                          && captured == old(captured)
                        case DecodeError =>
                          && !quarantined && Rows(decode, src.now.events) == old(Rows(decode, src.now.events))
                        case Quarantined =>
                          && quarantined && Rows(decode, src.now.events) == old(Rows(decode, src.now.events))
                          && |captured| == |old(captured)| + 1 && old(captured) <= captured
                          && captured[|captured| - 1].offset == src.offset
                        case QuarantineFull =>
                          && quarantined && answer.Full? && admitted
                          && src.offset == old(src.offset) && src.recordIndex == old(src.recordIndex)
                          && src.now == old(src.now) && captured == old(captured)
                        case Pending => src.now.events == old(src.now.events) && captured == old(captured)
                        case Eof =>
                          && src.now.events == old(src.now.events) == Whole(src.cfg, src.file).events
                          && captured == old(captured)
      ensures r.Err? && !quarantined ==> captured == old(captured) && src.now.error.Some?
      ensures r.Err? ==>
                || (src.now.error.Some? && src.now == Whole(src.cfg, src.file))
                || (quarantined && Refuses(answer, admitted))
                || (quarantined && src.Valid() && Stuck(decode, src.now))
    {
      hide FileReplaySource.Valid; hide Rows; hide Poison; hide Ascending; hide Payloads; hide Whole; hide AtCut;
      src.Facts();
      ghost var had, p, start := src.file, src.now, src.offset;
      var before := SourcePosition(src.offset, src.recordIndex, src.identity);
      var frame := src.ReadFrame(budget);
      if !frame.HeaderFailed? { src.Facts(); AscendingBelow(captured, start, src.offset); }
      match frame {
        case Ready(payload) =>
          OneMore(decode, p.events, Frame(payload));
          match decode(payload) {
            case Good(row) => return Ok(Row(row));
            case BadRecord =>
              if !quarantined { return Ok(DecodeError); }
              match answer {
                case Stored =>
                  PayloadsSnoc(captured, Capture(src.offset, payload), start);
                  captured := captured + [Capture(src.offset, payload)];
                  return Ok(Quarantined);
                case Broken => return Err;
                case Full =>
                  var refused := Rollback(before, admitted, had, p);
                  if refused { return Err; }
                  return Ok(QuarantineFull);
              }
            case BadOther =>
              if quarantined { return Err; }
              return Ok(DecodeError);
          }
        case RecordTooLong =>
          OneMore(decode, p.events, Oversize);
          // A prefix cannot stand in for the raw record.
          if quarantined { return Err; }
          return Ok(DecodeError);
        case Pending => return Ok(FilePoll.Pending);
        case AtEof => return Ok(Eof);
        case HeaderFailed(_) =>
          FailureIsFinal(src.cfg, src.file, src.offset, src.now);
          return Err;
      }
    }

    /** Whole runs: whatever the quarantine answers and however often it is full, the
        rows handed out are the good records in order, and the quarantine holds the bad
        ones in order, each once; all of the file's once a poll has answered EOF, and all of
        the file at the start after enough polls without a full quarantine. */
    method RunPolls(script: seq<PollStep>) returns (rows: seq<RowId>, eof: bool, failed: bool)
      requires Valid()
      modifies this, src
      ensures old(src.file) <= src.file
      ensures !failed ==> Valid() && Rows(decode, src.now.events) == old(Rows(decode, src.now.events)) + rows
      ensures !failed && quarantined ==> Payloads(captured) == Poison(decode, src.now.events)
      ensures !failed ==> Ascending(captured, src.offset)
      ensures eof ==>
                !failed && Rows(decode, Whole(src.cfg, src.file).events) == old(Rows(decode, src.now.events)) + rows
      ensures eof && quarantined ==> Payloads(captured) == Poison(decode, Whole(src.cfg, src.file).events)
      ensures !failed && (forall s | s in script :: s.budget > 0 && !s.answer.Full?)
              && |script| > 2 * |src.file| - old(src.Cursor() + src.offset) ==>
                Whole(src.cfg, old(src.file)).events <= src.now.events
      ensures failed ==>
                || (src.now.error.Some? && src.now == Whole(src.cfg, src.file))
                || (quarantined && exists s :: s in script && Refuses(s.answer, s.admitted))
                || (quarantined && Stuck(decode, src.now))
    {
      hide Rows; hide Poison; hide Payloads; hide Ascending; hide FileReplaySource.Valid; hide Whole; hide Unfit;
      hide Stuck; hide Refuses;
      rows, eof, failed := [], false, false;
      ghost var all := false;
      for i := 0 to |script|
        invariant Valid() && !failed && old(src.file) <= src.file
        invariant src.cfg.terminal ==> src.file == old(src.file)
        invariant Rows(decode, src.now.events) == old(Rows(decode, src.now.events)) + rows
        invariant eof ==> src.now.events == Whole(src.cfg, src.file).events
        invariant (forall s | s in script :: s.budget > 0 && !s.answer.Full?) ==>
                    && (all ==> Whole(src.cfg, old(src.file)).events <= src.now.events)
                    && (!all ==> src.Cursor() + src.offset >= old(src.Cursor() + src.offset) + i)
      {
        var s := script[i];
        assert s in script;
        var r := PollDecoded(s.budget, s.answer, s.admitted);
        if r.Err? { return rows, false, true; }
        if r.poll.Row? { rows := rows + [r.poll.row]; }
        eof := r.poll.Eof?;
        if eof {
          WholeGrows(src.cfg, old(src.file), src.file);
          all := true;
        }
      }
      src.Inside();
    }

    /** From any state of any run, once the quarantine has room again polling a terminal
        file ends, with every good row handed out and every bad record captured; it fails
        only on a bad header or on a record the quarantine does not take. */
    method DrainPolls(budget: nat) returns (rows: seq<RowId>, failed: bool)
      requires Valid() && src.cfg.terminal && 0 < budget
      modifies this, src
      ensures src.file == old(src.file)
      ensures !failed ==>
                && Valid() && Rows(decode, Whole(src.cfg, src.file).events) == old(Rows(decode, src.now.events)) + rows
                && (quarantined ==> Payloads(captured) == Poison(decode, Whole(src.cfg, src.file).events))
      ensures failed ==>
                || Whole(src.cfg, src.file).error.Some?
                || (quarantined && exists e :: e in Whole(src.cfg, src.file).events && Unfit(decode, e))
    {
      hide Rows; hide Poison; hide Payloads; hide Ascending; hide FileReplaySource.Valid; hide Whole; hide Unfit;
      rows, failed := [], false;
      while true
        invariant Valid() && !failed && src.file == old(src.file)
        invariant Rows(decode, src.now.events) == old(Rows(decode, src.now.events)) + rows
        decreases 2 * |src.file| - src.Cursor() - src.offset
      {
        src.Inside();
        var r := PollDecoded(budget, Stored, true);
        if r.Err? {
          if src.now.error.None? {
            src.Ahead();
            assert src.now.events[|src.now.events| - 1] in Whole(src.cfg, src.file).events;
          }
          return rows, true;
        }
        src.Inside();
        if r.poll.Row? { rows := rows + [r.poll.row]; }
        if r.poll.Eof? { return; }
      }
    }

    /** `poll_decoded_batch`. `tracked` is the accounted size of a row. */
    method PollBatch(maxFrames: nat, maxBytes: nat, budget: nat, tracked: RowId -> nat,
                     answers: nat -> (Answer, bool))
      returns (r: Option<seq<FilePoll>>)
      requires Valid()
      modifies this, src
      ensures r.Some? ==>
                && Valid() && BatchShape(r.value) && 1 <= |r.value| <= (if maxFrames == 0 then 1 else maxFrames)
                && Rows(decode, src.now.events) == old(Rows(decode, src.now.events)) + RowsOf(r.value)
                && (|r.value| < maxFrames ==> Ends(r.value[|r.value| - 1]) || Accounted(tracked, r.value) > maxBytes)
                && (r.value[|r.value| - 1].Eof? ==> src.now.events == Whole(src.cfg, src.file).events)
                && (0 < budget && !Ends(r.value[0]) ==> old(src.offset) < src.offset)
                && (r.value[0].Pending? ==> src.Cursor() == old(src.Cursor()) + budget)
      ensures r.None? ==>
                || (src.now.error.Some? && src.now == Whole(src.cfg, src.file))
                || (quarantined && exists k :: 0 <= k <= maxFrames && Refuses(answers(k).0, answers(k).1))
                || (quarantined && Stuck(decode, src.now))
    {
      hide Rows; hide Poison; hide Payloads; hide Ascending; hide FileReplaySource.Valid; hide RowsOf; hide Accounted;
      hide Whole; hide Unfit; hide Stuck; hide Refuses;
      var frames := if maxFrames == 0 then 1 else maxFrames;
      var out: seq<FilePoll> := [];
      var bytes := 0;
      EmptyRows(tracked);
      while |out| < frames
        invariant Valid() && |out| <= frames
        invariant forall i | 0 <= i < |out| :: out[i].Row? || out[i].DecodeError? || out[i].Quarantined?
        invariant Rows(decode, src.now.events) == old(Rows(decode, src.now.events)) + RowsOf(out)
        invariant bytes == Accounted(tracked, out)
        invariant out == [] ==> src.Cursor() == old(src.Cursor()) && src.offset == old(src.offset)
        invariant out != [] ==> old(src.offset) < src.offset
      {
        var (answer, admitted) := answers(|out|);
        var result := PollDecoded(budget, answer, admitted);
        if result.Err? { return None; }
        var poll := result.poll;
        RowsOfSnoc(out, poll);
        AccountedSnoc(tracked, out, poll);
        match poll {
          case Row(row) =>
            var size := tracked(row);
            if out != [] && bytes + size > maxBytes { return Some(out + [poll]); }
            bytes := bytes + size;
            out := out + [poll];
          case DecodeError => out := out + [poll];
          case Quarantined => out := out + [poll];
          case Eof => return Some(out + [poll]);
          case Pending => return Some(out + [poll]);
          case QuarantineFull => return Some(out + [poll]);
        }
      }
      return Some(out);
    }
  }

  lemma EmptyRows(tracked: RowId -> nat)
    ensures RowsOf([]) == [] && Accounted(tracked, []) == 0
  {
  }
}
