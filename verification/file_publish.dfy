/**
  Publishing decoded polls to the inbox: the batched drive against the per-item
  one it replaces, with cancellation and a closing inbox at any point.
 */
module FilePublish {
  import opened FilePolls

  datatype Event = RowEvent(row: RowId) | TerminalWatermark

  datatype Progress = Continue | Wait | Done

  datatype Status = Going(progress: Progress) | DecodeFailed

  /** What a drive has done so far. */
  datatype Tally = Tally(
    inbox: seq<Event>,
    terminalSent: bool,
    ingested: nat,
    decodeErrors: nat,
    quarantined: nat)

  datatype Policy = Policy(eofIsTerminal: bool, failOnDecode: bool)

  /** One poll, applied with nothing in its way. */
  function Applied(p: Policy, t: Tally, poll: FilePoll): Tally {
    match poll
    case Row(row) => t.(inbox := t.inbox + [RowEvent(row)], ingested := t.ingested + 1)
    case DecodeError => t.(decodeErrors := t.decodeErrors + 1)
    case Quarantined => t.(decodeErrors := t.decodeErrors + 1, quarantined := t.quarantined + 1)
    case QuarantineFull => t
    case Pending => t
    case Eof =>
      if p.eofIsTerminal && !t.terminalSent then t.(inbox := t.inbox + [TerminalWatermark], terminalSent := true)
      else t
  }

  function StatusOf(p: Policy, poll: FilePoll): Status {
    match poll
    case Row(_) => Going(Continue)
    case DecodeError => if p.failOnDecode then DecodeFailed else Going(Continue)
    case Quarantined => Going(Continue)
    case QuarantineFull => Going(Wait)
    case Pending => Going(Continue)
    case Eof => Going(if p.eofIsTerminal then Done else Wait)
  }

  predicate Stops(s: Status) { s == DecodeFailed || s == Going(Done) }

  /** The per-item drive over the first `n` polls: it ends at an error or `Done`, and
      returns the status of the last poll it applied. */
  function EachItem(p: Policy, t: Tally, polls: seq<FilePoll>, n: nat): (Tally, Status)
    requires n <= |polls|
  {
    if n == 0 then (t, Going(Continue))
    else
      var (u, s) := EachItem(p, t, polls, n - 1);
      if Stops(s) then (u, s) else (Applied(p, u, polls[n - 1]), StatusOf(p, polls[n - 1]))
  }

  /** The status a batched drive holds: that of the last poll that was not a row. */
  function Held(p: Policy, t: Tally, polls: seq<FilePoll>, n: nat): Status
    requires n <= |polls|
  {
    if n == 0 then Going(Continue)
    else
      var s := Held(p, t, polls, n - 1);
      if Stops(s) || polls[n - 1].Row? then s else StatusOf(p, polls[n - 1])
  }

  /** The two drives answer the same unless the last poll is a row behind a wait. */
  lemma {:induction false} SameAnswer(p: Policy, t: Tally, polls: seq<FilePoll>, n: nat)
    requires n <= |polls|
    ensures Stops(EachItem(p, t, polls, n).1) <==> Stops(Held(p, t, polls, n))
    ensures EachItem(p, t, polls, n).1 == Held(p, t, polls, n)
            <==> !(n > 0 && polls[n - 1].Row? && Held(p, t, polls, n) == Going(Wait))
  {
    if n > 0 { SameAnswer(p, t, polls, n - 1); }
  }

  /** A batch of the shape the reader makes waits only at its end. */
  lemma {:induction false} ShapedNeverWaits(p: Policy, t: Tally, polls: seq<FilePoll>, n: nat)
    requires BatchShape(polls) && n < |polls|
    ensures Held(p, t, polls, n) != Going(Wait)
  {
    if n > 0 { ShapedNeverWaits(p, t, polls, n - 1); }
  }

  lemma ShapedAnswer(p: Policy, t: Tally, polls: seq<FilePoll>)
    requires BatchShape(polls)
    ensures EachItem(p, t, polls, |polls|).1 == Held(p, t, polls, |polls|)
  {
    SameAnswer(p, t, polls, |polls|);
    if |polls| > 0 { ShapedNeverWaits(p, t, polls, |polls| - 1); }
  }

  /** Without that shape the answers differ. */
  lemma UnshapedAnswer(p: Policy, t: Tally, row: RowId)
    ensures var polls := [QuarantineFull, FilePoll.Row(row)];
            EachItem(p, t, polls, 2).1 == Going(Continue) && Held(p, t, polls, 2) == Going(Wait)
  {
    var polls := [QuarantineFull, FilePoll.Row(row)];
    assert EachItem(p, t, polls, 1) == (t, Going(Wait));
    assert Held(p, t, polls, 1) == Going(Wait);
  }

  // ---- What a drive sends ------------------------------------------------------

  /** Polls that neither end the file nor the drive. */
  predicate Ordinary(p: Policy, poll: FilePoll) { !poll.Eof? && !(poll.DecodeError? && p.failOnDecode) }

  function RowEvents(rows: seq<RowId>): seq<Event> {
    seq(|rows|, i requires 0 <= i < |rows| => RowEvent(rows[i]))
  }

  function Bad(polls: seq<FilePoll>): nat {
    if polls == [] then 0
    else
      var last := polls[|polls| - 1];
      Bad(polls[..|polls| - 1]) + if last.DecodeError? || last.Quarantined? then 1 else 0
  }

  /** Over ordinary polls the inbox grows by exactly their rows, in order. */
  lemma {:induction false} DriveSends(p: Policy, t: Tally, polls: seq<FilePoll>, n: nat)
    requires n <= |polls| && forall i | 0 <= i < n :: Ordinary(p, polls[i])
    ensures var (u, s) := EachItem(p, t, polls, n);
            && u.inbox == t.inbox + RowEvents(RowsOf(polls[..n])) && u.terminalSent == t.terminalSent
            && u.ingested == t.ingested + |RowsOf(polls[..n])| && u.decodeErrors == t.decodeErrors + Bad(polls[..n])
            && s == if n > 0 && polls[n - 1].QuarantineFull? then Going(Wait) else Going(Continue)
  {
    hide Applied; hide StatusOf; hide RowsOf; hide Bad; hide RowEvents;
    if n == 0 {
      NothingSent(t);
      assert polls[..0] == [];
    } else {
      DriveSends(p, t, polls, n - 1);
      var last := polls[n - 1];
      var rows := RowsOf(polls[..n - 1]);
      OrdinaryPoll(p, EachItem(p, t, polls, n - 1).0, last);
      assert polls[..n] == polls[..n - 1] + [last];
      RowsOfSnoc(polls[..n - 1], last);
      BadSnoc(polls[..n - 1], last);
      EventsSnoc(t.inbox, rows, last);
    }
  }

  lemma NothingSent(t: Tally)
    ensures t.inbox + RowEvents(RowsOf([])) == t.inbox && Bad([]) == 0 && RowsOf([]) == []
  {
  }

  lemma OrdinaryPoll(p: Policy, t: Tally, poll: FilePoll)
    requires Ordinary(p, poll)
    ensures var u := Applied(p, t, poll);
            && u.inbox == t.inbox + (if poll.Row? then [RowEvent(poll.row)] else [])
            && u.ingested == t.ingested + (if poll.Row? then 1 else 0) && u.terminalSent == t.terminalSent
            && u.decodeErrors == t.decodeErrors + (if poll.DecodeError? || poll.Quarantined? then 1 else 0)
    ensures StatusOf(p, poll) == if poll.QuarantineFull? then Going(Wait) else Going(Continue)
  {
    assert t.inbox + [] == t.inbox;
  }

  lemma BadSnoc(polls: seq<FilePoll>, p: FilePoll)
    ensures Bad(polls + [p]) == Bad(polls) + if p.DecodeError? || p.Quarantined? then 1 else 0
  {
    assert (polls + [p])[..|polls|] == polls;
  }

  lemma EventsSnoc(inbox: seq<Event>, rows: seq<RowId>, poll: FilePoll)
    ensures inbox + RowEvents(rows) + (if poll.Row? then [RowEvent(poll.row)] else []) ==
            inbox + RowEvents(rows + if poll.Row? then [poll.row] else [])
  {
    if poll.Row? {
      assert RowEvents(rows + [poll.row]) == RowEvents(rows) + [RowEvent(poll.row)];
    } else {
      assert rows + [] == rows;
    }
  }

  /** The end of a terminal file sends the watermark behind all rows, unless it was sent
      before, and ends the drive; the end of a growing file waits; a decode error that is
      fatal fails the drive. */
  lemma DriveEnds(p: Policy, t: Tally, polls: seq<FilePoll>, n: nat)
    requires n < |polls| && !Ordinary(p, polls[n]) && forall i | 0 <= i < n :: Ordinary(p, polls[i])
    ensures var (u, s) := EachItem(p, t, polls, n + 1);
            var sent := t.inbox + RowEvents(RowsOf(polls[..n]));
            if polls[n].DecodeError? then s == DecodeFailed && u.inbox == sent
            else if p.eofIsTerminal then
              && s == Going(Done) && u.terminalSent
              && u.inbox == sent + if t.terminalSent then [] else [TerminalWatermark]
            else s == Going(Wait) && u.inbox == sent
  {
    DriveSends(p, t, polls, n);
    var sent := t.inbox + RowEvents(RowsOf(polls[..n]));
    assert sent + [] == sent;
  }

  lemma {:induction false} EachItemGrows(p: Policy, t: Tally, polls: seq<FilePoll>, m: nat, n: nat)
    requires m <= n <= |polls|
    ensures EachItem(p, t, polls, m).0.inbox <= EachItem(p, t, polls, n).0.inbox
    ensures Stops(EachItem(p, t, polls, m).1) ==> EachItem(p, t, polls, n) == EachItem(p, t, polls, m)
    ensures Stops(Held(p, t, polls, m)) ==> Held(p, t, polls, n) == Held(p, t, polls, m)
  {
    if m < n { EachItemGrows(p, t, polls, m, n - 1); }
  }

  /** One poll of a drive that goes on, and what it means for the whole. */
  lemma EachItemStep(p: Policy, t: Tally, polls: seq<FilePoll>, i: nat)
    requires i < |polls| && !Stops(Held(p, t, polls, i))
    ensures var all, status := EachItem(p, t, polls, |polls|).0, StatusOf(p, polls[i]);
            && EachItem(p, t, polls, i + 1).0 == Applied(p, EachItem(p, t, polls, i).0, polls[i])
            && EachItem(p, t, polls, i).0.inbox <= EachItem(p, t, polls, i + 1).0.inbox <= all.inbox
            && Held(p, t, polls, i + 1) == (if polls[i].Row? then Held(p, t, polls, i) else status)
            && (Stops(status) ==> all == EachItem(p, t, polls, i + 1).0 && Held(p, t, polls, |polls|) == status)
  {
    SameAnswer(p, t, polls, i);
    SameAnswer(p, t, polls, i + 1);
    EachItemGrows(p, t, polls, i + 1, |polls|);
  }

  /** The tally once pending rows are published. */
  function Published(t: Tally, rows: seq<Event>): Tally {
    t.(inbox := t.inbox + rows, ingested := t.ingested + |rows|)
  }

  lemma PublishedRow(p: Policy, t: Tally, rows: seq<Event>, row: RowId)
    ensures Published(t, []) == t
    ensures Applied(p, Published(t, rows), FilePoll.Row(row)) == Published(t, rows + [RowEvent(row)])
  {
    assert t.inbox + [] == t.inbox;
    assert t.inbox + rows + [RowEvent(row)] == t.inbox + (rows + [RowEvent(row)]);
  }

  function RowsIn(events: seq<Event>): nat {
    if events == [] then 0
    else RowsIn(events[..|events| - 1]) + if events[|events| - 1].RowEvent? then 1 else 0
  }

  function Watermarks(events: seq<Event>): nat {
    if events == [] then 0
    else Watermarks(events[..|events| - 1]) + if events[|events| - 1].TerminalWatermark? then 1 else 0
  }

  lemma Snoc(events: seq<Event>, e: Event)
    ensures RowsIn(events + [e]) == RowsIn(events) + if e.RowEvent? then 1 else 0
    ensures Watermarks(events + [e]) == Watermarks(events) + if e.TerminalWatermark? then 1 else 0
  {
    assert (events + [e])[..|events|] == events;
  }

  lemma {:induction false} AllRows(events: seq<Event>, rows: seq<Event>)
    requires forall e | e in rows :: e.RowEvent?
    ensures RowsIn(events + rows) == RowsIn(events) + |rows|
    ensures Watermarks(events + rows) == Watermarks(events)
  {
    if rows == [] {
      assert events + rows == events;
    } else {
      var init := rows[..|rows| - 1];
      AllRows(events, init);
      Snoc(events + init, rows[|rows| - 1]);
      assert events + rows == events + init + [rows[|rows| - 1]];
    }
  }

  class Publisher {
    const policy: Policy
    /** The smaller of the inbox capacity and the publish limit. */
    const limit: nat
    /** At which await points the job is cancelled and the receiver goes away. */
    const cancels: nat -> bool
    const closes: nat -> bool
    var awaits: nat
    var tally: Tally
    var cancelled: bool
    var closed: bool

    ghost predicate Valid()
      reads this
    {
      Disturbed() && 1 <= limit && RowsIn(tally.inbox) == tally.ingested
      && Watermarks(tally.inbox) <= if tally.terminalSent then 1 else 0
    }

    /** Cancellation and closing come from outside only. */
    ghost predicate Disturbed()
      reads `awaits, `cancelled, `closed
    {
      && (cancelled <==> exists i :: 0 <= i < awaits && cancels(i))
      && (closed <==> exists i :: 0 <= i < awaits && closes(i))
    }

    constructor (policy: Policy, limit: nat, cancels: nat -> bool, closes: nat -> bool)
      requires 1 <= limit
      ensures Valid() && this.policy == policy && this.limit == limit && tally == Tally([], false, 0, 0, 0)
      ensures this.cancels == cancels && this.closes == closes && awaits == 0
    {
      this.policy, this.limit, this.cancels, this.closes := policy, limit, cancels, closes;
      awaits, cancelled, closed := 0, false, false;
      tally := Tally([], false, 0, 0, 0);
    }

    /** The job may be cancelled, and the receiver may go away, at any await point. */
    method Await()
      requires Disturbed()
      modifies `awaits, `cancelled, `closed
      ensures Disturbed()
      ensures old(cancelled) ==> cancelled
      ensures old(closed) ==> closed
    {
      cancelled, closed := cancelled || cancels(awaits), closed || closes(awaits);
      awaits := awaits + 1;
    }

    /** A chunk of rows is sent whole, and counted, or not at all. */
    method PublishRows(rows: seq<Event>) returns (ok: bool)
      requires Valid() && |rows| <= limit && forall e | e in rows :: e.RowEvent?
      modifies `tally, `awaits, `cancelled, `closed
      ensures Valid()
      ensures old(cancelled) ==> cancelled
      ensures old(closed) ==> closed
      ensures !cancelled && !closed ==> ok
      ensures tally == if ok then Published(old(tally), rows) else old(tally)
    {
      if rows == [] {
        assert tally.inbox + rows == tally.inbox;
        return true;
      }
      Await();
      if cancelled || closed { return false; }
      AllRows(tally.inbox, rows);
      tally := Published(tally, rows);
      ok := true;
    }

    /** One event is sent, unless the wait for room is interrupted. */
    method Send(e: Event) returns (ok: bool)
      requires Disturbed()
      modifies `tally, `awaits, `cancelled, `closed
      ensures old(cancelled) ==> cancelled
      ensures old(closed) ==> closed
      ensures Disturbed() && (!cancelled && !closed ==> ok)
      ensures tally == if ok then old(tally).(inbox := old(tally).inbox + [e]) else old(tally)
    {
      Await();
      if cancelled || closed { return false; }
      tally := tally.(inbox := tally.inbox + [e]);
      ok := true;
    }

    /** One poll. Interrupted, it sends no more than it would have; a row is counted as
        ingested before it is sent, so an interrupted one stays counted. */
    method ApplyPoll(poll: FilePoll) returns (r: Status)
      requires Valid()
      modifies `tally, `awaits, `cancelled, `closed
      ensures !poll.Row? || !Stops(r) || tally == old(tally) ==> Valid()
      ensures poll.Row? && tally != old(tally) ==> tally.ingested == old(tally).ingested + 1
      ensures old(cancelled) ==> cancelled
      ensures old(closed) ==> closed
      ensures old(tally).inbox <= tally.inbox <= Applied(policy, old(tally), poll).inbox
      ensures !cancelled && !closed ==> tally == Applied(policy, old(tally), poll) && r == StatusOf(policy, poll)
      ensures !Stops(r) ==> tally == Applied(policy, old(tally), poll) && r == StatusOf(policy, poll)
      ensures r == DecodeFailed ==> tally == Applied(policy, old(tally), poll) && r == StatusOf(policy, poll)
    {
      hide RowsIn; hide Watermarks; hide Disturbed;
      Await();
      if cancelled { return Going(Done); }
      match poll {
        case Row(row) =>
          tally := tally.(ingested := tally.ingested + 1);
          Snoc(tally.inbox, RowEvent(row));
          var sent := Send(RowEvent(row));
          return Going(if sent then Continue else Done);
        case QuarantineFull => return Going(Wait);
        case Quarantined =>
          tally := tally.(decodeErrors := tally.decodeErrors + 1, quarantined := tally.quarantined + 1);
          return Going(Continue);
        case Pending =>
          Await();
          if cancelled { return Going(Done); }
          return Going(Continue);
        case DecodeError =>
          tally := tally.(decodeErrors := tally.decodeErrors + 1);
          if policy.failOnDecode { return DecodeFailed; }
          return Going(Continue);
        case Eof =>
          if !policy.eofIsTerminal { return Going(Wait); }
          if !tally.terminalSent {
            tally := tally.(terminalSent := true);
            Snoc(tally.inbox, TerminalWatermark);
            var _ := Send(TerminalWatermark);
          }
          return Going(Done);
      }
    }

    /** The batched drive. Undisturbed it does what the per-item drive does; disturbed it
        does too or stops with `Done` after a prefix of that, and `Valid` still ties the
        counts to what was sent. */
    method ApplyBatch(polls: seq<FilePoll>) returns (r: Status)
      requires Valid()
      modifies `tally, `awaits, `cancelled, `closed
      ensures Valid()
      ensures old(cancelled) ==> cancelled
      ensures old(closed) ==> closed
      ensures old(tally).inbox <= tally.inbox <= EachItem(policy, old(tally), polls, |polls|).0.inbox
      ensures !cancelled && !closed ==>
                && tally == EachItem(policy, old(tally), polls, |polls|).0
                && r == Held(policy, old(tally), polls, |polls|)
                && (BatchShape(polls) ==> r == EachItem(policy, old(tally), polls, |polls|).1)
      ensures r != Going(Done) ==>
                && tally == EachItem(policy, old(tally), polls, |polls|).0
                && r == Held(policy, old(tally), polls, |polls|)
    {
      hide EachItem; hide Held; hide StatusOf; hide Applied; hide RowsIn; hide Watermarks; hide Disturbed;
      var rows: seq<Event> := [];
      r := Going(Continue);
      ghost var start := tally;
      PublishedRow(policy, start, [], 0);
      NothingApplied(policy, start, polls);
      if BatchShape(polls) { ShapedAnswer(policy, start, polls); }
      for i := 0 to |polls|
        invariant Valid() && |rows| < limit && forall e | e in rows :: e.RowEvent?
        invariant old(cancelled) ==> cancelled
        invariant old(closed) ==> closed
        invariant !Stops(r) && r == Held(policy, start, polls, i)
        invariant start.inbox <= tally.inbox
        invariant EachItem(policy, start, polls, i).0 == Published(tally, rows)
      {
        var poll := polls[i];
        EachItemStep(policy, start, polls, i);
        if poll.Row? {
          PublishedRow(policy, tally, rows, poll.row);
          rows := rows + [RowEvent(poll.row)];
        }
        if |rows| == limit || !poll.Row? {
          var sent := PublishRows(rows);
          if !sent { return Going(Done); }
          rows := [];
          PublishedRow(policy, tally, [], 0);
        }
        if !poll.Row? {
          r := ApplyPoll(poll);
          if Stops(r) { return r; }
          PublishedRow(policy, tally, [], 0);
        }
      }
      var sent := PublishRows(rows);
      if !sent { return Going(Done); }
    }

    /** All the batches of a run: undisturbed it does what the per-item drive does batch by
        batch, disturbed it does too or stops with `Done` after a prefix of that; always the
        terminal watermark goes out at most once, and `ingested` is the number of rows sent. */
    method Drive(batches: seq<seq<FilePoll>>) returns (r: Status)
      requires Valid()
      modifies `tally, `awaits, `cancelled, `closed
      ensures Valid() && Watermarks(tally.inbox) <= 1 && RowsIn(tally.inbox) == tally.ingested
      ensures old(tally).inbox <= tally.inbox <= EachBatch(policy, old(tally), batches, |batches|).0.inbox
      ensures (!cancelled && !closed) || r != Going(Done) ==>
                (tally, r) == EachBatch(policy, old(tally), batches, |batches|)
    {
      hide EachItem; hide Held; hide RowsIn; hide Watermarks; hide Disturbed;
      r := Going(Continue);
      for i := 0 to |batches|
        invariant Valid() && old(tally).inbox <= tally.inbox && !Stops(r)
        invariant (tally, r) == EachBatch(policy, old(tally), batches, i)
      {
        EachBatchGrows(policy, old(tally), batches, i + 1, |batches|);
        r := ApplyBatch(batches[i]);
        if Stops(r) { return; }
      }
    }
  }

  /** The drives of the first `n` batches, until one stops. */
  function EachBatch(p: Policy, t: Tally, batches: seq<seq<FilePoll>>, n: nat): (Tally, Status)
    requires n <= |batches|
  {
    if n == 0 then (t, Going(Continue))
    else
      var (u, s) := EachBatch(p, t, batches, n - 1);
      var b := batches[n - 1];
      if Stops(s) then (u, s) else (EachItem(p, u, b, |b|).0, Held(p, u, b, |b|))
  }

  lemma {:induction false} EachBatchGrows(p: Policy, t: Tally, batches: seq<seq<FilePoll>>, m: nat, n: nat)
    requires m <= n <= |batches|
    ensures EachBatch(p, t, batches, m).0.inbox <= EachBatch(p, t, batches, n).0.inbox
    ensures Stops(EachBatch(p, t, batches, m).1) ==> EachBatch(p, t, batches, n) == EachBatch(p, t, batches, m)
  {
    hide EachItem; hide Held;
    if m < n {
      EachBatchGrows(p, t, batches, m, n - 1);
      var u, b := EachBatch(p, t, batches, n - 1).0, batches[n - 1];
      EachItemGrows(p, u, b, 0, |b|);
      NothingApplied(p, u, b);
    }
  }

  lemma NothingApplied(p: Policy, t: Tally, polls: seq<FilePoll>)
    ensures EachItem(p, t, polls, 0).0 == t && Held(p, t, polls, 0) == Going(Continue)
  {
  }
}
