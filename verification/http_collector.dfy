/**
  The HTTP sink collector as a step system: the group/carry/in-flight loop, its
  select arms, the producer, the posting tasks, cancellation and shutdown, in any
  interleaving.
 */
module HttpCollector {
  import opened Bytes

  type BatchId = nat

  datatype Phase = Top | Select | Closing | Stopped

  /** A spawned post; a finished one stays in the set until it is joined. */
  datatype Task = Task(ids: seq<BatchId>, finished: bool)

  datatype State = State(
    phase: Phase,
    /** Batches the channel has accepted, in order. */
    sent: seq<BatchId>,
    queue: seq<BatchId>,
    sendersGone: bool,
    cancelled: bool,
    group: Option<seq<BatchId>>,
    carry: Option<seq<BatchId>>,
    tasks: seq<Task>,
    closed: bool,
    flush: bool,
    force: Option<nat>,
    acked: seq<BatchId>,
    failed: seq<BatchId>,
    /** Batches handed to post tasks, in order. */
    launched: seq<BatchId>)

  /** What happens to a received batch: its encoding fails, it starts the group, or the
      merge with the group succeeds, keeps them apart, or gives the group up. */
  datatype Encoding = Refused | Merges | Separates | Discards

  datatype Event =
    | Send(b: BatchId)
    | SendersDrop
    | Cancel
    | Finish(task: nat, ok: bool)
    | Turn(due: bool)
    | CancelArm
    | JoinArm(task: nat)
    | FlushArm(target: nat)
    | TimerArm
    | RecvArm(encoding: Encoding)
    | Shutdown

  const INIT := State(Top, [], [], false, false, None, None, [], false, false, None, [], [], [])

  function Ids(d: Option<seq<BatchId>>): seq<BatchId> {
    match d
    case None => []
    case Some(ids) => ids
  }

  function Running(tasks: seq<Task>): seq<BatchId> {
    if tasks == [] then []
    else Running(tasks[..|tasks| - 1]) +
         (if tasks[|tasks| - 1].finished then [] else tasks[|tasks| - 1].ids)
  }

  // ---- The guards of the select arms -----------------------------------------

  predicate JoinGuard(s: State) { s.tasks != [] }

  predicate TimerGuard(s: State) { s.group.Some? && !s.flush }

  predicate RecvGuard(s: State, max: nat) {
    !s.closed && s.carry.None? && !s.flush && |s.tasks| < max
  }

  predicate Enabled(s: State, e: Event, max: nat) {
    match e
    case Send(b) => (s.phase.Top? || s.phase.Select?) && !s.sendersGone && b !in s.sent
    case SendersDrop => true
    case Cancel => true
    case Finish(i, _) => i < |s.tasks| && !s.tasks[i].finished && !s.phase.Stopped?
    case Turn(_) => s.phase.Top?
    case CancelArm => s.phase.Select? && s.cancelled
    case JoinArm(i) => s.phase.Select? && i < |s.tasks| && s.tasks[i].finished
    case FlushArm(_) => s.phase.Select?
    case TimerArm => s.phase.Select? && TimerGuard(s)
    case RecvArm(_) => s.phase.Select? && RecvGuard(s, max) && (s.queue != [] || s.sendersGone)
    case Shutdown => s.phase.Closing?
  }

  /** Leaving the loop: the receiver closes, and unsent groups fail their receipts. */
  function Leave(s: State): State {
    s.(phase := Closing, group := None, carry := None, failed := s.failed + Ids(s.group) + Ids(s.carry))
  }

  /** The end of a loop turn that ran a select arm. */
  function EndTurn(s: State): State {
    s.(phase := Top, flush := s.flush && (s.group.Some? || s.carry.Some?))
  }

  /** A reached flush target is forgotten, and a carried batch becomes the group as soon
      as a request slot is free. */
  function Promote(s: State, max: nat): State {
    var force := if s.force.Some? && |s.acked| + |s.failed| >= s.force.value then None else s.force;
    if s.group.None? && |s.tasks| < max then s.(force := force, group := s.carry, carry := None)
    else s.(force := force)
  }

  predicate Launches(s: State, due: bool, max: nat) {
    s.group.Some? && (s.flush || (s.force.Some? && s.queue == []) || s.closed || due) && |s.tasks| < max
  }

  function Launch(s: State): State
    requires s.group.Some?
  {
    s.(tasks := s.tasks + [Task(s.group.value, false)], launched := s.launched + s.group.value,
       group := None, flush := false)
  }

  /** The top of the loop, up to launching a group, leaving, or waiting in `select!`.
      `due` covers the row, byte and linger limits of the group. */
  function LoopTop(s0: State, due: bool, max: nat): State {
    if s0.cancelled then Leave(s0)
    else
      var s := Promote(s0, max);
      if Launches(s, due, max) then Launch(s)
      else if s.closed && s.group.None? && s.carry.None? && s.tasks == [] then Leave(s)
      else s.(phase := Select)
  }

  function Receive(s: State, encoding: Encoding): State {
    if s.queue == [] then s.(closed := true)
    else
      var b := s.queue[0];
      var t := s.(queue := s.queue[1..]);
      if encoding.Refused? then t.(failed := t.failed + [b])
      else if t.group.None? then t.(group := Some([b]))
      else if encoding.Merges? then t.(group := Some(t.group.value + [b]))
      else if encoding.Separates? then t.(carry := Some([b]), flush := true)
      else t.(failed := t.failed + t.group.value, group := None, carry := Some([b]))
  }

  function Step(s: State, e: Event, max: nat): State
    requires Enabled(s, e, max)
  {
    match e
    case Send(b) => s.(sent := s.sent + [b], queue := s.queue + [b])
    case SendersDrop => s.(sendersGone := true)
    case Cancel => s.(cancelled := true)
    case Finish(i, ok) =>
      var t := s.tasks[i];
      var u := s.(tasks := s.tasks[i := t.(finished := true)]);
      if ok then u.(acked := u.acked + t.ids) else u.(failed := u.failed + t.ids)
    case Turn(due) => LoopTop(s, due, max)
    case CancelArm => Leave(s)
    case JoinArm(i) => EndTurn(s.(tasks := s.tasks[..i] + s.tasks[i + 1..]))
    case FlushArm(target) => EndTurn(s.(force := Some(target)))
    case TimerArm => EndTurn(s.(flush := true))
    case RecvArm(encoding) => EndTurn(Receive(s, encoding))
    case Shutdown =>
      s.(phase := Stopped, failed := s.failed + Running(s.tasks) + s.queue, tasks := [], queue := [])
  }

  /** Running a list of events; `None` when one of them was not enabled. */
  function Run(events: seq<Event>, max: nat): Option<State> {
    if events == [] then Some(INIT)
    else
      var before := Run(events[..|events| - 1], max);
      var e := events[|events| - 1];
      if before.Some? && Enabled(before.value, e, max) then Some(Step(before.value, e, max)) else None
  }

  // ---- Order-preserving subsequences -----------------------------------------

  predicate Subseq(x: seq<BatchId>, y: seq<BatchId>)
    decreases |y|
  {
    x == [] ||
    (y != [] && (Subseq(x, y[..|y| - 1]) ||
                 (x[|x| - 1] == y[|y| - 1] && Subseq(x[..|x| - 1], y[..|y| - 1]))))
  }

  lemma SubseqSnoc(x: seq<BatchId>, y: seq<BatchId>, b: BatchId)
    requires Subseq(x, y)
    ensures Subseq(x + [b], y + [b])
  {
    assert (x + [b])[..|x|] == x && (y + [b])[..|y|] == y;
  }

  /** Leaving something out of a subsequence leaves a subsequence. */
  lemma {:induction false} SubseqDelete(a: seq<BatchId>, m: seq<BatchId>, c: seq<BatchId>, y: seq<BatchId>)
    requires Subseq(a + m + c, y)
    ensures Subseq(a + c, y)
    decreases |y|, |c|
  {
    var x := a + m + c;
    if a + c != [] && y != [] {
      var z := y[..|y| - 1];
      if Subseq(x, z) {
        SubseqDelete(a, m, c, z);
      } else if c != [] {
        var c' := c[..|c| - 1];
        assert x[..|x| - 1] == a + m + c';
        SubseqDelete(a, m, c', z);
        assert (a + c)[..|a + c| - 1] == a + c';
      } else if m != [] {
        var m' := m[..|m| - 1];
        assert x[..|x| - 1] == a + m' + c;
        SubseqDelete(a, m', c, z);
      } else {
        assert x == a + c;
      }
    }
  }

  // ---- What every step keeps -------------------------------------------------

  /** Every accepted batch is in exactly one place. */
  ghost predicate Conserved(s: State) {
    multiset(s.sent) ==
      multiset(s.queue) + multiset(Ids(s.group)) + multiset(Ids(s.carry)) + multiset(Running(s.tasks))
      + multiset(s.acked) + multiset(s.failed)
  }

  ghost predicate NoRepeats(x: seq<BatchId>) {
    forall i, j | 0 <= i < j < |x| :: x[i] != x[j]
  }

  /** A prefix, the group, the carry and the queue, in launch order. */
  function Line(p: seq<BatchId>, g: seq<BatchId>, c: seq<BatchId>, q: seq<BatchId>): seq<BatchId> {
    p + g + c + q
  }

  /** What was launched and what is still to be launched, in the order it will be. */
  function Ahead(s: State): seq<BatchId> { Line(s.launched, Ids(s.group), Ids(s.carry), s.queue) }

  /** What was acknowledged, what is being posted, and what is still to be posted. */
  function SerialAhead(s: State): seq<BatchId> {
    Line(s.acked + Running(s.tasks), Ids(s.group), Ids(s.carry), s.queue)
  }

  /** Launches happen in arrival order, for any number of requests in flight. */
  ghost predicate Ordered(s: State) {
    Subseq(Ahead(s), s.sent)
  }

  /** With one request in flight, acknowledgements come in arrival order too. */
  ghost predicate Serial(s: State, max: nat) {
    max == 1 ==> Subseq(SerialAhead(s), s.sent)
  }

  ghost predicate Shape(s: State, max: nat) {
    && |s.tasks| <= max
    && (s.closed ==> s.queue == [] && s.sendersGone)
    && (s.phase.Top? || s.phase.Select? ==> s.flush ==> s.group.Some? || s.carry.Some?)
    && (s.group.Some? && s.carry.Some? ==> s.flush)
    && (s.phase.Select? ==>
          && (s.group.None? && s.carry.Some? ==> |s.tasks| >= max)
          && (s.group.Some? && (s.flush || s.closed || (s.force.Some? && s.queue == [])) ==> |s.tasks| >= max)
          && (s.closed && s.group.None? && s.carry.None? ==> s.tasks != []))
    && (s.phase.Closing? || s.phase.Stopped? ==> s.group.None? && s.carry.None?)
    && (s.phase.Stopped? ==> s.queue == [] && s.tasks == [])
  }

  ghost predicate Inv(s: State, max: nat) {
    Conserved(s) && NoRepeats(s.sent) && Ordered(s) && Serial(s, max) && Shape(s, max)
  }

  lemma RunningSnoc(tasks: seq<Task>, t: Task)
    ensures Running(tasks + [t]) == Running(tasks) + if t.finished then [] else t.ids
  {
    assert (tasks + [t])[..|tasks|] == tasks;
  }

  lemma {:induction false} RunningConcat(a: seq<Task>, b: seq<Task>)
    ensures Running(a + b) == Running(a) + Running(b)
  {
    if b == [] {
      assert a + b == a;
    } else {
      var b' := b[..|b| - 1];
      assert (a + b)[..|a + b| - 1] == a + b';
      RunningConcat(a, b');
    }
  }

  /** A finishing task leaves the running ones in place; a joined one was not running. */
  lemma RunningAt(tasks: seq<Task>, i: nat)
    requires i < |tasks|
    ensures var t := tasks[i];
            var before, after := Running(tasks[..i]), Running(tasks[i + 1..]);
            && Running(tasks) == before + (if t.finished then [] else t.ids) + after
            && Running(tasks[i := t.(finished := true)]) == before + after
            && Running(tasks[..i] + tasks[i + 1..]) == before + after
  {
    var t := tasks[i];
    var done := t.(finished := true);
    assert tasks == tasks[..i] + [t] + tasks[i + 1..];
    assert tasks[i := done] == tasks[..i] + [done] + tasks[i + 1..];
    RunningSnoc(tasks[..i], t);
    RunningSnoc(tasks[..i], done);
    RunningConcat(tasks[..i] + [t], tasks[i + 1..]);
    RunningConcat(tasks[..i] + [done], tasks[i + 1..]);
    RunningConcat(tasks[..i], tasks[i + 1..]);
    assert Running(tasks[..i]) + [] == Running(tasks[..i]);
  }

  // Shape.

  lemma TopShape(s: State, due: bool, max: nat)
    requires Shape(s, max) && s.phase.Top?
    ensures Shape(LoopTop(s, due, max), max)
  {
    hide Running; hide Ids;
    if !s.cancelled {
      var t := Promote(s, max);
      assert Shape(t, max);
    }
  }

  lemma RecvShape(s: State, encoding: Encoding, max: nat)
    requires Shape(s, max) && s.phase.Select? && RecvGuard(s, max) && (s.queue != [] || s.sendersGone)
    ensures Shape(EndTurn(Receive(s, encoding)), max)
  {
  }

  lemma StepShape(s: State, e: Event, max: nat)
    requires Shape(s, max) && Enabled(s, e, max)
    ensures Shape(Step(s, e, max), max)
  {
    hide Running; hide Ids; hide LoopTop; hide Receive;
    match e {
      case Turn(due) => TopShape(s, due, max);
      case RecvArm(encoding) => RecvShape(s, encoding, max);
      case _ =>
    }
  }

  // Conservation.

  lemma LaunchConserves(s: State)
    requires Conserved(s) && s.group.Some?
    ensures Conserved(Launch(s))
  {
    hide Running;
    RunningSnoc(s.tasks, Task(s.group.value, false));
  }

  lemma TopConserves(s: State, due: bool, max: nat)
    requires Conserved(s)
    ensures Conserved(LoopTop(s, due, max))
  {
    hide Running; hide Launch; hide Conserved; hide Promote; hide Leave;
    var t := Promote(s, max);
    PromoteConserves(s, max);
    LeaveConserves(s);
    LeaveConserves(t);
    WaitConserves(t);
    if Launches(t, due, max) { LaunchConserves(t); }
  }

  lemma PromoteConserves(s: State, max: nat)
    requires Conserved(s)
    ensures Conserved(Promote(s, max))
  {
    hide Running;
  }

  lemma LeaveConserves(s: State)
    requires Conserved(s)
    ensures Conserved(Leave(s))
  {
    hide Running;
  }

  lemma WaitConserves(s: State)
    requires Conserved(s)
    ensures Conserved(s.(phase := Select))
  {
    hide Running;
  }

  lemma RecvConserves(s: State, encoding: Encoding, max: nat)
    requires Conserved(s) && RecvGuard(s, max)
    ensures Conserved(EndTurn(Receive(s, encoding)))
  {
    hide Running; hide Held; hide Receive;
    HeldIs(s);
    HeldIs(EndTurn(Receive(s, encoding)));
    RecvHolds(s, encoding);
  }

  /** What the collector itself holds or has failed. */
  ghost function Held(s: State): multiset<BatchId> { Tally(s.queue, Ids(s.group), Ids(s.carry), s.failed) }

  ghost function Tally(q: seq<BatchId>, g: seq<BatchId>, c: seq<BatchId>, f: seq<BatchId>): multiset<BatchId> {
    multiset(q) + multiset(g) + multiset(c) + multiset(f)
  }

  lemma HeldIs(s: State)
    ensures Conserved(s) <==> multiset(s.sent) == Held(s) + multiset(Running(s.tasks)) + multiset(s.acked)
  {
    hide Running;
  }

  lemma RecvHolds(s: State, encoding: Encoding)
    requires s.carry.None?
    ensures var t := EndTurn(Receive(s, encoding));
            Held(t) == Held(s) && t.sent == s.sent && t.tasks == s.tasks && t.acked == s.acked
  {
    hide Tally;
    if s.queue != [] { Regather(s.queue, Ids(s.group), s.failed); }
  }

  /** The places the next batch, and the group, can go to. */
  lemma Regather(queue: seq<BatchId>, g: seq<BatchId>, f: seq<BatchId>)
    requires queue != []
    ensures var b, q, all := [queue[0]], queue[1..], Tally(queue, g, [], f);
            && Tally(q, g, [], f + b) == all
            && Tally(q, g + b, [], f) == all
            && Tally(q, g, b, f) == all
            && Tally(q, [], b, f + g) == all
            && (g == [] ==> Tally(q, b, [], f) == all)
  {
    QueueHead(queue);
  }

  lemma QueueHead(queue: seq<BatchId>)
    requires queue != []
    ensures multiset(queue) == multiset([queue[0]]) + multiset(queue[1..])
  {
    assert queue == [queue[0]] + queue[1..];
  }

  lemma FinishConserves(s: State, i: nat, ok: bool, max: nat)
    requires Conserved(s) && Enabled(s, Finish(i, ok), max)
    ensures Conserved(Step(s, Finish(i, ok), max))
  {
    hide Running;
    RunningAt(s.tasks, i);
  }

  lemma JoinConserves(s: State, i: nat, max: nat)
    requires Conserved(s) && Enabled(s, JoinArm(i), max)
    ensures Conserved(Step(s, JoinArm(i), max))
  {
    hide Running;
    JoinedNotRunning(s.tasks, i);
  }

  lemma JoinedNotRunning(tasks: seq<Task>, i: nat)
    requires i < |tasks| && tasks[i].finished
    ensures Running(tasks[..i] + tasks[i + 1..]) == Running(tasks)
  {
    hide Running;
    RunningAt(tasks, i);
    assert Running(tasks[..i]) + [] == Running(tasks[..i]);
  }

  lemma StepConserves(s: State, e: Event, max: nat)
    requires Conserved(s) && Shape(s, max) && Enabled(s, e, max)
    ensures Conserved(Step(s, e, max))
  {
    hide Running; hide LoopTop; hide Receive;
    match e {
      case Finish(i, ok) => FinishConserves(s, i, ok, max);
      case Turn(due) => TopConserves(s, due, max);
      case JoinArm(i) => JoinConserves(s, i, max);
      case RecvArm(encoding) => RecvConserves(s, encoding, max);
      case Shutdown => NoneRunning();
      case _ =>
    }
  }

  lemma NoneRunning()
    ensures Running([]) == []
  {
  }

  lemma StepNoRepeats(s: State, e: Event, max: nat)
    requires NoRepeats(s.sent) && Enabled(s, e, max)
    ensures NoRepeats(Step(s, e, max).sent)
  {
    hide Running; hide LoopTop; hide Receive;
    if e.Send? {
      forall i, j | 0 <= i < j < |s.sent| + 1
        ensures (s.sent + [e.b])[i] != (s.sent + [e.b])[j]
      {
        if j == |s.sent| { assert s.sent[i] in s.sent; }
      }
    }
    KeepsSent(s, e, max);
  }

  /** Only a producer adds to what was sent. */
  lemma KeepsSent(s: State, e: Event, max: nat)
    requires Enabled(s, e, max)
    ensures Step(s, e, max).sent == if e.Send? then s.sent + [e.b] else s.sent
  {
    hide Running; hide Ids;
  }

  // Order.

  lemma PromoteAhead(s: State, max: nat)
    ensures Ahead(Promote(s, max)) == Ahead(s) && SerialAhead(Promote(s, max)) == SerialAhead(s)
  {
    hide Running;
  }

  lemma LaunchAhead(s: State)
    requires s.group.Some?
    ensures Ahead(Launch(s)) == Ahead(s)
    ensures s.tasks == [] ==> SerialAhead(Launch(s)) == SerialAhead(s)
  {
    hide Running;
    NoneRunning();
    RunningSnoc(s.tasks, Task(s.group.value, false));
    if s.tasks == [] {
      var g := s.group.value;
      assert Running(s.tasks + [Task(g, false)]) == [] + g == g;
      assert s.acked + [] + g + Ids(s.carry) + s.queue == s.acked + g + [] + Ids(s.carry) + s.queue;
    }
  }

  /** Dropping groups, or batches left in the queue, only leaves something out. */
  lemma LeaveOrders(s: State)
    requires Subseq(Ahead(s), s.sent)
    ensures Subseq(Ahead(Leave(s)), s.sent)
    ensures Subseq(SerialAhead(s), s.sent) ==> Subseq(SerialAhead(Leave(s)), s.sent)
  {
    hide Running; hide Subseq;
    var m := Ids(s.group) + Ids(s.carry);
    assert Ahead(s) == s.launched + m + s.queue;
    assert Ahead(Leave(s)) == s.launched + s.queue;
    SubseqDelete(s.launched, m, s.queue, s.sent);
    var a := s.acked + Running(s.tasks);
    assert SerialAhead(s) == a + m + s.queue;
    assert SerialAhead(Leave(s)) == a + s.queue;
    if Subseq(SerialAhead(s), s.sent) { SubseqDelete(a, m, s.queue, s.sent); }
  }

  lemma TopOrders(s: State, due: bool, max: nat)
    requires Ordered(s) && Serial(s, max)
    ensures Ordered(LoopTop(s, due, max)) && Serial(LoopTop(s, due, max), max)
  {
    hide Running; hide Subseq; hide Promote; hide Launch; hide Ahead; hide SerialAhead;
    var t := Promote(s, max);
    PromoteAhead(s, max);
    PromoteKeeps(s, max);
    if s.cancelled {
      LeaveOrders(s);
    } else if Launches(t, due, max) {
      LaunchAhead(t);
      LaunchKeeps(t);
    } else {
      LeaveOrders(t);
      WaitAhead(t);
    }
  }

  lemma PromoteKeeps(s: State, max: nat)
    ensures Promote(s, max).sent == s.sent
  {
  }

  lemma LaunchKeeps(s: State)
    requires s.group.Some?
    ensures Launch(s).sent == s.sent
  {
  }

  lemma WaitAhead(s: State)
    ensures Ahead(s.(phase := Select)) == Ahead(s) && SerialAhead(s.(phase := Select)) == SerialAhead(s)
  {
  }

  /** A received batch stays behind everything before it, or is left out. */
  lemma RecvOrders(s: State, encoding: Encoding, max: nat)
    requires Ordered(s) && Serial(s, max) && RecvGuard(s, max)
    ensures Ordered(EndTurn(Receive(s, encoding))) && Serial(EndTurn(Receive(s, encoding)), max)
  {
    hide Running; hide Subseq;
    if s.queue != [] {
      RecvOrdersFrom(s, s.launched, encoding);
      if max == 1 { RecvOrdersFrom(s, s.acked + Running(s.tasks), encoding); }
    }
  }

  lemma RecvOrdersFrom(s: State, p: seq<BatchId>, encoding: Encoding)
    requires s.queue != [] && s.carry.None? && Subseq(Line(p, Ids(s.group), Ids(s.carry), s.queue), s.sent)
    ensures var t := Receive(s, encoding); Subseq(Line(p, Ids(t.group), Ids(t.carry), t.queue), s.sent)
  {
    hide Running; hide Subseq; hide Line;
    Regroup(p, Ids(s.group), s.queue, s.sent);
  }

  /** The ways the next batch can be grouped. */
  lemma Regroup(p: seq<BatchId>, g: seq<BatchId>, queue: seq<BatchId>, sent: seq<BatchId>)
    requires queue != [] && Subseq(Line(p, g, [], queue), sent)
    ensures var b, q := [queue[0]], queue[1..];
            && Subseq(Line(p, g, [], q), sent)
            && Subseq(Line(p, g + b, [], q), sent)
            && Subseq(Line(p, g, b, q), sent)
            && Subseq(Line(p, [], b, q), sent)
            && (g == [] ==> Subseq(Line(p, b, [], q), sent))
  {
    hide Subseq;
    var b, q := [queue[0]], queue[1..];
    assert queue == b + q;
    assert p + g + [] + queue == p + g + b + q == p + g + (b + q) == p + (g + b) + [] + q;
    SubseqDelete(p + g, b, q, sent);
    assert p + g + [] + q == p + g + q;
    SubseqDelete(p, g, b + q, sent);
    assert p + [] + b + q == p + b + [] + q == p + (b + q);
  }

  /** A post that fails is left out; one that succeeds moves on. */
  lemma FinishOrders(s: State, i: nat, ok: bool, max: nat)
    requires Ordered(s) && Serial(s, max) && |s.tasks| <= max && Enabled(s, Finish(i, ok), max)
    ensures Ordered(Step(s, Finish(i, ok), max)) && Serial(Step(s, Finish(i, ok), max), max)
  {
    hide Running; hide Subseq;
    var t := Step(s, Finish(i, ok), max);
    if max == 1 {
      RunningAt(s.tasks, i);
      NoneRunning();
      var ids, rest := s.tasks[0].ids, Ids(s.group) + Ids(s.carry) + s.queue;
      assert s.tasks[..0] == [] && s.tasks[1..] == [];
      assert Running(s.tasks) == [] + ids + [] == ids && Running(t.tasks) == [] + [] == [];
      assert SerialAhead(s) == s.acked + ids + rest;
      if ok {
        assert SerialAhead(t) == s.acked + ids + rest;
      } else {
        SubseqDelete(s.acked, ids, rest, s.sent);
        assert SerialAhead(t) == s.acked + rest;
      }
    }
  }

  lemma JoinOrders(s: State, i: nat, max: nat)
    requires Ordered(s) && Serial(s, max) && Enabled(s, JoinArm(i), max)
    ensures Ordered(Step(s, JoinArm(i), max)) && Serial(Step(s, JoinArm(i), max), max)
  {
    hide Running; hide Subseq;
    JoinedNotRunning(s.tasks, i);
  }

  lemma SendOrders(s: State, b: BatchId, max: nat)
    requires Ordered(s) && Serial(s, max)
    ensures var t := s.(sent := s.sent + [b], queue := s.queue + [b]); Ordered(t) && Serial(t, max)
  {
    hide Running; hide Subseq;
    var t := s.(sent := s.sent + [b], queue := s.queue + [b]);
    SubseqSnoc(Ahead(s), s.sent, b);
    assert Ahead(t) == Ahead(s) + [b];
    if max == 1 { SubseqSnoc(SerialAhead(s), s.sent, b); }
    assert SerialAhead(t) == SerialAhead(s) + [b];
  }

  lemma ShutdownOrders(s: State, max: nat)
    requires Ordered(s) && Serial(s, max) && Enabled(s, Shutdown, max)
    ensures Ordered(Step(s, Shutdown, max)) && Serial(Step(s, Shutdown, max), max)
  {
    hide Running; hide Subseq;
    var t := Step(s, Shutdown, max);
    NoneRunning();
    var a := s.launched + Ids(s.group) + Ids(s.carry);
    SubseqDelete(a, s.queue, [], s.sent) by { assert a + s.queue + [] == Ahead(s); }
    assert a + [] == Ahead(t);
    if max == 1 {
      var m := Running(s.tasks);
      var g := Ids(s.group) + Ids(s.carry);
      assert SerialAhead(s) == s.acked + m + (g + s.queue);
      SubseqDelete(s.acked, m, g + s.queue, s.sent);
      assert s.acked + (g + s.queue) == (s.acked + g) + s.queue + [];
      SubseqDelete(s.acked + g, s.queue, [], s.sent);
      assert SerialAhead(t) == s.acked + g + [];
    }
  }

  lemma StepOrders(s: State, e: Event, max: nat)
    requires Ordered(s) && Serial(s, max) && Shape(s, max) && Enabled(s, e, max)
    ensures Ordered(Step(s, e, max)) && Serial(Step(s, e, max), max)
  {
    hide Running; hide Subseq; hide LoopTop; hide Receive;
    match e {
      case Send(b) => SendOrders(s, b, max);
      case Finish(i, ok) => FinishOrders(s, i, ok, max);
      case Turn(due) => TopOrders(s, due, max);
      case CancelArm =>
        LeaveOrders(s);
      case JoinArm(i) => JoinOrders(s, i, max);
      case RecvArm(encoding) => RecvOrders(s, encoding, max);
      case Shutdown => ShutdownOrders(s, max);
      case _ =>
    }
  }

  // ---- Every run -------------------------------------------------------------

  lemma StepKeeps(s: State, e: Event, max: nat)
    requires Inv(s, max) && Enabled(s, e, max)
    ensures Inv(Step(s, e, max), max)
  {
    hide Step; hide Conserved; hide Ordered; hide Serial; hide Shape; hide NoRepeats;
    StepShape(s, e, max);
    StepConserves(s, e, max);
    StepNoRepeats(s, e, max);
    StepOrders(s, e, max);
  }

  lemma {:induction false} EveryRun(events: seq<Event>, max: nat)
    requires Run(events, max).Some?
    ensures Inv(Run(events, max).value, max)
  {
    hide Step;
    if events == [] {
      NoneRunning();
    } else {
      EveryRun(events[..|events| - 1], max);
      StepKeeps(Run(events[..|events| - 1], max).value, events[|events| - 1], max);
    }
  }

  /** On every run that ends, each batch the channel accepted was acknowledged or failed
      exactly once. */
  lemma {:induction false} SettledExactlyOnce(events: seq<Event>, max: nat, b: BatchId)
    requires Run(events, max).Some? && Run(events, max).value.phase.Stopped?
    ensures var s := Run(events, max).value;
            multiset(s.acked)[b] + multiset(s.failed)[b] == if b in s.sent then 1 else 0
  {
    hide Run; hide Subseq;
    var s := Run(events, max).value;
    EveryRun(events, max);
    NoneRunning();
    assert multiset(s.sent) == multiset(s.acked) + multiset(s.failed);
    CountOnce(s.sent, b);
  }

  lemma {:induction false} CountOnce(x: seq<BatchId>, b: BatchId)
    requires NoRepeats(x)
    ensures multiset(x)[b] == if b in x then 1 else 0
  {
    if x != [] {
      var y := x[..|x| - 1];
      assert x == y + [x[|x| - 1]];
      CountOnce(y, b);
    }
  }

  /** At any point of any run at most `max` posts are in flight, launches are in arrival
      order, and with `max` 1 so are the acknowledgements. */
  lemma {:induction false} InFlightAndInOrder(events: seq<Event>, max: nat)
    requires Run(events, max).Some?
    ensures var s := Run(events, max).value;
            && |s.tasks| <= max
            && Subseq(s.launched, s.sent)
            && (max == 1 ==> Subseq(s.acked, s.sent))
  {
    hide Run; hide Subseq; hide Running;
    var s := Run(events, max).value;
    EveryRun(events, max);
    var rest := Ids(s.group) + Ids(s.carry) + s.queue;
    SubseqDelete(s.launched, rest, [], s.sent) by { assert s.launched + rest + [] == Ahead(s); }
    assert s.launched + [] == s.launched;
    if max == 1 {
      var more := Running(s.tasks) + rest;
      SubseqDelete(s.acked, more, [], s.sent) by { assert s.acked + more + [] == SerialAhead(s); }
      assert s.acked + [] == s.acked;
    }
  }

  /** Whenever the collector waits in `select!`, some arm besides cancellation is open. */
  lemma {:induction false} NeverStuck(events: seq<Event>, max: nat)
    requires 1 <= max && Run(events, max).Some? && Run(events, max).value.phase.Select?
    ensures var s := Run(events, max).value; JoinGuard(s) || TimerGuard(s) || RecvGuard(s, max)
  {
    hide Run;
    EveryRun(events, max);
  }

  /** While the collector waits, only the lack of a request slot holds back a carried batch,
      or a group that is flushed, at the end of input, or the last one before a barrier. */
  lemma {:induction false} OnlySlotsHoldBack(events: seq<Event>, max: nat)
    requires Run(events, max).Some? && Run(events, max).value.phase.Select?
    ensures var s := Run(events, max).value;
            && (s.carry.Some? ==> |s.tasks| == max)
            && (s.group.Some? && (s.flush || s.closed || (s.force.Some? && s.queue == [])) ==> |s.tasks| == max)
  {
    hide Run; hide Subseq; hide Running;
    EveryRun(events, max);
  }

  /** Ending on EOF leaves nothing to fail: the queue is empty and every post is joined. */
  lemma {:induction false} EofDropsNothing(events: seq<Event>, max: nat, due: bool)
    requires Run(events, max).Some?
    requires var s := Run(events, max).value;
             s.phase.Top? && !s.cancelled && LoopTop(s, due, max).phase.Closing?
    ensures var s := Run(events, max).value;
            var t := LoopTop(s, due, max);
            t.failed == s.failed && t.tasks == [] && t.queue == []
  {
    hide Run; hide Subseq; hide Running;
    EveryRun(events, max);
  }

  /** Nothing goes wrong in a step: no cancellation, every batch is encoded and kept, every
      post succeeds. */
  predicate Calm(e: Event) {
    match e
    case Cancel => false
    case Finish(_, ok) => ok
    case RecvArm(encoding) => !encoding.Refused? && !encoding.Discards?
    case _ => true
  }

  /** Nothing has failed, and once the loop is left there is nothing left to fail. */
  ghost predicate Unharmed(s: State) {
    && !s.cancelled && s.failed == []
    && (s.phase.Closing? || s.phase.Stopped? ==> s.queue == [] && s.tasks == [])
  }

  lemma StepUnharmed(s: State, e: Event, max: nat)
    requires Shape(s, max) && Unharmed(s) && Enabled(s, e, max) && Calm(e)
    ensures Unharmed(Step(s, e, max))
  {
    hide Running;
    if e.Shutdown? { NoneRunning(); }
  }

  /** On every run in which nothing goes wrong nothing fails, and when it ends every sent
      batch has been acknowledged, exactly once. */
  lemma {:induction false} CalmRunAcksAll(events: seq<Event>, max: nat)
    requires Run(events, max).Some? && forall e | e in events :: Calm(e)
    ensures var s := Run(events, max).value;
            && s.failed == []
            && (s.phase.Stopped? ==> multiset(s.acked) == multiset(s.sent))
  {
    hide Step; hide Running; hide Subseq; hide Run;
    CalmRunUnharmed(events, max);
    EveryRun(events, max);
    NoneRunning();
  }

  lemma {:induction false} CalmRunUnharmed(events: seq<Event>, max: nat)
    requires Run(events, max).Some? && forall e | e in events :: Calm(e)
    ensures Unharmed(Run(events, max).value)
  {
    hide Step; hide Inv;
    if events != [] {
      var before := events[..|events| - 1];
      CalmRunUnharmed(before, max);
      EveryRun(before, max);
      ShapeOf(Run(before, max).value, max);
      StepUnharmed(Run(before, max).value, events[|events| - 1], max);
    }
  }

  lemma ShapeOf(s: State, max: nat)
    requires Inv(s, max)
    ensures Shape(s, max)
  {
  }

  // ---- Every run can end -----------------------------------------------------

  function Unfinished(tasks: seq<Task>): nat {
    if tasks == [] then 0
    else Unfinished(tasks[..|tasks| - 1]) + if tasks[|tasks| - 1].finished then 0 else 1
  }

  lemma {:induction false} FinishOne(tasks: seq<Task>, i: nat)
    requires i < |tasks| && !tasks[i].finished
    ensures Unfinished(tasks[i := tasks[i].(finished := true)]) == Unfinished(tasks) - 1
  {
    var done := tasks[i := tasks[i].(finished := true)];
    var n := |tasks| - 1;
    if i == n {
      assert done[..n] == tasks[..n];
    } else {
      assert done[..n] == tasks[..n][i := tasks[..n][i].(finished := true)];
      FinishOne(tasks[..n], i);
    }
  }

  /** What is left to do: receive the queue and its end, launch, finish and join posts. */
  function Work(s: State): nat {
    6 * |s.queue| + (if s.group.Some? then 4 else 0) + (if s.carry.Some? then 4 else 0)
    + Unfinished(s.tasks) + 2 * |s.tasks| + (if s.closed then 0 else 2)
    + (match s.phase case Top => 2 case Select => 1 case Closing => 1 case Stopped => 0)
  }

  /** A step that makes progress, with nothing going wrong and no limit of a group reached. */
  function NextStep(s: State): Event {
    match s.phase
    case Top => Turn(false)
    case Closing => Shutdown
    case Stopped => Shutdown
    case Select =>
      if s.tasks == [] then RecvArm(Merges)
      else if s.tasks[0].finished then JoinArm(0)
      else Finish(0, true)
  }

  lemma TurnWorks(s: State, max: nat)
    requires Shape(s, max) && s.phase.Top? && !s.cancelled
    ensures Work(LoopTop(s, false, max)) < Work(s)
  {
    hide Unfinished; hide Ids;
    var t := Promote(s, max);
    if Launches(t, false, max) { UnfinishedSnoc(t.tasks, Task(t.group.value, false)); }
  }

  lemma UnfinishedSnoc(tasks: seq<Task>, t: Task)
    ensures Unfinished(tasks + [t]) == Unfinished(tasks) + if t.finished then 0 else 1
  {
    assert (tasks + [t])[..|tasks|] == tasks;
  }

  lemma {:induction false} JoinOne(tasks: seq<Task>)
    requires tasks != [] && tasks[0].finished
    ensures Unfinished(tasks[..0] + tasks[1..]) == Unfinished(tasks)
  {
    assert tasks[..0] + tasks[1..] == tasks[1..];
    DropFinished(tasks);
  }

  lemma {:induction false} DropFinished(tasks: seq<Task>)
    requires tasks != [] && tasks[0].finished
    ensures Unfinished(tasks[1..]) == Unfinished(tasks)
  {
    if |tasks| > 1 {
      var n := |tasks| - 1;
      DropFinished(tasks[..n]);
      assert tasks[..n][1..] == tasks[1..][..n - 1];
    }
  }

  /** Whatever the collector waits for once its senders are gone, something can happen that
      leaves less to do. */
  lemma NextStepWorks(s: State, max: nat)
    requires 1 <= max && Shape(s, max) && !s.cancelled && s.sendersGone && !s.phase.Stopped?
    ensures var e := NextStep(s);
            && Enabled(s, e, max) && Calm(e)
            && Work(Step(s, e, max)) < Work(s)
            && !Step(s, e, max).cancelled && Step(s, e, max).sendersGone
  {
    hide Unfinished; hide Ids; hide Running; hide LoopTop;
    if s.phase.Top? {
      TurnWorks(s, max);
      TopKeeps(s, false, max);
    } else if s.phase.Closing? {
      NoUnfinished();
    } else if s.tasks != [] {
      if s.tasks[0].finished { JoinOne(s.tasks); } else { FinishOne(s.tasks, 0); }
    }
  }

  lemma NoUnfinished()
    ensures Unfinished([]) == 0
  {
  }

  lemma TopKeeps(s: State, due: bool, max: nat)
    ensures LoopTop(s, due, max).cancelled == s.cancelled && LoopTop(s, due, max).sendersGone == s.sendersGone
  {
    hide Ids;
  }

  /** Every run that is not cancelled can go on, without being cancelled and without
      anything failing, until it has stopped: the end of input is noticed, the last group
      is launched, and every post is joined. */
  lemma {:induction false} EveryRunCanEnd(events: seq<Event>, max: nat) returns (more: seq<Event>)
    requires 1 <= max && Run(events, max).Some? && !Run(events, max).value.cancelled
    ensures Run(events + more, max).Some? && Run(events + more, max).value.phase.Stopped?
    ensures forall e | e in more :: Calm(e)
  {
    hide Step;
    var s := Run(events, max).value;
    if s.sendersGone {
      more := EndsFrom(events, max);
    } else {
      var gone := events + [SendersDrop];
      OneMoreEvent(events, SendersDrop, max);
      Dropped(s, max);
      var rest := EndsFrom(gone, max);
      more := [SendersDrop] + rest;
      assert gone + rest == events + more;
    }
  }

  lemma Dropped(s: State, max: nat)
    ensures Enabled(s, SendersDrop, max) && Step(s, SendersDrop, max) == s.(sendersGone := true)
  {
  }

  lemma OneMoreEvent(events: seq<Event>, e: Event, max: nat)
    requires Run(events, max).Some? && Enabled(Run(events, max).value, e, max)
    ensures Run(events + [e], max) == Some(Step(Run(events, max).value, e, max))
  {
    assert (events + [e])[..|events|] == events;
  }

  lemma {:induction false} EndsFrom(events: seq<Event>, max: nat) returns (more: seq<Event>)
    requires 1 <= max && Run(events, max).Some?
    requires !Run(events, max).value.cancelled && Run(events, max).value.sendersGone
    ensures Run(events + more, max).Some? && Run(events + more, max).value.phase.Stopped?
    ensures forall e | e in more :: Calm(e)
    decreases Work(Run(events, max).value)
  {
    hide Run; hide Step; hide Work; hide Shape; hide Inv;
    var s := Run(events, max).value;
    if s.phase.Stopped? {
      more := [];
      assert events + more == events;
    } else {
      EveryRun(events, max);
      ShapeOf(s, max);
      NextStepWorks(s, max);
      var e := NextStep(s);
      OneMoreEvent(events, e, max);
      var rest := EndsFrom(events + [e], max);
      more := [e] + rest;
      assert events + [e] + rest == events + more;
    }
  }

  // ---- When a group is launched ----------------------------------------------

  /** A group whose limits or linger are reached, that is flushed, at the end of input, or the
      last one before a barrier is launched as one post as soon as there is a slot. */
  lemma DueGroupLaunches(s: State, due: bool, max: nat)
    requires s.phase.Top? && !s.cancelled && s.group.Some? && |s.tasks| < max
    requires due || s.flush || s.closed
             || (s.force.Some? && s.queue == [] && |s.acked| + |s.failed| < s.force.value)
    ensures var t := Step(s, Turn(due), max);
            t.tasks == s.tasks + [Task(s.group.value, false)] && t.launched == s.launched + s.group.value
            && t.group.None? && t.carry == s.carry
  {
  }

  /** The linger timer, and a batch that does not fit, make the next turn launch the group. */
  lemma TimerLaunches(s: State, max: nat)
    requires Enabled(s, TimerArm, max) && !s.cancelled && |s.tasks| < max
    ensures var t := Step(Step(s, TimerArm, max), Turn(false), max);
            t.tasks == s.tasks + [Task(s.group.value, false)] && t.group.None?
  {
  }

  /** A batch that merges is posted with the group; one that does not fit is posted next. */
  lemma MergesOrFollows(s: State, max: nat)
    requires Enabled(s, RecvArm(Merges), max) && s.queue != [] && s.group.Some? && !s.cancelled
    ensures Step(s, RecvArm(Merges), max).group == Some(s.group.value + [s.queue[0]])
    ensures var t := Step(Step(s, RecvArm(Separates), max), Turn(false), max);
            t.tasks == s.tasks + [Task(s.group.value, false)] && t.carry == Some([s.queue[0]])
  {
  }

  /** While every slot is busy, a batch is carried, or the group is being flushed, no batch is
      taken from the queue. */
  lemma Backpressure(s: State, e: Event, max: nat)
    requires Enabled(s, e, max) && (|s.tasks| >= max || s.carry.Some? || s.flush)
    ensures !s.phase.Closing? ==> s.queue <= Step(s, e, max).queue
  {
    hide Running; hide Ids;
  }

  /** A barrier is in force from its request until it is reached, and then no longer cuts
      groups short. */
  lemma ReachedTargetForgotten(s: State, due: bool, max: nat, target: nat)
    requires s.phase.Top? && !s.cancelled
    ensures Step(s.(phase := Select), FlushArm(target), max).force == Some(target)
    ensures var t := Step(s, Turn(due), max);
            t.force == if s.force.Some? && |s.acked| + |s.failed| >= s.force.value then None else s.force
  {
  }
}
