/**
  Checkpoint admission: any number of callers of `begin`, `finish`, `drop` and
  `waiter_timeout`, interleaved at every semaphore and mutex operation.
 */
module CheckpointAdmission {
  import opened Bytes

  const MAX_U64: nat := 0xFFFF_FFFF_FFFF_FFFF

  function SaturatingInc(n: nat): nat { if n >= MAX_U64 then MAX_U64 else n + 1 }

  type Caller = nat

  /** Where a caller is: it got the permit, found none, holds an admission, or has run the
      admission's drop and is about to return the permit. Other callers are elsewhere. */
  datatype Pc = GotPermit | NoPermit | Live(finished: bool) | Dropping

  /** The status the mutex guards. */
  datatype Status = Status(
    active: bool, started: nat, busy: nat, succeeded: nat, failed: nat, timedOutWaiters: nat)

  /** True counts of what happened, unbounded. */
  datatype Ledger = Ledger(
    begun: nat, returned: nat, admitted: nat, contended: nat, oks: nat, errors: nat, refinishes: nat,
    timeouts: nat)

  datatype State = State(permits: nat, status: Status, callers: map<Caller, Pc>, ledger: Ledger)

  const INIT := State(1, Status(false, 0, 0, 0, 0, 0), map[], Ledger(0, 0, 0, 0, 0, 0, 0, 0))

  datatype Event =
    | TryAcquire(c: Caller)
    | Admit(c: Caller)
    | CountBusy(c: Caller)
    | Finish(c: Caller, ok: bool)
    | RunDrop(c: Caller)
    | ReleasePermit(c: Caller)
    | WaiterTimeout

  predicate At(s: State, c: Caller, pc: Pc) { c in s.callers && s.callers[c] == pc }

  predicate HasAdmission(s: State, c: Caller) { c in s.callers && s.callers[c].Live? }

  predicate Enabled(s: State, e: Event) {
    match e
    case TryAcquire(c) => c !in s.callers
    case Admit(c) => At(s, c, GotPermit)
    case CountBusy(c) => At(s, c, NoPermit)
    case Finish(c, _) => HasAdmission(s, c)
    case RunDrop(c) => HasAdmission(s, c)
    case ReleasePermit(c) => At(s, c, Dropping)
    case WaiterTimeout => true
  }

  /** `finish`, under the mutex. */
  function Finished(s: State, c: Caller, ok: bool): State
    requires HasAdmission(s, c)
  {
    var t := s.status.(active := false);
    var l := if s.callers[c].finished then s.ledger.(refinishes := s.ledger.refinishes + 1) else s.ledger;
    var u := s.(callers := s.callers[c := Live(true)]);
    if ok then u.(status := t.(succeeded := SaturatingInc(t.succeeded)), ledger := l.(oks := l.oks + 1))
    else u.(status := t.(failed := SaturatingInc(t.failed)), ledger := l.(errors := l.errors + 1))
  }

  function Step(s: State, e: Event): State
    requires Enabled(s, e)
  {
    var t, l := s.status, s.ledger;
    match e
    case TryAcquire(c) =>
      var begun := l.(begun := l.begun + 1);
      if s.permits > 0 then s.(permits := s.permits - 1, callers := s.callers[c := GotPermit], ledger := begun)
      else s.(callers := s.callers[c := NoPermit], ledger := begun)
    case Admit(c) =>
      s.(status := t.(active := true, started := SaturatingInc(t.started)), callers := s.callers[c := Live(false)],
         ledger := l.(returned := l.returned + 1, admitted := l.admitted + 1))
    case CountBusy(c) =>
      s.(status := t.(busy := SaturatingInc(t.busy)), callers := s.callers - {c},
         ledger := l.(returned := l.returned + 1, contended := l.contended + 1))
    case Finish(c, ok) => Finished(s, c, ok)
    case RunDrop(c) =>
      var u := if s.callers[c].finished then s else Finished(s, c, false);
      u.(callers := u.callers[c := Dropping])
    case ReleasePermit(c) => s.(permits := s.permits + 1, callers := s.callers - {c})
    case WaiterTimeout =>
      s.(status := t.(timedOutWaiters := SaturatingInc(t.timedOutWaiters)), ledger := l.(timeouts := l.timeouts + 1))
  }

  function Run(events: seq<Event>): Option<State> {
    if events == [] then Some(INIT)
    else
      var before := Run(events[..|events| - 1]);
      var e := events[|events| - 1];
      if before.Some? && Enabled(before.value, e) then Some(Step(before.value, e)) else None
  }

  // ---- What every step keeps -------------------------------------------------

  predicate Holds(s: State, c: Caller) { c in s.callers && !s.callers[c].NoPermit? }

  /** The one permit is free, or exactly one caller holds it. */
  ghost predicate OnePermit(s: State) {
    && s.permits <= 1
    && (s.permits == 1 ==> forall c | c in s.callers :: !Holds(s, c))
    && (s.permits == 0 ==> exists c :: Holds(s, c))
    && (forall c, d | Holds(s, c) && Holds(s, d) :: c == d)
  }

  /** `active` says that some admission is not finished. */
  ghost predicate ActiveIsLive(s: State) {
    s.status.active <==> exists c :: At(s, c, Live(false))
  }

  /** The status counters are the true counts, cut off at the u64 maximum. */
  ghost predicate Counters(s: State) {
    var t, l := s.status, s.ledger;
    && t.started == Capped(l.admitted) && t.busy == Capped(l.contended)
    && t.succeeded == Capped(l.oks) && t.failed == Capped(l.errors)
    && t.timedOutWaiters == Capped(l.timeouts)
  }

  function Capped(n: nat): nat { if n > MAX_U64 then MAX_U64 else n }

  /** Callers inside `begin`. */
  function Entering(callers: map<Caller, Pc>): set<Caller> {
    set c | c in callers && Inside(callers, c)
  }

  predicate Inside(callers: map<Caller, Pc>, c: Caller) {
    c in callers && (callers[c].GotPermit? || callers[c].NoPermit?)
  }

  ghost predicate Accounts(s: State) {
    var l := s.ledger;
    && l.returned == l.admitted + l.contended
    && l.begun == l.returned + |Entering(s.callers)|
    && l.admitted + l.refinishes == l.oks + l.errors + (if s.status.active then 1 else 0)
  }

  ghost predicate Inv(s: State) { OnePermit(s) && ActiveIsLive(s) && Counters(s) && Accounts(s) }

  lemma StepOnePermit(s: State, e: Event)
    requires Enabled(s, e) && OnePermit(s)
    ensures OnePermit(Step(s, e))
  {
    var t := Step(s, e);
    if !e.WaiterTimeout? {
      forall d | d != e.c ensures Holds(t, d) <==> Holds(s, d) {}
      assert Holds(t, e.c) <==> (!e.CountBusy? && !e.ReleasePermit? && (e.TryAcquire? ==> s.permits > 0));
      if s.permits == 0 && !Holds(s, e.c) {
        var c :| Holds(s, c);
        assert Holds(t, c);
      }
    } else {
      forall d ensures Holds(t, d) <==> Holds(s, d) {}
    }
  }

  lemma StepActive(s: State, e: Event)
    requires Enabled(s, e) && OnePermit(s) && ActiveIsLive(s)
    ensures ActiveIsLive(Step(s, e))
    ensures (e.Finish? || e.RunDrop?) ==> (s.status.active <==> !s.callers[e.c].finished)
  {
    var t := Step(s, e);
    if !e.WaiterTimeout? {
      forall d | d != e.c ensures At(t, d, Live(false)) <==> At(s, d, Live(false)) {}
      forall d | At(s, d, Live(false)) ensures Holds(s, d) {}
      if Holds(s, e.c) {
        forall d | At(s, d, Live(false)) ensures d == e.c {}
      }
      assert At(t, e.c, Live(false)) <==> e.Admit?;
      if e.Finish? || e.RunDrop? {
        assert At(s, e.c, Live(false)) <==> !s.callers[e.c].finished;
      }
    } else {
      forall d ensures At(t, d, Live(false)) <==> At(s, d, Live(false)) {}
    }
  }

  lemma StepEntering(s: State, e: Event)
    requires Enabled(s, e)
    ensures |Entering(Step(s, e).callers)| ==
            |Entering(s.callers)| + (if e.TryAcquire? then 1 else if e.Admit? || e.CountBusy? then -1 else 0)
  {
    hide Entering;
    if !e.WaiterTimeout? {
      var t := Step(s, e);
      forall d | d != e.c ensures Inside(s.callers, d) <==> Inside(t.callers, d) {}
      EnteringSet(s.callers, e.c, t.callers);
    }
  }

  /** Only the caller that moves can enter or leave `begin`. */
  lemma EnteringSet(a: map<Caller, Pc>, c: Caller, b: map<Caller, Pc>)
    requires forall d | d != c :: Inside(a, d) <==> Inside(b, d)
    ensures |Entering(b)| == |Entering(a)| - (if Inside(a, c) then 1 else 0) + (if Inside(b, c) then 1 else 0)
  {
    assert Entering(a) - {c} == Entering(b) - {c} by {
      forall d | d != c ensures d in Entering(a) <==> d in Entering(b) {}
    }
    SizeWithout(Entering(a), c);
    SizeWithout(Entering(b), c);
  }

  lemma SizeWithout(x: set<Caller>, c: Caller)
    ensures |x - {c}| == |x| - if c in x then 1 else 0
  {
    if c !in x { assert x - {c} == x; }
  }

  lemma StepKeeps(s: State, e: Event)
    requires Enabled(s, e) && Inv(s)
    ensures Inv(Step(s, e))
  {
    hide OnePermit; hide ActiveIsLive; hide Step; hide Counters; hide Accounts;
    StepOnePermit(s, e);
    StepActive(s, e);
    StepCounters(s, e);
    StepAccounts(s, e);
  }

  lemma StepCounters(s: State, e: Event)
    requires Enabled(s, e) && Counters(s)
    ensures Counters(Step(s, e))
  {
    hide Finished;
    if e.Finish? { FinishedCounters(s, e.c, e.ok); }
    if e.RunDrop? { FinishedCounters(s, e.c, false); }
  }

  lemma FinishedCounters(s: State, c: Caller, ok: bool)
    requires HasAdmission(s, c) && Counters(s)
    ensures Counters(Finished(s, c, ok))
  {
  }

  lemma StepAccounts(s: State, e: Event)
    requires Enabled(s, e) && OnePermit(s) && ActiveIsLive(s) && Accounts(s)
    ensures Accounts(Step(s, e))
  {
    hide OnePermit; hide ActiveIsLive; hide Entering;
    StepActive(s, e);
    StepEntering(s, e);
    if e.Admit? { NoneActive(s, e.c); }
  }

  /** While a caller is between the semaphore and the mutex, no admission is unfinished. */
  lemma NoneActive(s: State, c: Caller)
    requires OnePermit(s) && ActiveIsLive(s) && At(s, c, GotPermit)
    ensures !s.status.active
  {
    if s.status.active {
      var d :| At(s, d, Live(false));
      assert Holds(s, c) && Holds(s, d);
    }
  }

  lemma {:induction false} EveryRun(events: seq<Event>)
    requires Run(events).Some?
    ensures Inv(Run(events).value)
  {
    hide Step; hide Inv;
    if events == [] {
      Beginning();
    } else {
      EveryRun(events[..|events| - 1]);
      StepKeeps(Run(events[..|events| - 1]).value, events[|events| - 1]);
    }
  }

  lemma Beginning()
    ensures Inv(INIT)
  {
    assert Entering(INIT.callers) == {};
  }

  /** In every reachable state at most one admission is live, and an active checkpoint has
      its permit held. */
  lemma AtMostOneAdmission(events: seq<Event>, c: Caller, d: Caller)
    requires Run(events).Some?
    ensures var s := Run(events).value;
            && (HasAdmission(s, c) && HasAdmission(s, d) ==> c == d)
            && (s.status.active ==> s.permits == 0)
            && (HasAdmission(s, c) ==> s.permits == 0)
  {
    hide Run; hide Counters; hide Accounts;
    EveryRun(events);
    var s := Run(events).value;
    if HasAdmission(s, c) { assert Holds(s, c); }
    if HasAdmission(s, d) { assert Holds(s, d); }
    if s.status.active {
      var a :| At(s, a, Live(false));
      assert Holds(s, a);
    }
  }

  /** Below saturation the counters balance: begin calls that returned are `started` plus
      `busy`, and with one finish per admission every start has ended or is the active one. */
  lemma CountersBalance(events: seq<Event>)
    requires Run(events).Some?
    requires var t := Run(events).value.status;
             t.started < MAX_U64 && t.busy < MAX_U64 && t.succeeded < MAX_U64 && t.failed < MAX_U64
    ensures var s := Run(events).value;
            var t := s.status;
            && s.ledger.returned == t.started + t.busy
            && t.started + s.ledger.refinishes == t.succeeded + t.failed + (if t.active then 1 else 0)
  {
    hide Run; hide OnePermit; hide ActiveIsLive;
    EveryRun(events);
  }

  /** Only the drop of the admission that holds it frees the permit: no waiter timeout, no
      `finish` and no other caller does. */
  lemma OnlyDropFreesPermit(events: seq<Event>, e: Event, c: Caller)
    requires Run(events).Some? && Enabled(Run(events).value, e) && HasAdmission(Run(events).value, c)
    ensures var t := Step(Run(events).value, e);
            t.permits == 0 && (HasAdmission(t, c) || (e == RunDrop(c) && At(t, c, Dropping)))
  {
    hide Run; hide Counters; hide Accounts;
    EveryRun(events);
    var s := Run(events).value;
    assert Holds(s, c);
    var other := if e.ReleasePermit? then e.c else c;
    assert Holds(s, other) ==> other == c;
  }

  // ---- What every begin and every admission comes to ----------------------------

  lemma OneMoreEvent(events: seq<Event>, e: Event)
    requires Run(events).Some? && Enabled(Run(events).value, e)
    ensures Run(events + [e]) == Some(Step(Run(events).value, e))
  {
    assert (events + [e])[..|events|] == events;
  }

  /** A begin by itself is admitted exactly when no other caller holds the permit, and is
      counted as busy otherwise. */
  lemma BeginAlone(events: seq<Event>, c: Caller)
    requires Run(events).Some? && c !in Run(events).value.callers
    ensures var s := Run(events).value;
            if forall d :: !Holds(s, d) then
              var t := Run(events + [TryAcquire(c)] + [Admit(c)]);
              && t.Some? && HasAdmission(t.value, c) && t.value.status.active
              && t.value.status.started == SaturatingInc(s.status.started)
            else
              var t := Run(events + [TryAcquire(c)] + [CountBusy(c)]);
              && t.Some? && c !in t.value.callers
              && t.value.status == s.status.(busy := SaturatingInc(s.status.busy))
  {
    hide Run; hide Counters; hide Accounts;
    var s := Run(events).value;
    EveryRun(events);
    OneMoreEvent(events, TryAcquire(c));
    var u := Step(s, TryAcquire(c));
    if forall d :: !Holds(s, d) {
      OneMoreEvent(events + [TryAcquire(c)], Admit(c));
    } else {
      OneMoreEvent(events + [TryAcquire(c)], CountBusy(c));
    }
  }

  /** Dropping an admission returns the permit, so that the next begin can have it. */
  lemma DropReturnsPermit(events: seq<Event>, c: Caller)
    requires Run(events).Some? && HasAdmission(Run(events).value, c)
    ensures var t := Run(events + [RunDrop(c)] + [ReleasePermit(c)]);
            t.Some? && t.value.permits == 1 && c !in t.value.callers && !t.value.status.active
  {
    hide Run; hide Counters; hide Accounts;
    var s := Run(events).value;
    EveryRun(events);
    assert Holds(s, c);
    OneMoreEvent(events, RunDrop(c));
    StepActive(s, RunDrop(c));
    OneMoreEvent(events + [RunDrop(c)], ReleasePermit(c));
  }

  // ---- What the counters count -------------------------------------------------

  /** How many events of a run are admissions, contended begins, successful finishes and
      waiter timeouts. */
  function Counted(events: seq<Event>): (nat, nat, nat, nat) {
    if events == [] then (0, 0, 0, 0)
    else
      var (a, b, c, d) := Counted(events[..|events| - 1]);
      var e := events[|events| - 1];
      (a + if e.Admit? then 1 else 0, b + if e.CountBusy? then 1 else 0,
       c + if e.Finish? && e.ok then 1 else 0, d + if e.WaiterTimeout? then 1 else 0)
  }

  /** The status counts the events of the run, each kind for itself. */
  lemma {:induction false} CountersCount(events: seq<Event>)
    requires Run(events).Some?
    ensures var s := Run(events).value;
            var (started, busy, succeeded, timedOut) := Counted(events);
            && s.status.started == Capped(started) && s.status.busy == Capped(busy)
            && s.status.succeeded == Capped(succeeded) && s.status.timedOutWaiters == Capped(timedOut)
  {
    hide Finished;
    if events != [] {
      var before := events[..|events| - 1];
      CountersCount(before);
      var s, e := Run(before).value, events[|events| - 1];
      if e.Finish? { FinishCounts(s, e.c, e.ok); }
      if e.RunDrop? { FinishCounts(s, e.c, false); }
    }
  }

  lemma FinishCounts(s: State, c: Caller, ok: bool)
    requires HasAdmission(s, c)
    ensures var t := Finished(s, c, ok);
            && t.status == s.status.(active := false, succeeded := t.status.succeeded, failed := t.status.failed)
            && t.status.succeeded == (if ok then SaturatingInc(s.status.succeeded) else s.status.succeeded)
            && t.status.failed == (if ok then s.status.failed else SaturatingInc(s.status.failed))
  {
  }

  /** Dropping an admission that was never finished counts as one failure, and dropping a
      finished one counts as nothing. */
  lemma DropCounts(s: State, c: Caller)
    requires HasAdmission(s, c)
    ensures var t := Step(s, RunDrop(c)).status;
            if s.callers[c].finished then t == s.status
            else t == s.status.(active := false, failed := SaturatingInc(s.status.failed))
  {
  }
}
