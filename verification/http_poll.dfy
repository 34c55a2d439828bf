/**
  The HTTP poll source: admitting the records of a response, the conditional
  validators that may only advance on a complete admission, and the schedule.
 */
module HttpPoll {
  import opened Bytes
  import opened HttpRecords

  type RowId = nat

  datatype Admission = Complete | Incomplete | Stopped

  datatype IngestResult = Admitted(admission: Admission) | IngestFailed(fatal: bool)

  /** What the environment decides about one record: cancellation, the parser credit, and
      how admission of a decoded row ends. */
  datatype Fate = Fate(cancelled: bool, scratch: bool, entry: Entry)
  datatype Entry = EntryCancelled | TooBig | NoCredit | Closed | Sent

  datatype Counters = Counters(rows: nat, bad: nat, oversize: nat, budget: nat)

  function Drops(c: Counters): nat { c.bad + c.oversize + c.budget }

  function Total(c: Counters): nat { c.rows + Drops(c) }

  class Ingress {
    const decode: seq<byte> -> Option<RowId>
    const maxBytes: nat
    const failOnDecode: bool
    var count: Counters
    /** Rows sent to the job. */
    var inbox: seq<RowId>
    /** Spans whose rows were handed to the inbox, in order. */
    ghost var handed: seq<(nat, nat)>

    /** How the admission of a row ends. */
    function AdmitEnd(entry: Entry): Admission {
      match entry
      case EntryCancelled => Stopped
      case TooBig => Incomplete
      case NoCredit => Incomplete
      case Closed => Stopped
      case Sent => Complete
    }

    /** How one record of a response ends. */
    function RecordEnd(frame: seq<byte>, fate: Fate): IngestResult {
      var bad := if failOnDecode then IngestFailed(true) else Admitted(Incomplete);
      if |frame| > maxBytes then bad
      else if !fate.scratch then Admitted(Incomplete)
      else if decode(frame).None? then bad
      else Admitted(AdmitEnd(fate.entry))
    }

    /** How record `k` of a body ends. */
    function EndOf(body: seq<byte>, fates: nat -> Fate, k: nat): IngestResult
      requires k < |Spans(body, 0, Start).0|
    {
      RecordEnd(FrameOf(body, Spans(body, 0, Start).0[k]), fates(k))
    }

    /** A record is complete exactly when it is within bounds, decodes and is sent. */
    lemma CompleteRecord(frame: seq<byte>, fate: Fate)
      ensures RecordEnd(frame, fate) == Admitted(Complete) <==>
                |frame| <= maxBytes && fate.scratch && decode(frame).Some? && fate.entry.Sent?
      ensures RecordEnd(frame, fate).IngestFailed? <==>
                failOnDecode && (|frame| > maxBytes || (fate.scratch && decode(frame).None?))
      ensures RecordEnd(frame, fate) == Admitted(Stopped) <==>
                && |frame| <= maxBytes && fate.scratch && decode(frame).Some?
                && (fate.entry.EntryCancelled? || fate.entry.Closed?)
    {
    }

    function FrameOf(body: seq<byte>, span: (nat, nat)): seq<byte> {
      if span.0 <= span.1 <= |body| then body[span.0..span.1] else []
    }

    /** These rows are what the texts of these spans decode to, one for each, in order. */
    ghost predicate Delivers(body: seq<byte>, spans: seq<(nat, nat)>, rows: seq<RowId>) {
      |rows| == |spans| && forall k | 0 <= k < |spans| :: decode(FrameOf(body, spans[k])) == Some(rows[k])
    }

    /** The first `n` records are neither cancelled, nor stopped, nor fatal. */
    ghost predicate Passes(body: seq<byte>, fates: nat -> Fate, n: nat)
      requires n <= |Spans(body, 0, Start).0|
    {
      forall k | 0 <= k < n ::
        !fates(k).cancelled && EndOf(body, fates, k).Admitted? && !EndOf(body, fates, k).admission.Stopped?
    }

    /** The first `n` records are handed over. */
    ghost predicate AllComplete(body: seq<byte>, fates: nat -> Fate, n: nat)
      requires n <= |Spans(body, 0, Start).0|
    {
      forall k | 0 <= k < n :: EndOf(body, fates, k) == Admitted(Complete)
    }

    /** The response is split without an error and every record passes. */
    ghost predicate Finishes(body: seq<byte>, fates: nat -> Fate) {
      Spans(body, 0, Start).1 && Passes(body, fates, |Spans(body, 0, Start).0|)
    }

    /** The environment stops the response at one of its records. */
    ghost predicate Interrupted(body: seq<byte>, fates: nat -> Fate) {
      var n := |Spans(body, 0, Start).0|;
      || (exists k :: 0 <= k < n && (fates(k).cancelled || EndOf(body, fates, k) == Admitted(Stopped)))
      || (!Spans(body, 0, Start).1 && fates(n).cancelled)
    }

    /** The response is malformed, or a record is and that is fatal. */
    ghost predicate Spoiled(body: seq<byte>, fates: nat -> Fate) {
      || !Spans(body, 0, Start).1
      || (exists k :: 0 <= k < |Spans(body, 0, Start).0| && EndOf(body, fates, k).IngestFailed?)
    }

    /** `admit`: one decoded row. Waiting for a slot or for queue credit changes nothing,
        so only how the wait ends is left of it. */
    method Admit(row: RowId, entry: Entry, ghost span: (nat, nat)) returns (r: Admission)
      modifies this
      ensures r == AdmitEnd(entry)
      ensures inbox == old(inbox) + if entry.Sent? then [row] else []
      ensures r.Complete? <==> entry.Sent?
      ensures r.Stopped? <==> entry.EntryCancelled? || entry.Closed?
      ensures r.Complete? ==>
                count == old(count).(rows := old(count.rows) + 1) && handed == old(handed) + [span]
      ensures r.Incomplete? ==>
                && handed == old(handed) && count.rows == old(count.rows) && count.bad == old(count.bad)
                && Drops(count) == old(Drops(count)) + 1
                && (entry.TooBig? <==> count.oversize == old(count.oversize) + 1)
      ensures r.Stopped? ==> count == old(count) && handed == old(handed)
    {
      match entry {
        case EntryCancelled => return Stopped;
        case TooBig =>
          count := count.(oversize := count.oversize + 1);
          return Incomplete;
        case NoCredit =>
          count := count.(budget := count.budget + 1);
          return Incomplete;
        case Closed => return Stopped;
        case Sent =>
          count := count.(rows := count.rows + 1);
          inbox := inbox + [row];
          handed := handed + [span];
          return Complete;
      }
    }

    /** One record: refused, dropped, stopped or handed over. */
    method OneRecord(frame: seq<byte>, fate: Fate, ghost span: (nat, nat)) returns (r: IngestResult)
      modifies this
      ensures r == RecordEnd(frame, fate)
      ensures r == Admitted(Complete) ==> decode(frame).Some? && inbox == old(inbox) + [decode(frame).value]
      ensures r != Admitted(Complete) ==> inbox == old(inbox)
      ensures r == Admitted(Complete) ==>
                count == old(count).(rows := old(count.rows) + 1) && handed == old(handed) + [span]
      ensures r == Admitted(Incomplete) ==>
                handed == old(handed) && count.rows == old(count.rows) && Drops(count) == old(Drops(count)) + 1
    {
      if |frame| > maxBytes {
        count := count.(bad := count.bad + 1);
        return if failOnDecode then IngestFailed(true) else Admitted(Incomplete);
      }
      if !fate.scratch {
        count := count.(budget := count.budget + 1);
        return Admitted(Incomplete);
      }
      var row := decode(frame);
      if row.None? {
        count := count.(bad := count.bad + 1);
        return if failOnDecode then IngestFailed(true) else Admitted(Incomplete);
      }
      var a := Admit(row.value, fate.entry, span);
      return Admitted(a);
    }

    /** `ingest` of a JSON body. It gets through exactly when the body splits cleanly and
        neither a record nor the environment ends it; complete means that every record was
        handed over, in order; nothing is dropped without making the response incomplete. */
    method Ingest(body: seq<byte>, fates: nat -> Fate, cancelledAtEnd: bool) returns (r: IngestResult)
      modifies this
      ensures r == Admitted(Complete) || r == Admitted(Incomplete) <==> Finishes(body, fates) && !cancelledAtEnd
      ensures r == Admitted(Complete) || r == Admitted(Incomplete) ==>
                && Total(count) == old(Total(count)) + |Spans(body, 0, Start).0|
                && (r.admission.Complete? <==> Drops(count) == old(Drops(count)))
                && (r.admission.Complete? <==> AllComplete(body, fates, |Spans(body, 0, Start).0|))
      ensures r == Admitted(Complete) || r == Admitted(Incomplete) ==>
                !cancelledAtEnd && forall k | 0 <= k < |Spans(body, 0, Start).0| :: !fates(k).cancelled
      ensures r == Admitted(Complete) ==> handed == old(handed) + Spans(body, 0, Start).0
      ensures old(inbox) <= inbox
      ensures r == Admitted(Complete) || r == Admitted(Incomplete) ==>
                |inbox| - |old(inbox)| == count.rows - old(count.rows)
      ensures r == Admitted(Complete) ==> Delivers(body, Spans(body, 0, Start).0, inbox[|old(inbox)|..])
      ensures r == Admitted(Stopped) ==> cancelledAtEnd || Interrupted(body, fates)
      ensures r.IngestFailed? ==> r.fatal == failOnDecode && Spoiled(body, fates)
    {
      hide Spans; hide NextJson; hide Scan; hide RecordEnd; hide EndOf; hide Passes; hide AllComplete;
      hide Interrupted; hide Spoiled; hide Left; hide Kept; hide Delivers; hide FrameOf;
      var records := new Records(body, Format.Json);
      var admission := Complete;
      ghost var spans, c, h := Spans(body, 0, Start).0, count, handed;
      var more := true;
      var k := 0;
      NothingYet(body, fates);
      assert inbox[|inbox|..] == [];
      while more
        invariant records.pos <= |body| && records.bytes == body && fresh(records) && k <= |spans|
        invariant if more then Left(body, k, records.pos, records.state) else k == |spans| && Spans(body, 0, Start).1
        invariant Passes(body, fates, k) && (admission.Complete? <==> AllComplete(body, fates, k))
        invariant Kept(c, h, count, handed, spans[..k], admission)
        invariant old(inbox) <= inbox && |inbox| - |old(inbox)| == count.rows - old(count.rows)
        invariant admission.Complete? ==> Delivers(body, spans[..k], inbox[|old(inbox)|..])
        decreases more, |spans| - k
      {
        ghost var at, st := records.pos, records.state;
        var span := records.NextJsonSpan();
        LeftStep(body, k, at, st);
        if span.NoMore? {
          more := false;
          continue;
        }
        NextRecord(body, fates, k);
        if fates(k).cancelled { return Admitted(Stopped); }
        if span.Bad? { return IngestFailed(failOnDecode); }
        var a, b := span.start, span.end;
        ghost var c1, h1, sent := count, handed, inbox[|old(inbox)|..];
        var one := OneRecord(body[a..b], fates(k), (a, b));
        EndIs(body, fates, k, a, b);
        FatalOnly(body[a..b], fates(k));
        if one.IngestFailed? { return one; }
        if one.admission.Stopped? { return Admitted(Stopped); }
        KeptStep(c, h, c1, h1, spans, k, admission, count, handed, one.admission);
        if one.admission.Incomplete? {
          admission := Incomplete;
        } else if admission.Complete? {
          DeliversMore(body, spans, k, sent, inbox[|inbox| - 1]);
          assert inbox[|old(inbox)|..] == sent + [inbox[|inbox| - 1]];
        }
        k := k + 1;
      }
      assert spans[..k] == spans;
      NoneCancelled(body, fates);
      KeptMeans(c, h, count, handed, spans, admission);
      return Admitted(if cancelledAtEnd then Stopped else admission);
    }

    /** After `k` records the splitter has the others still to yield. */
    ghost predicate Left(body: seq<byte>, k: nat, pos: nat, st: SplitState)
      requires k <= |Spans(body, 0, Start).0| && pos <= |body|
    {
      Spans(body, pos, st).0 == Spans(body, 0, Start).0[k..] && Spans(body, pos, st).1 == Spans(body, 0, Start).1
    }

    lemma LeftStep(body: seq<byte>, k: nat, pos: nat, st: SplitState)
      requires k <= |Spans(body, 0, Start).0| && pos <= |body| && Left(body, k, pos, st)
      ensures var (spans, clean) := Spans(body, 0, Start);
              var (r, p, q) := NextJson(body, pos, st);
              && (r.NoMore? ==> k == |spans| && clean)
              && (r.Bad? ==> k == |spans| && !clean)
              && (r.Span? ==> k < |spans| && spans[k] == (r.start, r.end) && Left(body, k + 1, p, q))
    {
      hide Spans; hide NextJson;
      SpansUnfold(body, pos, st);
      var (spans, _) := Spans(body, 0, Start);
      if k < |spans| { assert spans[k..] == [spans[k]] + spans[k + 1..]; }
    }

    /** Every record so far is a row or a drop; without a drop all of them were handed over. */
    ghost predicate Kept(c: Counters, h: seq<(nat, nat)>, count: Counters, handed: seq<(nat, nat)>,
                         spans: seq<(nat, nat)>, admission: Admission)
    {
      && Total(count) == Total(c) + |spans| && Drops(count) >= Drops(c) && !admission.Stopped?
      && (admission.Complete? <==> Drops(count) == Drops(c))
      && (admission.Complete? ==> handed == h + spans)
    }

    lemma KeptStep(c: Counters, h: seq<(nat, nat)>, count: Counters, handed: seq<(nat, nat)>,
                   spans: seq<(nat, nat)>, k: nat, admission: Admission,
                   count': Counters, handed': seq<(nat, nat)>, one: Admission)
      requires k < |spans| && Kept(c, h, count, handed, spans[..k], admission)
      requires one.Complete? ==> count' == count.(rows := count.rows + 1) && handed' == handed + [spans[k]]
      requires one.Incomplete? ==> count'.rows == count.rows && Drops(count') == Drops(count) + 1
      requires !one.Stopped?
      ensures Kept(c, h, count', handed', spans[..k + 1], if one.Incomplete? then Incomplete else admission)
    {
      assert spans[..k + 1] == spans[..k] + [spans[k]];
    }

    lemma KeptMeans(c: Counters, h: seq<(nat, nat)>, count: Counters, handed: seq<(nat, nat)>,
                    spans: seq<(nat, nat)>, admission: Admission)
      requires Kept(c, h, count, handed, spans[..|spans|], admission)
      ensures Total(count) == Total(c) + |spans| && !admission.Stopped?
      ensures admission.Complete? <==> Drops(count) == Drops(c)
      ensures admission.Complete? ==> handed == h + spans
    {
      assert spans[..|spans|] == spans;
    }

    lemma NoneCancelled(body: seq<byte>, fates: nat -> Fate)
      requires Passes(body, fates, |Spans(body, 0, Start).0|)
      ensures forall k | 0 <= k < |Spans(body, 0, Start).0| :: !fates(k).cancelled
    {
      hide Spans; hide EndOf;
    }

    lemma DeliversMore(body: seq<byte>, spans: seq<(nat, nat)>, k: nat, rows: seq<RowId>, row: RowId)
      requires k < |spans| && Delivers(body, spans[..k], rows) && decode(FrameOf(body, spans[k])) == Some(row)
      ensures Delivers(body, spans[..k + 1], rows + [row])
    {
      hide FrameOf;
    }

    lemma NothingYet(body: seq<byte>, fates: nat -> Fate)
      ensures Passes(body, fates, 0) && AllComplete(body, fates, 0) && Left(body, 0, 0, Start)
      ensures Kept(count, handed, count, handed, Spans(body, 0, Start).0[..0], Complete)
      ensures Delivers(body, Spans(body, 0, Start).0[..0], [])
    {
      hide Spans;
    }

    /** What the next record, or the error behind the last one, means for the response. */
    lemma NextRecord(body: seq<byte>, fates: nat -> Fate, k: nat)
      requires k <= |Spans(body, 0, Start).0| && Passes(body, fates, k)
      ensures var (spans, clean) := Spans(body, 0, Start);
              if k < |spans| then
                var end := EndOf(body, fates, k);
                && (Passes(body, fates, k + 1) <==>
                    !fates(k).cancelled && end.Admitted? && !end.admission.Stopped?)
                && (AllComplete(body, fates, k + 1) <==> AllComplete(body, fates, k) && end == Admitted(Complete))
                && (fates(k).cancelled || end == Admitted(Stopped) ==>
                    Interrupted(body, fates) && !Passes(body, fates, |spans|))
                && (end.IngestFailed? ==> Spoiled(body, fates) && !Passes(body, fates, |spans|))
              else
                !clean ==> Spoiled(body, fates) && (fates(k).cancelled ==> Interrupted(body, fates))
    {
      hide Spans; hide EndOf;
    }

    lemma EndIs(body: seq<byte>, fates: nat -> Fate, k: nat, a: nat, b: nat)
      requires k < |Spans(body, 0, Start).0| && Spans(body, 0, Start).0[k] == (a, b) && a <= b <= |body|
      ensures EndOf(body, fates, k) == RecordEnd(body[a..b], fates(k))
      ensures FrameOf(body, Spans(body, 0, Start).0[k]) == body[a..b]
    {
    }

    lemma FatalOnly(frame: seq<byte>, fate: Fate)
      ensures RecordEnd(frame, fate).IngestFailed? ==> failOnDecode && RecordEnd(frame, fate).fatal
    {
    }
  }

  /** One step of the splitter, as a step of the whole list of spans. */
  lemma SpansUnfold(s: seq<byte>, pos: nat, st: SplitState)
    requires pos <= |s|
    ensures var n := NextJson(s, pos, st);
            match n.0
            case NoMore => Spans(s, pos, st) == ([], true)
            case Bad => Spans(s, pos, st) == ([], false)
            case Span(a, b) =>
              pos <= a < b <= |s| && pos <= n.1 <= |s| &&
              (n.2.Done? || (n.1 == b && n.2.ArrayNext?)) && !st.Done? &&
              Spans(s, pos, st) == ([(a, b)] + Spans(s, n.1, n.2).0, Spans(s, n.1, n.2).1)
  {
    hide Scan;
  }

  // ---- Conditional polling ---------------------------------------------------

  /** An entity tag or modification date, by identity, as a response carries them. */
  datatype Validators = Validators(etag: Option<nat>, lastModified: Option<nat>)

  /** The polled resource: every version has a body and the validators sent with it, and
      `matches` is how the server compares request validators with a version's. */
  datatype Server = Server(
    body: nat -> seq<byte>,
    validators: nat -> Option<Validators>,
    matches: (Validators, Option<Validators>) -> bool)

  /** No two versions can be taken for each other. */
  ghost predicate Distinct(server: Server) {
    forall a: nat, b: nat | server.validators(a).Some? &&
      server.matches(server.validators(a).value, server.validators(b)) :: a == b
  }

  /** What comes back: nothing usable, 304, or the current version with status 2xx. */
  datatype Reply = Lost | Unmodified | Modified

  datatype Cycle = Ingested | CycleIncomplete | NotModified | CycleStopped | CycleFailed(fatal: bool)

  const U32_MAX: nat := 0xFFFF_FFFF
  /** The shortest and the longest configurable interval: 100 ms and one day. */
  const MIN_INTERVAL: nat := 100_000_000
  const MAX_INTERVAL: nat := 86_400_000_000_000
  const MAX_DURATION: nat := 18_446_744_073_709_551_615_999_999_999

  function Min(a: nat, b: nat): nat { if a < b then a else b }

  function Max(a: nat, b: nat): nat { if a < b then b else a }

  /** `Duration::saturating_mul`. */
  function SatMul(d: nat, k: nat): nat { Min(d * k, MAX_DURATION) }

  function Pow2(k: nat): (p: nat)
    ensures p >= 1
  {
    if k == 0 then 1 else 2 * Pow2(k - 1)
  }

  class Poller {
    const conditional: bool
    const interval: nat
    const backoffMax: nat
    const server: Server
    const ingress: Ingress
    var validators: Option<Validators>
    var backoff: nat
    var next: nat
    var skipped: nat
    /** The version of the latest response that was admitted completely. */
    ghost var latest: Option<nat>
    /** Spans handed over for each version that was admitted completely. */
    ghost var delivered: map<nat, seq<(nat, nat)>>
    /** Failed cycles since the last one that did not fail. */
    ghost var failures: nat

    ghost predicate Valid()
      reads this
    {
      && 0 < interval <= MAX_DURATION && backoffMax <= MAX_DURATION
      && validators == (if conditional && latest.Some? then server.validators(latest.value) else None)
      && (latest.Some? ==> latest.value in delivered)
      && (forall v | v in delivered ::
            Spans(server.body(v), 0, Start).1 && delivered[v] == Spans(server.body(v), 0, Start).0)
      && backoff == (if failures == 0 then interval else Min(interval * Pow2(failures), backoffMax))
    }

    /** The stored validators match this version in the eyes of the server. */
    predicate Matched(current: nat)
      reads this`validators
    {
      validators.Some? && server.matches(validators.value, server.validators(current))
    }

    constructor (conditional: bool, interval: nat, backoffMax: nat, server: Server, ingress: Ingress, now: nat)
      requires 0 < interval <= MAX_DURATION && backoffMax <= MAX_DURATION
      ensures Valid() && validators == None && latest == None && failures == 0 && next == now && skipped == 0
      ensures this.conditional == conditional && this.server == server && this.ingress == ingress
      ensures this.interval == interval && this.backoffMax == backoffMax
    {
      this.conditional, this.interval, this.backoffMax := conditional, interval, backoffMax;
      this.server, this.ingress := server, ingress;
      validators, backoff, next, skipped := None, interval, now, 0;
      latest, delivered, failures := None, map[], 0;
    }

    /** `poll_once` while the resource is at version `current`. A 304 in answer to
        validators that really match means that this version was handed over before, in
        full: nothing unadmitted is ever hidden. */
    method PollOnce(current: nat, reply: Reply, fates: nat -> Fate, cancelled: (bool, bool, bool))
      returns (c: Cycle)
      requires Valid()
      modifies this`validators, this`latest, this`delivered, ingress
      ensures Valid()
      ensures c.Ingested? ==>
                && latest == Some(current) && current in delivered
                && ingress.handed == old(ingress.handed) + Spans(server.body(current), 0, Start).0
                && old(ingress.inbox) <= ingress.inbox
                && ingress.Delivers(server.body(current), Spans(server.body(current), 0, Start).0,
                                    ingress.inbox[|old(ingress.inbox)|..])
      ensures forall v | v in old(delivered) :: v in delivered
      ensures !c.Ingested? ==>
                validators == old(validators) && latest == old(latest) && delivered == old(delivered)
      ensures c.NotModified? <==> conditional && reply.Unmodified? && !cancelled.0 && !cancelled.1
      ensures c.NotModified? ==> ingress.handed == old(ingress.handed) && ingress.inbox == old(ingress.inbox)
      ensures c.Ingested? || c.CycleIncomplete? <==>
                && reply.Modified? && !cancelled.0 && !cancelled.1 && !cancelled.2
                && ingress.Finishes(server.body(current), fates)
      ensures c.Ingested? <==>
                && reply.Modified? && !cancelled.0 && !cancelled.1 && !cancelled.2
                && ingress.Finishes(server.body(current), fates)
                && ingress.AllComplete(server.body(current), fates, |Spans(server.body(current), 0, Start).0|)
      ensures c.CycleStopped? ==>
                || cancelled.0 || cancelled.1 || cancelled.2
                || (reply.Modified? && ingress.Interrupted(server.body(current), fates))
      ensures c.CycleFailed? ==>
                || reply.Lost? || (reply.Unmodified? && !conditional)
                || (reply.Modified? && c.fatal == ingress.failOnDecode
                    && ingress.Spoiled(server.body(current), fates))
      ensures c.NotModified? && Distinct(server) && Matched(current) ==>
                && latest == Some(current) && current in delivered
                && delivered[current] == Spans(server.body(current), 0, Start).0
    {
      hide Spans;
      if cancelled.0 { return CycleStopped; }
      if reply.Lost? { return CycleFailed(false); }
      if reply.Unmodified? && !conditional { return CycleFailed(false); }
      if cancelled.1 { return CycleStopped; }
      if reply.Unmodified? { return NotModified; }
      var body := server.body(current);
      ghost var before := ingress.handed;
      var r := ingress.Ingest(body, fates, cancelled.2);
      if r.IngestFailed? { return CycleFailed(r.fatal); }
      if cancelled.2 || r.admission.Stopped? { return CycleStopped; }
      if r.admission.Incomplete? { return CycleIncomplete; }
      if conditional {
        validators := server.validators(current);
      }
      latest := Some(current);
      delivered := delivered[current := ingress.handed[|before|..]];
      return Ingested;
    }

    /** The rest of a loop turn of `run_budgeted`: delay, skipped ticks, next poll. */
    method Schedule(c: Cycle, started: nat, now: nat) returns (delay: nat)
      requires Valid() && started <= now && !c.CycleStopped? && c != CycleFailed(true)
      modifies this`backoff, this`next, this`skipped, this`failures
      ensures Valid()
      ensures failures == if c.CycleFailed? then old(failures) + 1 else 0
      ensures delay == if failures == 0 then interval else Min(interval * Pow2(failures), backoffMax)
      ensures skipped == old(skipped) + (now - started) / interval
      ensures next == NextPoll(interval, started, now, delay)
    {
      hide Spans; hide Pow2;
      if c.CycleFailed? {
        BackoffStep(interval, backoffMax, backoff, failures);
        backoff := Min(SatMul(backoff, 2), backoffMax);
        failures := failures + 1;
        delay := backoff;
      } else {
        backoff, failures := interval, 0;
        delay := interval;
      }
      var busy := now - started;
      var missed := busy / interval;
      if missed > 0 { skipped := skipped + missed; }
      var factor := if missed + 1 <= U32_MAX then missed + 1 else U32_MAX;
      var tick := SatMul(interval, factor);
      next := started + Max(tick, delay);
    }
  }

  /** The instant of the next poll: whole intervals after the last start that skip the
      ticks missed while busy, or the delay if that is longer. */
  function NextPoll(interval: nat, started: nat, now: nat, delay: nat): nat
    requires 0 < interval && started <= now
  {
    var missed := (now - started) / interval;
    started + Max(SatMul(interval, Min(missed + 1, U32_MAX)), delay)
  }

  /** The next poll is the first tick after the completion time, or later if the delay is
      longer: at least one interval after the last start, and after the
      completion time exactly when the tick count fits 32 bits or the delay is longer. */
  lemma NextPollLater(interval: nat, started: nat, now: nat, delay: nat)
    requires MIN_INTERVAL <= interval <= MAX_INTERVAL && started <= now
    ensures NextPoll(interval, started, now, delay) >= started + interval
    ensures NextPoll(interval, started, now, delay) > now
            <==> (now - started) / interval + 1 <= U32_MAX || delay > now - started
    ensures NextPoll(interval, started, now, delay) <= Max(now + interval, started + delay)
  {
    var busy := now - started;
    var factor := Min(busy / interval + 1, U32_MAX);
    var tick := interval * factor;
    TickFacts(interval, busy, factor);
    MulMono(interval, factor, U32_MAX);
    assert SatMul(interval, factor) == tick;
    LaterBy(started, busy, tick, delay);
  }

  /** The clamp is reachable in principle: 13.6 years of busy time at the shortest interval,
      and the next poll is due at the completion time itself. */
  lemma ClampedPoll(started: nat)
    ensures var busy := 429_496_729_500_000_000;
            NextPoll(MIN_INTERVAL, started, started + busy, MIN_INTERVAL) == started + busy
  {
    var busy := 429_496_729_500_000_000;
    assert busy == MIN_INTERVAL * U32_MAX && busy / MIN_INTERVAL == U32_MAX;
  }

  lemma LaterBy(started: nat, busy: nat, tick: nat, delay: nat)
    ensures started + Max(tick, delay) > started + busy <==> tick > busy || delay > busy
  {
  }

  lemma MulMono(a: nat, b: nat, c: nat)
    requires b <= c
    ensures a * b <= a * c
  {
  }

  /** Doubling and capping is capping the doubled interval. */
  lemma BackoffStep(interval: nat, cap: nat, backoff: nat, k: nat)
    requires cap <= MAX_DURATION
    requires backoff == if k == 0 then interval else Min(interval * Pow2(k), cap)
    ensures Min(SatMul(backoff, 2), cap) == Min(interval * Pow2(k + 1), cap)
  {
    assert interval * Pow2(k + 1) == 2 * (interval * Pow2(k)) by {
      assert Pow2(k + 1) == 2 * Pow2(k);
    }
    assert k == 0 ==> interval * Pow2(0) == interval;
  }

  /** A tick multiple lies beyond the busy time exactly when it was not clamped. */
  lemma TickFacts(interval: nat, busy: nat, factor: nat)
    requires 0 < interval
    requires factor == Min(busy / interval + 1, U32_MAX)
    ensures interval <= interval * factor <= busy + interval
    ensures interval * factor > busy <==> busy / interval + 1 <= U32_MAX
  {
    var missed := busy / interval;
    assert busy == interval * missed + busy % interval;
    assert interval * (missed + 1) == interval * missed + interval;
    assert interval * factor >= interval * 1;
    if missed + 1 > U32_MAX {
      assert interval * U32_MAX <= interval * missed;
    }
  }

  /** One poll of a run: the version served, whether the exchange works, and the rest of
      the environment. */
  datatype Turn = Turn(
    current: nat, lost: bool, fates: nat -> Fate, cancelled: (bool, bool, bool), busy: nat)

  /** An honest server: 304 exactly when the validators sent match the current version. */
  function Answer(server: Server, sent: Option<Validators>, t: Turn): Reply {
    if t.lost then Lost
    else if sent.Some? && server.matches(sent.value, server.validators(t.current)) then Unmodified
    else Modified
  }

  /** The version of the last response before turn `n` that was admitted completely. */
  ghost function LastIngested(first: Option<nat>, cycles: seq<Cycle>, turns: seq<Turn>, n: nat): Option<nat>
    requires n <= |cycles| && n <= |turns|
  {
    if n == 0 then first
    else if cycles[n - 1].Ingested? then Some(turns[n - 1].current)
    else LastIngested(first, cycles, turns, n - 1)
  }

  /** Whenever nothing was modified, the last complete response was of the current version. */
  ghost predicate HidesNothing(first: Option<nat>, cycles: seq<Cycle>, turns: seq<Turn>)
    requires |cycles| <= |turns|
  {
    forall i | 0 <= i < |cycles| && cycles[i].NotModified? ::
      LastIngested(first, cycles, turns, i) == Some(turns[i].current)
  }

  lemma {:induction false} LastIngestedPrefix(
    first: Option<nat>, cycles: seq<Cycle>, c: Cycle, turns: seq<Turn>, n: nat)
    requires n <= |cycles| && n <= |turns|
    ensures LastIngested(first, cycles + [c], turns, n) == LastIngested(first, cycles, turns, n)
  {
    if n > 0 { LastIngestedPrefix(first, cycles, c, turns, n - 1); }
  }

  /** Every run against an honest server with distinct validators: whenever the poller is
      told that nothing changed, the last complete response before was of the very version
      current at that time, and it was handed over in full. What the poller stores always
      comes from the last complete response, and a run goes on until it is stopped or a
      record is fatal. */
  method RunPolls(p: Poller, turns: seq<Turn>) returns (cycles: seq<Cycle>)
    requires p.Valid() && Distinct(p.server)
    modifies p, p.ingress
    ensures p.Valid() && |cycles| <= |turns|
    ensures |cycles| < |turns| ==>
              cycles != [] && (cycles[|cycles| - 1].CycleStopped? || cycles[|cycles| - 1] == CycleFailed(true))
    ensures p.latest == LastIngested(old(p.latest), cycles, turns, |cycles|)
    ensures HidesNothing(old(p.latest), cycles, turns)
    ensures forall i | 0 <= i < |cycles| && (cycles[i].NotModified? || cycles[i].Ingested?) ::
              var v := turns[i].current;
              v in p.delivered && p.delivered[v] == Spans(p.server.body(v), 0, Start).0
  {
    hide Spans; hide LastIngested; hide HidesNothing;
    cycles := [];
    NoneIngested(p.latest, turns);
    for i := 0 to |turns|
      invariant p.Valid() && |cycles| == i
      invariant p.latest == LastIngested(old(p.latest), cycles, turns, i)
      invariant HidesNothing(old(p.latest), cycles, turns)
      invariant forall j | 0 <= j < i ::
                  cycles[j].NotModified? || cycles[j].Ingested? ==> turns[j].current in p.delivered
    {
      var t := turns[i];
      var started := p.next;
      var reply := Answer(p.server, p.validators, t);
      var c := p.PollOnce(t.current, reply, t.fates, t.cancelled);
      OneMoreCycle(old(p.latest), cycles, c, turns);
      cycles := cycles + [c];
      if c.CycleStopped? || c == CycleFailed(true) { return; }
      var _ := p.Schedule(c, started, started + t.busy);
    }
  }

  lemma NoneIngested(first: Option<nat>, turns: seq<Turn>)
    ensures LastIngested(first, [], turns, 0) == first && HidesNothing(first, [], turns)
  {
  }

  lemma OneMoreCycle(first: Option<nat>, cycles: seq<Cycle>, c: Cycle, turns: seq<Turn>)
    requires |cycles| < |turns| && HidesNothing(first, cycles, turns)
    requires c.NotModified? ==> LastIngested(first, cycles, turns, |cycles|) == Some(turns[|cycles|].current)
    ensures LastIngested(first, cycles + [c], turns, |cycles| + 1) ==
            if c.Ingested? then Some(turns[|cycles|].current) else LastIngested(first, cycles, turns, |cycles|)
    ensures HidesNothing(first, cycles + [c], turns)
  {
    hide LastIngested;
    forall j | 0 <= j <= |cycles|
      ensures LastIngested(first, cycles + [c], turns, j) == LastIngested(first, cycles, turns, j)
    {
      LastIngestedPrefix(first, cycles, c, turns, j);
    }
    LastOne(first, cycles + [c], turns, |cycles|);
  }

  lemma LastOne(first: Option<nat>, cycles: seq<Cycle>, turns: seq<Turn>, i: nat)
    requires i < |cycles| && i < |turns|
    ensures LastIngested(first, cycles, turns, i + 1) ==
            if cycles[i].Ingested? then Some(turns[i].current) else LastIngested(first, cycles, turns, i)
  {
  }
}
