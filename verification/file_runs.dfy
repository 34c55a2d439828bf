/**
  Whole runs of the file replay source: any script of polls and appends, a
  restart from a stored cut, and a bounded replay range.
 */
module FileRuns {
  import opened Bytes
  import opened Framing
  import opened Outcomes
  import opened FileReplay
  import F = Fingerprint

  /** One step of a run: the source is polled with some scan budget, or the file grows. */
  datatype Step = Poll(budget: nat) | Grow(more: seq<byte>)

  /** What a poll hands to the caller. */
  function Reported(r: FramePoll): seq<Event> {
    match r
    case Ready(b) => [Frame(b)]
    case RecordTooLong => [Oversize]
    case _ => []
  }

  /** How many polls of a script have some budget. */
  function Polls(script: seq<Step>): nat {
    if script == [] then 0
    else
      var last := script[|script| - 1];
      Polls(script[..|script| - 1]) + if last.Poll? && last.budget > 0 then 1 else 0
  }

  lemma PollsSnoc(script: seq<Step>, i: nat)
    requires i < |script|
    ensures Polls(script[..i + 1]) ==
            Polls(script[..i]) + if script[i].Poll? && script[i].budget > 0 then 1 else 0
  {
    assert script[..i + 1][..i] == script[..i];
  }

  /** Every run reports exactly the outcomes of framing the file directly: in order,
      none lost, none repeated; all of them once a poll has answered EOF; and at least
      those of the file at the start after as many polls as there were bytes to pass, twice
      over because a last record may be taken and reported by different polls. `failed` is
      a header error, after which the source is dropped. */
  method Run(src: FileReplaySource, script: seq<Step>) returns (got: seq<Event>, eof: bool, failed: bool)
    requires src.Valid() && src.replayEnd.None?
    modifies src
    ensures old(src.file) <= src.file && src.base == old(src.base)
    ensures src.now.events == old(src.now.events) + got
    ensures src.now.events <= Whole(src.cfg, src.file).events
    ensures eof ==> src.now.events == Whole(src.cfg, src.file).events
    ensures !failed ==> src.Valid() && src.recordIndex == src.base + src.now.index
    ensures failed ==> src.now.error.Some? && Whole(src.cfg, src.file) == src.now
    ensures !failed && Polls(script) > 2 * |src.file| - old(src.Cursor() + src.offset) ==>
              Whole(src.cfg, old(src.file)).events <= src.now.events
  {
    hide FileReplaySource.Valid; hide Whole; hide AtCut; hide Polls;
    got, eof, failed := [], false, false;
    ghost var all := false;
    src.Ahead();
    NoPolls();
    assert script[..0] == [];
    for i := 0 to |script|
      invariant src.Valid() && src.replayEnd.None? && !failed
      invariant old(src.file) <= src.file && src.base == old(src.base)
      invariant src.cfg.terminal ==> src.file == old(src.file)
      invariant src.now.events == old(src.now.events) + got
      invariant src.now.events <= Whole(src.cfg, src.file).events
      invariant eof ==> src.now.events == Whole(src.cfg, src.file).events
      invariant all ==> Whole(src.cfg, old(src.file)).events <= src.now.events
      invariant !all ==> src.Cursor() + src.offset >= old(src.Cursor() + src.offset) + Polls(script[..i])
    {
      PollsSnoc(script, i);
      match script[i] {
        case Grow(more) =>
          if !src.cfg.terminal {
            src.Append(more);
            eof := false;
          }
        case Poll(budget) =>
          var r := src.ReadFrame(budget);
          got := got + Reported(r);
          eof := r.AtEof?;
          if eof {
            WholeGrows(src.cfg, old(src.file), src.file);
            all := true;
          }
          if r.HeaderFailed? {
            failed := true;
            FailureIsFinal(src.cfg, src.file, src.offset, src.now);
            return;
          }
      }
      src.Ahead();
    }
    src.Facts();
    src.Inside();
    assert script[..|script|] == script;
  }

  lemma NoPolls()
    ensures Polls([]) == 0
  {
  }

  /** `next_frame`: polling a terminal file until there is an answer ends, with the next
      outcome or with none left. */
  method NextFrame(src: FileReplaySource, budget: nat) returns (r: FramePoll)
    requires src.Valid() && src.replayEnd.None? && src.cfg.terminal && 0 < budget
    modifies src
    ensures src.file == old(src.file) && src.replayEnd.None? && src.base == old(src.base)
    ensures !r.Pending? && Yields(r, old(src.now), src.now)
    ensures !r.HeaderFailed? ==> src.Valid()
    ensures r.AtEof? || r.HeaderFailed? ==> src.now == Whole(src.cfg, src.file)
    ensures r.Ready? || r.RecordTooLong? ==> old(src.offset) < src.offset <= |src.file|
  {
    hide FileReplaySource.Valid; hide Whole; hide AtCut;
    while true
      invariant src.Valid() && src.file == old(src.file) && src.replayEnd.None? && src.base == old(src.base)
      invariant src.now.events == old(src.now.events) && old(src.offset) <= src.offset
      decreases |src.file| - src.Cursor()
    {
      r := src.ReadFrame(budget);
      if r.HeaderFailed? { FailureIsFinal(src.cfg, src.file, src.offset, src.now); }
      if r.AtEof? { src.AllRead(); }
      if !r.Pending? { return; }
      src.Inside();
    }
  }

  /** Draining a terminal file ends and reports every outcome it still holds, whatever the
      budget of a poll. */
  method Drain(src: FileReplaySource, budget: nat) returns (got: seq<Event>, failed: bool)
    requires src.Valid() && src.replayEnd.None? && src.cfg.terminal && 0 < budget
    modifies src
    ensures src.file == old(src.file)
    ensures Whole(src.cfg, src.file).events == old(src.now.events) + got
    ensures failed <==> Whole(src.cfg, src.file).error.Some?
  {
    hide FileReplaySource.Valid; hide Whole; hide AtCut;
    got, failed := [], false;
    while true
      invariant src.Valid() && src.file == old(src.file) && src.replayEnd.None? && !failed
      invariant src.now.events == old(src.now.events) + got
      decreases |src.file| - src.offset
    {
      var r := NextFrame(src, budget);
      got := got + Reported(r);
      if r.HeaderFailed? { return got, true; }
      src.Facts();
      if r.AtEof? { return; }
    }
  }

  /** Restart from a stored cut, in a file whose header is fine: exactly the cuts a drain can
      reach are accepted, and from there exactly the outcomes the original run had still to
      report follow: some of them, all of them at EOF, and all that were in the file when
      there are enough polls. */
  method Resume(src: FileReplaySource, pos: SourcePosition, admitted: bool, script: seq<Step>)
    returns (refused: bool, got: seq<Event>, eof: bool, failed: bool)
    requires src.Valid() && src.replayEnd.None? && Whole(src.cfg, src.file).error.None?
    modifies src
    ensures !refused <==>
              old(src.Accepts(pos, admitted)
                  && (Cut(FramerOf(src.cfg), src.file, 0, pos.offset)
                      || (src.cfg.terminal && pos.offset == |src.file|)))
    ensures !refused ==> old(src.ProgressAt(pos.offset)).events + got <= Whole(src.cfg, src.file).events
    ensures !refused && eof ==>
              Whole(src.cfg, src.file).events == old(src.ProgressAt(pos.offset)).events + got
    ensures !refused && !failed && Polls(script) > 2 * (|src.file| - pos.offset) ==>
              Whole(src.cfg, old(src.file)).events <= old(src.ProgressAt(pos.offset)).events + got
    ensures !refused && !failed ==>
              src.recordIndex == pos.index + src.now.index - old(src.ProgressAt(pos.offset)).index
  {
    hide FileReplaySource.Valid; hide Whole; hide AtCut; hide Sound; hide FileReplaySource.ProgressAt;
    hide FileReplaySource.Accepts; hide Cut; hide Polls;
    SoundIffCut(src.cfg, src.file, pos.offset);
    var r := src.Seek(pos, admitted);
    refused, got, eof, failed := r.Some?, [], false, false;
    if !refused {
      got, eof, failed := Run(src, script);
    }
  }

  /** A live reader stands at an offset a drain can reach, with the progress a drain has. */
  lemma Stands(src: FileReplaySource)
    requires src.Valid()
    ensures Sound(src.cfg, src.file, src.offset) && src.ProgressAt(src.offset) == src.now
  {
    hide At;
    if AtCut(src.cfg, src.file, src.offset).Some? && !src.AtBoundary() {
      RestVia(src.cfg, src.file, 0, Start(src.cfg), src.offset);
    }
  }

  /** A cut that was stored stays good when the file grows. */
  lemma CutSurvives(src: FileReplaySource, pos: SourcePosition, more: seq<byte>)
    requires src.Valid() && pos.offset == src.offset && (src.cfg.terminal ==> more == [])
    requires F.IdentityHolds(src.hash, src.format, src.cfg.terminal, pos.identity, src.file)
    ensures var grown := src.file + more;
            && F.IdentityHolds(src.hash, src.format, src.cfg.terminal, pos.identity, grown)
            && Sound(src.cfg, grown, pos.offset)
            && (if AtCut(src.cfg, grown, pos.offset).Some? then AtCut(src.cfg, grown, pos.offset).value
                else Whole(src.cfg, grown)) == src.now
  {
    hide At; hide Rest; hide F.Content;
    var grown := src.file + more;
    Stands(src);
    if src.cfg.terminal {
      assert grown == src.file;
    } else {
      F.AppendKeepsIdentity(src.hash, src.format, pos.identity, src.file, more);
      AtPrefix(src.cfg, src.file, grown, 0, Start(src.cfg), src.offset);
    }
  }

  /** Run, store a cut, reopen the file after it may have grown, and run on: the cut is
      accepted, records keep their numbers, and the two runs together report the outcomes
      of the file, none lost and none repeated; all of them once the second run is at EOF, and
      all that the file held at the restart when the second run has enough polls. */
  method CheckpointRestart(src: FileReplaySource, before: seq<Step>, more: seq<byte>, after: seq<Step>)
    returns (again: FileReplaySource, first: seq<Event>, second: seq<Event>, eof: bool, failed: bool)
    requires src.Valid() && src.replayEnd.None? && (src.cfg.terminal ==> more == [])
    modifies src
    ensures again.cfg == src.cfg
    ensures old(src.now.events) + first + second <= Whole(again.cfg, again.file).events
    ensures eof ==> Whole(again.cfg, again.file).events == old(src.now.events) + first + second
    ensures !failed ==> again.Valid() && again.recordIndex == old(src.base) + again.now.index
    ensures !failed ==> fresh(again) && src.file + more <= again.file
    ensures !failed && Polls(after) > 2 * |again.file| ==>
              Whole(again.cfg, src.file + more).events <= old(src.now.events) + first + second
    ensures failed ==> Whole(again.cfg, again.file).error.Some? || Whole(src.cfg, src.file).error.Some?
  {
    hide FileReplaySource.Valid; hide Whole; hide AtCut; hide Sound; hide F.IdentityHolds; hide Cut; hide Polls;
    eof, second := false, [];
    first, eof, failed := Run(src, before);
    if failed { return src, first, [], eof, true; }
    var pos := src.CheckpointPosition();
    CutSurvives(src, pos, more);
    src.Facts();
    again := new FileReplaySource.Open(src.cfg, src.hash, src.format, src.file + more);
    var refused := again.Seek(pos, true);
    assert refused.None?;
    second, eof, failed := Run(again, after);
  }

  /** A cut stored for another file is refused: one whose contents, or under the append-only
      contract whose prefix, of up to 8193 bytes is not what the cut was stored for. */
  method ReplacedFile(src: FileReplaySource, pos: SourcePosition, was: seq<byte>, admitted: bool)
    returns (r: Option<SeekError>)
    requires src.Valid() && pos.identity == F.IdentityOf(src.hash, src.format, was)
    requires |was| <= 2 * F.PREFIX + 1 && |src.file| < F.Pow256(8)
    requires |was| <= |src.file| ==> F.NoCollision(src.hash, src.format, was, src.file[..|was|])
    requires if src.cfg.terminal then was != src.file else !(was <= src.file)
    modifies src
    ensures r.Some? && src.Valid() && src.offset == old(src.offset) && src.now == old(src.now)
  {
    hide FileReplaySource.Valid; hide F.IdentityHolds; hide F.IdentityOf; hide F.NoCollision; hide Cut; hide Sound;
    if F.IdentityHolds(src.hash, src.format, src.cfg.terminal, pos.identity, src.file) {
      F.SmallSize(|was|);
      F.IdentityPins(src.hash, src.format, src.cfg.terminal, was, src.file);
    }
    r := src.Seek(pos, admitted);
  }

  // ---- Bounded replay -----------------------------------------------------

  /** `e` ends a record of an NDJSON file, and that record is not blank. */
  ghost predicate LoudEnd(cfg: Config, s: seq<byte>, e: nat) {
    && e <= |s| && Cut(FramerOf(cfg), s, 0, e)
    && forall o: nat | o < e && Cut(FramerOf(cfg), s, 0, o) && NextEnd(FramerOf(cfg), s, o) == e - 1 ::
         Loud(cfg, s[o..e], true)
  }

  lemma LoudEndGrows(cfg: Config, s: seq<byte>, t: seq<byte>, e: nat)
    requires LoudEnd(cfg, s, e) && s <= t
    ensures LoudEnd(cfg, t, e)
  {
    hide Loud;
    var f := FramerOf(cfg);
    CutPrefix(f, s, t, 0, e);
    forall o: nat | o < e && Cut(f, t, 0, o) && NextEnd(f, t, o) == e - 1
      ensures Loud(cfg, t[o..e], true)
    {
      CutPrefix(f, s, t, 0, o);
      NextEndPrefix(f, s, t, o);
      assert s[o..e] == t[o..e];
    }
  }

  lemma {:induction false} StopIsLater(cfg: Config, s: seq<byte>, a: nat)
    requires a <= |s| && NextStop(cfg, s, a).Some?
    ensures a < NextStop(cfg, s, a).value <= |s|
    decreases |s| - a
  {
    hide Loud;
    var e := NextEnd(FramerOf(cfg), s, a);
    if e < |s| && !Loud(cfg, s[a..e + 1], true) { StopIsLater(cfg, s, e + 1); }
  }

  /** From a boundary before `e`, a read stops by `e`, or only after everything before
      `e` was blank. */
  lemma {:induction false} StopByOrPast(cfg: Config, s: seq<byte>, o: nat, e: nat)
    requires o <= e <= |s| && Cut(FramerOf(cfg), s, 0, o) && Cut(FramerOf(cfg), s, 0, e)
    ensures || (NextStop(cfg, s, o).Some? && NextStop(cfg, s, o).value <= e)
            || (NextStop(cfg, s, o) == NextStop(cfg, s, e) && (o < e ==> !LoudEnd(cfg, s, e)))
    decreases |s| - o
  {
    hide Loud; hide Cut;
    if o < e {
      var f := FramerOf(cfg);
      CutOrder(f, s, 0, o, e);
      var k := NextEnd(f, s, o);
      CutSnoc(f, s, 0, o);
      if !Loud(cfg, s[o..k + 1], true) { StopByOrPast(cfg, s, k + 1, e); }
    }
  }

  /** Skipping blank records never reaches a range end whose record is not blank. */
  lemma {:induction false} QuietInRange(cfg: Config, s: seq<byte>, o: nat, k: nat, e: nat)
    requires o < e && Cut(FramerOf(cfg), s, 0, o) && LoudEnd(cfg, s, e) && Quiet(cfg, s, o, k)
    ensures k < e
    decreases |s| - o
  {
    hide Loud; hide Cut;
    if o != k {
      var f := FramerOf(cfg);
      CutOrder(f, s, 0, o, e);
      CutSnoc(f, s, 0, o);
      QuietInRange(cfg, s, NextEnd(f, s, o) + 1, k, e);
    }
  }

  /** At the end of an NDJSON file that ends with a line feed the walk has everything. */
  lemma CutAtEnd(cfg: Config, s: seq<byte>)
    requires cfg.kind.Json? && Cut(FramerOf(cfg), s, 0, |s|)
    ensures AtCut(cfg, s, |s|) == Some(Whole(cfg, s))
  {
    hide Cut;
    EveryCutReached(cfg, s, 0, Start(cfg), |s|);
    RestVia(cfg, s, 0, Start(cfg), |s|);
  }

  /** No read that starts before `e` goes on past it. */
  ghost predicate Respected(cfg: Config, s: seq<byte>, e: nat)
    requires e <= |s|
  {
    forall o: nat | o < e && Cut(FramerOf(cfg), s, 0, o) ::
      NextStop(cfg, s, o).Some? ==> NextStop(cfg, s, o).value <= e
  }

  /** A blank record at the end, with something behind it, is overrun. */
  lemma BlankEndNotRespected(cfg: Config, s: seq<byte>, o: nat, e: nat)
    requires o < e <= |s| && Cut(FramerOf(cfg), s, 0, o) && NextEnd(FramerOf(cfg), s, o) == e - 1
    requires !Loud(cfg, s[o..e], true) && NextStop(cfg, s, e).Some?
    ensures !Respected(cfg, s, e)
  {
    hide Loud; hide Cut; hide NextEnd; hide Search;
    StopOfLine(cfg, s, o, e - 1);
    QuietStop(cfg, s, o, e);
    StopIsLater(cfg, s, e);
  }

  /** A range end is respected by every read before it exactly when the record ending
      there is not blank, or nothing but blanks follows it. */
  lemma BoundedExactly(cfg: Config, s: seq<byte>, e: nat)
    requires e <= |s| && Cut(FramerOf(cfg), s, 0, e)
    ensures Respected(cfg, s, e) <==> LoudEnd(cfg, s, e) || NextStop(cfg, s, e).None?
  {
    hide Loud; hide Cut; hide NextStop; hide NextEnd; hide Search;
    var f := FramerOf(cfg);
    if LoudEnd(cfg, s, e) || NextStop(cfg, s, e).None? {
      forall o: nat | o < e && Cut(f, s, 0, o) && NextStop(cfg, s, o).Some?
        ensures NextStop(cfg, s, o).value <= e
      {
        StopByOrPast(cfg, s, o, e);
      }
    } else {
      var o: nat :| o < e && Cut(f, s, 0, o) && NextEnd(f, s, o) == e - 1 && !Loud(cfg, s[o..e], true);
      BlankEndNotRespected(cfg, s, o, e);
    }
  }

  /** One read of a bounded replay, whatever its budget: what it reports lies at the next
      stop of the file, and with enough budget it does report. So some read runs past the
      end of the range exactly when the next stop does. */
  method BoundedRead(src: FileReplaySource, budget: nat) returns (r: FramePoll)
    requires src.Valid() && src.cfg.kind.Json?
    requires src.replayEnd.Some? && src.offset < src.replayEnd.value
    modifies src
    ensures src.Valid() && old(src.file) <= src.file && src.replayEnd == old(src.replayEnd)
    ensures Reported(r) != [] ==> NextStop(src.cfg, src.file, old(src.offset)) == Some(src.offset)
    ensures budget > |src.file| - old(src.Cursor()) ==>
              (Reported(r) != [] && src.offset > src.replayEnd.value <==>
               NextStop(src.cfg, src.file, old(src.offset)).Some?
               && NextStop(src.cfg, src.file, old(src.offset)).value > src.replayEnd.value)
  {
    hide FileReplaySource.Valid; hide NextStop; hide Quiet;
    src.Inside();
    r := src.ReadFrame(budget);
    src.Inside();
  }

  /** The hypothesis is needed: replaying the blank first line of "\\nx\\n" up to offset 1
      runs on into the record behind it. */
  method BlankEndOverruns(cfg: Config, hash: seq<byte> -> F.Word) returns (src: FileReplaySource, r: FramePoll)
    requires cfg.kind.Json? && cfg.maxRecord >= 1 && cfg.terminal
    ensures src.file == [LF, 120, LF] && src.replayEnd == Some(1)
    ensures r.Ready? && r.payload == [120] && src.offset == 3
  {
    hide FileReplaySource.Valid; hide NextStop; hide Quiet; hide Cut; hide Whole; hide AtCut; hide F.IdentityOf;
    var s: seq<byte> := [LF, 120, LF];
    src := new FileReplaySource.Open(cfg, hash, None, s);
    BlankFirstLine(cfg);
    var _ := src.SetReplayEnd(Some(1));
    src.Facts();
    r := src.ReadFrame(4);
    src.Inside();
    src.AllRead();
    assert src.now.events[0] == Frame([120]);
  }

  lemma BlankFirstLine(cfg: Config)
    requires cfg.kind.Json? && cfg.maxRecord >= 1
    ensures Cut(FramerOf(cfg), [LF, 120, LF], 0, 1)
    ensures NextStop(cfg, [LF, 120, LF], 0) == Some(3)
    ensures Whole(cfg, [LF, 120, LF]).events == [Frame([120])]
  {
    var f := FramerOf(cfg);
    var s: seq<byte> := [LF, 120, LF];
    NeverQuoted(f, s, 0);
    NeverQuoted(f, s, 1);
    NextEndIs(f, s, 0, 0);
    NextEndIs(f, s, 1, 2);
    assert s[0..1] == [LF] && s[1..3] == [120, LF];
    assert Strip(Json, [120, LF]) == [120] by { assert DropLast([120, LF]) == [120]; }
    assert Strip(Json, [LF]) == [] by { assert DropLast([LF]) == []; }
    NeverQuoted(f, s, 3);
    NextEndIs(f, s, 3, 3);
    var p := Consume(cfg, Start(cfg), [LF], true, true);
    assert p.events == [] && p.error.None?;
    var q := Consume(cfg, p, [120, LF], false, true);
    assert Rest(cfg, s, 3, q) == q;
    assert Rest(cfg, s, 1, p) == q;
  }

  /** A bounded replay to the end of a record that is not blank reports exactly the
      outcomes before it, and from then on answers EOF without moving; enough polls with
      some budget get there. */
  method RunBounded(src: FileReplaySource, budgets: seq<nat>) returns (got: seq<Event>, eof: bool)
    requires src.Valid() && src.cfg.kind.Json?
    requires src.replayEnd.Some? && src.offset <= src.replayEnd.value
    requires LoudEnd(src.cfg, src.file, src.replayEnd.value)
    modifies src
    ensures src.Valid() && src.replayEnd == old(src.replayEnd) && src.offset <= src.replayEnd.value
    ensures old(src.file) <= src.file && src.now.events == old(src.now.events) + got
    ensures eof ==> AtCut(src.cfg, src.file, src.replayEnd.value) == Some(src.now)
    ensures old(src.offset) == src.replayEnd.value ==> got == []
    ensures (forall b | b in budgets :: b > 0) && |budgets| > 2 * (src.replayEnd.value - old(src.offset)) ==> eof
  {
    hide FileReplaySource.Valid; hide Whole; hide At; hide NextStop; hide Quiet; hide Cut; hide Loud;
    got, eof := [], false;
    var e := src.replayEnd.value;
    for i := 0 to |budgets|
      invariant src.Valid() && src.replayEnd == Some(e) && src.offset <= e
      invariant LoudEnd(src.cfg, src.file, e)
      invariant old(src.file) <= src.file && src.now.events == old(src.now.events) + got
      invariant eof ==> src.offset == e
      invariant old(src.offset) == e ==> got == [] && src.offset == e
      invariant (forall b | b in budgets :: b > 0) && !eof ==> src.Cursor() + src.offset >= 2 * old(src.offset) + i
      invariant i > 0 && !eof && src.offset == e ==> src.recordBytes == 0
    {
      assert budgets[i] in budgets;
      ghost var had, o := src.file, src.offset;
      src.Facts();
      var r := src.ReadFrame(budgets[i]);
      LoudEndGrows(src.cfg, had, src.file, e);
      if o < e {
        AtIsCut(src.cfg, had, 0, Start(src.cfg), o);
        CutPrefix(FramerOf(src.cfg), had, src.file, 0, o);
        StopByOrPast(src.cfg, src.file, o, e);
        if r.Pending? { QuietInRange(src.cfg, src.file, o, src.offset, e); }
      }
      got := got + Reported(r);
      eof := r.AtEof?;
    }
    src.Facts();
    if src.offset < e { WithinRecord(src, e); }
    if eof && e == |src.file| { CutAtEnd(src.cfg, src.file); }
  }

  /** A record in progress before a record end does not reach past it. */
  lemma WithinRecord(src: FileReplaySource, e: nat)
    requires src.Valid() && src.offset < e <= |src.file| && Cut(FramerOf(src.cfg), src.file, 0, e)
    ensures src.Cursor() < e
  {
    hide At; hide Rest; hide Cut;
    AtIsCut(src.cfg, src.file, 0, Start(src.cfg), src.offset);
    CutOrder(FramerOf(src.cfg), src.file, 0, src.offset, e);
  }
}
