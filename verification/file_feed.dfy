/**
  Feed observations of a file source: what a cold probe of the file length may
  conclude about the outcomes already reported.
 */
module FileFeed {
  import opened Bytes
  import opened Outcomes
  import opened FileReplay

  datatype Readiness = PartialRecord | CaughtUp | Unverified | Ended | Backlog

  datatype Observation = Observation(head: nat, readiness: Readiness)

  /** Two length samples of one file; a shrinking pair is no observation. */
  function ReconcileLength(probe: nat, confirm: nat): (head: Option<nat>)
    ensures head.Some? <==> probe <= confirm
    ensures head.Some? ==> probe <= head.value == confirm
  {
    if confirm < probe then None else Some(if probe > confirm then probe else confirm)
  }

  function ClassifyReadiness(
    terminal: bool, head: nat, consumed: nat, partial: bool, bufferEmpty: bool, inodeProven: bool): Readiness
  {
    if partial then PartialRecord
    else if !terminal && head == consumed && bufferEmpty then (if inodeProven then CaughtUp else Unverified)
    else if terminal && head == consumed then Ended
    else Backlog
  }

  /** `observe_feed`: `probe` and `confirm` are the two length samples. `None` stands for
      the errors (truncated or shrinking file). */
  function ObserveFeed(src: FileReplaySource, probe: nat, confirm: nat, inodeProven: bool): Option<Observation>
    reads src
  {
    if probe < src.offset + src.recordBytes + src.prefetched then None
    else
      var head := ReconcileLength(probe, confirm);
      if head.None? then None
      else
        var partial := src.recordBytes > 0 || src.pending != [] || src.discarding;
        Some(Observation(head.value, ClassifyReadiness(
          src.cfg.terminal, head.value, src.offset, partial, src.prefetched == 0, inodeProven)))
  }

  /** There is an observation exactly when neither sample shows a file shorter than what the
      reader holds of it. */
  lemma ObservedUnlessShorter(src: FileReplaySource, probe: nat, confirm: nat, inodeProven: bool)
    ensures ObserveFeed(src, probe, confirm, inodeProven).Some? <==>
              src.Cursor() + src.prefetched <= probe <= confirm
    ensures ObserveFeed(src, probe, confirm, inodeProven).Some? ==>
              ObserveFeed(src, probe, confirm, inodeProven).value.head == confirm
  {
  }

  /** In every live state of a reader the readiness is exactly one fact about the cursor
      and the observed length, and "caught up" and "ended" mean that the outcomes reported
      so far are those of framing the whole observed file. */
  lemma FeedReadiness(src: FileReplaySource, probe: nat, confirm: nat, inodeProven: bool)
    requires src.Valid() && confirm <= |src.file|
    requires ObserveFeed(src, probe, confirm, inodeProven).Some?
    ensures var o := ObserveFeed(src, probe, confirm, inodeProven).value;
            && (o.head == src.offset ==> src.prefetched == 0 && src.recordBytes == 0)
            && (o.readiness.PartialRecord? <==> src.recordBytes > 0)
            && (o.readiness.CaughtUp? <==> !src.cfg.terminal && o.head == src.offset && inodeProven)
            && (o.readiness.Unverified? <==> !src.cfg.terminal && o.head == src.offset && !inodeProven)
            && (o.readiness.Ended? <==> src.cfg.terminal && o.head == src.offset)
            && (o.readiness.Backlog? <==> src.recordBytes == 0 && src.offset < o.head)
    ensures var o := ObserveFeed(src, probe, confirm, inodeProven).value;
            o.readiness.CaughtUp? || o.readiness.Ended? ==>
              src.now.events == Whole(src.cfg, src.file[..o.head]).events
  {
    hide At; hide Rest;
    var o := ObserveFeed(src, probe, confirm, inodeProven).value;
    if o.head == src.offset {
      EverythingBefore(src);
    }
  }

  /** A reader that stands at offset `o` has reported the outcomes of `file[..o]`. */
  lemma EverythingBefore(src: FileReplaySource)
    requires src.Valid()
    ensures src.offset <= |src.file|
    ensures src.now.events == Whole(src.cfg, src.file[..src.offset]).events
  {
    hide At; hide FileReplaySource.Valid;
    src.Facts();
    var cfg, s, k := src.cfg, src.file[..src.offset], src.offset;
    if AtCut(cfg, src.file, k) == Some(src.now) {
      AtPrefix(cfg, s, src.file, 0, Start(cfg), k);
      RestVia(cfg, s, 0, Start(cfg), k);
      NothingLeft(cfg, s, src.now);
    } else {
      assert s == src.file;
    }
  }

  lemma NothingLeft(cfg: Config, s: seq<byte>, p: Progress)
    ensures Rest(cfg, s, |s|, p) == p
  {
  }
}
