/**
 The bytes under the machine.  When the log file holds the machine's log, each file operation of
 `WalFile` carries it to the log of the matching step, and what a kill inside leaves behind is exactly
 what the machine's `Crash` step allows.  So over any run the file holds the log, and whatever a kill
 leaves recovers, with the store, every durable write.
 */
module PipelineBytes {
  import opened Prelude
  import opened Disk
  import opened Domain
  import opened Pipeline
  import opened Wal
  import Cache
  import Durability = PipelineDurability
  import Log
  import Lsn
  import Players = PipelinePlayers
  import Store
  import WalFile
  import Witness = PipelineWitness

  /** The file is clean and recovers to the machine's log. */
  ghost predicate Holds(image: Bytes, s: Machine) {
    Clean(image) && Recovered(image) == s.log
  }

  /** A completed append is the machine's append. */
  lemma AppendIsStep(mode: Mode, s: Machine, tid: nat, image: Bytes)
    requires Holds(image, s) && Enabled(mode, s, AppendOk(tid)) && InRange(Writing(s.actors[tid]))
    ensures Holds(image + Stream(Writing(s.actors[tid])), Next(mode, s, AppendOk(tid)))
    ensures Next(mode, s, AppendOk(tid)).lastLsn == Max(s.lastLsn, Log.Highest(Writing(s.actors[tid])))
  {
    hide Clean, Recovered, InRange, Stream;
    AppendRecovers(image, Writing(s.actors[tid]));
  }

  /** The file in the middle of an append by `a`: only what was there before is sure to be on disk. */
  function MidAppend(image: Bytes, a: Actor): Image {
    Image(image + Stream(Writing(a)), |image|)
  }

  /** What an append cut short leaves recovers to the log and some of the batch, in order. */
  lemma CutAppend(s: Machine, tid: nat, image: Bytes, crash: Bytes) returns (written: nat)
    requires Holds(image, s) && tid in s.actors && InRange(Writing(s.actors[tid]))
    requires Leaves(MidAppend(image, s.actors[tid]), crash)
    ensures written <= |Writing(s.actors[tid])| && HasHeader(crash)
    ensures Recovered(crash) == s.log + Writing(s.actors[tid])[..written]
  {
    hide Clean, Recovered, InRange, Stream;
    var batch := Writing(s.actors[tid]);
    CleanLong(image);
    WalFile.AppendCrash(image, batch, |image|, [MidAppend(image, s.actors[tid])]);
    assert WalFile.Keeps(Recovered(crash), s.log + batch, |s.log|);
    var n: nat :| |s.log| <= n <= |s.log + batch| && Recovered(crash) == (s.log + batch)[..n];
    written := n - |s.log|;
    assert (s.log + batch)[..n] == s.log + batch[..written];
  }

  /** A kill at any moment of an append is a `Crash` step: the log plus some of the batch, in order. */
  lemma KillIsCrash(mode: Mode, s: Machine, tid: nat, image: Bytes, ms: seq<Image>, m: Image, crash: Bytes)
    returns (written: nat)
    requires mode.mayCrash && Holds(image, s) && tid in s.actors && InRange(Writing(s.actors[tid]))
    requires Grows(ms, image, image + Stream(Writing(s.actors[tid])), |image|) && m in ms && Leaves(m, crash)
    ensures Enabled(mode, s, Crash(tid, written))
    ensures HasHeader(crash) && Recovered(crash) == s.log + Writing(s.actors[tid])[..written]
    ensures Recovered(crash) == Next(mode, s, Crash(tid, written)).log
  {
    hide Holds, HasHeader, Recovered, InRange, Stream;
    var k: nat :| m.synced <= k <= |m.bytes| && crash == m.bytes[..k];
    assert crash == MidAppend(image, s.actors[tid]).bytes[..k];
    written := CutAppend(s, tid, image, crash);
  }

  /** Every `Crash` step during an append is the kill at some byte of it. */
  lemma CrashIsKill(mode: Mode, s: Machine, tid: nat, written: nat, image: Bytes) returns (crash: Bytes)
    requires Holds(image, s) && Enabled(mode, s, Crash(tid, written)) && InRange(Writing(s.actors[tid]))
    ensures Leaves(MidAppend(image, s.actors[tid]), crash)
    ensures Recovered(crash) == Next(mode, s, Crash(tid, written)).log
  {
    hide Clean, Recovered, InRange, Stream;
    var batch := Writing(s.actors[tid]);
    var full := image + Stream(batch);
    InRangePrefix(batch, written);
    AppendRecovers(image, batch[..written]);
    ContentsConcat(batch[..written], batch[written..]);
    assert batch == batch[..written] + batch[written..];
    crash := image + Stream(batch[..written]);
    assert crash == full[..|crash|];
  }

  lemma CleanLong(image: Bytes)
    requires Clean(image)
    ensures |image| >= 8
  {
  }

  /** A completed checkpoint is the machine's, and a kill inside leaves the log before it or after it. */
  lemma CheckpointIsStep(s: Machine, upTo: nat, image: Bytes)
    requires Holds(image, s)
    ensures var rotated := Rewritten(Log.Survivors(Recovered(image), upTo));
            && Holds(rotated, Checkpointed(s, upTo))
            && Checkpointed(s, upTo).lastLsn == Max(Log.Highest(Recovered(rotated)), upTo)
            && forall m, crash :: m in [Image(image, |image|), Image(rotated, |rotated|)] && Leaves(m, crash) ==>
                 HasHeader(crash) && (Recovered(crash) == s.log || Recovered(crash) == Checkpointed(s, upTo).log)
  {
    hide Clean, Recovered, Log.Survivors, Rewritten, WalFile.ForcedRecords;
    var rotated := Rewritten(Log.Survivors(Recovered(image), upTo));
    WalFile.RotationMeaning(image, upTo);
    WalFile.NoHighest();
    CleanLong(image);
    WalFile.CleanHeader(image);
    WalFile.ChoiceOfTwo(image, |image|, rotated);
    forall m, crash | m in [Image(image, |image|), Image(rotated, |rotated|)] && Leaves(m, crash)
      ensures HasHeader(crash) && (Recovered(crash) == s.log || Recovered(crash) == Checkpointed(s, upTo).log)
    {
      if Recovered(crash) != Recovered(rotated) {
        assert WalFile.Keeps(Recovered(crash), s.log, |s.log|);
        assert s.log[..|s.log|] == s.log;
      }
    }
  }

  /** What a start recovers from the file is what the machine starts from. */
  lemma RecoveryIsStart(image: Bytes, s: Machine)
    requires HasHeader(image)
    ensures var s' := Started(Recovered(image), s.store, s.actors.Keys, s.durable);
            && GoodEnd(image) <= |image| && Holds(image[..GoodEnd(image)], s')
            && s'.lastLsn == Log.Highest(Recovered(image)) && s'.next == s'.lastLsn + 1
  {
    hide Recovered, GoodEnd, Clean, Log.Highest, Log.Replay;
    RecoveredMeaning(image);
    TruncationIdempotent(image);
  }

  // ---------------------------------------------------------------- the file over a run

  /** The watermark a step rotates the log at, if it does. */
  ghost function Rotation(mode: Mode, s: Machine, step: Step): Option<nat>
    requires step.tid in s.actors
  {
    var a := s.actors[step.tid];
    if step.Checkpoint? && a.Clamped? then Some(a.upTo)
    else if step.Clamp? && a.Persisted? && mode.atomicCheckpoint then Lsn.Watermark(s.pending, a.proposed)
    else None
  }

  function Rotated(image: Bytes, upTo: nat): Bytes {
    Rewritten(Log.Survivors(Recovered(image), upTo))
  }

  /** After a kill inside `a`'s append the restart recovers what it finds and truncates the rest. */
  ghost predicate Restarted(log: Log.Records, a: Actor, written: nat, image: Bytes, image': Bytes)
    requires written <= |Writing(a)|
  {
    exists crash ::
      && Leaves(MidAppend(image, a), crash) && GoodEnd(crash) <= |crash|
      && Recovered(crash) == log + Writing(a)[..written] && image' == crash[..GoodEnd(crash)]
  }

  /** What a step does to the log file. */
  ghost predicate FileStep(mode: Mode, s: Machine, step: Step, image: Bytes, image': Bytes)
    requires Enabled(mode, s, step)
  {
    var a := s.actors[step.tid];
    if step.AppendOk? then image' == image + Stream(Writing(a))
    else if Rotation(mode, s, step).Some? then image' == Rotated(image, Rotation(mode, s, step).value)
    else if step.Crash? then Restarted(s.log, a, step.written, image, image')
    else image' == image
  }

  ghost predicate FileAfter(mode: Mode, s: Machine, image: Bytes, steps: seq<Step>, image': Bytes)
    requires IsRun(mode, s, steps)
    decreases |steps|
  {
    if steps == [] then image' == image
    else exists mid :: FileStep(mode, s, steps[0], image, mid)
                    && FileAfter(mode, Next(mode, s, steps[0]), mid, steps[1..], image')
  }

  /** Every record the run writes fits its fields. */
  ghost predicate WritesFit(mode: Mode, s: Machine, steps: seq<Step>)
    requires IsRun(mode, s, steps)
    decreases |steps|
  {
    steps != [] ==>
      && InRange(Writing(s.actors[steps[0].tid]))
      && WritesFit(mode, Next(mode, s, steps[0]), steps[1..])
  }

  lemma RotationIsStep(mode: Mode, s: Machine, step: Step, image: Bytes)
    requires Holds(image, s) && Enabled(mode, s, step) && Rotation(mode, s, step).Some?
    ensures var s' := Next(mode, s, step);
            && s'.log == Checkpointed(s, Rotation(mode, s, step).value).log && s'.store == s.store
            && s'.durable == s.durable && Holds(Rotated(image, Rotation(mode, s, step).value), s')
  {
    hide Clean, Recovered, Log.Survivors, Log.Highest, Rewritten, Lsn.Watermark;
    CheckpointIsStep(s, Rotation(mode, s, step).value, image);
  }

  /** Any other step leaves the log alone. */
  lemma LogKept(mode: Mode, s: Machine, step: Step)
    requires Enabled(mode, s, step) && !step.AppendOk? && !step.Crash? && Rotation(mode, s, step).None?
    ensures Next(mode, s, step).log == s.log
  {
    hide Store.UpsertedAll, Store.SetAll, Log.Survivors, Log.Highest, Log.Replay, Cache.Requeued, Cache.Applied,
      Cache.Cleaned, Lsn.Watermark, StatesOf;
  }

  lemma FileKeeps(mode: Mode, s: Machine, step: Step, image: Bytes, image': Bytes)
    requires Holds(image, s) && Enabled(mode, s, step) && InRange(Writing(s.actors[step.tid]))
    requires FileStep(mode, s, step, image, image')
    ensures Holds(image', Next(mode, s, step))
  {
    hide Clean, Recovered, InRange, Stream, Next, GoodEnd;
    if step.AppendOk? {
      AppendIsStep(mode, s, step.tid, image);
    } else if Rotation(mode, s, step).Some? {
      RotationIsStep(mode, s, step, image);
    } else if step.Crash? {
      var a := s.actors[step.tid];
      assert Restarted(s.log, a, step.written, image, image');
      var crash :| Leaves(MidAppend(image, a), crash) && GoodEnd(crash) <= |crash|
        && Recovered(crash) == s.log + Writing(a)[..step.written] && image' == crash[..GoodEnd(crash)];
      var _ := CutAppend(s, step.tid, image, crash);
      RecoveryIsStart(crash, s);
      CrashStarts(mode, s, step);
    } else {
      LogKept(mode, s, step);
    }
  }

  lemma CrashStarts(mode: Mode, s: Machine, step: Step)
    requires Enabled(mode, s, step) && step.Crash?
    ensures Next(mode, s, step)
         == Started(s.log + Writing(s.actors[step.tid])[..step.written], s.store, s.actors.Keys, s.durable)
  {
    hide Started;
  }

  /** Whatever happened, kills included, the file holds the machine's log. */
  lemma {:induction false} FileHolds(mode: Mode, s: Machine, image: Bytes, steps: seq<Step>, image': Bytes)
    requires Holds(image, s) && IsRun(mode, s, steps) && WritesFit(mode, s, steps)
    requires FileAfter(mode, s, image, steps, image')
    ensures Holds(image', After(mode, s, steps))
    decreases |steps|
  {
    hide Holds, Next, Enabled, FileStep, InRange;
    if steps != [] {
      var mid :| FileStep(mode, s, steps[0], image, mid)
        && FileAfter(mode, Next(mode, s, steps[0]), mid, steps[1..], image');
      FileKeeps(mode, s, steps[0], image, mid);
      FileHolds(mode, Next(mode, s, steps[0]), mid, steps[1..], image');
    }
  }

  lemma FileMoves(mode: Mode, s: Machine, step: Step, image: Bytes) returns (image': Bytes)
    requires Holds(image, s) && Enabled(mode, s, step) && InRange(Writing(s.actors[step.tid]))
    ensures FileStep(mode, s, step, image, image')
  {
    hide Clean, Recovered, InRange, Stream, GoodEnd, Rewritten, Log.Survivors;
    if step.AppendOk? {
      image' := image + Stream(Writing(s.actors[step.tid]));
    } else if Rotation(mode, s, step).Some? {
      image' := Rotated(image, Rotation(mode, s, step).value);
    } else if step.Crash? {
      var crash := CrashIsKill(mode, s, step.tid, step.written, image);
      CrashStarts(mode, s, step);
      var _ := CutAppend(s, step.tid, image, crash);
      RecoveryIsStart(crash, s);
      image' := crash[..GoodEnd(crash)];
    } else {
      image' := image;
    }
  }

  /** Every run of the machine is one the file can go through. */
  lemma {:induction false} FileFollows(mode: Mode, s: Machine, image: Bytes, steps: seq<Step>)
    returns (image': Bytes)
    requires Holds(image, s) && IsRun(mode, s, steps) && WritesFit(mode, s, steps)
    ensures FileAfter(mode, s, image, steps, image')
    decreases |steps|
  {
    hide Holds, Next, Enabled, FileStep, InRange;
    if steps == [] {
      image' := image;
    } else {
      var mid := FileMoves(mode, s, steps[0], image);
      FileKeeps(mode, s, steps[0], image, mid);
      image' := FileFollows(mode, Next(mode, s, steps[0]), mid, steps[1..]);
    }
  }

  // ---------------------------------------------------------------- kills

  /** What a kill inside `step` may find in the file: mid-append, around a rename, or at rest. */
  ghost predicate KillLeaves(mode: Mode, s: Machine, step: Step, image: Bytes, crash: Bytes)
    requires step.tid in s.actors
  {
    if step.AppendOk? then Leaves(MidAppend(image, s.actors[step.tid]), crash)
    else if Rotation(mode, s, step).Some? then
      var rotated := Rotated(image, Rotation(mode, s, step).value);
      Leaves(Image(image, |image|), crash) || Leaves(Image(rotated, |rotated|), crash)
    else Leaves(Image(image, |image|), crash)
  }

  /** Every durable write is among the records or in the table, at its version or newer. */
  ghost predicate OnDisk(durable: set<PlayerState>, log: Log.Records, store: Store.Table) {
    forall w :: w in durable ==>
      Log.Covers(log, w.playerId, w.version) || Store.Covers(store, w.playerId, w.version)
  }

  lemma KillInStep(mode: Mode, s: Machine, step: Step, image: Bytes, crash: Bytes)
    requires Holds(image, s) && Enabled(mode, s, step) && InRange(Writing(s.actors[step.tid]))
    requires Durability.AllCovered(s) && Durability.AllCovered(Next(mode, s, step))
    requires KillLeaves(mode, s, step, image, crash)
    ensures HasHeader(crash) && OnDisk(s.durable, Recovered(crash), s.store)
  {
    hide Clean, Recovered, InRange, Stream, Next, Rewritten;
    assert image[..|image|] == image && HasHeader(image) by {
      CleanLong(image);
      WalFile.CleanHeader(image);
    }
    if step.AppendOk? {
      var _ := CutAppend(s, step.tid, image, crash);
      assert forall r :: r in s.log ==> r in Recovered(crash);
    } else if Rotation(mode, s, step).Some? {
      var rotated := Rotated(image, Rotation(mode, s, step).value);
      assert rotated[..|rotated|] == rotated;
      CheckpointIsStep(s, Rotation(mode, s, step).value, image);
      RotationIsStep(mode, s, step, image);
    }
  }

  /**
   In a mode that keeps durable writes covered, any run and any kill inside its next step leave a file
   that reopens and, with the store, still has every durable write.
   */
  lemma DurableOnDisk(mode: Mode, log: Log.Records, store: Store.Table, tids: set<nat>, steps: seq<Step>,
                      start: Bytes, image: Bytes, step: Step, crash: Bytes)
    requires Witness.Sheltered(mode) && (mode.wholeDirty || Players.Fits(mode))
    requires Durability.Startable(log, store) && Players.LogAllowed(mode, log)
    requires var s0 := Started(log, store, tids, {});
             && IsRun(mode, s0, steps) && WritesFit(mode, s0, steps)
             && Holds(start, s0) && FileAfter(mode, s0, start, steps, image)
    requires var s := After(mode, Started(log, store, tids, {}), steps);
             && Enabled(mode, s, step) && InRange(Writing(s.actors[step.tid]))
             && KillLeaves(mode, s, step, image, crash)
    ensures var s := After(mode, Started(log, store, tids, {}), steps);
            HasHeader(crash) && OnDisk(s.durable, Recovered(crash), s.store)
  {
    hide Holds, Next, Enabled, InRange, HasHeader, Recovered, Durability.AllCovered, Started, OnDisk, KillLeaves,
      WritesFit, FileAfter;
    var s0 := Started(log, store, tids, {});
    var s := After(mode, s0, steps);
    FileHolds(mode, s0, start, steps, image);
    Witness.CoveredRun(mode, log, store, tids, steps);
    assert [step][1..] == [];
    Witness.Concat(mode, s0, steps, [step]);
    Witness.CoveredRun(mode, log, store, tids, steps + [step]);
    KillInStep(mode, s, step, image, crash);
  }
}
