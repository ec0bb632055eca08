/**
 Either store under a sole flusher.  With the worker alone flushing, an entry that is clean has the
 version of the worker's batch, so even a store that SETs without comparing never falls behind the
 cache: it converges across any number of restarts, and without restarts it keeps every durable write.
 */
module PipelineSet {
  import opened Domain
  import opened Pipeline
  import Cache
  import Durability = PipelineDurability
  import Floor = PipelineFloor
  import Log
  import Lsn
  import NoLoss = PipelineNoLoss
  import Store

  function Plain(mode: Mode): Mode {
    mode.(plainSet := true)
  }

  function Comparing(mode: Mode): Mode {
    mode.(plainSet := false)
  }

  /** Only the store call depends on which store there is. */
  lemma SameNext(mode: Mode, other: Mode, s: Machine, step: Step)
    requires Plain(mode) == Plain(other) && Enabled(mode, s, step)
    requires step.Persist? ==>
      Store.SetAll(s.store, s.actors[step.tid].batch) == Store.UpsertedAll(s.store, s.actors[step.tid].batch)
    ensures Enabled(other, s, step) && Next(mode, s, step) == Next(other, s, step)
  {
    SameEnabled(mode, other, s, step);
    hide Enabled, Store.UpsertedAll, Store.SetAll, Log.Survivors, Log.Highest, Log.Replay, Cache.Requeued,
      Cache.Applied, Cache.Cleaned, Lsn.Watermark;
  }

  lemma SameEnabled(mode: Mode, other: Mode, s: Machine, step: Step)
    requires Plain(mode) == Plain(other) && Enabled(mode, s, step)
    ensures Enabled(other, s, step)
  {
    assert mode.ringCap == other.ringCap && mode.batchMax == other.batchMax && mode.soleFlusher == other.soleFlusher;
    assert mode.wholeDirty == other.wholeDirty && mode.mayCrash == other.mayCrash && mode.players == other.players;
    hide Cache.DirtyIds, Writing, Plain;
  }

  ghost predicate OneFlusher(s: Machine) {
    forall t :: t in s.actors && t != 0 ==> !Durability.Flushing(s.actors[t])
  }

  lemma OneFlusherStep(mode: Mode, s: Machine, step: Step)
    requires mode.soleFlusher && OneFlusher(s) && Enabled(mode, s, step)
    ensures OneFlusher(Next(mode, s, step))
  {
    hide Store.UpsertedAll, Store.SetAll, Log.Survivors, Log.Highest, Log.Replay, Cache.Requeued, Cache.Applied,
      Lsn.Watermark;
  }

  /** A clean entry of a player in some batch has the version in the batch. */
  ghost predicate Current(s: Machine) {
    forall t, st :: t in s.actors && st in Batch(s.actors[t])
                    && st.playerId in s.cache && !s.cache[st.playerId].dirty ==>
      s.cache[st.playerId].state.version == st.version
  }

  lemma NoBatch(s: Machine, t: nat)
    requires OneFlusher(s) && t in s.actors && t != 0
    ensures Batch(s.actors[t]) == []
  {
  }

  lemma CurrentStep(mode: Mode, s: Machine, step: Step)
    requires mode.soleFlusher && OneFlusher(s) && NoLoss.CacheOk(s) && Current(s) && Enabled(mode, s, step)
    ensures Current(Next(mode, s, step))
  {
    hide OneFlusher, Current;
    if step.TakeDirty? {
      CurrentTake(mode, s, step);
    } else if step.Crash? || step.ApplyNext? || step.GiveUp? || (step.AppendFails? && s.actors[step.tid].Stamped?) {
      CurrentEmpty(mode, s, step);
    } else {
      CurrentQuiet(mode, s, step);
    }
  }

  lemma CurrentTake(mode: Mode, s: Machine, step: Step)
    requires mode.soleFlusher && OneFlusher(s) && NoLoss.CacheOk(s) && Enabled(mode, s, step) && step.TakeDirty?
    ensures Current(Next(mode, s, step))
  {
    var s' := Next(mode, s, step);
    NoLoss.TakenBatch(s.cache, step.ids);
    forall t | t in s.actors && t != 0 ensures Batch(s.actors[t]) == [] {
      NoBatch(s, t);
    }
  }

  /** After these steps no batch is in flight. */
  lemma CurrentEmpty(mode: Mode, s: Machine, step: Step)
    requires mode.soleFlusher && OneFlusher(s) && Enabled(mode, s, step)
    requires step.Crash? || step.ApplyNext? || step.GiveUp? || (step.AppendFails? && s.actors[step.tid].Stamped?)
    ensures Current(Next(mode, s, step))
  {
    hide Cache.Requeued, Cache.Applied, Log.Replay, Log.Highest;
    var s' := Next(mode, s, step);
    forall t | t in s'.actors ensures Batch(s'.actors[t]) == [] {
      if !step.Crash? && t != step.tid && t != 0 {
        NoBatch(s, t);
      }
      assert !step.Crash? ==> Durability.Flushing(s.actors[step.tid]);
    }
  }

  lemma CurrentQuiet(mode: Mode, s: Machine, step: Step)
    requires Current(s) && Enabled(mode, s, step)
    requires !step.TakeDirty? && !step.Crash? && !step.ApplyNext? && !step.GiveUp?
    requires step.AppendFails? ==> !s.actors[step.tid].Stamped?
    ensures Current(Next(mode, s, step))
  {
    QuietShape(mode, s, step);
    hide Next;
    var s' := Next(mode, s, step);
    forall t, st | t in s'.actors && st in Batch(s'.actors[t])
                   && st.playerId in s'.cache && !s'.cache[st.playerId].dirty
      ensures s'.cache[st.playerId].state.version == st.version
    {
      assert st in Batch(s.actors[t]);
    }
  }

  /** Steps that touch neither cache nor batches. */
  lemma QuietShape(mode: Mode, s: Machine, step: Step)
    requires Enabled(mode, s, step)
    requires !step.TakeDirty? && !step.Crash? && !step.ApplyNext? && !step.GiveUp?
    requires step.AppendFails? ==> !s.actors[step.tid].Stamped?
    ensures var s' := Next(mode, s, step);
            && s'.cache == s.cache && step.tid in s'.actors && s'.actors == s.actors[step.tid := s'.actors[step.tid]]
            && (Batch(s'.actors[step.tid]) == [] || Batch(s'.actors[step.tid]) == Batch(s.actors[step.tid]))
            && (!step.Persist? ==> s'.store == s.store)
  {
    if ByCaller(step) || step.AppendOk? || step.AppendFails? {
      CallerShape(mode, s, step);
    } else {
      FlushShape(mode, s, step);
    }
  }

  lemma CallerShape(mode: Mode, s: Machine, step: Step)
    requires Enabled(mode, s, step) && (ByCaller(step) || step.AppendOk? || step.AppendFails?)
    requires step.AppendFails? ==> !s.actors[step.tid].Stamped?
    ensures var s' := Next(mode, s, step);
            && s'.cache == s.cache && step.tid in s'.actors && s'.actors == s.actors[step.tid := s'.actors[step.tid]]
            && (Batch(s'.actors[step.tid]) == [] || Batch(s'.actors[step.tid]) == Batch(s.actors[step.tid]))
            && s'.store == s.store
  {
    hide Log.Highest;
  }

  lemma FlushShape(mode: Mode, s: Machine, step: Step)
    requires Enabled(mode, s, step)
    requires !step.TakeDirty? && !step.Crash? && !step.ApplyNext? && !step.GiveUp?
    requires !ByCaller(step) && !step.AppendOk? && !step.AppendFails?
    ensures var s' := Next(mode, s, step);
            && s'.cache == s.cache && step.tid in s'.actors && s'.actors == s.actors[step.tid := s'.actors[step.tid]]
            && (Batch(s'.actors[step.tid]) == [] || Batch(s'.actors[step.tid]) == Batch(s.actors[step.tid]))
            && (!step.Persist? ==> s'.store == s.store)
  {
    hide Store.UpsertedAll, Store.SetAll, Log.Survivors, Log.Highest, Lsn.Watermark;
  }

  // ---------------------------------------------------------------- settled under SET

  lemma SettledSet(s: Machine, tid: nat)
    requires OneFlusher(s) && NoLoss.CacheOk(s) && NoLoss.AllSettled(s) && Current(s)
    requires tid in s.actors && s.actors[tid].Appended?
    ensures var a := s.actors[tid];
            NoLoss.AllSettled(Goto(s, tid, Persisted(a.proposed)).(store := Store.SetAll(s.store, a.batch)))
  {
    hide Store.SetAll;
    var a := s.actors[tid];
    var s' := Goto(s, tid, Persisted(a.proposed)).(store := Store.SetAll(s.store, a.batch));
    assert NoLoss.BatchOk(s.cache, a) && Durability.Flushing(a) && tid == 0;
    Store.SetMeaning(s.store, a.batch);
    forall p | p in s'.cache ensures NoLoss.Settled(s', p) {
      var v := s.cache[p].state.version;
      assert NoLoss.Settled(s, p);
      if !s.cache[p].dirty {
        if st :| st in a.batch && st.playerId == p {
          assert st in Batch(s.actors[tid]);
          assert st.version == v;
        } else {
          assert Store.Others(a.batch, p);
          assert !NoLoss.InFlight(s, p, v) by {
            NotInFlight(s, tid, p, v);
          }
        }
      }
    }
  }

  lemma NotInFlight(s: Machine, tid: nat, p: nat, v: nat)
    requires OneFlusher(s) && tid in s.actors && s.actors[tid].Appended? && tid == 0
    requires forall st :: st in s.actors[tid].batch ==> st.playerId != p
    ensures !NoLoss.InFlight(s, p, v)
  {
    forall t | t in s.actors && t != 0 ensures Batch(s.actors[t]) == [] {
      NoBatch(s, t);
    }
  }

  lemma SettledStep(mode: Mode, s: Machine, step: Step)
    requires OneFlusher(s) && NoLoss.CacheOk(s) && NoLoss.AllSettled(s) && Current(s) && Enabled(mode, s, step)
    ensures NoLoss.AllSettled(Next(mode, s, step))
  {
    hide OneFlusher, NoLoss.CacheOk, NoLoss.AllSettled, Current;
    if mode.plainSet && step.Persist? {
      hide Store.SetAll;
      SettledSet(s, step.tid);
    } else if !mode.plainSet {
      NoLoss.SettledStep(mode, s, step);
    } else {
      hide Next, Enabled;
      SameNext(mode, Comparing(mode), s, step);
      NoLoss.SettledStep(Comparing(mode), s, step);
    }
  }

  // ---------------------------------------------------------------- convergence across restarts

  ghost predicate Inv(s: Machine) {
    NoLoss.CacheOk(s) && NoLoss.AllSettled(s) && NoLoss.AcceptedOk(s) && OneFlusher(s) && Current(s)
  }

  lemma InvStart(log: Log.Records, store: Store.Table, tids: set<nat>, durable: set<PlayerState>)
    requires Store.Keyed(store)
    ensures Inv(Started(log, store, tids, durable))
  {
    hide Log.Replay;
    NoLoss.InvStart(log, store, tids, durable);
  }

  lemma InvStep(mode: Mode, s: Machine, step: Step)
    requires mode.soleFlusher && Inv(s) && Enabled(mode, s, step)
    ensures Inv(Next(mode, s, step))
  {
    hide NoLoss.CacheOk, NoLoss.AllSettled, NoLoss.AcceptedOk, OneFlusher, Current, Next, Enabled;
    NoLoss.CacheStep(mode, s, step);
    SettledStep(mode, s, step);
    NoLoss.AcceptedStep(mode, s, step);
    OneFlusherStep(mode, s, step);
    CurrentStep(mode, s, step);
  }

  lemma {:induction false} InvRun(mode: Mode, s: Machine, steps: seq<Step>)
    requires mode.soleFlusher && Inv(s) && IsRun(mode, s, steps)
    ensures Inv(After(mode, s, steps))
    decreases |steps|
  {
    hide Inv, Next, Enabled;
    if steps != [] {
      InvStep(mode, s, steps[0]);
      InvRun(mode, Next(mode, s, steps[0]), steps[1..]);
    }
  }

  /**
   With the worker as the only flusher every accepted write is in the store at rest, SET or upsert,
   whatever log and store the starts found and however often the process was killed.
   */
  lemma EitherStoreConverges(mode: Mode, log: Log.Records, store: Store.Table, tids: set<nat>, steps: seq<Step>)
    requires mode.soleFlusher && Store.Keyed(store) && IsRun(mode, Started(log, store, tids, {}), steps)
    requires NoLoss.AtRest(After(mode, Started(log, store, tids, {}), steps))
    ensures var s := After(mode, Started(log, store, tids, {}), steps);
            forall st :: st in s.accepted ==> Store.Covers(s.store, st.playerId, st.version)
  {
    InvStart(log, store, tids, {});
    InvRun(mode, Started(log, store, tids, {}), steps);
    NoLoss.AcceptedStored(After(mode, Started(log, store, tids, {}), steps));
  }

  // ---------------------------------------------------------------- durability without restarts

  predicate Calm(mode: Mode) {
    Floor.Guarded(mode) && mode.soleFlusher && mode.wholeDirty && !mode.mayCrash
  }

  /** In the store, and no batch on its way could take it back: the cache and every batch are as new. */
  ghost predicate StoredForGood(s: Machine, w: PlayerState) {
    && Cache.Covers(s.cache, w.playerId, w.version) && Store.Covers(s.store, w.playerId, w.version)
    && forall t, st :: t in s.actors && st in Batch(s.actors[t]) && st.playerId == w.playerId ==>
         w.version <= st.version
  }

  ghost predicate Kept(s: Machine, w: PlayerState) {
    Durability.InLog(s, w) || StoredForGood(s, w)
  }

  ghost predicate CalmInv(mode: Mode, s: Machine) {
    && Floor.Inv(mode, s) && Inv(s) && Durability.WorkerOk(s)
    && forall w :: w in s.durable ==> Kept(s, w)
  }

  lemma StoredFrame(s: Machine, s': Machine, tid: nat, a: Actor, w: PlayerState)
    requires StoredForGood(s, w) && tid in s.actors && s'.actors == s.actors[tid := a]
    requires NoLoss.Grows(s.cache, s'.cache) && s'.store == s.store
    requires forall st :: st in Batch(a) && st.playerId == w.playerId ==>
               st in Batch(s.actors[tid]) || w.version <= st.version
    ensures StoredForGood(s', w)
  {
    assert Cache.Covers(s'.cache, w.playerId, s.cache[w.playerId].state.version);
  }

  lemma StoredTake(mode: Mode, s: Machine, step: Step, w: PlayerState)
    requires NoLoss.CacheOk(s) && StoredForGood(s, w) && Enabled(mode, s, step) && step.TakeDirty?
    ensures StoredForGood(Next(mode, s, step), w)
  {
    hide StoredForGood;
    var s' := Next(mode, s, step);
    NoLoss.TakenBatch(s.cache, step.ids);
    StoredCached(s, w);
    StoredFrame(s, s', step.tid, s'.actors[step.tid], w);
  }

  lemma StoredCached(s: Machine, w: PlayerState)
    requires StoredForGood(s, w)
    ensures Cache.Covers(s.cache, w.playerId, w.version)
  {
  }

  lemma StoredPersist(mode: Mode, s: Machine, step: Step, w: PlayerState)
    requires NoLoss.CacheOk(s) && StoredForGood(s, w) && Enabled(mode, s, step) && step.Persist?
    ensures StoredForGood(Next(mode, s, step), w)
  {
    hide Store.UpsertedAll, Store.SetAll;
    var batch := s.actors[step.tid].batch;
    assert NoLoss.BatchOk(s.cache, s.actors[step.tid]) && batch == Batch(s.actors[step.tid]);
    Store.UpsertMeaning(s.store, batch);
    Store.SetMeaning(s.store, batch);
    assert Store.Covers(Store.UpsertedAll(s.store, batch), w.playerId, s.store[w.playerId].version);
    assert Store.Covers(Store.SetAll(s.store, batch), w.playerId, w.version) by {
      if st :| st in batch && st.playerId == w.playerId {
        assert w.version <= st.version;
      } else {
        assert Store.Others(batch, w.playerId);
      }
    }
  }

  lemma StoredMove(mode: Mode, s: Machine, step: Step, w: PlayerState)
    requires NoLoss.CacheOk(s) && StoredForGood(s, w) && Enabled(mode, s, step)
    requires step.AppendFails? || step.GiveUp? || step.ApplyNext?
    ensures StoredForGood(Next(mode, s, step), w)
  {
    hide StoredForGood, Cache.Requeued;
    var s' := Next(mode, s, step);
    NoLoss.RequeueGrows(s, step.tid);
    StoredFrame(s, s', step.tid, s'.actors[step.tid], w);
  }

  lemma StoredQuiet(mode: Mode, s: Machine, step: Step, w: PlayerState)
    requires StoredForGood(s, w) && Enabled(mode, s, step)
    requires !step.Crash? && !step.TakeDirty? && !step.Persist?
    requires !step.AppendFails? && !step.GiveUp? && !step.ApplyNext?
    ensures StoredForGood(Next(mode, s, step), w)
  {
    hide StoredForGood;
    QuietShape(mode, s, step);
    hide Next;
    var s' := Next(mode, s, step);
    StoredFrame(s, s', step.tid, s'.actors[step.tid], w);
  }

  lemma StoredStep(mode: Mode, s: Machine, step: Step, w: PlayerState)
    requires NoLoss.CacheOk(s) && StoredForGood(s, w) && Enabled(mode, s, step) && !step.Crash?
    ensures StoredForGood(Next(mode, s, step), w)
  {
    hide StoredForGood, NoLoss.CacheOk, Next, Enabled;
    if step.TakeDirty? {
      StoredTake(mode, s, step, w);
    } else if step.Persist? {
      StoredPersist(mode, s, step, w);
    } else if step.AppendFails? || step.GiveUp? || step.ApplyNext? {
      StoredMove(mode, s, step, w);
    } else {
      StoredQuiet(mode, s, step, w);
    }
  }

  /** The checkpoint that gives up the frame: cache and store have the write and no batch is in flight. */
  lemma StoredByCheckpoint(mode: Mode, s: Machine, step: Step, w: PlayerState)
    requires OneFlusher(s) && Enabled(mode, s, step) && (step.Checkpoint? || step.Clamp?)
    requires Cache.Covers(s.cache, w.playerId, w.version) && Store.Covers(s.store, w.playerId, w.version)
    ensures StoredForGood(Next(mode, s, step), w)
  {
    hide Log.Survivors, Log.Highest, Lsn.Watermark;
    var s' := Next(mode, s, step);
    assert Durability.Flushing(s.actors[step.tid]) && step.tid == 0;
    forall t | t in s'.actors ensures Batch(s'.actors[t]) == [] {
      if t != 0 {
        NoBatch(s, t);
      }
    }
  }

  lemma KeptStep(mode: Mode, s: Machine, step: Step, w: PlayerState)
    requires Calm(mode) && CalmInv(mode, s) && w in s.durable && Enabled(mode, s, step)
    ensures Kept(Next(mode, s, step), w)
  {
    hide LsnOk, Floor.RequestsOk, Floor.FloorOk, Durability.WorkerOk, NoLoss.CacheOk, NoLoss.AllSettled,
      NoLoss.AcceptedOk, OneFlusher, Current, Durability.InLog, StoredForGood, Next;
    if StoredForGood(s, w) {
      StoredStep(mode, s, step, w);
    } else if step.Checkpoint? || step.Clamp? {
      Durability.InLogClamp(mode, s, step, w);
      if !Durability.InLog(Next(mode, s, step), w) {
        StoredByCheckpoint(mode, s, step, w);
      }
    } else {
      Durability.InLogStep(mode, s, step, w);
    }
  }

  lemma CalmStep(mode: Mode, s: Machine, step: Step)
    requires Calm(mode) && CalmInv(mode, s) && Enabled(mode, s, step)
    ensures CalmInv(mode, Next(mode, s, step))
  {
    hide Kept, Next, Inv, Floor.FloorOk, LsnOk, Floor.RequestsOk, Durability.WorkerOk;
    Floor.InvStep(mode, s, step);
    InvStep(mode, s, step);
    Durability.WorkerStep(mode, s, step);
    Durability.DurableSame(mode, s, step);
    forall w | w in Next(mode, s, step).durable ensures Kept(Next(mode, s, step), w) {
      if w in s.durable {
        KeptStep(mode, s, step, w);
      } else {
        Durability.NewlyPinned(mode, s, step.tid);
        PinnedIsKept(Next(mode, s, step), w);
      }
    }
  }

  lemma PinnedIsKept(s: Machine, w: PlayerState)
    requires Durability.Pinned(s, w)
    ensures Kept(s, w)
  {
  }

  lemma {:induction false} CalmRun(mode: Mode, s: Machine, steps: seq<Step>)
    requires Calm(mode) && CalmInv(mode, s) && IsRun(mode, s, steps)
    ensures CalmInv(mode, After(mode, s, steps))
    decreases |steps|
  {
    hide CalmInv, Next, Enabled;
    if steps != [] {
      CalmStep(mode, s, steps[0]);
      CalmRun(mode, Next(mode, s, steps[0]), steps[1..]);
    }
  }

  /** Without restarts the store may SET without comparing: no durable write is lost even so. */
  lemma DurableWithoutCrash(mode: Mode, log: Log.Records, store: Store.Table, tids: set<nat>, steps: seq<Step>)
    requires Calm(mode) && Durability.Startable(log, store)
    requires IsRun(mode, Started(log, store, tids, {}), steps)
    ensures Durability.AllCovered(After(mode, Started(log, store, tids, {}), steps))
  {
    hide Floor.Inv, Inv, Log.Replay;
    var s := Started(log, store, tids, {});
    Floor.InvStart(mode, log, store, tids, {});
    InvStart(log, store, tids, {});
    CalmRun(mode, s, steps);
    var s' := After(mode, s, steps);
    forall w | w in s'.durable ensures Durability.Covered(s', w) {
      KeptIsCovered(s', w);
    }
  }

  lemma KeptIsCovered(s: Machine, w: PlayerState)
    requires Kept(s, w)
    ensures Durability.Covered(s, w)
  {
    if Durability.Pinned(s, w) {
      var r :| r in s.log && r in s.appended && r.lsn in s.pending
        && r.playerId == w.playerId && r.version >= w.version;
    }
  }
}
