/**
 Durability across any number of crashes.  When registration (or the checkpoint) is atomic, the
 worker is the only flusher, every `take_dirty` takes the whole dirty set and the store compares
 versions, every durable write stays covered by the log or by the store in every reachable state.
 `PipelineWitness` shows that each hypothesis is needed.
 */
module PipelineDurability {
  import opened Prelude
  import opened Domain
  import opened Pipeline
  import Cache
  import Floor = PipelineFloor
  import Log
  import Lsn
  import NoLoss = PipelineNoLoss
  import Store

  predicate Strict(mode: Mode) {
    Floor.Guarded(mode) && mode.soleFlusher && mode.wholeDirty && !mode.plainSet
  }

  /** A frame or a row for the player, at this version or a newer one. */
  ghost predicate Covered(s: Machine, w: PlayerState) {
    Log.Covers(s.log, w.playerId, w.version) || Store.Covers(s.store, w.playerId, w.version)
  }

  ghost predicate AllCovered(s: Machine) {
    forall w :: w in s.durable ==> Covered(s, w)
  }

  // ---------------------------------------------------------------- the worker alone

  predicate Flushing(a: Actor) {
    !a.Idle? && !a.Minted? && !a.Allocated? && !a.Registered? && !a.Failed? && !a.Logged?
  }

  /** Between `take_dirty` and the end of the flush. */
  predicate Committed(a: Actor) {
    a.Taken? || a.Stamped? || a.Appended? || a.Persisted? || a.Clamped?
  }

  ghost predicate WorkerOk(s: Machine) {
    && (forall t :: t in s.actors && t != 0 ==> !Flushing(s.actors[t]))
    && (0 in s.actors && Committed(s.actors[0]) ==> Cache.DirtyIds(s.cache) == {})
  }

  lemma WorkerStep(mode: Mode, s: Machine, step: Step)
    requires mode.soleFlusher && mode.wholeDirty && WorkerOk(s) && Enabled(mode, s, step)
    ensures WorkerOk(Next(mode, s, step))
  {
    hide WorkerOk, Next;
    if step.TakeDirty? || step.ApplyNext? || step.GiveUp? || step.AppendFails? {
      WorkerCache(mode, s, step);
    } else {
      WorkerRest(mode, s, step);
    }
  }

  /** Steps that change dirty bits. */
  lemma WorkerCache(mode: Mode, s: Machine, step: Step)
    requires mode.soleFlusher && mode.wholeDirty && WorkerOk(s) && Enabled(mode, s, step)
    requires step.TakeDirty? || step.ApplyNext? || step.GiveUp? || step.AppendFails?
    ensures WorkerOk(Next(mode, s, step))
  {
    hide Cache.Requeued, Cache.Applied;
  }

  lemma WorkerRest(mode: Mode, s: Machine, step: Step)
    requires mode.soleFlusher && WorkerOk(s) && Enabled(mode, s, step)
    requires !step.TakeDirty? && !step.ApplyNext? && !step.GiveUp? && !step.AppendFails?
    ensures WorkerOk(Next(mode, s, step))
  {
    hide WorkerOk, Next;
    if ByCaller(step) || step.AppendOk? {
      WorkerBeside(mode, s, step);
    } else {
      WorkerFlush(mode, s, step);
    }
  }

  lemma WorkerBeside(mode: Mode, s: Machine, step: Step)
    requires WorkerOk(s) && Enabled(mode, s, step) && (ByCaller(step) || step.AppendOk?)
    ensures WorkerOk(Next(mode, s, step))
  {
    hide Log.Highest, Cache.DirtyIds;
  }

  lemma WorkerFlush(mode: Mode, s: Machine, step: Step)
    requires mode.soleFlusher && WorkerOk(s) && Enabled(mode, s, step) && !ByCaller(step) && !step.AppendOk?
    requires !step.TakeDirty? && !step.ApplyNext? && !step.GiveUp? && !step.AppendFails?
    ensures WorkerOk(Next(mode, s, step))
  {
    hide Store.UpsertedAll, Store.SetAll, Log.Survivors, Log.Replay, Log.Highest, Lsn.Watermark, Cache.DirtyIds;
  }

  /** When the worker is past persisting, the store has everything the cache has. */
  lemma StoreHasCache(s: Machine, p: nat)
    requires WorkerOk(s) && NoLoss.AllSettled(s) && 0 in s.actors
    requires s.actors[0].Persisted? || s.actors[0].Clamped?
    requires p in s.cache
    ensures Store.Covers(s.store, p, s.cache[p].state.version)
  {
    assert NoLoss.Settled(s, p);
    assert p !in Cache.DirtyIds(s.cache);
    forall t | t in s.actors ensures Batch(s.actors[t]) == [] {
      if t != 0 {
        assert !Flushing(s.actors[t]);
      }
    }
  }

  // ---------------------------------------------------------------- where a durable write is

  /** A pending frame: no checkpoint may touch it. */
  ghost predicate Pinned(s: Machine, w: PlayerState) {
    exists r :: r in s.log && r in s.appended && r.lsn in s.pending
      && r.playerId == w.playerId && r.version >= w.version
  }

  /** Cached, or popped and about to be. */
  ghost predicate Cached(s: Machine, w: PlayerState) {
    || Cache.Covers(s.cache, w.playerId, w.version)
    || (exists t, req :: t in s.actors && req in Scratch(s.actors[t])
          && req.playerId == w.playerId && req.version >= w.version)
  }

  /** The log still has it, and no checkpoint comes before the store has it too. */
  ghost predicate InLog(s: Machine, w: PlayerState) {
    Pinned(s, w) || (Log.Covers(s.log, w.playerId, w.version) && Cached(s, w))
  }

  ghost predicate Kept(s: Machine, w: PlayerState) {
    Store.Covers(s.store, w.playerId, w.version) || InLog(s, w)
  }

  ghost predicate DurableOk(s: Machine) {
    forall w :: w in s.durable ==> Kept(s, w)
  }

  /** Nothing is removed: log, cache and scratch only grow and pending records stay pending. */
  lemma InLogFrame(s: Machine, s': Machine, tid: nat, a: Actor, w: PlayerState)
    requires InLog(s, w) && tid in s.actors && s'.actors == s.actors[tid := a]
    requires s.log <= s'.log && NoLoss.Grows(s.cache, s'.cache)
    requires s.appended <= s'.appended
    requires forall r :: r in s.appended && r.lsn in s.pending ==> r.lsn in s'.pending
    requires forall req :: req in Scratch(s.actors[tid]) ==>
               req in Scratch(a) || Cache.Covers(s'.cache, req.playerId, req.version)
    ensures InLog(s', w)
  {
    if Pinned(s, w) {
      var r :| r in s.log && r in s.appended && r.lsn in s.pending
        && r.playerId == w.playerId && r.version >= w.version;
      assert r in s'.log;
    } else {
      var r :| r in s.log && r.playerId == w.playerId && r.version >= w.version;
      assert r in s'.log;
      if Cache.Covers(s.cache, w.playerId, w.version) {
        assert Cache.Covers(s'.cache, w.playerId, s.cache[w.playerId].state.version);
      } else {
        var t, req :| t in s.actors && req in Scratch(s.actors[t])
          && req.playerId == w.playerId && req.version >= w.version;
        assert t != tid ==> req in Scratch(s'.actors[t]);
        assert t == tid && req in Scratch(a) ==> req in Scratch(s'.actors[tid]);
      }
    }
  }

  /** `note_drained` lifts the floor of a record whose request is in the drainer's hands. */
  lemma InLogDrained(mode: Mode, s: Machine, step: Step, w: PlayerState)
    requires Floor.RequestsOk(s) && InLog(s, w) && Enabled(mode, s, step) && step.NoteDrained?
    ensures InLog(Next(mode, s, step), w)
  {
    var a := s.actors[step.tid];
    var s' := Next(mode, s, step);
    assert a.q[0] in InHand(a) && Floor.RequestOk(s, a.q[0]);
    assert a.q[0] in Scratch(s'.actors[step.tid]);
    if Pinned(s, w) {
      var r :| r in s.log && r in s.appended && r.lsn in s.pending
        && r.playerId == w.playerId && r.version >= w.version;
      if r.lsn == a.q[0].seqNo {
        assert Log.Covers(s'.log, w.playerId, w.version) && Cached(s', w);
      } else {
        assert r.lsn in s'.pending;
      }
    } else if !Cache.Covers(s.cache, w.playerId, w.version) {
      var t, req :| t in s.actors && req in Scratch(s.actors[t])
        && req.playerId == w.playerId && req.version >= w.version;
      assert req in Scratch(s'.actors[t]);
    }
  }

  /** Every step but a checkpoint and a kill, whatever the store. */
  lemma InLogStep(mode: Mode, s: Machine, step: Step, w: PlayerState)
    requires LsnOk(s) && Floor.RequestsOk(s) && NoLoss.CacheOk(s) && InLog(s, w) && Enabled(mode, s, step)
    requires !step.Crash? && !step.Checkpoint? && !step.Clamp?
    ensures InLog(Next(mode, s, step), w)
  {
    hide LsnOk, Floor.RequestsOk, NoLoss.CacheOk, InLog, Next;
    if step.NoteDrained? {
      InLogDrained(mode, s, step, w);
    } else if ByCaller(step) || (step.AppendOk? && s.actors[step.tid].Registered?) {
      InLogCaller(mode, s, step, w);
    } else if step.ApplyNext? {
      InLogApply(mode, s, step, w);
    } else {
      InLogFlush(mode, s, step, w);
    }
  }

  lemma InLogCaller(mode: Mode, s: Machine, step: Step, w: PlayerState)
    requires LsnOk(s) && InLog(s, w) && Enabled(mode, s, step)
    requires ByCaller(step) || (step.AppendOk? && s.actors[step.tid].Registered?)
    ensures InLog(Next(mode, s, step), w)
  {
    hide InLog, Log.Highest;
    var a := s.actors[step.tid];
    var s' := Next(mode, s, step);
    assert ActorLsns(s, a);
    if step.Unregister? {
      assert Holds(a, a.rec.lsn);
    }
    InLogFrame(s, s', step.tid, s'.actors[step.tid], w);
  }

  lemma InLogApply(mode: Mode, s: Machine, step: Step, w: PlayerState)
    requires InLog(s, w) && Enabled(mode, s, step) && step.ApplyNext?
    ensures InLog(Next(mode, s, step), w)
  {
    hide InLog;
    var a := s.actors[step.tid];
    var s' := Next(mode, s, step);
    assert a.q == [a.q[0]] + a.q[1..];
    InLogFrame(s, s', step.tid, s'.actors[step.tid], w);
  }

  lemma InLogFlush(mode: Mode, s: Machine, step: Step, w: PlayerState)
    requires NoLoss.CacheOk(s) && InLog(s, w) && Enabled(mode, s, step)
    requires !ByCaller(step) && !step.Crash? && !step.NoteDrained? && !step.Checkpoint? && !step.Clamp?
    requires !step.ApplyNext? && (step.AppendOk? ==> s.actors[step.tid].Stamped?)
    ensures InLog(Next(mode, s, step), w)
  {
    hide Store.UpsertedAll, Store.SetAll, Log.Survivors, Cache.Requeued, Lsn.Watermark, Log.Highest, InLog;
    var s' := Next(mode, s, step);
    NoLoss.RequeueGrows(s, step.tid);
    InLogFrame(s, s', step.tid, s'.actors[step.tid], w);
  }

  /** A checkpoint by the worker: pinned frames are above it, and the store has the rest. */
  lemma InLogCheckpoint(s: Machine, upTo: nat, w: PlayerState)
    requires WorkerOk(s) && NoLoss.AllSettled(s) && 0 in s.actors
    requires s.actors[0].Persisted? || s.actors[0].Clamped?
    requires Lsn.BelowAll(upTo, s.pending) && InLog(s, w)
    ensures var s' := Goto(Checkpointed(s, upTo), 0, Idle);
            || Pinned(s', w)
            || (Cache.Covers(s.cache, w.playerId, w.version) && Store.Covers(s.store, w.playerId, w.version))
  {
    Log.SurvivorsMeaning(s.log, upTo);
    var s' := Goto(Checkpointed(s, upTo), 0, Idle);
    if Pinned(s, w) {
      var r :| r in s.log && r in s.appended && r.lsn in s.pending
        && r.playerId == w.playerId && r.version >= w.version;
      assert r in s'.log;
    } else {
      forall t | t in s.actors ensures Scratch(s.actors[t]) == [] {
        if t != 0 {
          assert !Flushing(s.actors[t]);
        }
      }
      assert Cache.Covers(s.cache, w.playerId, w.version);
      StoreHasCache(s, w.playerId);
    }
  }

  /** The worker's two steps that may checkpoint. */
  lemma InLogClamp(mode: Mode, s: Machine, step: Step, w: PlayerState)
    requires WorkerOk(s) && NoLoss.AllSettled(s) && Floor.FloorOk(mode, s) && InLog(s, w)
    requires Enabled(mode, s, step) && (step.Checkpoint? || step.Clamp?)
    ensures var s' := Next(mode, s, step);
            || InLog(s', w)
            || (Cache.Covers(s.cache, w.playerId, w.version) && Store.Covers(s.store, w.playerId, w.version))
  {
    hide Log.Survivors, Log.Highest;
    var a := s.actors[step.tid];
    assert Flushing(a) && step.tid == 0;
    if step.Checkpoint? {
      assert Floor.FloorActor(mode, s, a);
      InLogCheckpoint(s, a.upTo, w);
    } else {
      match Lsn.Watermark(s.pending, a.proposed)
      case None => InLogFrame(s, Next(mode, s, step), 0, Idle, w);
      case Some(upTo) =>
        if mode.atomicCheckpoint {
          InLogCheckpoint(s, upTo, w);
        } else {
          InLogFrame(s, Next(mode, s, step), 0, Clamped(upTo), w);
        }
    }
  }

  /** Recovery rebuilds the cache from every frame. */
  lemma KeptCrash(s: Machine, more: Log.Records, w: PlayerState)
    requires Kept(s, w)
    ensures Kept(Started(s.log + more, s.store, s.actors.Keys, s.durable), w)
  {
    var log' := s.log + more;
    Log.ReplayMeaning(log');
    if !Store.Covers(s.store, w.playerId, w.version) {
      var r :| r in s.log && r.playerId == w.playerId && r.version >= w.version;
      assert r in log';
      assert Log.Covers(log', w.playerId, w.version);
    }
  }

  // ---------------------------------------------------------------- every step

  ghost predicate Inv(mode: Mode, s: Machine) {
    Floor.Inv(mode, s) && NoLoss.Inv(s) && WorkerOk(s) && DurableOk(s)
  }

  /** A logged write is pinned at once. */
  lemma NewlyPinned(mode: Mode, s: Machine, tid: nat)
    requires Floor.FloorOk(mode, s) && tid in s.actors && s.actors[tid].Registered?
    ensures Pinned(DurableAppended(s, tid), s.actors[tid].rec.ToState())
  {
    var rec, s' := s.actors[tid].rec, DurableAppended(s, tid);
    assert Floor.FloorActor(mode, s, s.actors[tid]);
    assert rec in s'.log && rec in s'.appended && rec.lsn in s'.pending;
  }

  /** Which writes a step makes durable. */
  lemma DurableSame(mode: Mode, s: Machine, step: Step)
    requires Enabled(mode, s, step)
    ensures var s' := Next(mode, s, step);
            if step.AppendOk? && s.actors[step.tid].Registered?
            then s' == DurableAppended(s, step.tid) && s'.durable == s.durable + {s.actors[step.tid].rec.ToState()}
            else s'.durable == s.durable
  {
  }

  lemma DurableStep(mode: Mode, s: Machine, step: Step)
    requires Strict(mode) && Inv(mode, s) && Enabled(mode, s, step)
    ensures DurableOk(Next(mode, s, step))
  {
    hide Kept, Next, LsnOk, Floor.RequestsOk, Floor.FloorOk, NoLoss.Inv, WorkerOk;
    DurableSame(mode, s, step);
    forall w | w in Next(mode, s, step).durable ensures Kept(Next(mode, s, step), w) {
      if w in s.durable {
        KeptStep(mode, s, step, w);
      } else {
        NewlyPinned(mode, s, step.tid);
        PinnedIsKept(Next(mode, s, step), w);
      }
    }
  }

  lemma PinnedIsKept(s: Machine, w: PlayerState)
    requires Pinned(s, w)
    ensures Kept(s, w)
  {
  }

  lemma KeptStep(mode: Mode, s: Machine, step: Step, w: PlayerState)
    requires Strict(mode) && Inv(mode, s) && w in s.durable && Enabled(mode, s, step)
    ensures Kept(Next(mode, s, step), w)
  {
    hide LsnOk, Floor.RequestsOk, Floor.FloorOk, WorkerOk, InLog, NoLoss.CacheOk, NoLoss.AllSettled, NoLoss.AcceptedOk,
      NoLoss.OriginOk, NoLoss.BaseKept;
    if step.Crash? {
      KeptCrash(s, Writing(s.actors[step.tid])[..step.written], w);
    } else {
      StoreGrows(mode, s, step, w.playerId, w.version);
      hide Next;
      if InLog(s, w) {
        if step.Checkpoint? || step.Clamp? {
          InLogClamp(mode, s, step, w);
        } else {
          InLogStep(mode, s, step, w);
        }
      }
    }
  }

  /** A store that compares versions takes no row back. */
  lemma StoreGrows(mode: Mode, s: Machine, step: Step, p: nat, v: nat)
    requires !mode.plainSet && NoLoss.CacheOk(s) && Enabled(mode, s, step)
    ensures Store.Covers(s.store, p, v) ==> Store.Covers(Next(mode, s, step).store, p, v)
  {
    hide NoLoss.CacheOk;
    StoreStep(mode, s, step);
    hide Next, Enabled, Store.UpsertedAll;
    if step.Persist? && Store.Covers(s.store, p, v) {
      KeyedStore(s);
      Store.UpsertMeaning(s.store, s.actors[step.tid].batch);
      assert Store.Covers(Store.UpsertedAll(s.store, s.actors[step.tid].batch), p, s.store[p].version);
    }
  }

  lemma KeyedStore(s: Machine)
    requires NoLoss.CacheOk(s)
    ensures Store.Keyed(s.store)
  {
  }

  /** Only persisting changes the store. */
  lemma StoreStep(mode: Mode, s: Machine, step: Step)
    requires !mode.plainSet && Enabled(mode, s, step)
    ensures step.Persist? ==> s.actors[step.tid].Appended?
    ensures Next(mode, s, step).store
         == if step.Persist? then Store.UpsertedAll(s.store, s.actors[step.tid].batch) else s.store
  {
    hide Store.UpsertedAll, Store.SetAll, Log.Survivors, Log.Highest, Log.Replay, Cache.Requeued, Cache.Applied,
      Cache.Cleaned, Lsn.Watermark;
  }

  lemma InvStep(mode: Mode, s: Machine, step: Step)
    requires Strict(mode) && Inv(mode, s) && Enabled(mode, s, step)
    ensures Inv(mode, Next(mode, s, step))
  {
    Floor.InvStep(mode, s, step);
    NoLoss.InvStep(mode, s, step);
    WorkerStep(mode, s, step);
    DurableStep(mode, s, step);
  }

  lemma {:induction false} InvRun(mode: Mode, s: Machine, steps: seq<Step>)
    requires Strict(mode) && Inv(mode, s) && IsRun(mode, s, steps)
    ensures Inv(mode, After(mode, s, steps))
    decreases |steps|
  {
    if steps != [] {
      InvStep(mode, s, steps[0]);
      InvRun(mode, Next(mode, s, steps[0]), steps[1..]);
    }
  }

  /** A log and a store an engine may find when it starts. */
  ghost predicate Startable(log: Log.Records, store: Store.Table) {
    Log.DistinctLsns(log) && Store.Keyed(store)
  }

  /** In every state of every run, crashes and restarts included, no durable write is lost. */
  lemma DurableWritesSurvive(mode: Mode, log: Log.Records, store: Store.Table, tids: set<nat>, steps: seq<Step>)
    requires Strict(mode) && Startable(log, store)
    requires IsRun(mode, Started(log, store, tids, {}), steps)
    ensures AllCovered(After(mode, Started(log, store, tids, {}), steps))
  {
    var s := Started(log, store, tids, {});
    Floor.InvStart(mode, log, store, tids, {});
    NoLoss.InvStart(log, store, tids, {});
    InvRun(mode, s, steps);
    var s' := After(mode, s, steps);
    forall w | w in s'.durable ensures Covered(s', w) {
      assert Kept(s', w);
      if Pinned(s', w) {
        var r :| r in s'.log && r in s'.appended && r.lsn in s'.pending
          && r.playerId == w.playerId && r.version >= w.version;
      }
    }
  }
}
