/**
 The unconditional-SET store.  Within one life of the process that began on an empty store, and with
 the worker as the only flusher, it passes through the same states as a last-write-wins store.  It
 converges, across restarts too, exactly when the worker is the only flusher, or nobody writes.
 (Across a restart it may still go back for a while: see `PipelineWitness.PlainSetForgets`.)
 */
module PipelineRedis {
  import opened Domain
  import opened Pipeline
  import opened PipelineSet
  import opened Prelude
  import Cache
  import Log
  import NoLoss = PipelineNoLoss
  import Players = PipelinePlayers
  import Store
  import Witness = PipelineWitness
  import Durability = PipelineDurability

  /** The store is nowhere ahead of the cache, nor of the worker's batch. */
  ghost predicate Monotone(s: Machine) {
    && (forall p :: p in s.store ==> Cache.Covers(s.cache, p, s.store[p].version))
    && (forall t, st :: t in s.actors && st in Batch(s.actors[t]) && st.playerId in s.store ==>
          s.store[st.playerId].version <= st.version)
  }

  ghost predicate Inv(s: Machine) {
    NoLoss.CacheOk(s) && OneFlusher(s) && Monotone(s)
  }

  lemma MonotoneFrame(s: Machine, s': Machine, tid: nat, a: Actor)
    requires Monotone(s) && tid in s.actors && s'.actors == s.actors[tid := a]
    requires s'.store == s.store && NoLoss.Grows(s.cache, s'.cache)
    requires Batch(a) == [] || Batch(a) == Batch(s.actors[tid])
    ensures Monotone(s')
  {
    forall p | p in s'.store ensures Cache.Covers(s'.cache, p, s'.store[p].version) {
      assert Cache.Covers(s'.cache, p, s.cache[p].state.version);
    }
  }

  lemma MonotoneStep(mode: Mode, s: Machine, step: Step)
    requires mode.soleFlusher && !mode.mayCrash && Inv(s) && Enabled(mode, s, step)
    ensures Monotone(Next(mode, s, step))
  {
    hide Monotone, OneFlusher, NoLoss.CacheOk, Store.UpsertedAll, Store.SetAll, Log.Survivors, Cache.Requeued;
    if step.TakeDirty? {
      MonotoneTake(mode, s, step);
    } else if step.Persist? {
      MonotonePersist(s, step.tid);
    } else if ByCaller(step) || step.AppendOk? {
      var s' := Next(mode, s, step);
      MonotoneFrame(s, s', step.tid, s'.actors[step.tid]);
    } else {
      MonotoneFlush(mode, s, step);
    }
  }

  lemma MonotoneTake(mode: Mode, s: Machine, step: Step)
    requires Inv(s) && Enabled(mode, s, step) && step.TakeDirty?
    ensures Monotone(Next(mode, s, step))
  {
    NoLoss.TakenBatch(s.cache, step.ids);
  }

  lemma MonotoneFlush(mode: Mode, s: Machine, step: Step)
    requires !mode.mayCrash && Inv(s) && Enabled(mode, s, step)
    requires !step.TakeDirty? && !step.Persist? && !ByCaller(step) && !step.AppendOk?
    ensures Monotone(Next(mode, s, step))
  {
    hide Monotone, NoLoss.CacheOk, Store.UpsertedAll, Store.SetAll, Log.Survivors, Log.Highest, Cache.Requeued,
      Lsn.Watermark;
    var s' := Next(mode, s, step);
    if step.AppendFails? || step.GiveUp? || step.ApplyNext? {
      MonotoneGrow(mode, s, step);
    } else {
      MonotoneFrame(s, s', step.tid, s'.actors[step.tid]);
    }
  }

  lemma MonotoneGrow(mode: Mode, s: Machine, step: Step)
    requires Inv(s) && Enabled(mode, s, step) && (step.AppendFails? || step.GiveUp? || step.ApplyNext?)
    ensures Monotone(Next(mode, s, step))
  {
    NoLoss.RequeueGrows(s, step.tid);
    var s' := Next(mode, s, step);
    MonotoneFrame(s, s', step.tid, s'.actors[step.tid]);
  }

  /** A batch is never behind the store, so SET and upsert agree on it. */
  lemma BatchStoredAlike(s: Machine, tid: nat)
    requires Inv(s) && tid in s.actors && s.actors[tid].Appended?
    ensures Store.SetAll(s.store, s.actors[tid].batch) == Store.UpsertedAll(s.store, s.actors[tid].batch)
  {
    var a := s.actors[tid];
    assert NoLoss.BatchOk(s.cache, a);
    assert forall st :: st in a.batch ==> st in Batch(a);
    Store.SetIsUpsert(s.store, a.batch);
  }

  lemma MonotonePersist(s: Machine, tid: nat)
    requires Inv(s) && tid in s.actors && s.actors[tid].Appended?
    ensures var a := s.actors[tid];
            Monotone(Goto(s, tid, Persisted(a.proposed)).(store := Store.UpsertedAll(s.store, a.batch)))
    ensures Store.SetAll(s.store, s.actors[tid].batch) == Store.UpsertedAll(s.store, s.actors[tid].batch)
  {
    hide Store.UpsertedAll, Store.SetAll;
    BatchStoredAlike(s, tid);
    var batch := s.actors[tid].batch;
    var t' := Store.UpsertedAll(s.store, batch);
    Store.UpsertMeaning(s.store, batch);
    assert NoLoss.BatchOk(s.cache, s.actors[tid]);
    forall p | p in t' ensures Cache.Covers(s.cache, p, t'[p].version) {
      if t'[p] in batch {
        assert t'[p] in Batch(s.actors[tid]);
      }
    }
    forall t | t in s.actors && t != tid ensures Batch(s.actors[t]) == [] {
      assert Durability.Flushing(s.actors[tid]);
      assert t != 0 && !Durability.Flushing(s.actors[t]);
    }
  }

  lemma InvStep(mode: Mode, s: Machine, step: Step)
    requires mode.soleFlusher && !mode.mayCrash && Inv(s) && Enabled(mode, s, step)
    ensures Inv(Next(mode, s, step))
  {
    hide NoLoss.CacheOk, OneFlusher, Monotone, Next, Enabled;
    NoLoss.CacheStep(mode, s, step);
    OneFlusherStep(mode, s, step);
    MonotoneStep(mode, s, step);
  }

  lemma {:induction false} SameRunFrom(mode: Mode, s: Machine, steps: seq<Step>)
    requires mode.soleFlusher && !mode.mayCrash && Inv(s)
    requires IsRun(Plain(mode), s, steps) || IsRun(Comparing(mode), s, steps)
    ensures IsRun(Plain(mode), s, steps) && IsRun(Comparing(mode), s, steps)
    ensures After(Plain(mode), s, steps) == After(Comparing(mode), s, steps)
    decreases |steps|
  {
    if steps != [] {
      if steps[0].Persist? {
        BatchStoredAlike(s, steps[0].tid);
      }
      if Enabled(Plain(mode), s, steps[0]) {
        SameNext(Plain(mode), Comparing(mode), s, steps[0]);
      } else {
        SameNext(Comparing(mode), Plain(mode), s, steps[0]);
      }
      InvStep(Comparing(mode), s, steps[0]);
      SameRunFrom(mode, Next(Comparing(mode), s, steps[0]), steps[1..]);
    }
  }

  lemma InvEmpty(log: Log.Records, tids: set<nat>)
    ensures Inv(Started(log, map[], tids, {}))
  {
    hide Log.Replay;
    Log.ReplayMeaning(log);
  }

  /**
   From a start on an empty store, on any log, the same schedule run against either store passes through
   the same states.
   */
  lemma SameRun(mode: Mode, log: Log.Records, tids: set<nat>, steps: seq<Step>)
    requires mode.soleFlusher && !mode.mayCrash
    ensures IsRun(Plain(mode), Started(log, map[], tids, {}), steps)
       <==> IsRun(Comparing(mode), Started(log, map[], tids, {}), steps)
    ensures var s := Started(log, map[], tids, {});
            IsRun(Plain(mode), s, steps) ==> After(Plain(mode), s, steps) == After(Comparing(mode), s, steps)
  {
    InvEmpty(log, tids);
    var s := Started(log, map[], tids, {});
    if IsRun(Plain(mode), s, steps) || IsRun(Comparing(mode), s, steps) {
      SameRunFrom(mode, s, steps);
    }
  }

  // ---------------------------------------------------------------- two flushers

  /** Thread 0 has version 1 of a player in hand; version 2 has been flushed by thread 1. */
  lemma StaleBatch(mode: Mode, p: nat) returns (s: Machine)
    requires !mode.soleFlusher && mode.ringCap >= 1 && mode.batchMax >= 1 && Allowed(mode, p)
    ensures Witness.Reaches(mode, Fresh({0, 1, 2}), s)
    ensures s.actors == map[0 := Appended([PlayerState(p, 1, [])], 2), 1 := Idle, 2 := Idle]
    ensures s.store == map[p := PlayerState(p, 2, [])] && s.ring == [] && s.pending == {}
    ensures s.cache == map[p := Cache.Entry(PlayerState(p, 2, []), false)]
    ensures PlayerState(p, 2, []) in s.accepted
  {
    var s0 := Fresh({0, 1, 2});
    var s4 := SecondDrained(mode, p);
    Witness.FlushAway(mode, s4, 1, p);
    s := Witness.FlushedAway(s4, p);
    Witness.Then(mode, s0, s4, s);
  }

  lemma SecondDrained(mode: Mode, p: nat) returns (s: Machine)
    requires !mode.soleFlusher && mode.ringCap >= 1 && mode.batchMax >= 1 && Allowed(mode, p)
    ensures Witness.Reaches(mode, Fresh({0, 1, 2}), s)
    ensures s.actors == map[0 := Appended([PlayerState(p, 1, [])], 2), 1 := Idle, 2 := Idle]
    ensures s.cache == map[p := Cache.Entry(PlayerState(p, 2, []), true)] && s.ring == [] && s.pending == {}
    ensures s.log == [WalRecord(2, p, 1, [])] && s.lastLsn == 2 && s.store == map[]
    ensures PlayerState(p, 2, []) in s.accepted
  {
    var s0 := Fresh({0, 1, 2});
    var s2 := BatchInHand(mode, p);
    Witness.PlainWrite(mode, s2, 2, p, 2);
    var s3 := Witness.WithPlain(s2, p, 2);
    Witness.Then(mode, s0, s2, s3);
    Witness.DrainHead(mode, s3, 1);
    s := Witness.HeadDrained(s3);
    Witness.Then(mode, s0, s3, s);
  }

  lemma BatchInHand(mode: Mode, p: nat) returns (s: Machine)
    requires mode.ringCap >= 1 && mode.batchMax >= 1 && Allowed(mode, p)
    ensures Witness.Reaches(mode, Fresh({0, 1, 2}), s)
    ensures s.actors == map[0 := Appended([PlayerState(p, 1, [])], 2), 1 := Idle, 2 := Idle]
    ensures s.cache == map[p := Cache.Entry(PlayerState(p, 1, []), false)] && s.ring == [] && s.pending == {}
    ensures s.log == [WalRecord(2, p, 1, [])] && s.lastLsn == 2 && s.store == map[]
  {
    var s0 := Fresh({0, 1, 2});
    var s2 := BatchStamped(mode, p);
    Witness.AppendBatch(mode, s2, 0);
    s := BatchAppended(s2, 0);
    Witness.Then(mode, s0, s2, s);
    hide Witness.Reaches, BatchAppended;
    OneAppended(s2, PlayerState(p, 1, []), 2);
  }

  lemma OneAppended(s: Machine, st: PlayerState, first: nat)
    requires 0 in s.actors && s.actors[0] == Stamped([st], first)
    ensures var high := Max(s.lastLsn, first);
            BatchAppended(s, 0) == Goto(s, 0, Appended([st], high)).(
              log := s.log + [WalRecord(first, st.playerId, st.version, st.blob)], lastLsn := high)
  {
    var r := WalRecord(first, st.playerId, st.version, st.blob);
    assert RecordsOf([st], first) == [r];
    Witness.OneRecord(r);
  }

  lemma BatchStamped(mode: Mode, p: nat) returns (s: Machine)
    requires mode.ringCap >= 1 && mode.batchMax >= 1 && Allowed(mode, p)
    ensures Witness.Reaches(mode, Fresh({0, 1, 2}), s)
    ensures s.actors == map[0 := Stamped([PlayerState(p, 1, [])], 2), 1 := Idle, 2 := Idle]
    ensures s.cache == map[p := Cache.Entry(PlayerState(p, 1, []), false)] && s.ring == [] && s.pending == {}
    ensures s.log == [] && s.lastLsn == 0 && s.store == map[]
  {
    hide Witness.Reaches, Next, Fresh;
    var s0 := Fresh({0, 1, 2});
    var s1 := Witness.PlainDrained(mode, p);
    assert Cache.DirtyIds(s1.cache) == {p};
    Witness.TakeAndStamp(mode, s1, 0, [p]);
    assert StatesOf(s1.cache, [p]) == [PlayerState(p, 1, [])];
    s := Goto(s1, 0, Stamped([PlayerState(p, 1, [])], s1.next)).(
      next := s1.next + 1, cache := Cache.Cleaned(s1.cache, set id | id in [p]));
    Witness.Then(mode, s0, s1, s);
  }

  /** Both flushes done: version 1 is in the store although version 2 was accepted. */
  lemma StalePersisted(mode: Mode, p: nat) returns (s: Machine)
    requires mode.plainSet && !mode.soleFlusher && mode.ringCap >= 1 && mode.batchMax >= 1 && Allowed(mode, p)
    ensures Witness.Reaches(mode, Fresh({0, 1, 2}), s)
    ensures NoLoss.AtRest(s) && PlayerState(p, 2, []) in s.accepted
    ensures s.store == map[p := PlayerState(p, 1, [])]
  {
    hide Witness.Reaches, Log.Survivors;
    var s0 := Fresh({0, 1, 2});
    var s1 := StaleBatch(mode, p);
    Witness.OneStep(mode, s1, Persist(0));
    var s2 := Next(mode, s1, Persist(0));
    Witness.OneRow(s1.store, PlayerState(p, 1, []));
    Witness.Then(mode, s0, s1, s2);
    Witness.FinishFlush(mode, s2, 0);
    s := Goto(Checkpointed(s2, 2), 0, Idle);
    Witness.Then(mode, s0, s2, s);
  }

  /** At rest every accepted write is stored, whatever log and store the first start found. */
  ghost predicate Converges(mode: Mode) {
    forall log, store, tids, steps ::
      Store.Keyed(store) && Players.LogAllowed(mode, log) && IsRun(mode, Started(log, store, tids, {}), steps)
      && NoLoss.AtRest(After(mode, Started(log, store, tids, {}), steps))
      ==> StoreCoversAccepted(After(mode, Started(log, store, tids, {}), steps))
  }

  ghost predicate StoreCoversAccepted(s: Machine) {
    forall st :: st in s.accepted ==> Store.Covers(s.store, st.playerId, st.version)
  }

  /** The SET store converges, with or without restarts, exactly when the worker alone flushes, or nobody writes. */
  lemma SetConvergesExactly(mode: Mode)
    requires mode.plainSet && mode.ringCap >= 1 && mode.batchMax >= 1
    ensures Converges(mode) <==> mode.soleFlusher || Witness.NobodyWrites(mode)
  {
    if mode.soleFlusher || Witness.NobodyWrites(mode) {
      forall log, store, tids, steps |
        Store.Keyed(store) && Players.LogAllowed(mode, log) && IsRun(mode, Started(log, store, tids, {}), steps)
        && NoLoss.AtRest(After(mode, Started(log, store, tids, {}), steps))
        ensures StoreCoversAccepted(After(mode, Started(log, store, tids, {}), steps))
      {
        if mode.soleFlusher {
          EitherStoreConverges(mode, log, store, tids, steps);
        } else {
          Witness.NothingWritten(mode, log, store, tids, steps);
        }
      }
    } else {
      var p := Witness.Somebody(mode);
      var s := StalePersisted(mode, p);
      var steps :| IsRun(mode, Fresh({0, 1, 2}), steps) && After(mode, Fresh({0, 1, 2}), steps) == s;
      assert Fresh({0, 1, 2}) == Started([], map[], {0, 1, 2}, {});
      assert !StoreCoversAccepted(s);
    }
  }
}
