/**
 No accepted write is lost in memory, for every interleaving of submitters, worker and `flush_now`
 callers and every pattern of log and store failures; and at rest the store holds exactly the
 newest accepted version of every player.
 */
module PipelineNoLoss {
  import opened Domain
  import opened Pipeline
  import Cache
  import Log
  import Lsn
  import Store

  // ---------------------------------------------------------------- entries and batches

  ghost predicate BatchOk(m: Cache.Entries, a: Actor) {
    Store.OnePerPlayer(Batch(a)) && Cache.BehindEntries(m, Batch(a))
  }

  ghost predicate CacheOk(s: Machine) {
    && Cache.Keyed(s.cache) && Store.Keyed(s.store)
    && forall t :: t in s.actors ==> BatchOk(s.cache, s.actors[t])
  }

  ghost predicate InFlight(s: Machine, p: nat, v: nat) {
    exists t, st :: t in s.actors && st in Batch(s.actors[t]) && st.playerId == p && st.version == v
  }

  /** The version cached for `p` is still due, on its way, or in the store. */
  ghost predicate Settled(s: Machine, p: nat)
    requires p in s.cache
  {
    || s.cache[p].dirty
    || InFlight(s, p, s.cache[p].state.version)
    || Store.Covers(s.store, p, s.cache[p].state.version)
  }

  ghost predicate AllSettled(s: Machine) {
    forall p :: p in s.cache ==> Settled(s, p)
  }

  /** Entries never vanish and never move back. */
  ghost predicate Grows(m: Cache.Entries, m': Cache.Entries) {
    forall p :: p in m ==> Cache.Covers(m', p, m[p].state.version)
  }

  lemma CacheFrame(s: Machine, s': Machine, tid: nat, a: Actor)
    requires CacheOk(s) && tid in s.actors && s'.actors == s.actors[tid := a]
    requires Cache.Keyed(s'.cache) && Store.Keyed(s'.store) && Grows(s.cache, s'.cache)
    requires Batch(a) == [] || Batch(a) == Batch(s.actors[tid])
    ensures CacheOk(s')
  {
    forall t | t in s'.actors ensures BatchOk(s'.cache, s'.actors[t]) {
      assert BatchOk(s.cache, s.actors[t]);
    }
  }

  lemma RequeueGrows(s: Machine, tid: nat)
    requires CacheOk(s) && tid in s.actors
    ensures var m' := Cache.Requeued(s.cache, Batch(s.actors[tid]));
            Cache.Keyed(m') && Grows(s.cache, m')
  {
    assert BatchOk(s.cache, s.actors[tid]);
    Cache.RequeueKeeps(s.cache, Batch(s.actors[tid]));
  }

  lemma {:induction false} SetAllKeyed(table: Store.Table, states: seq<PlayerState>)
    requires Store.Keyed(table)
    ensures Store.Keyed(Store.SetAll(table, states))
    decreases |states|
  {
    if states != [] {
      SetAllKeyed(table, states[..|states| - 1]);
    }
  }

  lemma CacheStep(mode: Mode, s: Machine, step: Step)
    requires CacheOk(s) && Enabled(mode, s, step)
    ensures CacheOk(Next(mode, s, step))
  {
    var a := s.actors[step.tid];
    var s' := Next(mode, s, step);
    if step.Crash? {
      Log.ReplayMeaning(s.log + Writing(a)[..step.written]);
    } else if step.TakeDirty? {
      CacheTake(mode, s, step);
    } else if ByCaller(step) || step.AppendOk? {
      CacheFrame(s, s', step.tid, s'.actors[step.tid]);
    } else {
      CacheFlush(mode, s, step);
    }
  }

  /** What `take_dirty` hands out: one copy of each chosen entry. */
  lemma TakenBatch(m: Cache.Entries, ids: seq<nat>)
    requires Cache.Keyed(m) && (forall id :: id in ids ==> id in m)
    requires forall i, j :: 0 <= i < j < |ids| ==> ids[i] != ids[j]
    ensures var batch := StatesOf(m, ids);
            && Store.OnePerPlayer(batch)
            && (forall st :: st in batch ==> st.playerId in ids && st.playerId in m && m[st.playerId].state == st)
            && (forall id :: id in ids ==> m[id].state in batch)
  {
    var batch := StatesOf(m, ids);
    forall i | 0 <= i < |batch| ensures ids[i] in m && batch[i] == m[ids[i]].state && batch[i].playerId == ids[i] {
      assert ids[i] in ids;
    }
    forall id | id in ids ensures m[id].state in batch {
      var i :| 0 <= i < |ids| && ids[i] == id;
      assert batch[i] == m[id].state;
    }
  }

  lemma CacheTake(mode: Mode, s: Machine, step: Step)
    requires CacheOk(s) && Enabled(mode, s, step) && step.TakeDirty?
    ensures CacheOk(Next(mode, s, step))
  {
    var s' := Next(mode, s, step);
    TakenBatch(s.cache, step.ids);
    forall t | t in s'.actors ensures BatchOk(s'.cache, s'.actors[t]) {
      if t != step.tid {
        assert BatchOk(s.cache, s.actors[t]);
      }
    }
  }

  lemma CacheFlush(mode: Mode, s: Machine, step: Step)
    requires CacheOk(s) && Enabled(mode, s, step)
    requires !step.Crash? && !step.TakeDirty? && !ByCaller(step) && !step.AppendOk?
    ensures CacheOk(Next(mode, s, step))
  {
    hide CacheOk, Next, Enabled;
    if step.Persist? {
      CachePersist(mode, s, step);
    } else if step.AppendFails? || step.GiveUp? {
      CacheRequeue(mode, s, step);
    } else {
      CacheRest(mode, s, step);
    }
  }

  lemma CacheRequeue(mode: Mode, s: Machine, step: Step)
    requires CacheOk(s) && Enabled(mode, s, step) && (step.AppendFails? || step.GiveUp?)
    ensures CacheOk(Next(mode, s, step))
  {
    hide Cache.Requeued;
    RequeueGrows(s, step.tid);
    var s' := Next(mode, s, step);
    CacheFrame(s, s', step.tid, s'.actors[step.tid]);
  }

  lemma CacheRest(mode: Mode, s: Machine, step: Step)
    requires CacheOk(s) && Enabled(mode, s, step)
    requires !step.Crash? && !step.TakeDirty? && !ByCaller(step) && !step.AppendOk?
    requires !step.Persist? && !step.AppendFails? && !step.GiveUp?
    ensures CacheOk(Next(mode, s, step))
  {
    hide Log.Survivors, Lsn.Watermark, Log.Highest;
    var s' := Next(mode, s, step);
    CacheFrame(s, s', step.tid, s'.actors[step.tid]);
  }

  lemma CachePersist(mode: Mode, s: Machine, step: Step)
    requires CacheOk(s) && Enabled(mode, s, step) && step.Persist?
    ensures CacheOk(Next(mode, s, step))
  {
    hide Store.UpsertedAll, Store.SetAll;
    var a := s.actors[step.tid];
    var s' := Next(mode, s, step);
    Store.UpsertMeaning(s.store, a.batch);
    SetAllKeyed(s.store, a.batch);
    CacheFrame(s, s', step.tid, s'.actors[step.tid]);
  }

  // ---------------------------------------------------------------- settled entries

  lemma SettledQuiet(s: Machine, s': Machine, tid: nat, a: Actor)
    requires AllSettled(s) && tid in s.actors && s'.actors == s.actors[tid := a]
    requires s'.cache == s.cache && s'.store == s.store && Batch(a) == Batch(s.actors[tid])
    ensures AllSettled(s')
  {
    forall p | p in s'.cache ensures Settled(s', p) {
      assert Settled(s, p);
      KeepInFlight(s, s', tid, p, s.cache[p].state.version);
    }
  }

  lemma KeepInFlight(s: Machine, s': Machine, tid: nat, p: nat, v: nat)
    requires tid in s.actors && s.actors.Keys <= s'.actors.Keys
    requires forall t :: t in s.actors && t != tid ==> s'.actors[t] == s.actors[t]
    requires Batch(s.actors[tid]) == [] || Batch(s'.actors[tid]) == Batch(s.actors[tid])
    ensures InFlight(s, p, v) ==> InFlight(s', p, v)
  {
    if InFlight(s, p, v) {
      var t, st :| t in s.actors && st in Batch(s.actors[t]) && st.playerId == p && st.version == v;
      assert st in Batch(s'.actors[t]);
    }
  }

  lemma SettledApply(mode: Mode, s: Machine, step: Step)
    requires CacheOk(s) && AllSettled(s) && Enabled(mode, s, step) && step.ApplyNext?
    ensures AllSettled(Next(mode, s, step))
  {
    var s' := Next(mode, s, step);
    forall p | p in s'.cache ensures Settled(s', p) {
      if p in s.cache && s'.cache[p] == s.cache[p] {
        assert Settled(s, p);
        KeepInFlight(s, s', step.tid, p, s.cache[p].state.version);
      }
    }
  }

  lemma SettledTake(mode: Mode, s: Machine, step: Step)
    requires CacheOk(s) && AllSettled(s) && Enabled(mode, s, step) && step.TakeDirty?
    ensures AllSettled(Next(mode, s, step))
  {
    var s' := Next(mode, s, step);
    TakenBatch(s.cache, step.ids);
    forall p | p in s'.cache ensures Settled(s', p) {
      var v := s.cache[p].state.version;
      assert Settled(s, p);
      if p in step.ids {
        assert s.cache[p].state in Batch(s'.actors[step.tid]);
        assert InFlight(s', p, v);
      } else {
        KeepInFlight(s, s', step.tid, p, v);
      }
    }
  }

  /** Putting the batch back makes its entries dirty again, unless a newer write already did. */
  lemma SettledRequeue(s: Machine, s': Machine, tid: nat)
    requires CacheOk(s) && AllSettled(s) && tid in s.actors
    requires s'.actors == s.actors[tid := Idle] && s'.store == s.store
    requires s'.cache == Cache.Requeued(s.cache, Batch(s.actors[tid]))
    ensures AllSettled(s')
  {
    var batch := Batch(s.actors[tid]);
    assert BatchOk(s.cache, s.actors[tid]);
    Cache.RequeueKeeps(s.cache, batch);
    Cache.RequeueRearms(s.cache, batch);
    forall p | p in s'.cache ensures Settled(s', p) {
      var v := s.cache[p].state.version;
      assert Settled(s, p);
      if InFlight(s, p, v) {
        var t, st :| t in s.actors && st in Batch(s.actors[t]) && st.playerId == p && st.version == v;
        if t != tid {
          assert st in Batch(s'.actors[t]);
          assert InFlight(s', p, v);
        }
      }
    }
  }

  lemma SettledPersist(mode: Mode, s: Machine, step: Step)
    requires !mode.plainSet && CacheOk(s) && AllSettled(s) && Enabled(mode, s, step) && step.Persist?
    ensures AllSettled(Next(mode, s, step))
  {
    var a := s.actors[step.tid];
    var s' := Next(mode, s, step);
    Store.UpsertMeaning(s.store, a.batch);
    forall p | p in s'.cache ensures Settled(s', p) {
      var v := s.cache[p].state.version;
      assert Settled(s, p);
      if InFlight(s, p, v) {
        var t, st :| t in s.actors && st in Batch(s.actors[t]) && st.playerId == p && st.version == v;
        if t != step.tid {
          assert st in Batch(s'.actors[t]);
          assert InFlight(s', p, v);
        }
      }
    }
  }

  lemma SettledStep(mode: Mode, s: Machine, step: Step)
    requires !mode.plainSet && CacheOk(s) && AllSettled(s) && Enabled(mode, s, step)
    ensures AllSettled(Next(mode, s, step))
  {
    var s' := Next(mode, s, step);
    if step.Crash? {
      Log.ReplayMeaning(s'.log);
    } else if step.TakeDirty? {
      SettledTake(mode, s, step);
    } else if ByCaller(step) || step.AppendOk? {
      SettledQuiet(s, s', step.tid, s'.actors[step.tid]);
    } else {
      SettledFlush(mode, s, step);
    }
  }

  lemma SettledFlush(mode: Mode, s: Machine, step: Step)
    requires !mode.plainSet && CacheOk(s) && AllSettled(s) && Enabled(mode, s, step)
    requires !step.Crash? && !step.TakeDirty? && !ByCaller(step) && !step.AppendOk?
    ensures AllSettled(Next(mode, s, step))
  {
    hide AllSettled, CacheOk, Store.UpsertedAll, Store.SetAll, Log.Survivors, Lsn.Watermark, Log.Highest;
    var s' := Next(mode, s, step);
    if step.ApplyNext? {
      SettledApply(mode, s, step);
    } else if step.Persist? {
      SettledPersist(mode, s, step);
    } else if step.GiveUp? || (step.AppendFails? && s.actors[step.tid].Stamped?) {
      SettledRequeue(s, s', step.tid);
    } else {
      SettledQuiet(s, s', step.tid, s'.actors[step.tid]);
    }
  }

  // ---------------------------------------------------------------- accepted writes

  /** `st` is queued, or popped by some thread that has not applied it yet. */
  ghost predicate Queued(s: Machine, st: PlayerState) {
    || (exists req :: req in s.ring && req.ToState() == st)
    || (exists t, req :: t in s.actors && req in Scratch(s.actors[t]) && req.ToState() == st)
  }

  ghost predicate AcceptedOk(s: Machine) {
    forall st :: st in s.accepted ==> Queued(s, st) || Cache.Covers(s.cache, st.playerId, st.version)
  }

  lemma AcceptedFrame(s: Machine, s': Machine, tid: nat, a: Actor)
    requires AcceptedOk(s) && tid in s.actors && s'.actors == s.actors[tid := a]
    requires s'.accepted == s.accepted && Grows(s.cache, s'.cache)
    requires forall req :: req in s.ring ==> req in s'.ring || req in Scratch(a)
    requires forall req :: req in Scratch(s.actors[tid]) ==>
               req in Scratch(a) || Cache.Covers(s'.cache, req.playerId, req.version)
    ensures AcceptedOk(s')
  {
    forall st | st in s'.accepted ensures Queued(s', st) || Cache.Covers(s'.cache, st.playerId, st.version) {
      if Cache.Covers(s.cache, st.playerId, st.version) {
        assert Cache.Covers(s'.cache, st.playerId, s.cache[st.playerId].state.version);
      } else if exists req :: req in s.ring && req.ToState() == st {
        var req :| req in s.ring && req.ToState() == st;
        assert req in s'.ring || req in Scratch(s'.actors[tid]);
      } else {
        var t, req :| t in s.actors && req in Scratch(s.actors[t]) && req.ToState() == st;
        assert t != tid ==> req in Scratch(s'.actors[t]);
        assert t == tid && req in Scratch(a) ==> req in Scratch(s'.actors[tid]);
      }
    }
  }

  lemma AcceptedOffer(s: Machine, tid: nat, req: WriteRequest)
    requires AcceptedOk(s) && tid in s.actors && Scratch(s.actors[tid]) == []
    ensures AcceptedOk(Goto(Accept(s, req), tid, Idle))
  {
    var s' := Goto(Accept(s, req), tid, Idle);
    AcceptedFrame(s, s'.(accepted := s.accepted), tid, Idle);
    var s'' := s'.(accepted := s.accepted);
    assert req in s'.ring;
    forall st | st in s'.accepted ensures Queued(s', st) || Cache.Covers(s'.cache, st.playerId, st.version) {
      if st in s.accepted {
        assert Queued(s'', st) || Cache.Covers(s''.cache, st.playerId, st.version);
      }
    }
  }

  lemma AcceptedStep(mode: Mode, s: Machine, step: Step)
    requires CacheOk(s) && AcceptedOk(s) && Enabled(mode, s, step)
    ensures AcceptedOk(Next(mode, s, step))
  {
    hide Lsn.Watermark;
    hide AcceptedOk, CacheOk, Log.Replay, Log.Survivors, Cache.Requeued, Store.UpsertedAll, Store.SetAll;
    var a := s.actors[step.tid];
    var s' := Next(mode, s, step);
    if step.Crash? {
      AcceptedCrash(mode, s, step);
    } else if step.Offer? && step.accept {
      AcceptedOffer(s, step.tid, if a.Minted? then a.req else a.rec.ToRequest());
    } else if ByCaller(step) || step.AppendOk? || step.TakeDirty? {
      AcceptedFrame(s, s', step.tid, s'.actors[step.tid]);
    } else {
      AcceptedFlush(mode, s, step);
    }
  }

  /** A restart accepts what it recovers, and recovers what it accepts. */
  lemma AcceptedCrash(mode: Mode, s: Machine, step: Step)
    requires Enabled(mode, s, step) && step.Crash?
    ensures AcceptedOk(Next(mode, s, step))
  {
    hide Log.Replay, Log.Highest;
    Log.ReplayMeaning(s.log + Writing(s.actors[step.tid])[..step.written]);
  }

  lemma AcceptedFlush(mode: Mode, s: Machine, step: Step)
    requires CacheOk(s) && AcceptedOk(s) && Enabled(mode, s, step)
    requires !step.Crash? && !step.TakeDirty? && !ByCaller(step) && !step.AppendOk?
    ensures AcceptedOk(Next(mode, s, step))
  {
    hide AcceptedOk, CacheOk, Next, Enabled;
    if step.ApplyNext? || step.Pop? {
      AcceptedMove(mode, s, step);
    } else {
      AcceptedRest(mode, s, step);
    }
  }

  lemma AcceptedMove(mode: Mode, s: Machine, step: Step)
    requires AcceptedOk(s) && Enabled(mode, s, step) && (step.ApplyNext? || step.Pop?)
    ensures AcceptedOk(Next(mode, s, step))
  {
    hide AcceptedOk;
    var a := s.actors[step.tid];
    var s' := Next(mode, s, step);
    if step.ApplyNext? {
      assert a.q == [a.q[0]] + a.q[1..];
    } else {
      assert s.ring == [s.ring[0]] + s.ring[1..];
    }
    AcceptedFrame(s, s', step.tid, s'.actors[step.tid]);
  }

  lemma AcceptedRest(mode: Mode, s: Machine, step: Step)
    requires CacheOk(s) && AcceptedOk(s) && Enabled(mode, s, step)
    requires !step.Crash? && !step.TakeDirty? && !ByCaller(step) && !step.AppendOk? && !step.ApplyNext? && !step.Pop?
    ensures AcceptedOk(Next(mode, s, step))
  {
    hide AcceptedOk, CacheOk, Store.UpsertedAll, Store.SetAll, Log.Survivors, Log.Highest, Cache.Requeued,
      Cache.Cleaned, Lsn.Watermark, RecordsOf, StatesOf;
    var s' := Next(mode, s, step);
    RequeueGrows(s, step.tid);
    AcceptedFrame(s, s', step.tid, s'.actors[step.tid]);
  }

  // ---------------------------------------------------------------- where states come from

  /** Everything on its way, cached or stored was accepted, or was in the store at the start. */
  ghost predicate OriginOk(s: Machine) {
    && (forall req :: req in s.ring ==> req.ToState() in s.accepted)
    && (forall t, req :: t in s.actors && req in Scratch(s.actors[t]) ==> req.ToState() in s.accepted)
    && (forall p :: p in s.cache ==> s.cache[p].state in s.accepted)
    && (forall t, st :: t in s.actors && st in Batch(s.actors[t]) ==> st in s.accepted)
    && (forall p :: p in s.store ==> s.store[p] in s.accepted || (p in s.base && s.base[p] == s.store[p]))
  }

  lemma OriginFrame(s: Machine, s': Machine, tid: nat, a: Actor)
    requires OriginOk(s) && tid in s.actors && s'.actors == s.actors[tid := a]
    requires s.accepted <= s'.accepted && s'.base == s.base
    requires forall req :: req in s'.ring || req in Scratch(a) ==>
               req in s.ring || req in Scratch(s.actors[tid]) || req.ToState() in s'.accepted
    requires forall p :: p in s'.cache ==> s'.cache[p].state in s'.accepted
    requires forall st :: st in Batch(a) ==> st in s'.accepted
    requires forall p :: p in s'.store ==> (p in s.store && s.store[p] == s'.store[p]) || s'.store[p] in s'.accepted
    ensures OriginOk(s')
  {
  }

  lemma {:induction false} SetAllOrigin(table: Store.Table, states: seq<PlayerState>)
    ensures var t := Store.SetAll(table, states);
            forall p :: p in t ==> (p in table && t[p] == table[p]) || t[p] in states
    decreases |states|
  {
    if states != [] {
      SetAllOrigin(table, states[..|states| - 1]);
    }
  }

  lemma OriginStep(mode: Mode, s: Machine, step: Step)
    requires CacheOk(s) && OriginOk(s) && Enabled(mode, s, step)
    ensures OriginOk(Next(mode, s, step))
  {
    hide OriginOk, CacheOk, Next, Enabled;
    if step.Crash? {
      OriginCrash(mode, s, step);
    } else if ByCaller(step) || step.AppendOk? {
      OriginCaller(mode, s, step);
    } else if step.TakeDirty? || step.Persist? || step.AppendFails? || step.GiveUp? {
      OriginBatch(mode, s, step);
    } else {
      OriginDrain(mode, s, step);
    }
  }

  lemma OriginCrash(mode: Mode, s: Machine, step: Step)
    requires Enabled(mode, s, step) && step.Crash?
    ensures OriginOk(Next(mode, s, step))
  {
    hide Log.Replay, Cache.Applied, Log.Highest;
    Log.ReplayMeaning(s.log + Writing(s.actors[step.tid])[..step.written]);
  }

  lemma OriginCaller(mode: Mode, s: Machine, step: Step)
    requires OriginOk(s) && Enabled(mode, s, step) && (ByCaller(step) || step.AppendOk?)
    ensures OriginOk(Next(mode, s, step))
  {
    var s' := Next(mode, s, step);
    OriginFrame(s, s', step.tid, s'.actors[step.tid]);
  }

  lemma OriginQuiet(s: Machine, s': Machine, tid: nat, a: Actor)
    requires OriginOk(s) && tid in s.actors && s'.actors == s.actors[tid := a]
    requires s'.ring == s.ring && s'.cache == s.cache && s'.store == s.store
    requires s'.accepted == s.accepted && s'.base == s.base
    requires Scratch(a) == [] || Scratch(a) == Scratch(s.actors[tid])
    requires Batch(a) == [] || Batch(a) == Batch(s.actors[tid])
    ensures OriginOk(s')
  {
  }

  lemma OriginMove(mode: Mode, s: Machine, step: Step)
    requires OriginOk(s) && Enabled(mode, s, step) && (step.Pop? || step.ApplyNext?)
    ensures OriginOk(Next(mode, s, step))
  {
    var s' := Next(mode, s, step);
    OriginFrame(s, s', step.tid, s'.actors[step.tid]);
  }

  lemma OriginDrain(mode: Mode, s: Machine, step: Step)
    requires OriginOk(s) && Enabled(mode, s, step)
    requires !step.Crash? && !ByCaller(step) && !step.AppendOk?
    requires !step.TakeDirty? && !step.Persist? && !step.AppendFails? && !step.GiveUp?
    ensures OriginOk(Next(mode, s, step))
  {
    hide OriginOk;
    if step.Pop? || step.ApplyNext? {
      OriginMove(mode, s, step);
    } else {
      var s' := Next(mode, s, step);
      OriginQuiet(s, s', step.tid, s'.actors[step.tid]);
    }
  }

  lemma OriginBatch(mode: Mode, s: Machine, step: Step)
    requires CacheOk(s) && OriginOk(s) && Enabled(mode, s, step)
    requires step.TakeDirty? || step.Persist? || step.AppendFails? || step.GiveUp?
    ensures OriginOk(Next(mode, s, step))
  {
    hide OriginOk, CacheOk, Next, Enabled;
    if step.TakeDirty? {
      OriginTake(mode, s, step);
    } else if step.Persist? {
      OriginPersist(mode, s, step);
    } else {
      OriginRequeue(mode, s, step);
    }
  }

  lemma OriginTake(mode: Mode, s: Machine, step: Step)
    requires CacheOk(s) && OriginOk(s) && Enabled(mode, s, step) && step.TakeDirty?
    ensures OriginOk(Next(mode, s, step))
  {
    var s' := Next(mode, s, step);
    TakenBatch(s.cache, step.ids);
    OriginFrame(s, s', step.tid, s'.actors[step.tid]);
  }

  lemma OriginPersist(mode: Mode, s: Machine, step: Step)
    requires CacheOk(s) && OriginOk(s) && Enabled(mode, s, step) && step.Persist?
    ensures OriginOk(Next(mode, s, step))
  {
    hide Store.UpsertedAll, Store.SetAll;
    var a := s.actors[step.tid];
    var s' := Next(mode, s, step);
    Store.UpsertMeaning(s.store, a.batch);
    SetAllOrigin(s.store, a.batch);
    OriginFrame(s, s', step.tid, s'.actors[step.tid]);
  }

  lemma OriginRequeue(mode: Mode, s: Machine, step: Step)
    requires CacheOk(s) && OriginOk(s) && Enabled(mode, s, step) && (step.AppendFails? || step.GiveUp?)
    ensures OriginOk(Next(mode, s, step))
  {
    hide OriginOk, CacheOk, Cache.Requeued;
    var s' := Next(mode, s, step);
    if step.AppendFails? && s.actors[step.tid].Registered? {
      OriginQuiet(s, s', step.tid, s'.actors[step.tid]);
    } else {
      OriginPutBack(s, step.tid);
    }
  }

  lemma OriginPutBack(s: Machine, tid: nat)
    requires CacheOk(s) && OriginOk(s) && tid in s.actors
    ensures OriginOk(Goto(Requeue(s, Batch(s.actors[tid])), tid, Idle))
  {
    hide Cache.Requeued;
    assert BatchOk(s.cache, s.actors[tid]);
    Cache.RequeueKeeps(s.cache, Batch(s.actors[tid]));
    OriginFrame(s, Goto(Requeue(s, Batch(s.actors[tid])), tid, Idle), tid, Idle);
  }

  // ---------------------------------------------------------------- the store since the start

  /** No row the store had at the last start has gone back. */
  ghost predicate BaseKept(s: Machine) {
    forall p :: p in s.base ==> Store.Covers(s.store, p, s.base[p].version)
  }

  lemma BaseStep(mode: Mode, s: Machine, step: Step)
    requires !mode.plainSet && CacheOk(s) && BaseKept(s) && Enabled(mode, s, step)
    ensures BaseKept(Next(mode, s, step))
  {
    if step.Persist? {
      hide Store.UpsertedAll, Store.SetAll;
      var t := Store.UpsertedAll(s.store, s.actors[step.tid].batch);
      Store.UpsertMeaning(s.store, s.actors[step.tid].batch);
      forall p | p in s.base ensures Store.Covers(t, p, s.base[p].version) {
        assert Store.Covers(t, p, s.store[p].version);
      }
    } else {
      BaseQuiet(mode, s, step);
    }
  }

  lemma BaseQuiet(mode: Mode, s: Machine, step: Step)
    requires BaseKept(s) && Enabled(mode, s, step) && !step.Persist?
    ensures BaseKept(Next(mode, s, step))
  {
    hide Log.Survivors, Cache.Requeued, Cache.Applied, Log.Highest, Log.Replay, Lsn.Watermark;
  }

  // ---------------------------------------------------------------- the theorems

  ghost predicate Inv(s: Machine) {
    CacheOk(s) && AllSettled(s) && AcceptedOk(s) && OriginOk(s) && BaseKept(s)
  }

  lemma InvStart(log: Log.Records, store: Store.Table, tids: set<nat>, durable: set<PlayerState>)
    requires Store.Keyed(store)
    ensures Inv(Started(log, store, tids, durable))
  {
    hide Log.Replay;
    Log.ReplayMeaning(log);
  }

  lemma InvStep(mode: Mode, s: Machine, step: Step)
    requires !mode.plainSet && Inv(s) && Enabled(mode, s, step)
    ensures Inv(Next(mode, s, step))
  {
    hide CacheOk, AllSettled, AcceptedOk, OriginOk, BaseKept, Next, Enabled;
    CacheStep(mode, s, step);
    SettledStep(mode, s, step);
    AcceptedStep(mode, s, step);
    OriginStep(mode, s, step);
    BaseStep(mode, s, step);
  }

  lemma {:induction false} InvRun(mode: Mode, s: Machine, steps: seq<Step>)
    requires !mode.plainSet && Inv(s) && IsRun(mode, s, steps)
    ensures Inv(After(mode, s, steps))
    decreases |steps|
  {
    hide Inv, Next, Enabled;
    if steps != [] {
      InvStep(mode, s, steps[0]);
      InvRun(mode, Next(mode, s, steps[0]), steps[1..]);
    }
  }

  /**
   Every accepted write is queued or popped, or its player's cached version is at least its own and
   is dirty, in some thread's batch, or matched by the store.
   */
  lemma NothingLostInMemory(mode: Mode, log: Log.Records, store: Store.Table, tids: set<nat>, steps: seq<Step>)
    requires !mode.plainSet && Store.Keyed(store)
    requires IsRun(mode, Started(log, store, tids, {}), steps)
    ensures var s := After(mode, Started(log, store, tids, {}), steps);
            forall st :: st in s.accepted ==>
              Queued(s, st) || (Cache.Covers(s.cache, st.playerId, st.version) && Settled(s, st.playerId))
  {
    InvStart(log, store, tids, {});
    InvRun(mode, Started(log, store, tids, {}), steps);
  }

  /** Ring drained, every thread between calls, nothing dirty. */
  ghost predicate AtRest(s: Machine) {
    && s.ring == []
    && (forall t :: t in s.actors ==> s.actors[t].Idle?)
    && Cache.DirtyIds(s.cache) == {}
  }

  /** At rest every accepted write is cached at its version or newer, settled, and so in the store. */
  lemma AcceptedStored(s: Machine)
    requires AllSettled(s) && AcceptedOk(s) && AtRest(s)
    ensures forall st :: st in s.accepted ==> Store.Covers(s.store, st.playerId, st.version)
  {
    forall st | st in s.accepted ensures Store.Covers(s.store, st.playerId, st.version) {
      var p := st.playerId;
      assert !Queued(s, st);
      assert Settled(s, p);
      assert s.cache[p].dirty ==> p in Cache.DirtyIds(s.cache);
    }
  }

  /**
   At rest the store has converged: it covers every accepted write and every row it had at the last
   start, and each of its rows is one of those.
   */
  lemma StoreConverges(mode: Mode, log: Log.Records, store: Store.Table, tids: set<nat>, steps: seq<Step>)
    requires !mode.plainSet && Store.Keyed(store)
    requires IsRun(mode, Started(log, store, tids, {}), steps)
    requires AtRest(After(mode, Started(log, store, tids, {}), steps))
    ensures var s := After(mode, Started(log, store, tids, {}), steps);
            && (forall st :: st in s.accepted ==> Store.Covers(s.store, st.playerId, st.version))
            && (forall p :: p in s.base ==> Store.Covers(s.store, p, s.base[p].version))
            && (forall p :: p in s.store ==> s.store[p] in s.accepted || (p in s.base && s.base[p] == s.store[p]))
  {
    InvStart(log, store, tids, {});
    InvRun(mode, Started(log, store, tids, {}), steps);
    AcceptedStored(After(mode, Started(log, store, tids, {}), steps));
  }

  /** The accepted writes of player `p`, and the row `p` had at the last start. */
  ghost predicate Known(s: Machine, p: nat, st: PlayerState) {
    (st in s.accepted && st.playerId == p) || (p in s.base && s.base[p] == st)
  }

  /**
   At rest, whatever log and store any number of starts found: a player has a row if and only if a
   write of its was accepted or it had a row at the last start, and the row is one of these with the
   highest version among all of them.
   */
  lemma StoreIsNewest(mode: Mode, log: Log.Records, store: Store.Table, tids: set<nat>, steps: seq<Step>, p: nat)
    requires !mode.plainSet && Store.Keyed(store) && IsRun(mode, Started(log, store, tids, {}), steps)
    requires AtRest(After(mode, Started(log, store, tids, {}), steps))
    ensures var s := After(mode, Started(log, store, tids, {}), steps);
            && (p in s.store <==> exists st :: Known(s, p, st))
            && (p in s.store ==>
                  && s.store[p].playerId == p && Known(s, p, s.store[p])
                  && forall st :: Known(s, p, st) ==> st.version <= s.store[p].version)
  {
    InvStart(log, store, tids, {});
    InvRun(mode, Started(log, store, tids, {}), steps);
    var s := After(mode, Started(log, store, tids, {}), steps);
    StoreConverges(mode, log, store, tids, steps);
    forall st | Known(s, p, st) ensures p in s.store && st.version <= s.store[p].version {
      if st in s.accepted && st.playerId == p {
        assert Store.Covers(s.store, p, st.version);
      } else {
        assert Store.Covers(s.store, p, s.base[p].version);
      }
    }
    if p in s.store {
      assert Known(s, p, s.store[p]);
    }
  }
}
