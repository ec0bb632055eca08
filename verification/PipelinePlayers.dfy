/**
 Who is written.  When the players of the log and of all submits lie in a set, so does everything in the
 pipeline; and when that set fits one batch, every `take_dirty` takes the whole dirty set.
 */
module PipelinePlayers {
  import opened Domain
  import opened Prelude
  import opened Pipeline
  import Cache
  import Log
  import Lsn
  import Store

  ghost predicate LogAllowed(mode: Mode, log: Log.Records) {
    forall r :: r in log ==> Allowed(mode, r.playerId)
  }

  ghost predicate BatchAllowed(mode: Mode, states: seq<PlayerState>) {
    forall st :: st in states ==> Allowed(mode, st.playerId)
  }

  ghost predicate CacheAllowed(mode: Mode, m: Cache.Entries) {
    forall p :: p in m ==> Allowed(mode, p) && Allowed(mode, m[p].state.playerId)
  }

  ghost predicate ActorAllowed(mode: Mode, a: Actor) {
    && (forall req :: req in InHand(a) ==> Allowed(mode, req.playerId))
    && (a.Allocated? || a.Registered? || a.Failed? || a.Logged? ==> Allowed(mode, a.rec.playerId))
    && BatchAllowed(mode, Batch(a))
  }

  ghost predicate Confined(mode: Mode, s: Machine) {
    && (forall req :: req in s.ring ==> Allowed(mode, req.playerId))
    && CacheAllowed(mode, s.cache) && LogAllowed(mode, s.log)
    && (forall r :: r in s.appended ==> Allowed(mode, r.playerId))
    && (forall w :: w in s.durable || w in s.accepted ==> Allowed(mode, w.playerId))
    && (forall t :: t in s.actors ==> ActorAllowed(mode, s.actors[t]))
  }

  lemma {:induction false} ReplayAllowed(mode: Mode, log: Log.Records)
    requires LogAllowed(mode, log)
    ensures CacheAllowed(mode, Log.Replay(log))
    decreases |log|
  {
    if log != [] {
      ReplayAllowed(mode, log[..|log| - 1]);
    }
  }

  lemma {:induction false} RequeuedAllowed(mode: Mode, m: Cache.Entries, states: seq<PlayerState>)
    requires CacheAllowed(mode, m) && BatchAllowed(mode, states)
    ensures CacheAllowed(mode, Cache.Requeued(m, states))
    decreases |states|
  {
    if states != [] {
      RequeuedAllowed(mode, m, states[..|states| - 1]);
      assert states[|states| - 1] in states;
    }
  }

  lemma StartConfined(mode: Mode, log: Log.Records, store: Store.Table, tids: set<nat>)
    requires LogAllowed(mode, log)
    ensures Confined(mode, Started(log, store, tids, {}))
  {
    hide Log.Replay;
    ReplayAllowed(mode, log);
  }

  lemma ConfinedFrame(mode: Mode, s: Machine, s': Machine, tid: nat, a: Actor)
    requires Confined(mode, s) && tid in s.actors && s'.actors == s.actors[tid := a] && ActorAllowed(mode, a)
    requires forall req :: req in s'.ring ==> Allowed(mode, req.playerId)
    requires CacheAllowed(mode, s'.cache) && LogAllowed(mode, s'.log)
    requires forall r :: r in s'.appended ==> Allowed(mode, r.playerId)
    requires forall w :: w in s'.durable || w in s'.accepted ==> Allowed(mode, w.playerId)
    ensures Confined(mode, s')
  {
  }

  lemma ConfinedStep(mode: Mode, s: Machine, step: Step)
    requires Confined(mode, s) && Enabled(mode, s, step)
    ensures Confined(mode, Next(mode, s, step))
  {
    hide Confined, Next;
    if step.Crash? {
      ConfinedCrash(mode, s, step);
    } else if ByCaller(step) {
      ConfinedCaller(mode, s, step);
    } else if step.AppendOk? {
      ConfinedAppend(mode, s, step);
    } else if step.TakeDirty? {
      ConfinedTake(mode, s, step);
    } else if step.ApplyNext? || step.GiveUp? || step.AppendFails? {
      ConfinedCache(mode, s, step);
    } else {
      ConfinedRest(mode, s, step);
    }
  }

  lemma WritingAllowed(mode: Mode, a: Actor)
    requires ActorAllowed(mode, a)
    ensures LogAllowed(mode, Writing(a))
  {
    if a.Stamped? {
      forall r | r in Writing(a) ensures Allowed(mode, r.playerId) {
        var i :| 0 <= i < |Writing(a)| && Writing(a)[i] == r;
        assert a.batch[i] in Batch(a);
      }
    }
  }

  lemma ConfinedCrash(mode: Mode, s: Machine, step: Step)
    requires Confined(mode, s) && Enabled(mode, s, step) && step.Crash?
    ensures Confined(mode, Next(mode, s, step))
  {
    hide Log.Replay, Log.Highest;
    WritingAllowed(mode, s.actors[step.tid]);
    var more := Writing(s.actors[step.tid])[..step.written];
    assert forall r :: r in more ==> r in Writing(s.actors[step.tid]);
    ReplayAllowed(mode, s.log + more);
  }

  lemma ConfinedCaller(mode: Mode, s: Machine, step: Step)
    requires Confined(mode, s) && Enabled(mode, s, step) && ByCaller(step)
    ensures Confined(mode, Next(mode, s, step))
  {
    var s' := Next(mode, s, step);
    assert ActorAllowed(mode, s.actors[step.tid]);
    ConfinedFrame(mode, s, s', step.tid, s'.actors[step.tid]);
  }

  lemma ConfinedAppend(mode: Mode, s: Machine, step: Step)
    requires Confined(mode, s) && Enabled(mode, s, step) && step.AppendOk?
    ensures Confined(mode, Next(mode, s, step))
  {
    hide Log.Highest, RecordsOf;
    var s' := Next(mode, s, step);
    WritingAllowed(mode, s.actors[step.tid]);
    ConfinedFrame(mode, s, s', step.tid, s'.actors[step.tid]);
  }

  lemma ConfinedTake(mode: Mode, s: Machine, step: Step)
    requires Confined(mode, s) && Enabled(mode, s, step) && step.TakeDirty?
    ensures Confined(mode, Next(mode, s, step))
  {
    hide StatesOf, Confined;
    var s' := Next(mode, s, step);
    ActorsAllowed(mode, s, step.tid);
    StatesAllowed(mode, s.cache, step.ids);
    ConfinedFrame(mode, s, s', step.tid, s'.actors[step.tid]);
  }

  lemma ConfinedCache(mode: Mode, s: Machine, step: Step)
    requires Confined(mode, s) && Enabled(mode, s, step) && (step.ApplyNext? || step.GiveUp? || step.AppendFails?)
    ensures Confined(mode, Next(mode, s, step))
  {
    hide Cache.Requeued, Confined;
    var s' := Next(mode, s, step);
    ActorsAllowed(mode, s, step.tid);
    RequeuedAllowed(mode, s.cache, Batch(s.actors[step.tid]));
    ConfinedFrame(mode, s, s', step.tid, s'.actors[step.tid]);
  }

  lemma ActorsAllowed(mode: Mode, s: Machine, tid: nat)
    requires Confined(mode, s) && tid in s.actors
    ensures ActorAllowed(mode, s.actors[tid]) && CacheAllowed(mode, s.cache) && LogAllowed(mode, s.log)
    ensures forall req :: req in s.ring ==> Allowed(mode, req.playerId)
    ensures forall r :: r in s.appended ==> Allowed(mode, r.playerId)
    ensures forall w :: w in s.durable || w in s.accepted ==> Allowed(mode, w.playerId)
  {
  }

  lemma StatesAllowed(mode: Mode, m: Cache.Entries, ids: seq<nat>)
    requires CacheAllowed(mode, m) && forall id :: id in ids ==> id in m
    ensures BatchAllowed(mode, StatesOf(m, ids))
  {
    forall st | st in StatesOf(m, ids) ensures Allowed(mode, st.playerId) {
      var i :| 0 <= i < |ids| && StatesOf(m, ids)[i] == st;
      assert ids[i] in ids;
    }
  }

  lemma ConfinedRest(mode: Mode, s: Machine, step: Step)
    requires Confined(mode, s) && Enabled(mode, s, step) && !step.Crash? && !ByCaller(step) && !step.AppendOk?
    requires !step.TakeDirty? && !step.ApplyNext? && !step.GiveUp? && !step.AppendFails?
    ensures Confined(mode, Next(mode, s, step))
  {
    hide Confined, Next;
    ActorsAllowed(mode, s, step.tid);
    if step.Checkpoint? || step.Clamp? {
      ConfinedCut(mode, s, step);
    } else {
      ConfinedMove(mode, s, step);
    }
  }

  lemma ConfinedCut(mode: Mode, s: Machine, step: Step)
    requires Confined(mode, s) && Enabled(mode, s, step) && (step.Checkpoint? || step.Clamp?)
    ensures Confined(mode, Next(mode, s, step))
  {
    hide Log.Survivors, Log.Highest, Lsn.Watermark, Confined;
    var s' := Next(mode, s, step);
    if s'.log == s.log {
      ConfinedShorter(mode, s, s', step.tid);
    } else if step.Checkpoint? {
      Log.SurvivorsMeaning(s.log, s.actors[step.tid].upTo);
      ConfinedShorter(mode, s, s', step.tid);
    } else {
      Log.SurvivorsMeaning(s.log, Lsn.Watermark(s.pending, s.actors[step.tid].proposed).value);
      ConfinedShorter(mode, s, s', step.tid);
    }
  }

  lemma ConfinedShorter(mode: Mode, s: Machine, s': Machine, tid: nat)
    requires Confined(mode, s) && tid in s.actors && tid in s'.actors
    requires s'.actors == s.actors[tid := s'.actors[tid]] && (s'.actors[tid].Idle? || s'.actors[tid].Clamped?)
    requires s'.ring == s.ring && s'.cache == s.cache && s'.appended == s.appended
    requires s'.durable == s.durable && s'.accepted == s.accepted && forall r :: r in s'.log ==> r in s.log
    ensures Confined(mode, s')
  {
    ConfinedFrame(mode, s, s', tid, s'.actors[tid]);
  }

  lemma ConfinedMove(mode: Mode, s: Machine, step: Step)
    requires Confined(mode, s) && Enabled(mode, s, step)
    requires step.Pop? || step.NoteDrained? || step.Stamp? || step.Persist? || step.SkipCheckpoint?
    ensures Confined(mode, Next(mode, s, step))
  {
    hide Store.UpsertedAll, Store.SetAll, Confined;
    ActorsAllowed(mode, s, step.tid);
    var s' := Next(mode, s, step);
    ConfinedFrame(mode, s, s', step.tid, s'.actors[step.tid]);
  }

  lemma {:induction false} ConfinedRun(mode: Mode, s: Machine, steps: seq<Step>)
    requires Confined(mode, s) && IsRun(mode, s, steps)
    ensures Confined(mode, After(mode, s, steps))
    decreases |steps|
  {
    hide Confined, Next, Enabled;
    if steps != [] {
      ConfinedStep(mode, s, steps[0]);
      ConfinedRun(mode, Next(mode, s, steps[0]), steps[1..]);
    }
  }

  // ---------------------------------------------------------------- a set that fits one batch

  function Whole(mode: Mode): Mode {
    mode.(wholeDirty := true)
  }

  ghost predicate Fits(mode: Mode) {
    mode.players.Some? && |mode.players.value| <= mode.batchMax
  }

  /** As many distinct members as a set has are all of it. */
  lemma {:induction false} AllTaken(ids: seq<nat>, from: set<nat>)
    requires forall i, j :: 0 <= i < j < |ids| ==> ids[i] != ids[j]
    requires (forall id :: id in ids ==> id in from) && |ids| >= |from|
    ensures forall id :: id in from ==> id in ids
    decreases |ids|
  {
    if ids != [] {
      var init, last := ids[..|ids| - 1], ids[|ids| - 1];
      assert last in ids && forall id :: id in init ==> id in ids;
      AllTaken(init, from - {last});
    }
  }

  lemma SubsetCount(a: set<nat>, b: set<nat>)
    requires a <= b
    ensures |a| <= |b|
  {
    assert b == a + (b - a);
  }

  lemma TakesAll(mode: Mode, s: Machine, step: Step)
    requires Fits(mode) && Confined(mode, s) && Enabled(mode, s, step) && step.TakeDirty?
    ensures forall id :: id in Cache.DirtyIds(s.cache) ==> id in step.ids
  {
    SubsetCount(Cache.DirtyIds(s.cache), mode.players.value);
    AllTaken(step.ids, Cache.DirtyIds(s.cache));
  }

  /** A step is possible exactly as if every take had to be whole, and does the same. */
  lemma WholeStep(mode: Mode, s: Machine, step: Step)
    requires Fits(mode) && Confined(mode, s) && Enabled(mode, s, step)
    ensures Enabled(Whole(mode), s, step) && Next(Whole(mode), s, step) == Next(mode, s, step)
  {
    if step.TakeDirty? {
      TakesAll(mode, s, step);
    }
    SameSteps(mode, s, step);
  }

  lemma SameSteps(mode: Mode, s: Machine, step: Step)
    requires Enabled(mode, s, step) && Enabled(Whole(mode), s, step)
    ensures Next(Whole(mode), s, step) == Next(mode, s, step)
  {
    hide Enabled, Store.UpsertedAll, Store.SetAll, Log.Survivors, Log.Highest, Log.Replay, Cache.Requeued,
      Cache.Applied, Cache.Cleaned, Lsn.Watermark;
  }

  /** With at most `flush_max_batch` players, every run takes whole dirty sets. */
  lemma {:induction false} WholeRun(mode: Mode, s: Machine, steps: seq<Step>)
    requires Fits(mode) && Confined(mode, s) && IsRun(mode, s, steps)
    ensures IsRun(Whole(mode), s, steps) && After(Whole(mode), s, steps) == After(mode, s, steps)
    decreases |steps|
  {
    hide Confined, Next, Enabled;
    if steps != [] {
      ConfinedStep(mode, s, steps[0]);
      WholeStep(mode, s, steps[0]);
      WholeRun(mode, Next(mode, s, steps[0]), steps[1..]);
    }
  }
}
