/**
 Every hypothesis is needed.  Short runs lose a durable write as soon as one of them is dropped, so
 the floor and the durability theorem hold in exactly the modes they are proved for.
 */
module PipelineWitness {
  import opened Prelude
  import opened Domain
  import opened Pipeline
  import Cache
  import Durability = PipelineDurability
  import EitherStore = PipelineSet
  import Floor = PipelineFloor
  import Log
  import Lsn
  import Players = PipelinePlayers
  import Store

  // ---------------------------------------------------------------- building runs

  ghost predicate Reaches(mode: Mode, s: Machine, s': Machine) {
    exists steps :: IsRun(mode, s, steps) && After(mode, s, steps) == s'
  }

  lemma {:induction false} Concat(mode: Mode, s: Machine, a: seq<Step>, b: seq<Step>)
    requires IsRun(mode, s, a) && IsRun(mode, After(mode, s, a), b)
    ensures IsRun(mode, s, a + b) && After(mode, s, a + b) == After(mode, After(mode, s, a), b)
    decreases |a|
  {
    hide Enabled, Next;
    if a == [] {
      assert a + b == b;
    } else {
      Concat(mode, Next(mode, s, a[0]), a[1..], b);
      assert (a + b)[1..] == a[1..] + b;
    }
  }

  lemma Then(mode: Mode, s: Machine, s1: Machine, s2: Machine)
    requires Reaches(mode, s, s1) && Reaches(mode, s1, s2)
    ensures Reaches(mode, s, s2)
  {
    var a :| IsRun(mode, s, a) && After(mode, s, a) == s1;
    var b :| IsRun(mode, s1, b) && After(mode, s1, b) == s2;
    Concat(mode, s, a, b);
  }

  lemma OneStep(mode: Mode, s: Machine, step: Step)
    requires Enabled(mode, s, step)
    ensures Reaches(mode, s, Next(mode, s, step))
  {
    assert IsRun(mode, Next(mode, s, step), []);
    assert [step][1..] == [];
    assert IsRun(mode, s, [step]) && After(mode, s, [step]) == Next(mode, s, step);
  }

  ghost predicate IdleAt(s: Machine, tid: nat) {
    tid in s.actors && s.actors[tid].Idle?
  }

  /** `submit` accepted by the ring. */
  function WithPlain(s: Machine, p: nat, v: nat): Machine {
    Accept(s, WriteRequest(p, v, [], s.next)).(next := s.next + 1)
  }

  lemma PlainWrite(mode: Mode, s: Machine, tid: nat, p: nat, v: nat)
    requires IdleAt(s, tid) && |s.ring| < mode.ringCap && Allowed(mode, p)
    ensures Reaches(mode, s, WithPlain(s, p, v))
  {
    var s1 := Next(mode, s, Submit(tid, p, v, []));
    OneStep(mode, s, Submit(tid, p, v, []));
    OneStep(mode, s1, Offer(tid, true));
    var s2 := Next(mode, s1, Offer(tid, true));
    assert s2.actors == s.actors;
    assert s2 == WithPlain(s, p, v);
    Then(mode, s, s1, s2);
  }

  /** The append of a `submit_durable`, up to but excluding its enqueue. */
  function WithDurable(s: Machine, tid: nat, p: nat, v: nat): Machine
    requires tid in s.actors
  {
    var rec := WalRecord(s.next, p, v, []);
    var s1 := Goto(s, tid, Registered(rec)).(next := s.next + 1, pending := s.pending + {rec.lsn});
    DurableAppended(s1, tid)
  }

  lemma DurableWrite(mode: Mode, s: Machine, tid: nat, p: nat, v: nat)
    requires IdleAt(s, tid) && Allowed(mode, p)
    ensures Reaches(mode, s, WithDurable(s, tid, p, v))
  {
    var rec := WalRecord(s.next, p, v, []);
    var reg := Goto(s, tid, Registered(rec)).(next := s.next + 1, pending := s.pending + {rec.lsn});
    var s1 := Next(mode, s, SubmitDurable(tid, p, v, []));
    OneStep(mode, s, SubmitDurable(tid, p, v, []));
    if !mode.atomicRegister {
      OneStep(mode, s1, Register(tid));
      assert Next(mode, s1, Register(tid)) == reg;
      Then(mode, s, s1, reg);
    }
    OneStep(mode, reg, AppendOk(tid));
    Then(mode, s, reg, DurableAppended(reg, tid));
  }

  /** `tid` pops the only request in the ring and notes it drained. */
  function HeadNoted(s: Machine, tid: nat): Machine
    requires |s.ring| == 1
  {
    Goto(s, tid, Noted([s.ring[0]])).(ring := [], pending := s.pending - {s.ring[0].seqNo})
  }

  lemma NoteHead(mode: Mode, s: Machine, tid: nat)
    requires IdleAt(s, tid) && MayFlush(mode, tid) && |s.ring| == 1
    ensures Reaches(mode, s, HeadNoted(s, tid))
  {
    var s1 := Next(mode, s, Pop(tid));
    OneStep(mode, s, Pop(tid));
    OneStep(mode, s1, NoteDrained(tid));
    var s2 := Next(mode, s1, NoteDrained(tid));
    assert s.ring[1..] == [] && [] + [s.ring[0]] == [s.ring[0]];
    assert s2 == HeadNoted(s, tid);
    Then(mode, s, s1, s2);
  }

  function HeadDrained(s: Machine): Machine
    requires |s.ring| == 1
  {
    s.(ring := [], pending := s.pending - {s.ring[0].seqNo}, cache := Cache.Applied(s.cache, s.ring[0]))
  }

  lemma DrainHead(mode: Mode, s: Machine, tid: nat)
    requires IdleAt(s, tid) && MayFlush(mode, tid) && |s.ring| == 1
    ensures Reaches(mode, s, HeadDrained(s))
  {
    NoteHead(mode, s, tid);
    var s1 := HeadNoted(s, tid);
    OneStep(mode, s1, ApplyNext(tid));
    var s2 := Next(mode, s1, ApplyNext(tid));
    assert s2.actors == s.actors;
    assert s2 == HeadDrained(s);
    Then(mode, s, s1, s2);
  }

  /** `tid` may take exactly `ids` now. */
  ghost predicate CanTake(mode: Mode, s: Machine, tid: nat, ids: seq<nat>) {
    && IdleAt(s, tid) && MayFlush(mode, tid)
    && ids != [] && (forall i, j :: 0 <= i < j < |ids| ==> ids[i] != ids[j])
    && (forall id :: id in ids ==> id in Cache.DirtyIds(s.cache))
    && |ids| == Min(mode.batchMax, |Cache.DirtyIds(s.cache)|)
    && (mode.wholeDirty ==> forall id :: id in Cache.DirtyIds(s.cache) ==> id in ids)
  }

  function Proposal(s: Machine, batch: seq<PlayerState>): nat {
    Max(s.lastLsn, Log.Highest(RecordsOf(batch, s.next)))
  }

  /** A flush by `tid` that took `batch`, up to the store call. */
  function Flushed(mode: Mode, s: Machine, tid: nat, ids: seq<nat>, batch: seq<PlayerState>): Machine {
    Goto(s, tid, Persisted(Proposal(s, batch))).(
      next := s.next + |batch|,
      cache := Cache.Cleaned(s.cache, set id | id in ids),
      log := s.log + RecordsOf(batch, s.next),
      lastLsn := Proposal(s, batch),
      store := if mode.plainSet then Store.SetAll(s.store, batch) else Store.UpsertedAll(s.store, batch))
  }

  lemma TakeAndStamp(mode: Mode, s: Machine, tid: nat, ids: seq<nat>)
    requires CanTake(mode, s, tid, ids)
    ensures var batch := StatesOf(s.cache, ids);
            Reaches(mode, s, Goto(s, tid, Stamped(batch, s.next)).(
              next := s.next + |batch|, cache := Cache.Cleaned(s.cache, set id | id in ids)))
  {
    var batch := StatesOf(s.cache, ids);
    var s1 := Next(mode, s, TakeDirty(tid, ids));
    OneStep(mode, s, TakeDirty(tid, ids));
    OneStep(mode, s1, Stamp(tid));
    var s2 := Next(mode, s1, Stamp(tid));
    assert s2 == Goto(s, tid, Stamped(batch, s.next)).(
      next := s.next + |batch|, cache := Cache.Cleaned(s.cache, set id | id in ids));
    Then(mode, s, s1, s2);
  }

  lemma AppendBatch(mode: Mode, s: Machine, tid: nat)
    requires tid in s.actors && s.actors[tid].Stamped?
    ensures Reaches(mode, s, BatchAppended(s, tid))
  {
    OneStep(mode, s, AppendOk(tid));
  }

  lemma AppendAndPersist(mode: Mode, s: Machine, tid: nat, batch: seq<PlayerState>, first: nat)
    requires tid in s.actors && s.actors[tid] == Stamped(batch, first)
    ensures var records := RecordsOf(batch, first);
            var high := Max(s.lastLsn, Log.Highest(records));
            Reaches(mode, s, Goto(s, tid, Persisted(high)).(
              log := s.log + records, lastLsn := high,
              store := if mode.plainSet then Store.SetAll(s.store, batch) else Store.UpsertedAll(s.store, batch)))
  {
    hide Reaches, Store.UpsertedAll, Store.SetAll, Log.Highest;
    OneStep(mode, s, AppendOk(tid));
    var s1 := BatchAppended(s, tid);
    OneStep(mode, s1, Persist(tid));
    var s2 := Next(mode, s1, Persist(tid));
    Then(mode, s, s1, s2);
    var records := RecordsOf(batch, first);
    var high := Max(s.lastLsn, Log.Highest(records));
    assert s2 == Goto(s, tid, Persisted(high)).(
      log := s.log + records, lastLsn := high,
      store := if mode.plainSet then Store.SetAll(s.store, batch) else Store.UpsertedAll(s.store, batch));
  }

  lemma FlushToStore(mode: Mode, s: Machine, tid: nat, ids: seq<nat>)
    requires CanTake(mode, s, tid, ids)
    ensures Reaches(mode, s, Flushed(mode, s, tid, ids, StatesOf(s.cache, ids)))
  {
    hide Store.UpsertedAll, Store.SetAll, Log.Highest, RecordsOf, Cache.Cleaned, StatesOf;
    var batch := StatesOf(s.cache, ids);
    var s1 := Goto(s, tid, Stamped(batch, s.next)).(
      next := s.next + |batch|, cache := Cache.Cleaned(s.cache, set id | id in ids));
    TakeAndStamp(mode, s, tid, ids);
    AppendAndPersist(mode, s1, tid, batch, s.next);
    var s2 := Flushed(mode, s, tid, ids, batch);
    assert s2.actors == s1.actors[tid := Persisted(Proposal(s, batch))];
    hide Reaches;
    Then(mode, s, s1, s2);
  }

  lemma FinishFlush(mode: Mode, s: Machine, tid: nat)
    requires tid in s.actors && s.actors[tid].Persisted? && s.pending == {}
    ensures Reaches(mode, s, Goto(Checkpointed(s, s.actors[tid].proposed), tid, Idle))
  {
    var upTo := s.actors[tid].proposed;
    assert Lsn.Watermark({}, upTo) == Some(upTo);
    var s1 := Next(mode, s, Clamp(tid));
    OneStep(mode, s, Clamp(tid));
    if !mode.atomicCheckpoint {
      OneStep(mode, s1, Checkpoint(tid));
      var s2 := Next(mode, s1, Checkpoint(tid));
      assert s2 == Goto(Checkpointed(s, upTo), tid, Idle);
      Then(mode, s, s1, s2);
    }
  }

  /** Checkpointing at the high-water mark empties the log. */
  lemma {:induction false} NothingSurvives(log: Log.Records, upTo: nat)
    requires forall r :: r in log ==> r.lsn <= upTo
    ensures Log.Survivors(log, upTo) == []
  {
    Log.SurvivorsMeaning(log, upTo);
    if Log.Survivors(log, upTo) != [] {
      assert Log.Survivors(log, upTo)[0] in Log.Survivors(log, upTo);
    }
  }

  /** A flush of the only dirty player, up to the store call. */
  function FlushedOne(s: Machine, tid: nat, p: nat): Machine
    requires p in s.cache
  {
    var st := s.cache[p].state;
    var high := Max(s.lastLsn, s.next);
    Goto(s, tid, Persisted(high)).(
      next := s.next + 1, cache := s.cache[p := Cache.Entry(st, false)],
      log := s.log + [WalRecord(s.next, st.playerId, st.version, st.blob)], lastLsn := high,
      store := s.store[st.playerId := st])
  }

  lemma FlushOne(mode: Mode, s: Machine, tid: nat, p: nat)
    requires IdleAt(s, tid) && MayFlush(mode, tid) && mode.batchMax >= 1
    requires Cache.DirtyIds(s.cache) == {p}
    requires var st := s.cache[p].state;
             mode.plainSet || st.playerId !in s.store || s.store[st.playerId].version <= st.version
    ensures Reaches(mode, s, FlushedOne(s, tid, p))
  {
    var st := s.cache[p].state;
    assert p in Cache.DirtyIds(s.cache);
    FlushToStore(mode, s, tid, [p]);
    assert StatesOf(s.cache, [p]) == [st];
    var r := WalRecord(s.next, st.playerId, st.version, st.blob);
    assert RecordsOf([st], s.next) == [r];
    OneRecord(r);
    OneRow(s.store, st);
    assert Cache.Cleaned(s.cache, set id | id in [p]) == s.cache[p := Cache.Entry(st, false)];
    assert Flushed(mode, s, tid, [p], [st]) == FlushedOne(s, tid, p);
  }

  lemma OneRecord(r: WalRecord)
    ensures Log.Highest([r]) == r.lsn
  {
    assert [r][..0] == [];
  }

  lemma OneRow(table: Store.Table, st: PlayerState)
    ensures Store.SetAll(table, [st]) == table[st.playerId := st]
    ensures Store.UpsertedAll(table, [st]) == Store.Upserted(table, st)
  {
    assert [st][..0] == [];
  }

  lemma Allocate(mode: Mode, s: Machine, tid: nat, p: nat, v: nat)
    requires !mode.atomicRegister && IdleAt(s, tid) && Allowed(mode, p)
    ensures Reaches(mode, s, Goto(s, tid, Allocated(WalRecord(s.next, p, v, []))).(next := s.next + 1))
  {
    OneStep(mode, s, SubmitDurable(tid, p, v, []));
  }

  lemma RegisterAndAppend(mode: Mode, s: Machine, tid: nat)
    requires tid in s.actors && s.actors[tid].Allocated?
    ensures var rec := s.actors[tid].rec;
            Reaches(mode, s, DurableAppended(Goto(s, tid, Registered(rec)).(pending := s.pending + {rec.lsn}), tid))
  {
    OneStep(mode, s, Register(tid));
    var s1 := Next(mode, s, Register(tid));
    OneStep(mode, s1, AppendOk(tid));
    Then(mode, s, s1, DurableAppended(s1, tid));
  }

  lemma ReadWatermark(mode: Mode, s: Machine, tid: nat)
    requires !mode.atomicCheckpoint && tid in s.actors && s.actors[tid].Persisted? && s.pending == {}
    ensures Reaches(mode, s, Goto(s, tid, Clamped(s.actors[tid].proposed)))
  {
    assert Lsn.Watermark({}, s.actors[tid].proposed) == Some(s.actors[tid].proposed);
    OneStep(mode, s, Clamp(tid));
  }

  lemma DoCheckpoint(mode: Mode, s: Machine, tid: nat)
    requires tid in s.actors && s.actors[tid].Clamped?
    ensures Reaches(mode, s, Goto(Checkpointed(s, s.actors[tid].upTo), tid, Idle))
  {
    OneStep(mode, s, Checkpoint(tid));
  }

  /** A whole flush of the only dirty player when nothing is pending: the log ends up empty. */
  function FlushedAway(s: Machine, p: nat): Machine
    requires p in s.cache
  {
    var st := s.cache[p].state;
    s.(next := s.next + 1, cache := s.cache[p := Cache.Entry(st, false)],
       log := [], lastLsn := Max(s.lastLsn, s.next), store := s.store[st.playerId := st])
  }

  lemma FlushAway(mode: Mode, s: Machine, tid: nat, p: nat)
    requires IdleAt(s, tid) && MayFlush(mode, tid) && mode.batchMax >= 1 && s.pending == {}
    requires Cache.DirtyIds(s.cache) == {p}
    requires forall r :: r in s.log ==> r.lsn <= s.lastLsn
    requires var st := s.cache[p].state;
             mode.plainSet || st.playerId !in s.store || s.store[st.playerId].version <= st.version
    ensures p in s.cache && Reaches(mode, s, FlushedAway(s, p))
  {
    assert p in Cache.DirtyIds(s.cache);
    FlushOne(mode, s, tid, p);
    var s1 := FlushedOne(s, tid, p);
    FinishFlush(mode, s1, tid);
    var high := Max(s.lastLsn, s.next);
    var s2 := Goto(Checkpointed(s1, high), tid, Idle);
    NothingSurvives(s1.log, high);
    assert s2.actors == s.actors;
    assert s2 == FlushedAway(s, p);
    Then(mode, s, s1, s2);
  }

  // ---------------------------------------------------------------- both calls split

  /** Version 1 of a player has been submitted and drained. */
  lemma PlainDrained(mode: Mode, p: nat) returns (s: Machine)
    requires mode.ringCap >= 1 && Allowed(mode, p)
    ensures Reaches(mode, Fresh({0, 1, 2}), s)
    ensures s.actors == map[0 := Idle, 1 := Idle, 2 := Idle]
    ensures s.cache == map[p := Cache.Entry(PlayerState(p, 1, []), true)]
    ensures s.next == 2 && s.pending == {} && s.ring == [] && s.log == [] && s.lastLsn == 0
    ensures s.store == map[] && s.appended == {} && s.durable == {}
  {
    var s0 := Fresh({0, 1, 2});
    PlainWrite(mode, s0, 2, p, 1);
    var s1 := WithPlain(s0, p, 1);
    DrainHead(mode, s1, 0);
    s := HeadDrained(s1);
    Then(mode, s0, s1, s);
  }

  /** Thread 1 has drawn LSN 2; thread 0 has persisted a batch at LSN 3. */
  lemma FlushBesideAllocated(mode: Mode, p: nat) returns (s: Machine)
    requires !mode.atomicRegister && mode.ringCap >= 1 && mode.batchMax >= 1 && Allowed(mode, p)
    ensures Reaches(mode, Fresh({0, 1, 2}), s)
    ensures s.actors == map[0 := Persisted(3), 1 := Allocated(WalRecord(2, p, 2, [])), 2 := Idle]
    ensures s.pending == {} && s.log == [WalRecord(3, p, 1, [])] && s.lastLsn == 3
    ensures s.store == map[p := PlayerState(p, 1, [])] && s.appended == {} && s.durable == {}
  {
    hide Reaches, Next, Fresh;
    var s0 := Fresh({0, 1, 2});
    var s2 := PlainDrained(mode, p);
    Allocate(mode, s2, 1, p, 2);
    var s3 := Goto(s2, 1, Allocated(WalRecord(s2.next, p, 2, []))).(next := s2.next + 1);
    Then(mode, s0, s2, s3);
    assert Cache.DirtyIds(s3.cache) == {p};
    FlushOne(mode, s3, 0, p);
    s := FlushedOne(s3, 0, p);
    Then(mode, s0, s3, s);
  }

  /**
   `alloc`, the worker's flush and its watermark, `note_pending` and the append, then the checkpoint
   with the stale watermark: the pending record is discarded, and its ring copy may be shed.
   */
  lemma LateRegistration(mode: Mode, p: nat) returns (s: Machine)
    requires !Floor.Guarded(mode) && mode.ringCap >= 1 && mode.batchMax >= 1 && Allowed(mode, p)
    ensures Reaches(mode, Fresh({0, 1, 2}), s)
    ensures !Floor.PendingInLog(s) && !Durability.AllCovered(s)
  {
    hide Reaches;
    var s0 := Fresh({0, 1, 2});
    var s4 := FlushBesideAllocated(mode, p);
    ReadWatermark(mode, s4, 0);
    var s5 := Goto(s4, 0, Clamped(3));
    Then(mode, s0, s4, s5);
    RegisterAndAppend(mode, s5, 1);
    var rec := WalRecord(2, p, 2, []);
    var s7 := DurableAppended(Goto(s5, 1, Registered(rec)).(pending := s5.pending + {rec.lsn}), 1);
    Then(mode, s0, s5, s7);
    DoCheckpoint(mode, s7, 0);
    s := Goto(Checkpointed(s7, 3), 0, Idle);
    Then(mode, s0, s7, s);
    NothingSurvives(s7.log, 3);
    assert rec in s.appended && rec.lsn in s.pending && s.log == [];
    assert rec.ToState() in s.durable && !Durability.Covered(s, rec.ToState());
  }

  // ---------------------------------------------------------------- a second flusher

  lemma OfferLogged(mode: Mode, s: Machine, tid: nat)
    requires tid in s.actors && s.actors[tid].Logged? && |s.ring| < mode.ringCap
    ensures Reaches(mode, s, Goto(Accept(s, s.actors[tid].rec.ToRequest()), tid, Idle))
  {
    OneStep(mode, s, Offer(tid, true));
  }

  /** A durable write that also reached the ring. */
  function WithDurableQueued(s: Machine, tid: nat, p: nat, v: nat): Machine
    requires IdleAt(s, tid)
  {
    Accept(WithDurable(s, tid, p, v), WriteRequest(p, v, [], s.next)).(actors := s.actors)
  }

  lemma DurableQueued(mode: Mode, s: Machine, tid: nat, p: nat, v: nat)
    requires IdleAt(s, tid) && |s.ring| < mode.ringCap && Allowed(mode, p)
    ensures Reaches(mode, s, WithDurableQueued(s, tid, p, v))
  {
    DurableWrite(mode, s, tid, p, v);
    var s1 := WithDurable(s, tid, p, v);
    OfferLogged(mode, s1, tid);
    var s2 := Goto(Accept(s1, s1.actors[tid].rec.ToRequest()), tid, Idle);
    assert s2.actors == s.actors;
    assert s2 == WithDurableQueued(s, tid, p, v);
    Then(mode, s, s1, s2);
  }

  /** A durable write that went through the ring into the cache. */
  function DurableInCache(s: Machine, p: nat, v: nat): Machine {
    var rec := WalRecord(s.next, p, v, []);
    s.(next := s.next + 1, pending := s.pending - {s.next},
       log := s.log + [rec], lastLsn := Max(s.lastLsn, s.next),
       appended := s.appended + {rec}, durable := s.durable + {rec.ToState()},
       accepted := s.accepted + {rec.ToState()}, cache := Cache.Applied(s.cache, rec.ToRequest()))
  }

  lemma DurableDrained(mode: Mode, s: Machine, tid: nat, p: nat, v: nat)
    requires IdleAt(s, tid) && IdleAt(s, 0) && s.ring == [] && mode.ringCap >= 1 && Allowed(mode, p)
    ensures Reaches(mode, s, DurableInCache(s, p, v))
  {
    DurableQueued(mode, s, tid, p, v);
    var s1 := WithDurableQueued(s, tid, p, v);
    OneRecord(WalRecord(s.next, p, v, []));
    DrainHead(mode, s1, 0);
    assert s.pending + {s.next} - {s.next} == s.pending - {s.next};
    assert HeadDrained(s1) == DurableInCache(s, p, v);
    Then(mode, s, s1, DurableInCache(s, p, v));
  }

  /**
   The worker has popped a durable request and lifted its floor but not applied it; a `flush_now`
   caller flushes an older write and checkpoints the frame away.
   */
  lemma SecondFlusher(mode: Mode, p: nat) returns (s: Machine)
    requires !mode.soleFlusher && mode.ringCap >= 1 && mode.batchMax >= 1 && Allowed(mode, p)
    ensures Reaches(mode, Fresh({0, 1, 2}), s)
    ensures !Durability.AllCovered(s)
  {
    var s0 := Fresh({0, 1, 2});
    var s5 := DrainedNotApplied(mode, p);
    FlushAway(mode, s5, 1, p);
    s := FlushedAway(s5, p);
    Then(mode, s0, s5, s);
    var w := PlayerState(p, 2, []);
    assert w in s.durable && !Durability.Covered(s, w);
  }

  lemma DrainedNotApplied(mode: Mode, p: nat) returns (s: Machine)
    requires mode.ringCap >= 1 && Allowed(mode, p)
    ensures Reaches(mode, Fresh({0, 1, 2}), s)
    ensures s.actors == map[0 := Noted([WriteRequest(p, 2, [], 2)]), 1 := Idle, 2 := Idle]
    ensures s.cache == map[p := Cache.Entry(PlayerState(p, 1, []), true)]
    ensures s.pending == {} && s.log == [WalRecord(2, p, 2, [])] && s.lastLsn == 2 && s.next == 3
    ensures s.store == map[] && s.durable == {PlayerState(p, 2, [])}
  {
    hide Reaches, Next;
    var s0 := Fresh({0, 1, 2});
    var s2 := PlainDrained(mode, p);
    DurableQueued(mode, s2, 1, p, 2);
    var s3 := WithDurableQueued(s2, 1, p, 2);
    Then(mode, s0, s2, s3);
    OneRecord(WalRecord(2, p, 2, []));
    NoteHead(mode, s3, 0);
    s := HeadNoted(s3, 0);
    Then(mode, s0, s3, s);
  }

  // ---------------------------------------------------------------- a partial batch

  ghost predicate Distinct(ps: seq<nat>) {
    forall i, j :: 0 <= i < j < |ps| ==> ps[i] != ps[j]
  }

  /** One frame for each of the players. */
  function SeedLog(ps: seq<nat>): Log.Records {
    seq(|ps|, i requires 0 <= i < |ps| => WalRecord(i + 1, ps[i], 1, []))
  }

  lemma SeedReplay(ps: seq<nat>)
    ensures var m := Log.Replay(SeedLog(ps));
            && Log.DistinctLsns(SeedLog(ps)) && Log.Highest(SeedLog(ps)) == |ps|
            && Cache.Keyed(m) && (forall p :: p in m <==> p in ps)
            && (forall p :: p in m ==> m[p].dirty)
  {
    var log := SeedLog(ps);
    var m := Log.Replay(log);
    Log.ReplayMeaning(log);
    Log.HighestMeaning(log);
    if ps != [] {
      assert log[|ps| - 1] in log;
    }
    forall p | p in ps ensures p in m {
      var i :| 0 <= i < |ps| && ps[i] == p;
      assert log[i] in log;
      assert Log.Covers(log, p, 1);
      assert Cache.Covers(m, p, 1);
    }
    forall p | p in m ensures p in ps {
      assert m[p].state in Log.States(log);
    }
  }

  lemma {:induction false} PickFrom(from: set<nat>, n: nat) returns (ps: seq<nat>)
    requires n <= |from|
    ensures |ps| == n && Distinct(ps) && forall p :: p in ps ==> p in from
  {
    if n == 0 {
      ps := [];
    } else {
      var p :| p in from;
      ps := PickFrom(from - {p}, n - 1);
      ps := ps + [p];
    }
  }

  /** Unless the players fit one batch, a full batch of them can be written and one more. */
  lemma PickPlayers(mode: Mode) returns (ps: seq<nat>, z: nat)
    requires !Players.Fits(mode)
    ensures |ps| == mode.batchMax && Distinct(ps) && z !in ps && Allowed(mode, z)
    ensures forall p :: p in ps ==> Allowed(mode, p)
  {
    var n := mode.batchMax;
    var all := seq(n + 1, (i: nat) => i);
    if mode.players.Some? {
      all := PickFrom(mode.players.value, n + 1);
    }
    ps, z := all[..n], all[n];
  }

  /** The recovered players and the durable write of player `z` are all dirty; nothing is pending. */
  lemma SeedsAndOne(mode: Mode, ps: seq<nat>, z: nat) returns (s: Machine)
    requires mode.ringCap >= 1 && Allowed(mode, z)
    ensures Log.DistinctLsns(SeedLog(ps))
    ensures Reaches(mode, Started(SeedLog(ps), map[], {0, 1}, {}), s)
    ensures IdleAt(s, 0) && s.pending == {} && s.store == map[] && PlayerState(z, 1, []) in s.durable
    ensures Cache.Keyed(s.cache) && forall p :: p in Cache.DirtyIds(s.cache) <==> p in ps || p == z
    ensures s.lastLsn == |ps| + 1 && forall r :: r in s.log ==> r.lsn <= |ps| + 1
  {
    var s0 := Started(SeedLog(ps), map[], {0, 1}, {});
    SeedReplay(ps);
    Log.HighestMeaning(SeedLog(ps));
    DurableDrained(mode, s0, 1, z, 1);
    s := DurableInCache(s0, z, 1);
  }

  /**
   `flush_max_batch` other players are dirty too: the batch leaves the drained durable write in the
   cache, and its checkpoint discards the frame.
   */
  lemma PartialBatch(mode: Mode, ps: seq<nat>, z: nat) returns (s: Machine)
    requires !mode.wholeDirty && mode.ringCap >= 1 && mode.batchMax >= 1
    requires |ps| == mode.batchMax && Distinct(ps) && z !in ps && Allowed(mode, z)
    ensures Log.DistinctLsns(SeedLog(ps))
    ensures Reaches(mode, Started(SeedLog(ps), map[], {0, 1}, {}), s)
    ensures !Durability.AllCovered(s)
  {
    hide Reaches, Log.Replay, Store.UpsertedAll, Store.SetAll, Log.Survivors;
    var s0 := Started(SeedLog(ps), map[], {0, 1}, {});
    var s2 := SeedsAndOne(mode, ps, z);
    assert z in Cache.DirtyIds(s2.cache);
    if |Cache.DirtyIds(s2.cache)| <= |ps| {
      Players.AllTaken(ps, Cache.DirtyIds(s2.cache));
    }
    FlushToStore(mode, s2, 0, ps);
    var batch := StatesOf(s2.cache, ps);
    var s3 := Flushed(mode, s2, 0, ps, batch);
    Then(mode, s0, s2, s3);
    FinishFlush(mode, s3, 0);
    s := Goto(Checkpointed(s3, Proposal(s2, batch)), 0, Idle);
    Then(mode, s0, s3, s);
    PartialBatchLoses(s2, s3, s, batch, z);
  }

  lemma PartialBatchLoses(s2: Machine, s3: Machine, s: Machine, batch: seq<PlayerState>, z: nat)
    requires PlayerState(z, 1, []) in s2.durable && s2.store == map[]
    requires s3.store == Store.SetAll(map[], batch) || s3.store == Store.UpsertedAll(map[], batch)
    requires s3.log == s2.log + RecordsOf(batch, s2.next) && s3.durable == s2.durable
    requires forall r :: r in s2.log ==> r.lsn <= s2.lastLsn
    requires forall st :: st in batch ==> st.playerId != z
    requires s.log == Log.Survivors(s3.log, Proposal(s2, batch))
    requires s.store == s3.store && s.durable == s3.durable
    ensures !Durability.AllCovered(s)
  {
    Log.HighestMeaning(RecordsOf(batch, s2.next));
    NothingSurvives(s3.log, Proposal(s2, batch));
    RowsFromBatch(batch, z);
    var w := PlayerState(z, 1, []);
    assert w in s.durable && !Durability.Covered(s, w);
  }

  lemma {:induction false} RowsFromBatch(batch: seq<PlayerState>, z: nat)
    requires forall st :: st in batch ==> st.playerId != z
    ensures z !in Store.SetAll(map[], batch) && z !in Store.UpsertedAll(map[], batch)
    decreases |batch|
  {
    if batch != [] {
      assert batch[|batch| - 1] in batch;
      RowsFromBatch(batch[..|batch| - 1], z);
    }
  }

  // ---------------------------------------------------------------- a store that does not compare

  lemma OneReplay(r: WalRecord)
    ensures Log.Replay([r]) == map[r.playerId := Cache.Entry(r.ToState(), true)]
  {
    assert [r][..0] == [];
    assert Log.Replay([]) == map[];
  }

  lemma FiveDrained(mode: Mode, p: nat) returns (s: Machine)
    requires mode.ringCap >= 1 && Allowed(mode, p)
    ensures Reaches(mode, Fresh({0, 1}), s)
    ensures s.actors == map[0 := Idle, 1 := Idle] && s.pending == {} && s.store == map[]
    ensures s.cache == map[p := Cache.Entry(PlayerState(p, 5, []), true)]
    ensures s.log == [WalRecord(1, p, 5, [])] && s.lastLsn == 1 && PlayerState(p, 5, []) in s.durable
  {
    var s0 := Fresh({0, 1});
    DurableDrained(mode, s0, 1, p, 5);
    s := DurableInCache(s0, p, 5);
  }

  /** Version 5 is in the store, its frame discarded; a late write of version 3 has been recovered. */
  lemma ThreeRecovered(mode: Mode, p: nat) returns (s: Machine)
    requires mode.mayCrash && mode.ringCap >= 1 && mode.batchMax >= 1 && Allowed(mode, p)
    ensures Reaches(mode, Fresh({0, 1}), s)
    ensures IdleAt(s, 0) && s.pending == {} && s.store == map[p := PlayerState(p, 5, [])]
    ensures s.cache == map[p := Cache.Entry(PlayerState(p, 3, []), true)]
    ensures PlayerState(p, 5, []) in s.durable && forall r :: r in s.log ==> r.lsn <= s.lastLsn
  {
    var s0 := Fresh({0, 1});
    var s2 := FiveDrained(mode, p);
    FlushAway(mode, s2, 0, p);
    var s4 := FlushedAway(s2, p);
    Then(mode, s0, s2, s4);
    DurableWrite(mode, s4, 1, p, 3);
    var s5 := WithDurable(s4, 1, p, 3);
    Then(mode, s0, s4, s5);
    KillAndRestart(mode, s5);
    var late := WalRecord(s4.next, p, 3, []);
    assert s5.log == [late];
    s := Started(s5.log, s5.store, s5.actors.Keys, s5.durable);
    Then(mode, s0, s5, s);
    OneReplay(late);
    OneRecord(late);
  }

  lemma KillAndRestart(mode: Mode, s: Machine)
    requires mode.mayCrash && 0 in s.actors
    ensures Reaches(mode, s, Started(s.log, s.store, s.actors.Keys, s.durable))
  {
    OneStep(mode, s, Crash(0, 0));
    assert s.log + Writing(s.actors[0])[..0] == s.log;
  }

  /**
   Version 5 is stored and its frame discarded; a late durable write of version 3 is logged; after a
   kill it is recovered and, with an unconditional SET, replaces version 5.
   */
  lemma PlainSetForgets(mode: Mode, p: nat) returns (s: Machine)
    requires mode.mayCrash && mode.plainSet && mode.ringCap >= 1 && mode.batchMax >= 1 && Allowed(mode, p)
    ensures Reaches(mode, Fresh({0, 1}), s)
    ensures !Durability.AllCovered(s)
  {
    var s0 := Fresh({0, 1});
    var s6 := ThreeRecovered(mode, p);
    FlushAway(mode, s6, 0, p);
    s := FlushedAway(s6, p);
    Then(mode, s0, s6, s);
    var w := PlayerState(p, 5, []);
    assert w in s.durable && !Durability.Covered(s, w);
  }

  // ---------------------------------------------------------------- the exact conditions

  /** In every state of every run in this mode, a pending durable record is in the log. */
  ghost predicate FloorHolds(mode: Mode) {
    forall log, store, tids, steps ::
      Durability.Startable(log, store) && Players.LogAllowed(mode, log)
      && IsRun(mode, Started(log, store, tids, {}), steps)
      ==> Floor.PendingInLog(After(mode, Started(log, store, tids, {}), steps))
  }

  /** In every state of every run in this mode, every durable write is in the log or the store. */
  ghost predicate DurabilityHolds(mode: Mode) {
    forall log, store, tids, steps ::
      Durability.Startable(log, store) && Players.LogAllowed(mode, log)
      && IsRun(mode, Started(log, store, tids, {}), steps)
      ==> Durability.AllCovered(After(mode, Started(log, store, tids, {}), steps))
  }

  predicate NobodyWrites(mode: Mode) {
    mode.players == Some({})
  }

  /** The worker flushes alone, one call pair is atomic, and the store compares or is never restarted. */
  predicate Sheltered(mode: Mode) {
    Floor.Guarded(mode) && mode.soleFlusher && !(mode.plainSet && mode.mayCrash)
  }

  lemma FloorHoldsExactly(mode: Mode)
    requires mode.ringCap >= 1 && mode.batchMax >= 1
    ensures FloorHolds(mode) <==> mode.atomicRegister || mode.atomicCheckpoint || NobodyWrites(mode)
  {
    if Floor.Guarded(mode) || NobodyWrites(mode) {
      forall log, store, tids, steps |
        Durability.Startable(log, store) && Players.LogAllowed(mode, log)
        && IsRun(mode, Started(log, store, tids, {}), steps)
        ensures Floor.PendingInLog(After(mode, Started(log, store, tids, {}), steps))
      {
        if Floor.Guarded(mode) {
          Floor.InvStart(mode, log, store, tids, {});
          Floor.InvRun(mode, Started(log, store, tids, {}), steps);
        } else {
          NothingWritten(mode, log, store, tids, steps);
        }
      }
    } else {
      var p := Somebody(mode);
      var s := LateRegistration(mode, p);
      var steps :| IsRun(mode, Fresh({0, 1, 2}), steps) && After(mode, Fresh({0, 1, 2}), steps) == s;
      assert Durability.Startable([], map[]);
    }
  }

  lemma Somebody(mode: Mode) returns (p: nat)
    requires !NobodyWrites(mode)
    ensures Allowed(mode, p)
  {
    if mode.players.None? {
      p := 0;
    } else {
      assert mode.players.value != {};
      p :| p in mode.players.value;
    }
  }

  lemma NothingWritten(mode: Mode, log: Log.Records, store: Store.Table, tids: set<nat>, steps: seq<Step>)
    requires NobodyWrites(mode) && Players.LogAllowed(mode, log)
    requires IsRun(mode, Started(log, store, tids, {}), steps)
    ensures var s := After(mode, Started(log, store, tids, {}), steps);
            s.durable == {} && s.appended == {} && s.accepted == {}
  {
    hide IsRun, After;
    Players.StartConfined(mode, log, store, tids);
    Players.ConfinedRun(mode, Started(log, store, tids, {}), steps);
    var s := After(mode, Started(log, store, tids, {}), steps);
    assert forall w :: w !in s.durable && w !in s.accepted;
    assert forall r :: r !in s.appended;
  }

  /** A run that takes whole dirty sets, because it must or because the players fit one batch. */
  lemma CoveredRun(mode: Mode, log: Log.Records, store: Store.Table, tids: set<nat>, steps: seq<Step>)
    requires Sheltered(mode) && (mode.wholeDirty || Players.Fits(mode))
    requires Durability.Startable(log, store) && Players.LogAllowed(mode, log)
    requires IsRun(mode, Started(log, store, tids, {}), steps)
    ensures Durability.AllCovered(After(mode, Started(log, store, tids, {}), steps))
  {
    hide Durability.AllCovered, IsRun, After;
    var s, whole := Started(log, store, tids, {}), Players.Whole(mode);
    if mode.wholeDirty {
      assert whole == mode;
    } else {
      Players.StartConfined(mode, log, store, tids);
      Players.WholeRun(mode, s, steps);
    }
    if mode.plainSet {
      EitherStore.DurableWithoutCrash(whole, log, store, tids, steps);
    } else {
      Durability.DurableWritesSurvive(whole, log, store, tids, steps);
    }
  }

  /**
   Durable writes stay covered in every run exactly when nobody writes, or the worker alone flushes, one
   call pair is atomic, a SET store is never restarted, and every batch is the whole dirty set: because
   takes are made whole, or because the players are at most `flush_max_batch`.
   */
  lemma DurabilityHoldsExactly(mode: Mode)
    requires mode.ringCap >= 1 && mode.batchMax >= 1
    ensures DurabilityHolds(mode) <==>
            NobodyWrites(mode) || (Sheltered(mode) && (mode.wholeDirty || Players.Fits(mode)))
  {
    if NobodyWrites(mode) || (Sheltered(mode) && (mode.wholeDirty || Players.Fits(mode))) {
      forall log, store, tids, steps |
        Durability.Startable(log, store) && Players.LogAllowed(mode, log)
        && IsRun(mode, Started(log, store, tids, {}), steps)
        ensures Durability.AllCovered(After(mode, Started(log, store, tids, {}), steps))
      {
        if NobodyWrites(mode) {
          NothingWritten(mode, log, store, tids, steps);
        } else {
          CoveredRun(mode, log, store, tids, steps);
        }
      }
    } else if !mode.wholeDirty && !Players.Fits(mode) {
      var ps, z := PickPlayers(mode);
      var s := PartialBatch(mode, ps, z);
      Refuted(mode, SeedLog(ps), {0, 1}, s);
    } else {
      LossWithWholeBatches(mode);
    }
  }

  lemma LossWithWholeBatches(mode: Mode)
    requires mode.ringCap >= 1 && mode.batchMax >= 1 && !NobodyWrites(mode) && !Sheltered(mode)
    ensures !DurabilityHolds(mode)
  {
    hide DurabilityHolds;
    var p := Somebody(mode);
    if !mode.soleFlusher {
      var s := SecondFlusher(mode, p);
      Refuted(mode, [], {0, 1, 2}, s);
    } else if mode.plainSet && mode.mayCrash {
      var s := PlainSetForgets(mode, p);
      Refuted(mode, [], {0, 1}, s);
    } else {
      var s := LateRegistration(mode, p);
      Refuted(mode, [], {0, 1, 2}, s);
    }
  }

  lemma Refuted(mode: Mode, log: Log.Records, tids: set<nat>, s: Machine)
    requires Log.DistinctLsns(log) && Players.LogAllowed(mode, log)
    requires Reaches(mode, Started(log, map[], tids, {}), s) && !Durability.AllCovered(s)
    ensures !DurabilityHolds(mode)
  {
    var steps :| IsRun(mode, Started(log, map[], tids, {}), steps)
      && After(mode, Started(log, map[], tids, {}), steps) == s;
    assert Durability.Startable(log, map[]);
  }
}
