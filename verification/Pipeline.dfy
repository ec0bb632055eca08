/**
 The pipeline as a step machine: any number of threads call `submit`, `submit_durable` and
 `flush_now` while the worker drains and flushes, the store and the log may fail at any call, and
 the process may be killed and restarted between any two steps.

 Each lock-protected call of the source is one step.  `Mode` switches on the hypotheses some
 theorems need; with the hypotheses off the machine interleaves exactly as the code can.
 */
module Pipeline {
  import opened Prelude
  import opened Domain
  import Cache
  import Log
  import Lsn
  import Store

  datatype Mode = Mode(
    ringCap: nat,
    batchMax: nat,            // flush_max_batch
    atomicRegister: bool,     // `alloc` and `note_pending` of a durable submit are one step
    atomicCheckpoint: bool,   // reading the watermark and checkpointing are one step
    soleFlusher: bool,        // only thread 0, the worker, drains and flushes
    wholeDirty: bool,         // every `take_dirty` takes the whole dirty set
    plainSet: bool,           // the store SETs without comparing versions
    mayCrash: bool,           // the process may be killed and restarted
    players: Option<set<nat>>) // the players that may be written, when they are limited

  datatype Actor =
    | Idle
    // submit and submit_durable
    | Minted(req: WriteRequest)                     // seq drawn, about to enqueue
    | Allocated(rec: WalRecord)                     // LSN drawn, about to note it pending
    | Registered(rec: WalRecord)                    // pending, about to append
    | Failed(rec: WalRecord)                        // append failed, about to clear the floor
    | Logged(rec: WalRecord)                        // durable, about to enqueue the copy
    // draining
    | Filling(q: seq<WriteRequest>)                 // popping into the scratch buffer
    | Applying(q: seq<WriteRequest>)                // about to note_drained(q[0].seqNo)
    | Noted(q: seq<WriteRequest>)                   // about to apply q[0] to the cache
    // flushing
    | Taken(batch: seq<PlayerState>)                // about to allocate a block of LSNs
    | Stamped(batch: seq<PlayerState>, first: nat)  // about to append
    | Appended(batch: seq<PlayerState>, proposed: nat) // about to persist
    | Persisted(proposed: nat)                      // about to read the watermark
    | Clamped(upTo: nat)                            // about to checkpoint

  datatype Machine = Machine(
    next: nat,
    pending: set<nat>,
    ring: seq<WriteRequest>,
    cache: Cache.Entries,
    log: Log.Records,
    lastLsn: nat,
    store: Store.Table,
    actors: map<nat, Actor>,
    // histories, read by no step
    appended: set<WalRecord>,      // durable appends completed since the last start
    durable: set<PlayerState>,     // durable writes whose append ever completed
    accepted: set<PlayerState>,    // writes enqueued or recovered since the last start
    base: Store.Table)             // the store at the last start

  datatype Step =
    | Submit(tid: nat, playerId: nat, version: nat, blob: Bytes)
    | SubmitDurable(tid: nat, playerId: nat, version: nat, blob: Bytes)
    | Register(tid: nat)
    | AppendOk(tid: nat)
    | AppendFails(tid: nat)
    | Unregister(tid: nat)
    | Offer(tid: nat, accept: bool)
    | Pop(tid: nat)
    | NoteDrained(tid: nat)
    | ApplyNext(tid: nat)
    | TakeDirty(tid: nat, ids: seq<nat>)
    | Stamp(tid: nat)
    | Persist(tid: nat)
    | GiveUp(tid: nat)               // retries exhausted or fatal: requeue
    | Clamp(tid: nat)
    | Checkpoint(tid: nat)
    | SkipCheckpoint(tid: nat)       // the checkpoint's I/O fails
    | Crash(tid: nat, written: nat)  // kill and restart; `written` frames of tid's append got out

  // ---------------------------------------------------------------- the steps

  /** The engine after `start` on a recovered log, with no traffic yet. */
  function Started(log: Log.Records, store: Store.Table, tids: set<nat>, durable: set<PlayerState>): Machine {
    Machine(Log.Highest(log) + 1, {}, [], Log.Replay(log), log, Log.Highest(log), store,
            map t | t in tids :: Idle, {}, durable, Log.States(log), store)
  }

  function Fresh(tids: set<nat>): Machine {
    Started([], map[], tids, {})
  }

  function RecordsOf(batch: seq<PlayerState>, first: nat): Log.Records {
    seq(|batch|, i requires 0 <= i < |batch| =>
      WalRecord(first + i, batch[i].playerId, batch[i].version, batch[i].blob))
  }

  /** What a thread about to append will write. */
  function Writing(a: Actor): Log.Records {
    match a
    case Registered(rec) => [rec]
    case Stamped(batch, first) => RecordsOf(batch, first)
    case _ => []
  }

  function StatesOf(m: Cache.Entries, ids: seq<nat>): seq<PlayerState>
    requires forall id :: id in ids ==> id in m
  {
    seq(|ids|, i requires 0 <= i < |ids| => assert ids[i] in ids; m[ids[i]].state)
  }

  ghost predicate MayFlush(mode: Mode, tid: nat) {
    mode.soleFlusher ==> tid == 0
  }

  predicate Allowed(mode: Mode, playerId: nat) {
    mode.players.None? || playerId in mode.players.value
  }

  ghost predicate Enabled(mode: Mode, s: Machine, step: Step) {
    && step.tid in s.actors
    && var a := s.actors[step.tid];
       match step
       case Submit(_, playerId, _, _) => a.Idle? && Allowed(mode, playerId)
       case SubmitDurable(_, playerId, _, _) => a.Idle? && Allowed(mode, playerId)
       case Register(_) => a.Allocated?
       case AppendOk(_) => a.Registered? || a.Stamped?
       case AppendFails(_) => a.Registered? || a.Stamped?
       case Unregister(_) => a.Failed?
       case Offer(_, accept) => (a.Minted? || a.Logged?) && (accept ==> |s.ring| < mode.ringCap)
       case Pop(tid) => MayFlush(mode, tid) && (a.Idle? || a.Filling?) && s.ring != []
       case NoteDrained(_) => (a.Filling? || a.Applying?) && a.q != []
       case ApplyNext(_) => a.Noted? && a.q != []
       case TakeDirty(tid, ids) =>
         && MayFlush(mode, tid) && a.Idle?
         && ids != [] && (forall i, j :: 0 <= i < j < |ids| ==> ids[i] != ids[j])
         && (forall id :: id in ids ==> id in Cache.DirtyIds(s.cache))
         && |ids| == Min(mode.batchMax, |Cache.DirtyIds(s.cache)|)
         && (mode.wholeDirty ==> forall id :: id in Cache.DirtyIds(s.cache) ==> id in ids)
       case Stamp(_) => a.Taken?
       case Persist(_) => a.Appended?
       case GiveUp(_) => a.Appended?
       case Clamp(_) => a.Persisted?
       case Checkpoint(_) => a.Clamped?
       case SkipCheckpoint(_) => a.Persisted? || a.Clamped?
       case Crash(_, written) => mode.mayCrash && written <= |Writing(a)|
  }

  function Goto(s: Machine, tid: nat, a: Actor): Machine {
    s.(actors := s.actors[tid := a])
  }

  function AppendTo(s: Machine, records: Log.Records): Machine {
    s.(log := s.log + records, lastLsn := Max(s.lastLsn, Log.Highest(records)))
  }

  function DurableAppended(s: Machine, tid: nat): Machine
    requires tid in s.actors && s.actors[tid].Registered?
  {
    var rec := s.actors[tid].rec;
    Goto(AppendTo(s, [rec]), tid, Logged(rec)).(
      appended := s.appended + {rec}, durable := s.durable + {rec.ToState()})
  }

  function BatchAppended(s: Machine, tid: nat): Machine
    requires tid in s.actors && s.actors[tid].Stamped?
  {
    var s' := AppendTo(s, Writing(s.actors[tid]));
    Goto(s', tid, Appended(s.actors[tid].batch, s'.lastLsn))
  }

  function Checkpointed(s: Machine, upTo: nat): Machine {
    var kept := Log.Survivors(s.log, upTo);
    s.(log := kept, lastLsn := if kept == [] then upTo else Max(Log.Highest(kept), upTo))
  }

  function Requeue(s: Machine, batch: seq<PlayerState>): Machine {
    s.(cache := Cache.Requeued(s.cache, batch))
  }

  function Accept(s: Machine, req: WriteRequest): Machine {
    s.(ring := s.ring + [req], accepted := s.accepted + {req.ToState()})
  }

  ghost function Next(mode: Mode, s: Machine, step: Step): Machine
    requires Enabled(mode, s, step)
  {
    var tid := step.tid;
    var a := s.actors[tid];
    match step
    case Submit(_, p, v, blob) =>
      Goto(s, tid, Minted(WriteRequest(p, v, blob, s.next))).(next := s.next + 1)
    case SubmitDurable(_, p, v, blob) =>
      var rec := WalRecord(s.next, p, v, blob);
      if mode.atomicRegister
      then Goto(s, tid, Registered(rec)).(next := s.next + 1, pending := s.pending + {rec.lsn})
      else Goto(s, tid, Allocated(rec)).(next := s.next + 1)
    case Register(_) => Goto(s, tid, Registered(a.rec)).(pending := s.pending + {a.rec.lsn})
    case AppendOk(_) =>
      if a.Registered? then DurableAppended(s, tid) else BatchAppended(s, tid)
    case AppendFails(_) =>
      if a.Registered? then Goto(s, tid, Failed(a.rec)) else Goto(Requeue(s, a.batch), tid, Idle)
    case Unregister(_) => Goto(s, tid, Idle).(pending := s.pending - {a.rec.lsn})
    case Offer(_, accept) =>
      var req := if a.Minted? then a.req else a.rec.ToRequest();
      Goto(if accept then Accept(s, req) else s, tid, Idle)
    case Pop(_) =>
      var q := if a.Filling? then a.q else [];
      Goto(s, tid, Filling(q + [s.ring[0]])).(ring := s.ring[1..])
    case NoteDrained(_) => Goto(s, tid, Noted(a.q)).(pending := s.pending - {a.q[0].seqNo})
    case ApplyNext(_) =>
      Goto(s, tid, if |a.q| == 1 then Idle else Applying(a.q[1..])).(cache := Cache.Applied(s.cache, a.q[0]))
    case TakeDirty(_, ids) =>
      Goto(s, tid, Taken(StatesOf(s.cache, ids))).(cache := Cache.Cleaned(s.cache, set id | id in ids))
    case Stamp(_) => Goto(s, tid, Stamped(a.batch, s.next)).(next := s.next + |a.batch|)
    case Persist(_) =>
      Goto(s, tid, Persisted(a.proposed)).(
        store := if mode.plainSet then Store.SetAll(s.store, a.batch) else Store.UpsertedAll(s.store, a.batch))
    case GiveUp(_) => Goto(Requeue(s, a.batch), tid, Idle)
    case Clamp(_) =>
      (match Lsn.Watermark(s.pending, a.proposed)
       case None => Goto(s, tid, Idle)
       case Some(upTo) =>
         if mode.atomicCheckpoint then Goto(Checkpointed(s, upTo), tid, Idle) else Goto(s, tid, Clamped(upTo)))
    case Checkpoint(_) => Goto(Checkpointed(s, a.upTo), tid, Idle)
    case SkipCheckpoint(_) => Goto(s, tid, Idle)
    case Crash(_, written) =>
      Started(s.log + Writing(a)[..written], s.store, s.actors.Keys, s.durable)
  }

  ghost predicate IsRun(mode: Mode, s: Machine, steps: seq<Step>)
    decreases |steps|
  {
    steps == [] || (Enabled(mode, s, steps[0]) && IsRun(mode, Next(mode, s, steps[0]), steps[1..]))
  }

  ghost function After(mode: Mode, s: Machine, steps: seq<Step>): Machine
    requires IsRun(mode, s, steps)
    decreases |steps|
  {
    if steps == [] then s else After(mode, Next(mode, s, steps[0]), steps[1..])
  }

  // ---------------------------------------------------------------- what threads hold

  /** `a` has drawn LSN `l` for a record it has not appended. */
  predicate Holds(a: Actor, l: nat) {
    match a
    case Allocated(rec) => rec.lsn == l
    case Registered(rec) => rec.lsn == l
    case Failed(rec) => rec.lsn == l
    case Stamped(batch, first) => first <= l < first + |batch|
    case _ => false
  }

  /** Requests a thread has in hand. */
  function InHand(a: Actor): seq<WriteRequest> {
    match a
    case Minted(req) => [req]
    case Logged(rec) => [rec.ToRequest()]
    case Filling(q) => q
    case Applying(q) => q
    case Noted(q) => q
    case _ => []
  }

  /** Requests a thread has popped and not yet applied. */
  function Scratch(a: Actor): seq<WriteRequest> {
    if a.Filling? || a.Applying? || a.Noted? then a.q else []
  }

  /** States a thread has taken and neither persisted nor put back. */
  function Batch(a: Actor): seq<PlayerState> {
    if a.Taken? || a.Stamped? || a.Appended? then a.batch else []
  }

  // ---------------------------------------------------------------- LSN invariant

  ghost predicate ActorLsns(s: Machine, a: Actor) {
    && (forall l: nat :: Holds(a, l) ==>
          && l < s.next
          && (forall r :: r in s.log ==> r.lsn != l)
          && (forall r :: r in s.appended ==> r.lsn != l))
    && (a.Appended? || a.Persisted? ==> a.proposed < s.next)
    && (a.Clamped? ==> a.upTo < s.next)
    && (a.Logged? ==> a.rec in s.appended)
  }

  ghost predicate LsnOk(s: Machine) {
    && s.lastLsn < s.next
    && (forall r :: r in s.log ==> r.lsn < s.next)
    && Log.DistinctLsns(s.log)
    && (forall r :: r in s.appended ==> r.lsn < s.next)
    && (forall r, r' :: r in s.appended && r' in s.appended && r.lsn == r'.lsn ==> r == r')
    && (forall t :: t in s.actors ==> ActorLsns(s, s.actors[t]))
    && (forall t, u, l: nat ::
          t in s.actors && u in s.actors && Holds(s.actors[t], l) && Holds(s.actors[u], l) ==> t == u)
  }

  lemma RecordsOfMeaning(batch: seq<PlayerState>, first: nat)
    ensures var rs := RecordsOf(batch, first);
            && (forall r :: r in rs ==> first <= r.lsn < first + |batch| && r.ToState() in batch)
            && Log.DistinctLsns(rs)
  {
  }

  /** What `Writing(a)` will put in the log carries exactly LSNs `a` holds. */
  lemma WritingHeld(a: Actor)
    ensures forall r :: r in Writing(a) ==> Holds(a, r.lsn)
    ensures Log.DistinctLsns(Writing(a))
  {
    if a.Stamped? {
      RecordsOfMeaning(a.batch, a.first);
    }
  }

  lemma StartedLsns(log: Log.Records, store: Store.Table, tids: set<nat>, durable: set<PlayerState>)
    requires Log.DistinctLsns(log)
    ensures LsnOk(Started(log, store, tids, durable))
  {
    Log.HighestMeaning(log);
  }

  lemma AppendKeepsDistinct(log: Log.Records, more: Log.Records)
    requires Log.DistinctLsns(log) && Log.DistinctLsns(more)
    requires forall r, r' :: r in log && r' in more ==> r.lsn != r'.lsn
    ensures Log.DistinctLsns(log + more)
  {
    forall i, j | 0 <= i < j < |log + more| ensures (log + more)[i].lsn != (log + more)[j].lsn {
      if i < |log| <= j {
        assert log[i] in log && more[j - |log|] in more;
      }
    }
  }

  /** A step of `tid` that only moves its own LSNs into the log keeps everybody's LSN facts. */
  lemma LsnFrame(s: Machine, s': Machine, tid: nat, a: Actor)
    requires LsnOk(s) && tid in s.actors && s'.actors == s.actors[tid := a]
    requires s.next <= s'.next && s'.lastLsn < s'.next
    requires Log.DistinctLsns(s'.log)
    requires forall r :: r in s'.log ==> r.lsn < s'.next && (r in s.log || Holds(s.actors[tid], r.lsn))
    requires forall r :: r in s'.appended ==>
               r.lsn < s'.next && (r in s.appended || Holds(s.actors[tid], r.lsn))
    requires forall r, r' :: r in s'.appended && r' in s'.appended && r.lsn == r'.lsn ==> r == r'
    requires s.appended <= s'.appended
    requires forall l: nat :: Holds(a, l) ==> Holds(s.actors[tid], l) || s.next <= l
    requires ActorLsns(s', a)
    ensures LsnOk(s')
  {
    forall t | t in s'.actors ensures ActorLsns(s', s'.actors[t]) {
      if t != tid {
        assert ActorLsns(s, s.actors[t]);
      }
    }
    forall t, u, l: nat | t in s'.actors && u in s'.actors && Holds(s'.actors[t], l) && Holds(s'.actors[u], l)
      ensures t == u
    {
      assert ActorLsns(s, s.actors[t]) && ActorLsns(s, s.actors[u]);
    }
  }

  lemma LsnQuiet(s: Machine, s': Machine, tid: nat, a: Actor)
    requires LsnOk(s) && tid in s.actors && s'.actors == s.actors[tid := a]
    requires s.next <= s'.next
    requires s'.log == s.log && s'.lastLsn == s.lastLsn && s'.appended == s.appended
    requires forall l: nat :: Holds(a, l) ==> Holds(s.actors[tid], l) || s.next <= l < s'.next
    requires a.Appended? || a.Persisted? ==> a.proposed < s'.next
    requires a.Clamped? ==> a.upTo < s'.next
    requires !a.Logged?
    ensures LsnOk(s')
  {
    assert ActorLsns(s, s.actors[tid]);
    LsnFrame(s, s', tid, a);
  }

  lemma LsnStep(mode: Mode, s: Machine, step: Step)
    requires LsnOk(s) && Enabled(mode, s, step)
    ensures LsnOk(Next(mode, s, step))
  {
    if step.AppendOk? {
      LsnAppend(mode, s, step);
    } else if step.Crash? {
      LsnCrash(s, step.tid, step.written);
    } else if ByCaller(step) {
      var s' := Next(mode, s, step);
      LsnQuiet(s, s', step.tid, s'.actors[step.tid]);
    } else {
      LsnFlush(mode, s, step);
    }
  }

  /** Steps of `submit` and `submit_durable` other than the append. */
  predicate ByCaller(step: Step) {
    step.Submit? || step.SubmitDurable? || step.Register? || step.Unregister? || step.Offer?
  }

  lemma LsnFlush(mode: Mode, s: Machine, step: Step)
    requires LsnOk(s) && Enabled(mode, s, step) && !step.AppendOk? && !step.Crash? && !ByCaller(step)
    ensures LsnOk(Next(mode, s, step))
  {
    if step.Clamp? || step.Checkpoint? {
      LsnClamp(mode, s, step);
    } else {
      assert ActorLsns(s, s.actors[step.tid]);
      var s' := Next(mode, s, step);
      LsnQuiet(s, s', step.tid, s'.actors[step.tid]);
    }
  }

  lemma LsnClamp(mode: Mode, s: Machine, step: Step)
    requires LsnOk(s) && Enabled(mode, s, step) && (step.Clamp? || step.Checkpoint?)
    ensures LsnOk(Next(mode, s, step))
  {
    var a := s.actors[step.tid];
    assert ActorLsns(s, a);
    if step.Checkpoint? {
      LsnCheckpoint(s, step.tid, a.upTo);
    } else if mode.atomicCheckpoint && Lsn.Watermark(s.pending, a.proposed).Some? {
      LsnCheckpoint(s, step.tid, Lsn.Watermark(s.pending, a.proposed).value);
    } else {
      var s' := Next(mode, s, step);
      LsnQuiet(s, s', step.tid, s'.actors[step.tid]);
    }
  }

  lemma LsnAppend(mode: Mode, s: Machine, step: Step)
    requires LsnOk(s) && Enabled(mode, s, step) && step.AppendOk?
    ensures LsnOk(Next(mode, s, step))
  {
    if s.actors[step.tid].Registered? {
      LsnDurable(s, step.tid);
    } else {
      LsnBatch(s, step.tid);
    }
  }

  lemma LsnDurable(s: Machine, tid: nat)
    requires LsnOk(s) && tid in s.actors && s.actors[tid].Registered?
    ensures LsnOk(DurableAppended(s, tid))
  {
    var rec := s.actors[tid].rec;
    AppendedLsns(s, tid);
    assert ActorLsns(s, s.actors[tid]) && Holds(s.actors[tid], rec.lsn);
    LsnFrame(s, DurableAppended(s, tid), tid, Logged(rec));
  }

  lemma LsnBatch(s: Machine, tid: nat)
    requires LsnOk(s) && tid in s.actors && s.actors[tid].Stamped?
    ensures LsnOk(BatchAppended(s, tid))
  {
    AppendedLsns(s, tid);
    var s' := BatchAppended(s, tid);
    LsnFrame(s, s', tid, s'.actors[tid]);
  }

  lemma AppendedLsns(s: Machine, tid: nat)
    requires LsnOk(s) && tid in s.actors
    ensures var s' := AppendTo(s, Writing(s.actors[tid]));
            && s'.lastLsn < s'.next
            && Log.DistinctLsns(s'.log)
            && forall r :: r in s'.log ==> r.lsn < s'.next && (r in s.log || Holds(s.actors[tid], r.lsn))
  {
    var a := s.actors[tid];
    assert ActorLsns(s, a);
    WritingHeld(a);
    AppendKeepsDistinct(s.log, Writing(a));
    Log.HighestMeaning(Writing(a));
  }

  lemma LsnCheckpoint(s: Machine, tid: nat, upTo: nat)
    requires LsnOk(s) && tid in s.actors && upTo < s.next
    ensures LsnOk(Goto(Checkpointed(s, upTo), tid, Idle))
  {
    Log.SurvivorsMeaning(s.log, upTo);
    Log.HighestMeaning(Log.Survivors(s.log, upTo));
    LsnFrame(s, Goto(Checkpointed(s, upTo), tid, Idle), tid, Idle);
  }

  lemma LsnCrash(s: Machine, tid: nat, written: nat)
    requires LsnOk(s) && tid in s.actors && written <= |Writing(s.actors[tid])|
    ensures LsnOk(Started(s.log + Writing(s.actors[tid])[..written], s.store, s.actors.Keys, s.durable))
  {
    var a := s.actors[tid];
    assert ActorLsns(s, a);
    WritingHeld(a);
    var more := Writing(a)[..written];
    assert forall r :: r in more ==> r in Writing(a);
    AppendKeepsDistinct(s.log, more);
    StartedLsns(s.log + more, s.store, s.actors.Keys, s.durable);
  }
}
