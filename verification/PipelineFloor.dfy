/**
 The checkpoint floor.  A durable append whose LSN is still pending keeps its frame in the log, for
 any mix of durable writers, worker and `flush_now` callers and any batch size, exactly when
 registering is atomic with allocating or checkpointing is atomic with reading the watermark.
 */
module PipelineFloor {
  import opened Domain
  import opened Pipeline
  import Cache
  import Log
  import Lsn
  import Store

  /** The sequence number of a request names at most one durable record: its own. */
  ghost predicate RequestOk(s: Machine, req: WriteRequest) {
    && req.seqNo < s.next
    && (forall r :: r in s.appended && r.lsn == req.seqNo ==> req == r.ToRequest())
    && (forall t :: t in s.actors ==> !Holds(s.actors[t], req.seqNo))
  }

  ghost predicate RequestsOk(s: Machine) {
    && (forall req :: req in s.ring ==> RequestOk(s, req))
    && (forall t, req :: t in s.actors && req in InHand(s.actors[t]) ==> RequestOk(s, req))
  }

  /** One request stays in order when `tid` moves only LSNs it holds into `appended`. */
  lemma RequestKept(s: Machine, s': Machine, tid: nat, a: Actor, req: WriteRequest)
    requires RequestOk(s, req)
    requires tid in s.actors && s'.actors == s.actors[tid := a] && s.next <= s'.next
    requires forall r :: r in s'.appended ==> r in s.appended || Holds(s.actors[tid], r.lsn)
    requires forall l: nat :: Holds(a, l) ==> Holds(s.actors[tid], l) || s.next <= l
    ensures RequestOk(s', req)
  {
  }

  /** Steps that bring no new request into play. */
  lemma RequestsFrame(s: Machine, s': Machine, tid: nat, a: Actor)
    requires RequestsOk(s)
    requires tid in s.actors && s'.actors == s.actors[tid := a] && s.next <= s'.next
    requires forall r :: r in s'.appended ==> r in s.appended || Holds(s.actors[tid], r.lsn)
    requires forall l: nat :: Holds(a, l) ==> Holds(s.actors[tid], l) || s.next <= l
    requires forall req :: req in s'.ring || req in InHand(a) ==> req in s.ring || req in InHand(s.actors[tid])
    ensures RequestsOk(s')
  {
    forall req | req in s'.ring ensures RequestOk(s', req) {
      RequestKept(s, s', tid, a, req);
    }
    forall t, req | t in s'.actors && req in InHand(s'.actors[t]) ensures RequestOk(s', req) {
      RequestKept(s, s', tid, a, req);
    }
  }

  lemma RequestsSubmit(s: Machine, s': Machine, tid: nat, req: WriteRequest)
    requires LsnOk(s) && RequestsOk(s) && tid in s.actors && s.actors[tid].Idle?
    requires req.seqNo == s.next
    requires s' == Goto(s, tid, Minted(req)).(next := s.next + 1)
    ensures RequestsOk(s')
  {
    forall t | t in s.actors ensures !Holds(s.actors[t], s.next) {
      assert ActorLsns(s, s.actors[t]);
    }
    assert RequestOk(s', req);
    forall o | o in s'.ring ensures RequestOk(s', o) {
      RequestKept(s, s', tid, Minted(req), o);
    }
    forall t, o | t in s'.actors && t != tid && o in InHand(s'.actors[t]) ensures RequestOk(s', o) {
      RequestKept(s, s', tid, Minted(req), o);
    }
  }

  lemma RequestsLogged(s: Machine, tid: nat)
    requires LsnOk(s) && RequestsOk(s) && tid in s.actors && s.actors[tid].Registered?
    ensures RequestsOk(DurableAppended(s, tid))
  {
    LsnDurable(s, tid);
    var rec := s.actors[tid].rec;
    var s' := DurableAppended(s, tid);
    assert Holds(s.actors[tid], rec.lsn);
    assert RequestOk(s', rec.ToRequest()) by {
      assert ActorLsns(s', s'.actors[tid]);
      forall t | t in s'.actors ensures !Holds(s'.actors[t], rec.lsn) {
        assert ActorLsns(s', s'.actors[t]);
      }
    }
    forall req | req in s'.ring ensures RequestOk(s', req) {
      RequestKept(s, s', tid, Logged(rec), req);
    }
    forall t, req | t in s'.actors && t != tid && req in InHand(s'.actors[t]) ensures RequestOk(s', req) {
      RequestKept(s, s', tid, Logged(rec), req);
    }
  }

  lemma RequestsStep(mode: Mode, s: Machine, step: Step)
    requires LsnOk(s) && RequestsOk(s) && Enabled(mode, s, step)
    ensures RequestsOk(Next(mode, s, step))
  {
    var s' := Next(mode, s, step);
    if step.Submit? {
      RequestsSubmit(s, s', step.tid, WriteRequest(step.playerId, step.version, step.blob, s.next));
    } else if step.AppendOk? && s.actors[step.tid].Registered? {
      RequestsLogged(s, step.tid);
    } else if step.Crash? {
    } else if ByCaller(step) {
      RequestsFrame(s, s', step.tid, s'.actors[step.tid]);
    } else {
      RequestsFlush(mode, s, step);
    }
  }

  lemma RequestsFlush(mode: Mode, s: Machine, step: Step)
    requires RequestsOk(s) && Enabled(mode, s, step)
    requires !ByCaller(step) && !step.Crash? && (step.AppendOk? ==> s.actors[step.tid].Stamped?)
    ensures RequestsOk(Next(mode, s, step))
  {
    hide RequestsOk, Store.UpsertedAll, Store.SetAll, Log.Survivors, Log.Highest, Cache.Requeued, Cache.Applied,
      Cache.Cleaned, Lsn.Watermark, RecordsOf, StatesOf;
    var s' := Next(mode, s, step);
    RequestsFrame(s, s', step.tid, s'.actors[step.tid]);
  }

  // ---------------------------------------------------------------- the floor

  /** Either half of the pair of two-call sequences has been made one step. */
  predicate Guarded(mode: Mode) {
    mode.atomicRegister || mode.atomicCheckpoint
  }

  ghost predicate FloorActor(mode: Mode, s: Machine, a: Actor) {
    && (a.Registered? ==> a.rec.lsn in s.pending)
    && (a.Allocated? ==> !mode.atomicRegister)
    && (a.Clamped? ==> !mode.atomicCheckpoint && Lsn.BelowAll(a.upTo, s.pending))
  }

  /** The property the README promises: a pending durable record is in the log. */
  ghost predicate PendingInLog(s: Machine) {
    forall r :: r in s.appended && r.lsn in s.pending ==> r in s.log
  }

  ghost predicate FloorOk(mode: Mode, s: Machine) {
    PendingInLog(s) && forall t :: t in s.actors ==> FloorActor(mode, s, s.actors[t])
  }

  ghost predicate Inv(mode: Mode, s: Machine) {
    LsnOk(s) && RequestsOk(s) && FloorOk(mode, s)
  }

  /** Pending LSNs, log and appended records unchanged. */
  lemma FloorQuiet(mode: Mode, s: Machine, s': Machine, tid: nat, a: Actor)
    requires FloorOk(mode, s) && tid in s.actors && s'.actors == s.actors[tid := a]
    requires s'.pending == s.pending && s'.log == s.log && s'.appended == s.appended
    requires FloorActor(mode, s', a)
    ensures FloorOk(mode, s')
  {
  }

  /** A registration: the new LSN is above every checkpoint under way, or none is under way. */
  lemma FloorRegister(mode: Mode, s: Machine, s': Machine, tid: nat, rec: WalRecord)
    requires Guarded(mode) && LsnOk(s) && FloorOk(mode, s) && tid in s.actors
    requires s'.actors == s.actors[tid := Registered(rec)]
    requires s'.pending == s.pending + {rec.lsn} && s'.log == s.log && s'.appended == s.appended
    requires rec.lsn == s.next || (s.actors[tid].Allocated? && Holds(s.actors[tid], rec.lsn))
    ensures FloorOk(mode, s')
  {
    assert FloorActor(mode, s, s.actors[tid]) && ActorLsns(s, s.actors[tid]);
    forall t | t in s'.actors ensures FloorActor(mode, s', s'.actors[t]) {
      if t != tid {
        assert FloorActor(mode, s, s.actors[t]) && ActorLsns(s, s.actors[t]);
      }
    }
  }

  /** A pending LSN is cleared: nobody who must stay pending holds it. */
  lemma FloorLift(mode: Mode, s: Machine, s': Machine, tid: nat, a: Actor, lsn: nat)
    requires FloorOk(mode, s) && tid in s.actors && s'.actors == s.actors[tid := a]
    requires s'.pending == s.pending - {lsn} && s'.log == s.log && s'.appended == s.appended
    requires forall t :: t in s.actors && t != tid ==> !Holds(s.actors[t], lsn)
    requires a.Noted? || a.Idle?
    ensures FloorOk(mode, s')
  {
    forall t | t in s'.actors ensures FloorActor(mode, s', s'.actors[t]) {
      if t != tid {
        assert FloorActor(mode, s, s.actors[t]) && !Holds(s.actors[t], lsn);
      }
    }
  }

  lemma FloorCheckpoint(mode: Mode, s: Machine, tid: nat, upTo: nat)
    requires FloorOk(mode, s) && tid in s.actors && Lsn.BelowAll(upTo, s.pending)
    ensures FloorOk(mode, Goto(Checkpointed(s, upTo), tid, Idle))
  {
    Log.SurvivorsMeaning(s.log, upTo);
    var s' := Goto(Checkpointed(s, upTo), tid, Idle);
    forall t | t in s'.actors ensures FloorActor(mode, s', s'.actors[t]) {
      if t != tid {
        assert FloorActor(mode, s, s.actors[t]);
      }
    }
  }

  lemma FloorAppend(mode: Mode, s: Machine, tid: nat)
    requires FloorOk(mode, s) && tid in s.actors
    ensures s.actors[tid].Registered? ==> FloorOk(mode, DurableAppended(s, tid))
    ensures s.actors[tid].Stamped? ==> FloorOk(mode, BatchAppended(s, tid))
  {
  }

  lemma FloorStep(mode: Mode, s: Machine, step: Step)
    requires Guarded(mode) && Inv(mode, s) && Enabled(mode, s, step)
    ensures FloorOk(mode, Next(mode, s, step))
  {
    hide Store.UpsertedAll, Store.SetAll, Log.Survivors, Cache.Requeued, Log.Highest;
    var a := s.actors[step.tid];
    assert FloorActor(mode, s, a);
    var s' := Next(mode, s, step);
    if step.AppendOk? {
      FloorAppend(mode, s, step.tid);
    } else if step.Crash? {
    } else if step.SubmitDurable? && mode.atomicRegister {
      FloorRegister(mode, s, s', step.tid, WalRecord(s.next, step.playerId, step.version, step.blob));
    } else if step.Register? {
      FloorRegister(mode, s, s', step.tid, a.rec);
    } else if step.NoteDrained? {
      assert RequestOk(s, a.q[0]);
      FloorLift(mode, s, s', step.tid, Noted(a.q), a.q[0].seqNo);
    } else if step.Unregister? {
      assert Holds(a, a.rec.lsn);
      FloorLift(mode, s, s', step.tid, Idle, a.rec.lsn);
    } else {
      FloorRest(mode, s, step);
    }
  }

  lemma FloorRest(mode: Mode, s: Machine, step: Step)
    requires FloorOk(mode, s) && Enabled(mode, s, step)
    requires !step.AppendOk? && !step.Crash? && !step.Register? && !step.NoteDrained? && !step.Unregister?
    requires step.SubmitDurable? ==> !mode.atomicRegister
    ensures FloorOk(mode, Next(mode, s, step))
  {
    var a := s.actors[step.tid];
    assert FloorActor(mode, s, a);
    if step.Checkpoint? {
      FloorCheckpoint(mode, s, step.tid, a.upTo);
    } else if step.Clamp? && mode.atomicCheckpoint && Lsn.Watermark(s.pending, a.proposed).Some? {
      FloorCheckpoint(mode, s, step.tid, Lsn.Watermark(s.pending, a.proposed).value);
    } else {
      var s' := Next(mode, s, step);
      FloorQuiet(mode, s, s', step.tid, s'.actors[step.tid]);
    }
  }

  lemma InvStep(mode: Mode, s: Machine, step: Step)
    requires Guarded(mode) && Inv(mode, s) && Enabled(mode, s, step)
    ensures Inv(mode, Next(mode, s, step))
  {
    LsnStep(mode, s, step);
    RequestsStep(mode, s, step);
    FloorStep(mode, s, step);
  }

  lemma {:induction false} InvRun(mode: Mode, s: Machine, steps: seq<Step>)
    requires Guarded(mode) && Inv(mode, s) && IsRun(mode, s, steps)
    ensures Inv(mode, After(mode, s, steps))
    decreases |steps|
  {
    if steps != [] {
      InvStep(mode, s, steps[0]);
      InvRun(mode, Next(mode, s, steps[0]), steps[1..]);
    }
  }

  lemma InvStart(mode: Mode, log: Log.Records, store: Store.Table, tids: set<nat>, durable: set<PlayerState>)
    requires Log.DistinctLsns(log)
    ensures Inv(mode, Started(log, store, tids, durable))
  {
    StartedLsns(log, store, tids, durable);
  }

  /** LSNs of all frames are pairwise distinct and below the allocator, whatever the mode. */
  lemma {:induction false} LogLsnsDistinct(mode: Mode, s: Machine, steps: seq<Step>)
    requires LsnOk(s) && IsRun(mode, s, steps)
    ensures LsnOk(After(mode, s, steps))
    decreases |steps|
  {
    if steps != [] {
      LsnStep(mode, s, steps[0]);
      LogLsnsDistinct(mode, Next(mode, s, steps[0]), steps[1..]);
    }
  }

  // ---------------------------------------------------------------- a shed ring copy

  /** Outside the threads in `but`, no copy of `rec` is on its way to the cache. */
  ghost predicate NoCopy(s: Machine, rec: WalRecord, but: set<nat>) {
    && (forall req :: req in s.ring ==> req.seqNo != rec.lsn)
    && (forall t, req :: t in s.actors && t !in but && req in InHand(s.actors[t]) ==> req.seqNo != rec.lsn)
  }

  ghost predicate Stranded(s: Machine, rec: WalRecord, but: set<nat>) {
    rec in s.appended && rec.lsn in s.pending && NoCopy(s, rec, but)
  }

  /** A thread that has logged its record holds the only copy, and the record is pending. */
  ghost predicate LoggedOk(s: Machine) {
    forall t :: t in s.actors && s.actors[t].Logged? ==> Stranded(s, s.actors[t].rec, {t})
  }

  lemma StrandedStep(mode: Mode, s: Machine, step: Step, rec: WalRecord, but: set<nat>)
    requires LsnOk(s) && Stranded(s, rec, but) && Enabled(mode, s, step) && !step.Crash? && step.tid !in but
    ensures Stranded(Next(mode, s, step), rec, but)
  {
    hide LsnOk, Stranded;
    if step.AppendOk? && s.actors[step.tid].Registered? {
      StrandedLogged(s, step.tid, rec, but);
    } else if ByCaller(step) {
      StrandedCaller(mode, s, step, rec, but);
    } else {
      StrandedFlush(mode, s, step, rec, but);
    }
  }

  lemma StrandedFrame(s: Machine, s': Machine, tid: nat, a: Actor, rec: WalRecord, but: set<nat>)
    requires Stranded(s, rec, but) && tid in s.actors && tid !in but && s'.actors == s.actors[tid := a]
    requires s'.appended == s.appended && rec.lsn in s'.pending
    requires forall req :: req in s'.ring || req in InHand(a) ==>
               req in s.ring || req in InHand(s.actors[tid]) || req.seqNo != rec.lsn
    ensures Stranded(s', rec, but)
  {
  }

  lemma StrandedPending(s: Machine, rec: WalRecord, but: set<nat>)
    requires Stranded(s, rec, but)
    ensures rec.lsn in s.pending && (forall req :: req in s.ring ==> req.seqNo != rec.lsn)
    ensures forall t, req :: t in s.actors && t !in but && req in InHand(s.actors[t]) ==> req.seqNo != rec.lsn
  {
  }

  lemma StrandedLogged(s: Machine, tid: nat, rec: WalRecord, but: set<nat>)
    requires LsnOk(s) && Stranded(s, rec, but) && tid in s.actors && tid !in but && s.actors[tid].Registered?
    ensures Stranded(DurableAppended(s, tid), rec, but)
  {
    assert ActorLsns(s, s.actors[tid]) && Holds(s.actors[tid], s.actors[tid].rec.lsn);
  }

  lemma StrandedCaller(mode: Mode, s: Machine, step: Step, rec: WalRecord, but: set<nat>)
    requires LsnOk(s) && Stranded(s, rec, but) && Enabled(mode, s, step) && ByCaller(step) && step.tid !in but
    ensures Stranded(Next(mode, s, step), rec, but)
  {
    var s' := Next(mode, s, step);
    assert ActorLsns(s, s.actors[step.tid]);
    if step.Unregister? {
      assert Holds(s.actors[step.tid], s.actors[step.tid].rec.lsn);
    }
    StrandedFrame(s, s', step.tid, s'.actors[step.tid], rec, but);
  }

  lemma StrandedFlush(mode: Mode, s: Machine, step: Step, rec: WalRecord, but: set<nat>)
    requires Stranded(s, rec, but) && Enabled(mode, s, step) && !step.Crash? && !ByCaller(step) && step.tid !in but
    requires step.AppendOk? ==> s.actors[step.tid].Stamped?
    ensures Stranded(Next(mode, s, step), rec, but)
  {
    hide Stranded, Store.UpsertedAll, Store.SetAll, Log.Survivors, Log.Highest, Cache.Requeued, Cache.Applied,
      Cache.Cleaned, Lsn.Watermark, RecordsOf, StatesOf;
    var s' := Next(mode, s, step);
    StrandedPending(s, rec, but);
    StrandedFrame(s, s', step.tid, s'.actors[step.tid], rec, but);
  }

  /** What a successful append leaves: the only copy is in the appending thread's hand. */
  lemma LoggedNow(mode: Mode, s: Machine, tid: nat)
    requires LsnOk(s) && RequestsOk(s) && FloorOk(mode, s) && tid in s.actors && s.actors[tid].Registered?
    ensures Stranded(DurableAppended(s, tid), s.actors[tid].rec, {tid})
  {
    var rec := s.actors[tid].rec;
    assert FloorActor(mode, s, s.actors[tid]) && Holds(s.actors[tid], rec.lsn);
    forall req | req in s.ring ensures req.seqNo != rec.lsn {
      assert RequestOk(s, req);
    }
    forall t, req | t in s.actors && req in InHand(s.actors[t]) ensures req.seqNo != rec.lsn {
      assert RequestOk(s, req);
    }
  }

  lemma LoggedStep(mode: Mode, s: Machine, step: Step)
    requires Inv(mode, s) && LoggedOk(s) && Enabled(mode, s, step)
    ensures LoggedOk(Next(mode, s, step))
  {
    hide Stranded, LsnOk, RequestsOk, FloorOk;
    var s' := Next(mode, s, step);
    forall t | t in s'.actors && s'.actors[t].Logged? ensures Stranded(s', s'.actors[t].rec, {t}) {
      ActsLogged(mode, s, step, t);
      if t == step.tid {
        LoggedNow(mode, s, t);
      } else {
        StrandedStep(mode, s, step, s.actors[t].rec, {t});
      }
    }
  }

  /** Only the append makes a thread `Logged`, and a restart leaves no such thread. */
  lemma ActsLogged(mode: Mode, s: Machine, step: Step, t: nat)
    requires Enabled(mode, s, step)
    requires var s' := Next(mode, s, step); t in s'.actors && s'.actors[t].Logged?
    ensures !step.Crash? && t in s.actors
    ensures t == step.tid ==> step.AppendOk? && s.actors[t].Registered?
                              && Next(mode, s, step) == DurableAppended(s, t)
                              && Next(mode, s, step).actors[t].rec == s.actors[t].rec
    ensures t != step.tid ==> Next(mode, s, step).actors[t] == s.actors[t]
  {
    ActsAlone(mode, s, step);
    if t == step.tid {
      BecomesLogged(mode, s, step);
    }
    hide Next;
  }

  lemma ActsAlone(mode: Mode, s: Machine, step: Step)
    requires Enabled(mode, s, step)
    ensures var s' := Next(mode, s, step);
            if step.Crash? then forall t :: t in s'.actors ==> s'.actors[t].Idle?
            else step.tid in s'.actors && s'.actors == s.actors[step.tid := s'.actors[step.tid]]
  {
    hide Store.UpsertedAll, Store.SetAll, Log.Survivors, Log.Highest, Log.Replay, Cache.Requeued, Cache.Applied,
      Cache.Cleaned, Lsn.Watermark;
  }

  lemma BecomesLogged(mode: Mode, s: Machine, step: Step)
    requires Enabled(mode, s, step) && step.tid in Next(mode, s, step).actors
    requires Next(mode, s, step).actors[step.tid].Logged?
    ensures step.AppendOk? && s.actors[step.tid].Registered? && Next(mode, s, step) == DurableAppended(s, step.tid)
    ensures Next(mode, s, step).actors[step.tid].rec == s.actors[step.tid].rec
  {
    hide Store.UpsertedAll, Store.SetAll, Log.Survivors, Log.Highest, Log.Replay, Cache.Requeued, Cache.Applied,
      Cache.Cleaned, Lsn.Watermark;
  }

  lemma {:induction false} LoggedRun(mode: Mode, s: Machine, steps: seq<Step>)
    requires Guarded(mode) && Inv(mode, s) && LoggedOk(s) && IsRun(mode, s, steps)
    ensures Inv(mode, After(mode, s, steps)) && LoggedOk(After(mode, s, steps))
    decreases |steps|
  {
    if steps != [] {
      InvStep(mode, s, steps[0]);
      LoggedStep(mode, s, steps[0]);
      LoggedRun(mode, Next(mode, s, steps[0]), steps[1..]);
    }
  }

  /** The ring is full, or the thread gives up its copy: the step that sheds it strands the record. */
  lemma ShedStrands(mode: Mode, s: Machine, tid: nat)
    requires LoggedOk(s) && tid in s.actors && s.actors[tid].Logged?
    ensures Enabled(mode, s, Offer(tid, false))
    ensures Stranded(Next(mode, s, Offer(tid, false)), s.actors[tid].rec, {})
  {
  }

  ghost predicate NoCrash(steps: seq<Step>) {
    forall i :: 0 <= i < |steps| ==> !steps[i].Crash?
  }

  lemma {:induction false} StrandedRun(mode: Mode, s: Machine, steps: seq<Step>, rec: WalRecord)
    requires Guarded(mode) && Inv(mode, s) && Stranded(s, rec, {}) && IsRun(mode, s, steps) && NoCrash(steps)
    ensures Inv(mode, After(mode, s, steps)) && Stranded(After(mode, s, steps), rec, {})
    decreases |steps|
  {
    hide Stranded, Inv;
    if steps != [] {
      InvStep(mode, s, steps[0]);
      InvLsns(mode, s);
      StrandedStep(mode, s, steps[0], rec, {});
      StrandedRun(mode, Next(mode, s, steps[0]), steps[1..], rec);
    }
  }

  lemma InvLsns(mode: Mode, s: Machine)
    requires Inv(mode, s)
    ensures LsnOk(s)
  {
  }

  /**
   A durable write whose ring copy was shed is never checkpointed away.  From any start, after any
   run, shed a logged record's copy and go on without a crash: the frame is still in the log under a
   pending LSN, and a kill now, whatever part of whichever append it cuts, rebuilds the write into the
   cache.
   */
  lemma ShedWriteSurvives(mode: Mode, log: Log.Records, store: Store.Table, tids: set<nat>,
                          before: seq<Step>, tid: nat, after: seq<Step>)
    requires Guarded(mode) && Log.DistinctLsns(log) && IsRun(mode, Started(log, store, tids, {}), before)
    requires var s := After(mode, Started(log, store, tids, {}), before);
             && tid in s.actors && s.actors[tid].Logged?
             && IsRun(mode, Next(mode, s, Offer(tid, false)), after) && NoCrash(after)
    ensures var s := After(mode, Started(log, store, tids, {}), before);
            var rec, s' := s.actors[tid].rec, After(mode, Next(mode, s, Offer(tid, false)), after);
            && rec in s'.log && rec.lsn in s'.pending
            && forall t, written: nat :: t in s'.actors && written <= |Writing(s'.actors[t])| ==>
                 Cache.Covers(Log.Replay(s'.log + Writing(s'.actors[t])[..written]), rec.playerId, rec.version)
  {
    var s0 := Started(log, store, tids, {});
    InvStart(mode, log, store, tids, {});
    LoggedRun(mode, s0, before);
    var s := After(mode, s0, before);
    var rec := s.actors[tid].rec;
    ShedStrands(mode, s, tid);
    InvStep(mode, s, Offer(tid, false));
    StrandedRun(mode, Next(mode, s, Offer(tid, false)), after, rec);
    var s' := After(mode, Next(mode, s, Offer(tid, false)), after);
    forall t, written: nat | t in s'.actors && written <= |Writing(s'.actors[t])|
      ensures Cache.Covers(Log.Replay(s'.log + Writing(s'.actors[t])[..written]), rec.playerId, rec.version)
    {
      RebuiltFrom(s'.log, Writing(s'.actors[t])[..written], rec);
    }
  }

  lemma RebuiltFrom(log: Log.Records, more: Log.Records, rec: WalRecord)
    requires rec in log
    ensures Cache.Covers(Log.Replay(log + more), rec.playerId, rec.version)
  {
    Log.ReplayMeaning(log + more);
    assert rec in log + more;
    assert Log.Covers(log + more, rec.playerId, rec.version);
  }
}
