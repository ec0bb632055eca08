/**
 What holds of every state whatever the hypotheses: the ring stays within its capacity, and no call is
 ever stuck, since from any state each thread can end its call by its own steps alone.
 */
module PipelineProgress {
  import opened Domain
  import opened Pipeline
  import opened PipelineWitness
  import Cache
  import Log
  import Lsn
  import Store

  /** The ring holds what it may, and a thread in the middle of a drain has a request in hand. */
  ghost predicate Working(mode: Mode, s: Machine) {
    && |s.ring| <= mode.ringCap
    && forall t :: t in s.actors && Draining(s.actors[t]) ==> s.actors[t].q != []
  }

  predicate Draining(a: Actor) {
    a.Filling? || a.Applying? || a.Noted?
  }

  lemma WorkingStep(mode: Mode, s: Machine, step: Step)
    requires Working(mode, s) && Enabled(mode, s, step)
    ensures Working(mode, Next(mode, s, step))
  {
    hide Store.UpsertedAll, Store.SetAll, Log.Survivors, Log.Highest, Log.Replay, Cache.Requeued, Cache.Applied,
      Cache.Cleaned, Lsn.Watermark, RecordsOf, StatesOf;
  }

  lemma {:induction false} WorkingRun(mode: Mode, s: Machine, steps: seq<Step>)
    requires Working(mode, s) && IsRun(mode, s, steps)
    ensures Working(mode, After(mode, s, steps))
    decreases |steps|
  {
    hide Working, Next, Enabled;
    if steps != [] {
      WorkingStep(mode, s, steps[0]);
      WorkingRun(mode, Next(mode, s, steps[0]), steps[1..]);
    }
  }

  /** `tid` has ended its call, and no other thread has moved. */
  ghost predicate Ended(s: Machine, s': Machine, tid: nat) {
    IdleAt(s', tid) && s'.actors == s.actors[tid := Idle]
  }

  /** One more step of `tid` before an end. */
  lemma StepThenEnd(mode: Mode, s: Machine, step: Step, s': Machine)
    requires Enabled(mode, s, step) && !step.Crash?
    requires Reaches(mode, Next(mode, s, step), s') && Ended(Next(mode, s, step), s', step.tid)
    ensures Reaches(mode, s, s') && Ended(s, s', step.tid)
  {
    hide Reaches;
    OneStep(mode, s, step);
    Then(mode, s, Next(mode, s, step), s');
    OnlyItself(mode, s, step);
  }

  ghost predicate MovesAlone(s: Machine, s': Machine, tid: nat) {
    tid in s'.actors && s'.actors == s.actors[tid := s'.actors[tid]]
  }

  lemma OnlyItself(mode: Mode, s: Machine, step: Step)
    requires Enabled(mode, s, step) && !step.Crash?
    ensures MovesAlone(s, Next(mode, s, step), step.tid)
  {
    hide Next, MovesAlone;
    if ByCaller(step) || step.AppendOk? {
      CallerAlone(mode, s, step);
    } else if step.Clamp? || step.Checkpoint? || step.SkipCheckpoint? || step.Persist? {
      StoreAlone(mode, s, step);
    } else {
      FlushAlone(mode, s, step);
    }
  }

  lemma CallerAlone(mode: Mode, s: Machine, step: Step)
    requires Enabled(mode, s, step) && (ByCaller(step) || step.AppendOk?)
    ensures MovesAlone(s, Next(mode, s, step), step.tid)
  {
    hide Log.Highest, RecordsOf;
  }

  lemma StoreAlone(mode: Mode, s: Machine, step: Step)
    requires Enabled(mode, s, step)
    requires step.Clamp? || step.Checkpoint? || step.SkipCheckpoint? || step.Persist?
    ensures MovesAlone(s, Next(mode, s, step), step.tid)
  {
    hide Store.UpsertedAll, Store.SetAll, Log.Survivors, Log.Highest, Lsn.Watermark;
  }

  lemma FlushAlone(mode: Mode, s: Machine, step: Step)
    requires Enabled(mode, s, step) && !step.Crash? && !ByCaller(step) && !step.AppendOk?
    requires !step.Clamp? && !step.Checkpoint? && !step.SkipCheckpoint? && !step.Persist?
    ensures MovesAlone(s, Next(mode, s, step), step.tid)
  {
    hide Cache.Requeued, Cache.Applied, Cache.Cleaned, StatesOf;
  }

  lemma LastStep(mode: Mode, s: Machine, step: Step) returns (s': Machine)
    requires Enabled(mode, s, step) && !step.Crash? && IdleAt(Next(mode, s, step), step.tid)
    ensures Reaches(mode, s, s') && Ended(s, s', step.tid)
  {
    hide Reaches;
    s' := Next(mode, s, step);
    OneStep(mode, s, step);
    OnlyItself(mode, s, step);
  }

  /** How many more steps of its own a call needs when every call into log and store fails. */
  function Distance(a: Actor): nat {
    match a
    case Idle => 0
    case Minted(_) => 1
    case Allocated(_) => 3
    case Registered(_) => 2
    case Failed(_) => 1
    case Logged(_) => 1
    case Filling(q) => 2 * |q|
    case Applying(q) => 2 * |q|
    case Noted(q) => if q == [] then 0 else 2 * |q| - 1
    case Taken(_) => 2
    case Stamped(_, _) => 1
    case Appended(_, _) => 1
    case Persisted(_) => 1
    case Clamped(_) => 1
  }

  /** The step a thread takes when nothing it calls succeeds. */
  function WayOut(a: Actor, tid: nat): Step
    requires !a.Idle?
  {
    match a
    case Minted(_) => Offer(tid, false)
    case Allocated(_) => Register(tid)
    case Registered(_) => AppendFails(tid)
    case Failed(_) => Unregister(tid)
    case Logged(_) => Offer(tid, false)
    case Filling(_) => NoteDrained(tid)
    case Applying(_) => NoteDrained(tid)
    case Noted(_) => ApplyNext(tid)
    case Taken(_) => Stamp(tid)
    case Stamped(_, _) => AppendFails(tid)
    case Appended(_, _) => GiveUp(tid)
    case Persisted(_) => SkipCheckpoint(tid)
    case Clamped(_) => SkipCheckpoint(tid)
  }

  lemma WayOutCloser(mode: Mode, s: Machine, tid: nat)
    requires Working(mode, s) && tid in s.actors && !s.actors[tid].Idle?
    ensures var step := WayOut(s.actors[tid], tid);
            && step.tid == tid && !step.Crash? && Enabled(mode, s, step)
            && tid in Next(mode, s, step).actors
            && Distance(Next(mode, s, step).actors[tid]) < Distance(s.actors[tid])
  {
    hide Store.UpsertedAll, Store.SetAll, Log.Survivors, Log.Highest, Log.Replay, Cache.Requeued, Cache.Applied,
      Cache.Cleaned, Lsn.Watermark, RecordsOf, StatesOf;
  }

  lemma {:induction false} EndFrom(mode: Mode, s: Machine, tid: nat) returns (s': Machine)
    requires Working(mode, s) && tid in s.actors && !s.actors[tid].Idle?
    ensures Reaches(mode, s, s') && Ended(s, s', tid)
    decreases Distance(s.actors[tid])
  {
    hide Reaches, Working, Next, Enabled, Distance, WayOut, Ended;
    var step := WayOut(s.actors[tid], tid);
    WayOutCloser(mode, s, tid);
    if Next(mode, s, step).actors[tid].Idle? {
      s' := LastStep(mode, s, step);
    } else {
      WorkingStep(mode, s, step);
      s' := EndFrom(mode, Next(mode, s, step), tid);
      StepThenEnd(mode, s, step, s');
    }
  }

  /**
   In every state of every run, from any start and under any hypotheses, the ring is within its capacity
   and every thread can end its call by its own steps, even if every call into log and
   store fails from here on.
   */
  lemma CallsCanEnd(mode: Mode, log: Log.Records, store: Store.Table, tids: set<nat>, steps: seq<Step>, tid: nat)
    returns (s': Machine)
    requires IsRun(mode, Started(log, store, tids, {}), steps)
    requires tid in After(mode, Started(log, store, tids, {}), steps).actors
    ensures var s := After(mode, Started(log, store, tids, {}), steps);
            |s.ring| <= mode.ringCap && Reaches(mode, s, s') && Ended(s, s', tid)
  {
    hide Log.Replay;
    WorkingRun(mode, Started(log, store, tids, {}), steps);
    s' := After(mode, Started(log, store, tids, {}), steps);
    if s'.actors[tid].Idle? {
      assert IsRun(mode, s', []) && s'.actors == s'.actors[tid := Idle];
    } else {
      s' := EndFrom(mode, s', tid);
    }
  }
}
