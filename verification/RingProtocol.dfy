/**
 The lock-free ring as a step machine.

 Any number of threads run `try_enqueue` and `try_dequeue` at once.  Every atomic load, every
 compare-and-swap, every payload access and every stamp store is a step of its own, and the
 threads interleave arbitrarily under sequential consistency.  Positions are naturals, so the
 machine does not wrap at 2^64.
 */
module RingProtocol {
  import opened Prelude

  /** Where one thread stands between two atomic actions. */
  datatype Thread<T> =
    | Idle
    | EnqLoad(req: T)                  // about to load `enqueue_pos`
    | EnqStamp(req: T, pos: nat)       // about to load the cell's stamp
    | EnqCas(req: T, pos: nat)         // saw stamp == pos, about to CAS `enqueue_pos`
    | EnqWrite(req: T, pos: nat)       // won `pos`, about to write the payload
    | EnqPublish(req: T, pos: nat)     // about to store stamp pos + 1
    | DeqLoad                          // about to load `dequeue_pos`
    | DeqStamp(pos: nat)               // about to load the cell's stamp
    | DeqCas(pos: nat)                 // saw stamp == pos + 1, about to CAS `dequeue_pos`
    | DeqRead(pos: nat)                // won `pos`, about to move the payload out
    | DeqFree(pos: nat, got: Option<T>) // about to store stamp pos + mask + 1

  /**
   The shared ring, the threads, and two histories that no step reads: `claimed[p]` is the
   request whose producer won position p, and `returned` lists what consumers handed back.
   A slot is `None` while its memory is uninitialised or moved out.
   */
  datatype Ring<T> = Ring(
    cap: nat,
    stamps: seq<nat>,
    slots: seq<Option<T>>,
    enq: nat,
    deq: nat,
    threads: map<nat, Thread<T>>,
    claimed: seq<T>,
    returned: seq<(nat, Option<T>)>)

  /** One scheduling choice. `SpuriousCas` is the failure `compare_exchange_weak` allows itself. */
  datatype Step<T> =
    | CallEnqueue(tid: nat, req: T)
    | CallDequeue(tid: nat)
    | Advance(tid: nat)
    | SpuriousCas(tid: nat)

  function New<T>(cap: nat, tids: set<nat>): Ring<T>
    requires cap >= 1
  {
    Ring(cap, seq(cap, i => i), seq(cap, i => None), 0, 0, map t | t in tids :: Idle, [], [])
  }

  ghost predicate WellSized<T>(s: Ring<T>) {
    s.cap >= 1 && |s.stamps| == s.cap && |s.slots| == s.cap
  }

  predicate Enabled<T>(s: Ring<T>, step: Step<T>) {
    && step.tid in s.threads
    && var th := s.threads[step.tid];
       match step
       case CallEnqueue(_, _) => th.Idle?
       case CallDequeue(_) => th.Idle?
       case Advance(_) => !th.Idle?
       case SpuriousCas(_) => th.EnqCas? || th.DeqCas?
  }

  function Goto<T>(s: Ring<T>, tid: nat, th: Thread<T>): Ring<T> {
    s.(threads := s.threads[tid := th])
  }

  function Take<T>(s: Ring<T>, step: Step<T>): Ring<T>
    requires WellSized(s) && Enabled(s, step)
  {
    var tid := step.tid;
    match step
    case CallEnqueue(_, req) => Goto(s, tid, EnqLoad(req))
    case CallDequeue(_) => Goto(s, tid, DeqLoad)
    case SpuriousCas(_) =>
      var th := s.threads[tid];
      if th.EnqCas? then Goto(s, tid, EnqStamp(th.req, s.enq)) else Goto(s, tid, DeqStamp(s.deq))
    case Advance(_) =>
      match s.threads[tid]
      case Idle => s
      case EnqLoad(req) => Goto(s, tid, EnqStamp(req, s.enq))
      case EnqStamp(req, pos) =>
        var diff := s.stamps[pos % s.cap] - pos;
        if diff == 0 then Goto(s, tid, EnqCas(req, pos))
        else if diff < 0 then Goto(s, tid, Idle)              // Full: the request is handed back
        else Goto(s, tid, EnqLoad(req))
      case EnqCas(req, pos) =>
        if s.enq == pos
        then Goto(s, tid, EnqWrite(req, pos)).(enq := pos + 1, claimed := s.claimed + [req])
        else Goto(s, tid, EnqStamp(req, s.enq))
      case EnqWrite(req, pos) =>
        Goto(s, tid, EnqPublish(req, pos)).(slots := s.slots[pos % s.cap := Some(req)])
      case EnqPublish(req, pos) =>
        Goto(s, tid, Idle).(stamps := s.stamps[pos % s.cap := pos + 1])
      case DeqLoad => Goto(s, tid, DeqStamp(s.deq))
      case DeqStamp(pos) =>
        var diff := s.stamps[pos % s.cap] - (pos + 1);
        if diff == 0 then Goto(s, tid, DeqCas(pos))
        else if diff < 0 then Goto(s, tid, Idle)              // None
        else Goto(s, tid, DeqLoad)
      case DeqCas(pos) =>
        if s.deq == pos
        then Goto(s, tid, DeqRead(pos)).(deq := pos + 1)
        else Goto(s, tid, DeqStamp(s.deq))
      case DeqRead(pos) =>
        var got := s.slots[pos % s.cap];
        Goto(s, tid, DeqFree(pos, got)).(slots := s.slots[pos % s.cap := None])
      case DeqFree(pos, got) =>
        Goto(s, tid, Idle).(stamps := s.stamps[pos % s.cap := pos + s.cap],
                            returned := s.returned + [(pos, got)])
  }

  ghost predicate IsRun<T>(s: Ring<T>, steps: seq<Step<T>>)
    decreases |steps|
  {
    steps == [] || (WellSized(s) && Enabled(s, steps[0]) && IsRun(Take(s, steps[0]), steps[1..]))
  }

  ghost function After<T>(s: Ring<T>, steps: seq<Step<T>>): Ring<T>
    requires IsRun(s, steps)
    decreases |steps|
  {
    if steps == [] then s else After(Take(s, steps[0]), steps[1..])
  }

  // ---------------------------------------------------------------- the invariant

  predicate Producing<T>(th: Thread<T>, pos: nat) {
    (th.EnqWrite? || th.EnqPublish?) && th.pos == pos
  }

  predicate Consuming<T>(th: Thread<T>, pos: nat) {
    (th.DeqRead? || th.DeqFree?) && th.pos == pos
  }

  /** `th` holds the payload slot of position `pos`: it alone may touch that memory. */
  predicate Owns<T>(th: Thread<T>, pos: nat) {
    Producing(th, pos) || Consuming(th, pos)
  }

  predicate OwnsNothing<T>(th: Thread<T>) {
    !th.EnqWrite? && !th.EnqPublish? && !th.DeqRead? && !th.DeqFree?
  }

  ghost predicate Returned<T>(s: Ring<T>, pos: nat) {
    exists k :: 0 <= k < |s.returned| && s.returned[k].0 == pos
  }

  ghost predicate Producer<T>(s: Ring<T>, pos: nat) {
    exists t :: t in s.threads && Producing(s.threads[t], pos)
  }

  ghost predicate Consumer<T>(s: Ring<T>, pos: nat) {
    exists t :: t in s.threads && Consuming(s.threads[t], pos)
  }

  /** `turn[i]` is the position cell i currently serves. */
  ghost predicate CellOk<T>(s: Ring<T>, turn: seq<nat>, i: nat)
    requires WellSized(s) && |turn| == s.cap && i < s.cap && |s.claimed| == s.enq
  {
    && turn[i] % s.cap == i
    && s.enq <= turn[i] + s.cap
    && turn[i] < s.deq + s.cap
    && (s.stamps[i] == turn[i] || (s.stamps[i] == turn[i] + 1 && turn[i] < s.enq))
    && (s.stamps[i] == turn[i] + 1 && s.deq <= turn[i] ==> s.slots[i] == Some(s.claimed[turn[i]]))
    && (s.stamps[i] == turn[i] && s.enq <= turn[i] ==> s.slots[i] == None)
    && (s.stamps[i] == turn[i] && turn[i] < s.enq ==> Producer(s, turn[i]))
    && (s.stamps[i] == turn[i] + 1 && turn[i] < s.deq ==> Consumer(s, turn[i]))
  }

  ghost predicate CellsOk<T>(s: Ring<T>, turn: seq<nat>)
    requires WellSized(s) && |turn| == s.cap && |s.claimed| == s.enq
  {
    forall i :: 0 <= i < s.cap ==> CellOk(s, turn, i)
  }

  ghost predicate ThreadOk<T>(s: Ring<T>, turn: seq<nat>, th: Thread<T>)
    requires WellSized(s) && |turn| == s.cap && |s.claimed| == s.enq && s.deq <= s.enq
  {
    match th
    case Idle => true
    case EnqLoad(_) => true
    case EnqStamp(_, pos) => pos <= s.enq
    case EnqCas(_, pos) =>
      var i := pos % s.cap;
      pos <= s.enq && (pos == s.enq ==> s.stamps[i] == pos && turn[i] == pos)
    case EnqWrite(req, pos) =>
      var i := pos % s.cap;
      && s.deq <= pos < s.enq && turn[i] == pos && s.stamps[i] == pos
      && s.claimed[pos] == req && s.slots[i] == None
    case EnqPublish(req, pos) =>
      var i := pos % s.cap;
      && s.deq <= pos < s.enq && turn[i] == pos && s.stamps[i] == pos
      && s.claimed[pos] == req && s.slots[i] == Some(req)
    case DeqLoad => true
    case DeqStamp(pos) => pos <= s.deq
    case DeqCas(pos) =>
      var i := pos % s.cap;
      pos <= s.deq && (pos == s.deq ==> s.stamps[i] == pos + 1 && turn[i] == pos)
    case DeqRead(pos) =>
      var i := pos % s.cap;
      && pos < s.deq && turn[i] == pos && s.stamps[i] == pos + 1
      && s.slots[i] == Some(s.claimed[pos])
    case DeqFree(pos, got) =>
      var i := pos % s.cap;
      && pos < s.deq && turn[i] == pos && s.stamps[i] == pos + 1
      && s.slots[i] == None && got == Some(s.claimed[pos])
  }

  ghost predicate ThreadsOk<T>(s: Ring<T>, turn: seq<nat>)
    requires WellSized(s) && |turn| == s.cap && |s.claimed| == s.enq && s.deq <= s.enq
  {
    forall t :: t in s.threads ==> ThreadOk(s, turn, s.threads[t])
  }

  ghost predicate ExclusiveOwners<T>(s: Ring<T>) {
    forall t, u, p ::
      t in s.threads && u in s.threads && Owns(s.threads[t], p) && Owns(s.threads[u], p) ==> t == u
  }

  /** Threads that own positions of the same cell, on whatever laps, are the same thread. */
  ghost predicate ExclusiveCells<T>(s: Ring<T>)
    requires s.cap > 0
  {
    forall t, u, p: nat, q: nat ::
      t in s.threads && u in s.threads && Owns(s.threads[t], p) && Owns(s.threads[u], q) && p % s.cap == q % s.cap ==>
        t == u
  }

  ghost predicate HistoryOk<T>(s: Ring<T>)
    requires |s.claimed| == s.enq && s.deq <= s.enq
  {
    && (forall k :: 0 <= k < |s.returned| ==>
          && s.returned[k].0 < s.deq
          && s.returned[k].1 == Some(s.claimed[s.returned[k].0])
          && !Consumer(s, s.returned[k].0))
    && (forall j, k :: 0 <= j < k < |s.returned| ==> s.returned[j].0 != s.returned[k].0)
    && (forall p: nat :: p < s.deq ==> Returned(s, p) || Consumer(s, p))
  }

  ghost predicate InvAt<T>(s: Ring<T>, turn: seq<nat>) {
    && s.cap >= 2 && WellSized(s) && |turn| == s.cap
    && |s.claimed| == s.enq && s.deq <= s.enq <= s.deq + s.cap
    && CellsOk(s, turn)
    && ThreadsOk(s, turn)
    && ExclusiveOwners(s)
    && HistoryOk(s)
  }

  ghost predicate Inv<T>(s: Ring<T>) {
    exists turn :: InvAt(s, turn)
  }

  // ---------------------------------------------------------------- preservation

  lemma InvInit<T>(cap: nat, tids: set<nat>)
    requires cap >= 2
    ensures Inv(New<T>(cap, tids))
  {
    var s := New<T>(cap, tids);
    var turn := seq(cap, i => i);
    assert CellsOk(s, turn) by {
      forall i | 0 <= i < cap ensures CellOk(s, turn, i) {
        SameCell(i % cap, i, cap);
      }
    }
    assert ThreadsOk(s, turn);
    assert ExclusiveOwners(s);
    assert HistoryOk(s);
    assert InvAt(s, turn);
  }

  /** A position below `enq` and not yet consumed is the one its cell serves. */
  lemma LiveTurn<T>(s: Ring<T>, turn: seq<nat>, pos: nat)
    requires InvAt(s, turn) && s.deq <= pos < s.enq
    ensures turn[pos % s.cap] == pos
  {
    assert CellOk(s, turn, pos % s.cap);
    var q := turn[pos % s.cap];
    assert pos < s.deq + s.cap && s.enq <= q + s.cap;
    SameCell(q, pos, s.cap);
  }

  /** A matching stamp identifies the position the cell serves; this is where cap >= 2 is needed. */
  lemma StampTurn<T>(s: Ring<T>, turn: seq<nat>, pos: nat)
    requires InvAt(s, turn)
    ensures s.stamps[pos % s.cap] == pos ==> turn[pos % s.cap] == pos
    ensures s.stamps[pos % s.cap] == pos + 1 ==> turn[pos % s.cap] == pos
  {
    var i := pos % s.cap;
    assert CellOk(s, turn, i);
    if s.stamps[i] == pos && turn[i] != pos {
      NextCell(turn[i], s.cap);
    }
    if s.stamps[i] == pos + 1 && turn[i] != pos {
      NextCell(pos, s.cap);
    }
  }

  /** The winning compare-and-swap of a producer. */
  lemma PreserveClaim<T>(s: Ring<T>, turn: seq<nat>, tid: nat)
    requires InvAt(s, turn) && tid in s.threads
    requires s.threads[tid].EnqCas? && s.threads[tid].pos == s.enq
    ensures InvAt(Take(s, Advance(tid)), turn)
  {
    var s' := Take(s, Advance(tid));
    ClaimCells(s, turn, tid);
    ClaimThreads(s, turn, tid);
    UnclaimedUnowned(s, turn, s.enq);
    assert CellOk(s, turn, s.enq % s.cap) && ThreadOk(s, turn, s.threads[tid]);
    assert ExclusiveOwners(s');
    KeepHistory(s, s', tid);
  }

  lemma UnclaimedUnowned<T>(s: Ring<T>, turn: seq<nat>, pos: nat)
    requires InvAt(s, turn) && s.enq <= pos
    ensures forall t :: t in s.threads ==> !Owns(s.threads[t], pos)
  {
    forall t | t in s.threads ensures !Owns(s.threads[t], pos) {
      assert ThreadOk(s, turn, s.threads[t]);
    }
  }

  lemma ClaimCells<T>(s: Ring<T>, turn: seq<nat>, tid: nat)
    requires InvAt(s, turn) && tid in s.threads
    requires s.threads[tid].EnqCas? && s.threads[tid].pos == s.enq
    ensures CellsOk(Take(s, Advance(tid)), turn)
  {
    var s' := Take(s, Advance(tid));
    var pos, i := s.enq, s.enq % s.cap;
    assert ThreadOk(s, turn, s.threads[tid]);
    assert CellOk(s, turn, i);
    assert Producing(s'.threads[tid], pos);
    KeepOwners(s, s', tid);
    forall j | 0 <= j < s.cap ensures CellOk(s', turn, j) {
      assert CellOk(s, turn, j);
      if s.enq == turn[j] + s.cap {
        NextLap(turn[j], s.cap);
      }
      if j != i {
        assert turn[j] != pos;
      }
    }
  }

  lemma ClaimThreads<T>(s: Ring<T>, turn: seq<nat>, tid: nat)
    requires InvAt(s, turn) && tid in s.threads
    requires s.threads[tid].EnqCas? && s.threads[tid].pos == s.enq
    ensures ThreadsOk(Take(s, Advance(tid)), turn)
  {
    var s' := Take(s, Advance(tid));
    assert ThreadOk(s, turn, s.threads[tid]);
    assert CellOk(s, turn, s.enq % s.cap);
    forall t | t in s'.threads ensures ThreadOk(s', turn, s'.threads[t]) {
      assert ThreadOk(s, turn, s.threads[t]);
    }
  }

  /** Owners other than `tid` are untouched by a step of `tid` from a state where it owns nothing. */
  lemma KeepOwners<T>(s: Ring<T>, s': Ring<T>, tid: nat)
    requires tid in s.threads && s'.threads.Keys == s.threads.Keys
    requires forall t :: t in s.threads && t != tid ==> s'.threads[t] == s.threads[t]
    requires forall p: nat :: Producing(s.threads[tid], p) ==> Producing(s'.threads[tid], p)
    requires forall p: nat :: Consuming(s.threads[tid], p) ==> Consuming(s'.threads[tid], p)
    ensures forall p: nat :: Producer(s, p) ==> Producer(s', p)
    ensures forall p: nat :: Consumer(s, p) ==> Consumer(s', p)
  {
    forall p: nat | Producer(s, p) ensures Producer(s', p) {
      var t :| t in s.threads && Producing(s.threads[t], p);
      assert Producing(s'.threads[t], p);
    }
    forall p: nat | Consumer(s, p) ensures Consumer(s', p) {
      var t :| t in s.threads && Consuming(s.threads[t], p);
      assert Consuming(s'.threads[t], p);
    }
  }

  /** A step that neither starts nor ends a consumer keeps the history facts. */
  lemma KeepHistory<T>(s: Ring<T>, s': Ring<T>, tid: nat)
    requires |s.claimed| == s.enq && s.deq <= s.enq && HistoryOk(s)
    requires tid in s.threads && s'.threads.Keys == s.threads.Keys
    requires forall t :: t in s.threads && t != tid ==> s'.threads[t] == s.threads[t]
    requires forall p: nat :: Consuming(s.threads[tid], p) <==> Consuming(s'.threads[tid], p)
    requires s'.deq == s.deq && s'.returned == s.returned
    requires s'.enq == |s'.claimed| && s.claimed <= s'.claimed
    ensures HistoryOk(s')
  {
    forall p: nat ensures Consumer(s, p) <==> Consumer(s', p) {
      if Consumer(s, p) {
        var t :| t in s.threads && Consuming(s.threads[t], p);
        assert Consuming(s'.threads[t], p);
      }
      if Consumer(s', p) {
        var t :| t in s'.threads && Consuming(s'.threads[t], p);
        assert Consuming(s.threads[t], p);
      }
    }
    forall p: nat | p < s'.deq ensures Returned(s', p) || Consumer(s', p) {
      assert Returned(s, p) || Consumer(s, p);
    }
  }

  /** Steps that only move one thread between states in which it owns nothing. */
  lemma PreserveLocal<T>(s: Ring<T>, turn: seq<nat>, tid: nat, th: Thread<T>)
    requires InvAt(s, turn) && tid in s.threads
    requires OwnsNothing(s.threads[tid]) && OwnsNothing(th)
    requires ThreadOk(s, turn, th)
    ensures InvAt(Goto(s, tid, th), turn)
  {
    var s' := Goto(s, tid, th);
    KeepOwners(s, s', tid);
    forall j | 0 <= j < s.cap ensures CellOk(s', turn, j) {
      assert CellOk(s, turn, j);
    }
    forall t | t in s'.threads ensures ThreadOk(s', turn, s'.threads[t]) {
      assert ThreadOk(s, turn, th);
      if t != tid {
        assert ThreadOk(s, turn, s.threads[t]);
      }
    }
    KeepHistory(s, s', tid);
  }

  /** The payload write: nobody else can see that slot. */
  lemma PreserveWrite<T>(s: Ring<T>, turn: seq<nat>, tid: nat)
    requires InvAt(s, turn) && tid in s.threads && s.threads[tid].EnqWrite?
    ensures InvAt(Take(s, Advance(tid)), turn)
  {
    var s' := Take(s, Advance(tid));
    var pos := s.threads[tid].pos;
    var i := pos % s.cap;
    assert ThreadOk(s, turn, s.threads[tid]);
    KeepOwners(s, s', tid);
    forall j | 0 <= j < s.cap ensures CellOk(s', turn, j) {
      assert CellOk(s, turn, j);
    }
    forall t | t in s'.threads ensures ThreadOk(s', turn, s'.threads[t]) {
      assert ThreadOk(s, turn, s.threads[t]);
      if t != tid {
        assert Owns(s.threads[tid], pos);
        assert !Owns(s.threads[t], pos);
      }
    }
    KeepHistory(s, s', tid);
  }

  /** Storing stamp pos + 1 hands the slot to the consumer of `pos`. */
  lemma PreservePublish<T>(s: Ring<T>, turn: seq<nat>, tid: nat)
    requires InvAt(s, turn) && tid in s.threads && s.threads[tid].EnqPublish?
    ensures InvAt(Take(s, Advance(tid)), turn)
  {
    PublishCells(s, turn, tid);
    PublishThreads(s, turn, tid);
    KeepHistory(s, Take(s, Advance(tid)), tid);
  }

  lemma PublishCells<T>(s: Ring<T>, turn: seq<nat>, tid: nat)
    requires InvAt(s, turn) && tid in s.threads && s.threads[tid].EnqPublish?
    ensures CellsOk(Take(s, Advance(tid)), turn)
  {
    var s' := Take(s, Advance(tid));
    var pos := s.threads[tid].pos;
    assert ThreadOk(s, turn, s.threads[tid]);
    forall j | 0 <= j < s.cap ensures CellOk(s', turn, j) {
      assert CellOk(s, turn, j);
      if j != pos % s.cap && Producer(s, turn[j]) {
        var t :| t in s.threads && Producing(s.threads[t], turn[j]);
        assert Producing(s'.threads[t], turn[j]);
      }
      if Consumer(s, turn[j]) {
        var t :| t in s.threads && Consuming(s.threads[t], turn[j]);
        assert Consuming(s'.threads[t], turn[j]);
      }
    }
  }

  lemma PublishThreads<T>(s: Ring<T>, turn: seq<nat>, tid: nat)
    requires InvAt(s, turn) && tid in s.threads && s.threads[tid].EnqPublish?
    ensures ThreadsOk(Take(s, Advance(tid)), turn)
  {
    var s' := Take(s, Advance(tid));
    var pos := s.threads[tid].pos;
    assert ThreadOk(s, turn, s.threads[tid]);
    assert Owns(s.threads[tid], pos);
    forall t | t in s'.threads ensures ThreadOk(s', turn, s'.threads[t]) {
      assert ThreadOk(s, turn, s.threads[t]);
      if t != tid {
        assert !Owns(s.threads[t], pos);
      }
    }
  }

  /** The winning compare-and-swap of a consumer. */
  lemma PreserveTake<T>(s: Ring<T>, turn: seq<nat>, tid: nat)
    requires InvAt(s, turn) && tid in s.threads
    requires s.threads[tid].DeqCas? && s.threads[tid].pos == s.deq
    ensures InvAt(Take(s, Advance(tid)), turn)
  {
    var s' := Take(s, Advance(tid));
    TakeCells(s, turn, tid);
    TakeThreads(s, turn, tid);
    assert ThreadOk(s, turn, s.threads[tid]) && CellOk(s, turn, s.deq % s.cap);
    TakeHistory(s, turn, s', tid);
  }

  lemma TakeCells<T>(s: Ring<T>, turn: seq<nat>, tid: nat)
    requires InvAt(s, turn) && tid in s.threads
    requires s.threads[tid].DeqCas? && s.threads[tid].pos == s.deq
    ensures s.deq < s.enq && CellsOk(Take(s, Advance(tid)), turn)
  {
    var s' := Take(s, Advance(tid));
    var pos := s.deq;
    assert ThreadOk(s, turn, s.threads[tid]);
    assert CellOk(s, turn, pos % s.cap);
    assert Consuming(s'.threads[tid], pos);
    KeepOwners(s, s', tid);
    forall j | 0 <= j < s.cap ensures CellOk(s', turn, j) {
      assert CellOk(s, turn, j);
    }
  }

  lemma TakeThreads<T>(s: Ring<T>, turn: seq<nat>, tid: nat)
    requires InvAt(s, turn) && tid in s.threads && s.deq < s.enq
    requires s.threads[tid].DeqCas? && s.threads[tid].pos == s.deq
    ensures ThreadsOk(Take(s, Advance(tid)), turn)
    ensures forall t :: t in s.threads ==> !Owns(s.threads[t], s.deq)
  {
    var s' := Take(s, Advance(tid));
    assert ThreadOk(s, turn, s.threads[tid]);
    assert CellOk(s, turn, s.deq % s.cap);
    forall t | t in s'.threads
      ensures ThreadOk(s', turn, s'.threads[t]) && !Owns(s.threads[t], s.deq)
    {
      assert ThreadOk(s, turn, s.threads[t]);
    }
  }

  lemma TakeHistory<T>(s: Ring<T>, turn: seq<nat>, s': Ring<T>, tid: nat)
    requires InvAt(s, turn) && tid in s.threads && s.deq < s.enq
    requires s.threads[tid].DeqCas? && s.threads[tid].pos == s.deq
    requires s' == Take(s, Advance(tid))
    requires forall t :: t in s.threads ==> !Owns(s.threads[t], s.deq)
    ensures ExclusiveOwners(s') && HistoryOk(s')
  {
    assert Consuming(s'.threads[tid], s.deq);
    KeepOwners(s, s', tid);
    forall k | 0 <= k < |s'.returned| ensures !Consumer(s', s'.returned[k].0) {
      var p := s'.returned[k].0;
      assert p < s.deq && !Consumer(s, p);
      forall t | t in s'.threads ensures !Consuming(s'.threads[t], p) {
        assert t == tid || !Consuming(s.threads[t], p);
      }
    }
    forall p: nat | p < s'.deq ensures Returned(s', p) || Consumer(s', p) {
      if p < s.deq {
        assert Returned(s, p) || Consumer(s, p);
      }
    }
  }

  /** Moving the payload out of the slot. */
  lemma PreserveRead<T>(s: Ring<T>, turn: seq<nat>, tid: nat)
    requires InvAt(s, turn) && tid in s.threads && s.threads[tid].DeqRead?
    ensures InvAt(Take(s, Advance(tid)), turn)
  {
    var s' := Take(s, Advance(tid));
    var pos := s.threads[tid].pos;
    var i := pos % s.cap;
    assert ThreadOk(s, turn, s.threads[tid]);
    KeepOwners(s, s', tid);
    forall j | 0 <= j < s.cap ensures CellOk(s', turn, j) {
      assert CellOk(s, turn, j);
    }
    forall t | t in s'.threads ensures ThreadOk(s', turn, s'.threads[t]) {
      assert ThreadOk(s, turn, s.threads[t]);
      if t != tid {
        assert Owns(s.threads[tid], pos);
        assert !Owns(s.threads[t], pos);
      }
    }
    KeepHistory(s, s', tid);
  }

  /** Storing stamp pos + cap frees the cell for the next lap and returns the payload. */
  lemma PreserveFree<T>(s: Ring<T>, turn: seq<nat>, tid: nat)
    requires InvAt(s, turn) && tid in s.threads && s.threads[tid].DeqFree?
    ensures var pos := s.threads[tid].pos;
            InvAt(Take(s, Advance(tid)), turn[pos % s.cap := pos + s.cap])
  {
    var s' := Take(s, Advance(tid));
    var pos := s.threads[tid].pos;
    assert ThreadOk(s, turn, s.threads[tid]);
    FreeCells(s, turn, tid);
    FreeThreads(s, turn, tid);
    FreeHistory(s, s', tid, pos);
  }

  lemma FreeCells<T>(s: Ring<T>, turn: seq<nat>, tid: nat)
    requires InvAt(s, turn) && tid in s.threads && s.threads[tid].DeqFree?
    ensures var pos := s.threads[tid].pos;
            CellsOk(Take(s, Advance(tid)), turn[pos % s.cap := pos + s.cap])
  {
    var s' := Take(s, Advance(tid));
    var pos := s.threads[tid].pos;
    var i := pos % s.cap;
    var turn' := turn[i := pos + s.cap];
    NextLap(pos, s.cap);
    assert ThreadOk(s, turn, s.threads[tid]);
    forall j | 0 <= j < s.cap ensures CellOk(s', turn', j) {
      assert CellOk(s, turn, j);
      if Producer(s, turn[j]) {
        var t :| t in s.threads && Producing(s.threads[t], turn[j]);
        assert Producing(s'.threads[t], turn[j]);
      }
      if j != i && Consumer(s, turn[j]) {
        var t :| t in s.threads && Consuming(s.threads[t], turn[j]);
        assert Consuming(s'.threads[t], turn[j]);
      }
    }
  }

  lemma FreeThreads<T>(s: Ring<T>, turn: seq<nat>, tid: nat)
    requires InvAt(s, turn) && tid in s.threads && s.threads[tid].DeqFree?
    ensures var pos := s.threads[tid].pos;
            ThreadsOk(Take(s, Advance(tid)), turn[pos % s.cap := pos + s.cap])
  {
    var s' := Take(s, Advance(tid));
    var pos := s.threads[tid].pos;
    assert ThreadOk(s, turn, s.threads[tid]);
    assert Owns(s.threads[tid], pos);
    forall t | t in s'.threads ensures ThreadOk(s', turn[pos % s.cap := pos + s.cap], s'.threads[t]) {
      assert ThreadOk(s, turn, s.threads[t]);
      if t != tid {
        assert !Owns(s.threads[t], pos);
      }
    }
  }

  lemma FreeHistory<T>(s: Ring<T>, s': Ring<T>, tid: nat, pos: nat)
    requires |s.claimed| == s.enq && s.deq <= s.enq && HistoryOk(s) && ExclusiveOwners(s)
    requires WellSized(s) && tid in s.threads && s.threads[tid].DeqFree? && s.threads[tid].pos == pos
    requires pos < s.deq && s.threads[tid].got == Some(s.claimed[pos])
    requires s' == Take(s, Advance(tid))
    ensures HistoryOk(s')
  {
    assert s'.returned == s.returned + [(pos, s.threads[tid].got)];
    assert s'.threads == s.threads[tid := Idle] && s'.deq == s.deq && s'.enq == s.enq && s'.claimed == s.claimed;
    hide Take;
    assert Consuming(s.threads[tid], pos);
    forall p: nat | Consumer(s', p) ensures Consumer(s, p) && p != pos {
      var t :| t in s'.threads && Consuming(s'.threads[t], p);
      assert Consuming(s.threads[t], p) && Owns(s.threads[t], p);
    }
    forall p: nat | p < s'.deq ensures Returned(s', p) || Consumer(s', p) {
      assert Returned(s, p) || Consumer(s, p);
      if Returned(s, p) {
        var k :| 0 <= k < |s.returned| && s.returned[k].0 == p;
        assert s'.returned[k].0 == p;
      } else if p == pos {
        assert s'.returned[|s.returned|].0 == p;
      } else {
        var t :| t in s.threads && Consuming(s.threads[t], p);
        assert Consuming(s'.threads[t], p);
      }
    }
    assert Consumer(s, pos);
  }

  /** Calls, loads, failed compare-and-swaps and returns of Full or None. */
  lemma PreserveQuiet<T>(s: Ring<T>, turn: seq<nat>, step: Step<T>)
    requires InvAt(s, turn) && Enabled(s, step) && !Acts(s, step)
    ensures InvAt(Take(s, step), turn)
  {
    var th := s.threads[step.tid];
    assert ThreadOk(s, turn, th);
    if th.EnqStamp? || th.DeqStamp? {
      StampTurn(s, turn, th.pos);
    }
    var s' := Take(s, step);
    PreserveLocal(s, turn, step.tid, s'.threads[step.tid]);
    assert s' == Goto(s, step.tid, s'.threads[step.tid]);
  }

  /** The steps that change shared memory. */
  predicate Acts<T>(s: Ring<T>, step: Step<T>)
    requires Enabled(s, step)
  {
    && step.Advance?
    && var th := s.threads[step.tid];
       || (th.EnqCas? && s.enq == th.pos) || (th.DeqCas? && s.deq == th.pos)
       || !OwnsNothing(th)
  }

  /** Every step of every thread keeps the invariant. */
  lemma Preserve<T>(s: Ring<T>, step: Step<T>)
    requires Inv(s) && WellSized(s) && Enabled(s, step)
    ensures Inv(Take(s, step))
  {
    var turn :| InvAt(s, turn);
    var tid := step.tid;
    if !Acts(s, step) {
      PreserveQuiet(s, turn, step);
    } else {
      match s.threads[tid]
      case EnqCas(_, _) => PreserveClaim(s, turn, tid);
      case EnqWrite(_, _) => PreserveWrite(s, turn, tid);
      case EnqPublish(_, _) => PreservePublish(s, turn, tid);
      case DeqCas(_) => PreserveTake(s, turn, tid);
      case DeqRead(_) => PreserveRead(s, turn, tid);
      case DeqFree(_, _) => PreserveFree(s, turn, tid);
    }
  }

  lemma {:induction false} InvAfter<T>(s: Ring<T>, steps: seq<Step<T>>)
    requires Inv(s) && IsRun(s, steps)
    ensures Inv(After(s, steps))
    decreases |steps|
  {
    if steps != [] {
      Preserve(s, steps[0]);
      InvAfter(Take(s, steps[0]), steps[1..]);
    }
  }

  // ---------------------------------------------------------------- what the invariant means

  /** Position `pos` is published and waits in its cell. */
  ghost predicate Waiting<T>(s: Ring<T>, pos: nat)
    requires WellSized(s)
  {
    s.deq <= pos < |s.claimed| && s.stamps[pos % s.cap] == pos + 1
    && s.slots[pos % s.cap] == Some(s.claimed[pos])
  }

  function Count(b: bool): nat {
    if b then 1 else 0
  }

  /** A claimed request is in exactly one place: being written, waiting, being read, or returned. */
  ghost predicate Conserved<T>(s: Ring<T>)
    requires WellSized(s)
  {
    forall p: nat :: p < s.enq ==>
      Count(Producer(s, p)) + Count(Waiting(s, p)) + Count(Consumer(s, p)) + Count(Returned(s, p)) == 1
  }

  /** Each position is handed back at most once, with the payload its producer wrote. */
  ghost predicate Faithful<T>(s: Ring<T>) {
    && |s.claimed| == s.enq
    && (forall k :: 0 <= k < |s.returned| ==>
          s.returned[k].0 < s.deq <= s.enq && s.returned[k].1 == Some(s.claimed[s.returned[k].0]))
    && (forall j, k :: 0 <= j < k < |s.returned| ==> s.returned[j].0 != s.returned[k].0)
  }

  /** A payload write hits dead memory only; a payload read hits exactly the published value. */
  ghost predicate SlotAccessOk<T>(s: Ring<T>, th: Thread<T>)
    requires WellSized(s)
  {
    match th
    case EnqWrite(_, pos) => s.slots[pos % s.cap] == None
    case DeqRead(pos) => pos < |s.claimed| && s.slots[pos % s.cap] == Some(s.claimed[pos])
    case _ => true
  }

  lemma ConservedAt<T>(s: Ring<T>, turn: seq<nat>, p: nat)
    requires InvAt(s, turn) && p < s.enq
    ensures Count(Producer(s, p)) + Count(Waiting(s, p)) + Count(Consumer(s, p)) + Count(Returned(s, p)) == 1
  {
    assert Producer(s, p) ==> s.deq <= p && s.stamps[p % s.cap] == p by {
      if Producer(s, p) {
        var t :| t in s.threads && Producing(s.threads[t], p);
        assert ThreadOk(s, turn, s.threads[t]);
      }
    }
    assert Consumer(s, p) ==> p < s.deq by {
      if Consumer(s, p) {
        var t :| t in s.threads && Consuming(s.threads[t], p);
        assert ThreadOk(s, turn, s.threads[t]);
      }
    }
    if s.deq <= p {
      LiveTurn(s, turn, p);
      assert CellOk(s, turn, p % s.cap);
    }
  }

  /** The cell serves one position at a time, so its owners own the same position. */
  lemma CellsAreExclusive<T>(s: Ring<T>, turn: seq<nat>)
    requires InvAt(s, turn)
    ensures ExclusiveCells(s)
  {
    forall t, u, p: nat, q: nat |
      t in s.threads && u in s.threads && Owns(s.threads[t], p) && Owns(s.threads[u], q) && p % s.cap == q % s.cap
      ensures t == u
    {
      assert ThreadOk(s, turn, s.threads[t]) && ThreadOk(s, turn, s.threads[u]);
      assert turn[p % s.cap] == p && turn[q % s.cap] == q;
    }
  }

  /**
   Safety of the ring for every interleaving of any number of producers and consumers: bounds,
   exclusive slots, no loss, no duplication, payload integrity.
   */
  lemma RingIsSafe<T>(cap: nat, tids: set<nat>, steps: seq<Step<T>>)
    requires cap >= 2 && IsRun(New<T>(cap, tids), steps)
    ensures var s := After(New<T>(cap, tids), steps);
            && WellSized(s) && s.cap == cap
            && s.deq <= s.enq <= s.deq + cap
            && ExclusiveCells(s)
            && (forall t :: t in s.threads ==> SlotAccessOk(s, s.threads[t]))
            && Faithful(s)
            && Conserved(s)
  {
    InvInit<T>(cap, tids);
    InvAfter(New<T>(cap, tids), steps);
    CapFixed(New<T>(cap, tids), steps);
    var s := After(New<T>(cap, tids), steps);
    var turn :| InvAt(s, turn);
    CellsAreExclusive(s, turn);
    forall t | t in s.threads ensures SlotAccessOk(s, s.threads[t]) {
      assert ThreadOk(s, turn, s.threads[t]);
    }
    forall p: nat | p < s.enq
      ensures Count(Producer(s, p)) + Count(Waiting(s, p)) + Count(Consumer(s, p)) + Count(Returned(s, p)) == 1
    {
      ConservedAt(s, turn, p);
    }
  }

  lemma {:induction false} CapFixed<T>(s: Ring<T>, steps: seq<Step<T>>)
    requires IsRun(s, steps)
    ensures After(s, steps).cap == s.cap
    decreases |steps|
  {
    if steps != [] {
      CapFixed(Take(s, steps[0]), steps[1..]);
    }
  }

  /** With every thread idle, positions below `deq` were each returned and the rest wait in order. */
  lemma Quiescent<T>(cap: nat, tids: set<nat>, steps: seq<Step<T>>)
    requires cap >= 2 && IsRun(New<T>(cap, tids), steps)
    requires var s := After(New<T>(cap, tids), steps); forall t :: t in s.threads ==> s.threads[t].Idle?
    ensures var s := After(New<T>(cap, tids), steps);
            && WellSized(s)
            && forall p: nat :: p < s.enq ==> (Returned(s, p) <==> p < s.deq) && (Waiting(s, p) <==> s.deq <= p)
  {
    RingIsSafe(cap, tids, steps);
    var s := After(New<T>(cap, tids), steps);
    forall p: nat | p < s.enq ensures (Returned(s, p) <==> p < s.deq) && (Waiting(s, p) <==> s.deq <= p) {
      assert !Producer(s, p) && !Consumer(s, p);
      assert Count(Producer(s, p)) + Count(Waiting(s, p)) + Count(Consumer(s, p)) + Count(Returned(s, p)) == 1;
    }
  }

  /** The abstract queue: claimed and not yet taken. */
  ghost function Queue<T>(s: Ring<T>): seq<T>
    requires |s.claimed| == s.enq && s.deq <= s.enq
  {
    s.claimed[s.deq..]
  }

  /** A winning compare-and-swap of `try_enqueue`. */
  predicate Enqueues<T>(s: Ring<T>, step: Step<T>)
    requires Enabled(s, step)
  {
    step.Advance? && s.threads[step.tid].EnqCas? && s.threads[step.tid].pos == s.enq
  }

  /** A winning compare-and-swap of `try_dequeue`. */
  predicate Dequeues<T>(s: Ring<T>, step: Step<T>)
    requires Enabled(s, step)
  {
    step.Advance? && s.threads[step.tid].DeqCas? && s.threads[step.tid].pos == s.deq
  }

  lemma EnqueueHasRoom<T>(s: Ring<T>, step: Step<T>)
    requires Inv(s) && WellSized(s) && Enabled(s, step) && Enqueues(s, step) && |s.claimed| == s.enq && s.deq <= s.enq
    ensures |Queue(s)| < s.cap
  {
    var turn :| InvAt(s, turn);
    assert ThreadOk(s, turn, s.threads[step.tid]);
    assert CellOk(s, turn, s.enq % s.cap);
  }

  lemma DequeueHasItem<T>(s: Ring<T>, step: Step<T>)
    requires Inv(s) && WellSized(s) && Enabled(s, step) && Dequeues(s, step) && |s.claimed| == s.enq && s.deq <= s.enq
    ensures |Queue(s)| > 0
  {
    var turn :| InvAt(s, turn);
    assert ThreadOk(s, turn, s.threads[step.tid]);
    assert CellOk(s, turn, s.deq % s.cap);
  }

  lemma CountersOk<T>(s: Ring<T>)
    requires Inv(s)
    ensures |s.claimed| == s.enq && s.deq <= s.enq
  {
  }

  /** What each step does to the counters and to the claimed requests. */
  lemma TakeCounters<T>(s: Ring<T>, step: Step<T>)
    requires WellSized(s) && Enabled(s, step)
    ensures var s' := Take(s, step);
            if Enqueues(s, step) then s'.claimed == s.claimed + [s.threads[step.tid].req] && s'.deq == s.deq
            else if Dequeues(s, step) then s'.claimed == s.claimed && s'.deq == s.deq + 1
            else s'.claimed == s.claimed && s'.deq == s.deq
  {
  }

  /**
   The ring refines a bounded FIFO: the winning producer CAS appends its request to a queue that
   had room, the winning consumer CAS removes the head, and no other step changes the queue.
   */
  lemma RefinesFifo<T>(s: Ring<T>, step: Step<T>)
    requires Inv(s) && WellSized(s) && Enabled(s, step)
    ensures Inv(Take(s, step))
    ensures var th := s.threads[step.tid];
            var q, q' := Queue(s), Queue(Take(s, step));
            if step.Advance? && th.EnqCas? && th.pos == s.enq then
              |q| < s.cap && q' == q + [th.req]
            else if step.Advance? && th.DeqCas? && th.pos == s.deq then
              |q| > 0 && q == [s.claimed[th.pos]] + q'
            else
              q' == q
  {
    hide Inv, Take;
    Preserve(s, step);
    CountersOk(s);
    CountersOk(Take(s, step));
    TakeCounters(s, step);
    if Enqueues(s, step) {
      EnqueueHasRoom(s, step);
    } else if Dequeues(s, step) {
      DequeueHasItem(s, step);
    }
  }

  /** Inside `try_enqueue`, no position claimed yet. */
  predicate Offering<T>(th: Thread<T>) {
    th.EnqLoad? || th.EnqStamp? || th.EnqCas?
  }

  /** Inside `try_dequeue`, no position claimed yet. */
  predicate Asking<T>(th: Thread<T>) {
    th.DeqLoad? || th.DeqStamp? || th.DeqCas?
  }

  /** How close a call is to its claim. */
  function Stage<T>(th: Thread<T>): nat {
    if th.EnqLoad? || th.DeqLoad? then 0 else if th.EnqStamp? || th.DeqStamp? then 1 else 2
  }

  /**
   Any step of a call that has claimed nothing yet gives up, claims the position the shared counter
   shows, or goes on: with the same request, closer to its claim, or back because of a spurious failure
   or because another thread has won the position it was after.  So the algorithm is lock-free, and a
   lost race neither ends a call nor sheds its request.
   */
  lemma RetryMeansProgress<T>(s: Ring<T>, step: Step<T>)
    requires Inv(s) && WellSized(s) && Enabled(s, step)
    ensures var s' := Take(s, step);
            var th, th' := s.threads[step.tid], s'.threads[step.tid];
            && (Offering(th) && !th'.Idle? ==>
                  if th'.EnqWrite? then
                    && th' == EnqWrite(th.req, s.enq) && th.EnqCas? && th.pos == s.enq
                    && s'.enq == s.enq + 1 && s'.claimed == s.claimed + [th.req]
                  else
                    && Offering(th') && th'.req == th.req && s' == s.(threads := s'.threads)
                    && (th'.EnqStamp? ==> th'.pos == s.enq) && (th'.EnqCas? ==> th.EnqStamp? && th'.pos == th.pos)
                    && (Stage(th) < Stage(th') || step.SpuriousCas? || (!th.EnqLoad? && th.pos < s.enq)))
            && (Asking(th) && !th'.Idle? ==>
                  if th'.DeqRead? then
                    th' == DeqRead(s.deq) && th.DeqCas? && th.pos == s.deq && s'.deq == s.deq + 1
                  else
                    && Asking(th') && s' == s.(threads := s'.threads)
                    && (th'.DeqStamp? ==> th'.pos == s.deq) && (th'.DeqCas? ==> th.DeqStamp? && th'.pos == th.pos)
                    && (Stage(th) < Stage(th') || step.SpuriousCas? || (!th.DeqLoad? && th.pos < s.deq)))
  {
    var turn :| InvAt(s, turn);
    var th := s.threads[step.tid];
    assert ThreadOk(s, turn, th);
    if th.EnqStamp? || th.DeqStamp? {
      assert CellOk(s, turn, th.pos % s.cap);
      NearTurn(s, turn, th.pos);
    }
  }

  /** The cell at a counter serves that position or the one a lap before. */
  lemma NearTurn<T>(s: Ring<T>, turn: seq<nat>, pos: nat)
    requires InvAt(s, turn)
    ensures var q := turn[pos % s.cap];
            && (s.deq <= pos <= s.enq ==> q == pos || q + s.cap == pos)
            && (q < pos ==> q + s.cap <= pos)
            && (pos < q ==> pos + s.cap <= q)
  {
    var i := pos % s.cap;
    var q := turn[i];
    assert CellOk(s, turn, i);
    if q < pos && pos < q + s.cap {
      SameCell(pos, q, s.cap);
    }
    if pos < q && q < pos + s.cap {
      SameCell(q, pos, s.cap);
    }
  }

  /** `cap` items are held, or the consumer of the previous lap is still moving its payload out. */
  ghost predicate HoldsCap<T>(s: Ring<T>) {
    s.enq == s.deq + s.cap || (s.cap <= s.enq && Consumer(s, s.enq - s.cap))
  }

  /**
   Exactly when a call gives up.  Before its claim, `try_enqueue` ends if and only if it is at its stamp
   load, its position is current, and the ring holds `cap` items or the consumer of the previous lap is
   still moving its payload out; `try_dequeue` if and only if it is at its stamp load, its position is
   current, and the ring is empty or the producer of that position has not published yet.
   */
  lemma FullAndEmptyExactly<T>(s: Ring<T>, step: Step<T>)
    requires Inv(s) && WellSized(s) && Enabled(s, step)
    ensures var th, th' := s.threads[step.tid], Take(s, step).threads[step.tid];
            && (Offering(th) ==>
                  (th'.Idle? <==> (th.EnqStamp? && th.pos == s.enq && HoldsCap(s))))
            && (Asking(th) ==>
                  (th'.Idle? <==> (th.DeqStamp? && th.pos == s.deq && (s.deq == s.enq || Producer(s, s.deq)))))
            && ((Offering(th) || Asking(th)) && th'.Idle? ==> Take(s, step) == Goto(s, step.tid, Idle))
  {
    var turn :| InvAt(s, turn);
    var th := s.threads[step.tid];
    assert ThreadOk(s, turn, th);
    if th.EnqStamp? {
      FullExactly(s, turn, th.pos);
    } else if th.DeqStamp? {
      EmptyExactly(s, turn, th.pos);
    }
  }

  lemma FullExactly<T>(s: Ring<T>, turn: seq<nat>, pos: nat)
    requires InvAt(s, turn) && pos <= s.enq
    ensures s.stamps[pos % s.cap] < pos <==> (pos == s.enq && HoldsCap(s))
  {
    var i := pos % s.cap;
    assert CellOk(s, turn, i);
    NearTurn(s, turn, pos);
    if s.cap <= s.enq && Consumer(s, s.enq - s.cap) {
      var t :| t in s.threads && Consuming(s.threads[t], s.enq - s.cap);
      assert ThreadOk(s, turn, s.threads[t]);
      NextLap(s.enq - s.cap, s.cap);
    }
    if s.enq == s.deq + s.cap {
      NextLap(s.deq, s.cap);
      LiveTurn(s, turn, s.deq);
    }
  }

  lemma EmptyExactly<T>(s: Ring<T>, turn: seq<nat>, pos: nat)
    requires InvAt(s, turn) && pos <= s.deq
    ensures s.stamps[pos % s.cap] < pos + 1 <==> (pos == s.deq && (s.deq == s.enq || Producer(s, s.deq)))
  {
    var i := pos % s.cap;
    assert CellOk(s, turn, i);
    NearTurn(s, turn, pos);
    if Producer(s, s.deq) {
      var t :| t in s.threads && Producing(s.threads[t], s.deq);
      assert ThreadOk(s, turn, s.threads[t]);
    }
    if s.deq < s.enq {
      LiveTurn(s, turn, s.deq);
    }
  }

  // ---------------------------------------------------------------- capacity one

  lemma Prepend<T>(s: Ring<T>, step: Step<T>, rest: seq<Step<T>>)
    requires WellSized(s) && Enabled(s, step) && IsRun(Take(s, step), rest)
    ensures IsRun(s, [step] + rest) && After(s, [step] + rest) == After(Take(s, step), rest)
  {
    assert ([step] + rest)[1..] == rest;
  }

  ghost predicate Bounded(cap: nat)
    requires cap >= 1
  {
    forall tids: set<nat>, steps: seq<Step<nat>> :: IsRun(New(cap, tids), steps) ==>
      var s := After(New(cap, tids), steps); s.enq <= s.deq + s.cap
  }

  lemma {:induction false} Concat<T>(s: Ring<T>, a: seq<Step<T>>, b: seq<Step<T>>)
    requires IsRun(s, a) && IsRun(After(s, a), b)
    ensures IsRun(s, a + b) && After(s, a + b) == After(After(s, a), b)
    decreases |a|
  {
    if a == [] {
      assert a + b == b;
    } else {
      Concat(Take(s, a[0]), a[1..], b);
      assert a + b == [a[0]] + (a[1..] + b);
      Prepend(s, a[0], a[1..] + b);
    }
  }

  /** One undisturbed call of `try_enqueue` that finds its cell free. */
  lemma EnqueueAlone<T>(s: Ring<T>, tid: nat, req: T) returns (steps: seq<Step<T>>)
    requires WellSized(s) && tid in s.threads && s.threads[tid].Idle?
    requires s.stamps[s.enq % s.cap] == s.enq
    ensures IsRun(s, steps)
    ensures var i := s.enq % s.cap;
            After(s, steps) == s.(enq := s.enq + 1, claimed := s.claimed + [req],
                                  stamps := s.stamps[i := s.enq + 1], slots := s.slots[i := Some(req)])
  {
    var go: Step<T> := Advance(tid);
    var s1 := Take(s, CallEnqueue(tid, req));
    var s2 := Take(s1, go);
    var s3 := Take(s2, go);
    var s4 := Take(s3, go);
    assert s4 == Goto(s, tid, EnqWrite(req, s.enq)).(enq := s.enq + 1, claimed := s.claimed + [req]);
    var s5 := Take(s4, go);
    var s6 := Take(s5, go);
    assert s6.threads == s.threads;
    assert IsRun(s6, []);
    Prepend(s5, go, []);
    Prepend(s4, go, [go] + []);
    var tail: seq<Step<T>> := [go] + ([go] + []);
    Prepend(s3, go, tail);
    Prepend(s2, go, [go] + tail);
    Prepend(s1, go, [go] + ([go] + tail));
    steps := [CallEnqueue(tid, req)] + ([go] + ([go] + ([go] + tail)));
    Prepend(s, CallEnqueue(tid, req), [go] + ([go] + ([go] + tail)));
  }

  /** One undisturbed call of `try_dequeue` that finds its cell published. */
  lemma DequeueAlone<T>(s: Ring<T>, tid: nat) returns (steps: seq<Step<T>>)
    requires WellSized(s) && tid in s.threads && s.threads[tid].Idle?
    requires s.stamps[s.deq % s.cap] == s.deq + 1
    ensures IsRun(s, steps)
    ensures var i := s.deq % s.cap;
            After(s, steps) == s.(deq := s.deq + 1, returned := s.returned + [(s.deq, s.slots[i])],
                                  stamps := s.stamps[i := s.deq + s.cap], slots := s.slots[i := None])
  {
    var go: Step<T> := Advance(tid);
    var s1 := Take(s, CallDequeue(tid));
    var s2 := Take(s1, go);
    var s3 := Take(s2, go);
    var s4 := Take(s3, go);
    assert s4 == Goto(s, tid, DeqRead(s.deq)).(deq := s.deq + 1);
    var s5 := Take(s4, go);
    var s6 := Take(s5, go);
    assert s6.threads == s.threads;
    assert IsRun(s6, []);
    Prepend(s5, go, []);
    Prepend(s4, go, [go] + []);
    var tail: seq<Step<T>> := [go] + ([go] + []);
    Prepend(s3, go, tail);
    Prepend(s2, go, [go] + tail);
    Prepend(s1, go, [go] + ([go] + tail));
    steps := [CallDequeue(tid)] + ([go] + ([go] + ([go] + tail)));
    Prepend(s, CallDequeue(tid), [go] + ([go] + ([go] + tail)));
  }

  /**
   With one cell, stamp 1 means both "position 0 is published" and "free for position 1", so a
   second producer claims and overwrites a request nobody has read.
   */
  lemma CapacityOneOverruns() returns (steps: seq<Step<nat>>)
    ensures IsRun(New<nat>(1, {0}), steps)
    ensures var s := After(New<nat>(1, {0}), steps);
            s.claimed == [7, 8] && s.deq == 0 && s.returned == [] && s.slots == [Some(8)]
  {
    var s0 := New<nat>(1, {0});
    var first := EnqueueAlone(s0, 0, 7);
    var s1 := After(s0, first);
    assert s1.claimed == [7] && s1.stamps == [1];
    var second := EnqueueAlone(s1, 0, 8);
    Concat(s0, first, second);
    steps := first + second;
  }

  /** The bound holds in every run exactly when the ring has at least two cells. */
  lemma BoundedIffTwoCells(cap: nat)
    requires cap >= 1
    ensures Bounded(cap) <==> cap >= 2
  {
    if cap >= 2 {
      forall tids: set<nat>, steps: seq<Step<nat>> | IsRun(New(cap, tids), steps)
        ensures var s := After(New(cap, tids), steps); s.enq <= s.deq + s.cap
      {
        RingIsSafe(cap, tids, steps);
      }
    } else {
      var steps := CapacityOneOverruns();
      InitEnq(steps);
    }
  }

  lemma InitEnq(steps: seq<Step<nat>>)
    requires IsRun(New<nat>(1, {0}), steps)
    ensures var s := After(New<nat>(1, {0}), steps); |s.claimed| == s.enq && s.cap == 1
  {
    CapFixed(New<nat>(1, {0}), steps);
    ClaimedCounts(New<nat>(1, {0}), steps);
  }

  lemma {:induction false} ClaimedCounts<T>(s: Ring<T>, steps: seq<Step<T>>)
    requires IsRun(s, steps) && |s.claimed| == s.enq
    ensures var s' := After(s, steps); |s'.claimed| == s'.enq
    decreases |steps|
  {
    if steps != [] {
      ClaimedCounts(Take(s, steps[0]), steps[1..]);
    }
  }
}
