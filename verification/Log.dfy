/** The write-ahead log as a list of records: what append, checkpoint and recovery mean. */
module Log {
  import opened Prelude
  import opened Domain
  import Cache

  type Records = seq<WalRecord>

  /** The records a checkpoint at `upTo` keeps, in file order. */
  function Survivors(log: Records, upTo: nat): Records
    decreases |log|
  {
    if log == [] then []
    else
      var rest := Survivors(log[..|log| - 1], upTo);
      var last := log[|log| - 1];
      if last.lsn > upTo then rest + [last] else rest
  }

  /** The high-water mark recovery computes: the largest LSN in the log, 0 when it is empty. */
  function Highest(log: Records): nat
    decreases |log|
  {
    if log == [] then 0 else Max(Highest(log[..|log| - 1]), log[|log| - 1].lsn)
  }

  /** The cache `start` rebuilds: every record applied in file order, so every entry is dirty. */
  function Replay(log: Records): Cache.Entries
    decreases |log|
  {
    if log == [] then map[]
    else
      var last := log[|log| - 1];
      Cache.Applied(Replay(log[..|log| - 1]), WriteRequest(last.playerId, last.version, last.blob, |log| - 1))
  }

  function States(log: Records): set<PlayerState> {
    set r | r in log :: r.ToState()
  }

  ghost predicate Covers(log: Records, p: nat, v: nat) {
    exists r :: r in log && r.playerId == p && r.version >= v
  }

  ghost predicate DistinctLsns(log: Records) {
    forall i, j :: 0 <= i < j < |log| ==> log[i].lsn != log[j].lsn
  }

  /** Exactly the records above `upTo` are kept, as often as they are in the log. */
  lemma {:induction false} SurvivorsMeaning(log: Records, upTo: nat)
    ensures forall r :: r in Survivors(log, upTo) <==> r in log && r.lsn > upTo
    ensures DistinctLsns(log) ==> DistinctLsns(Survivors(log, upTo))
    decreases |log|
  {
    if log != [] {
      var init := log[..|log| - 1];
      SurvivorsMeaning(init, upTo);
      assert log == init + [log[|log| - 1]];
    }
  }

  ghost predicate Increasing(idx: seq<nat>, below: nat) {
    && (forall i :: 0 <= i < |idx| ==> idx[i] < below)
    && (forall i, j :: 0 <= i < j < |idx| ==> idx[i] < idx[j])
  }

  ghost predicate At(log: Records, idx: seq<nat>, kept: Records) {
    |kept| == |idx| && forall i :: 0 <= i < |idx| ==> idx[i] < |log| && kept[i] == log[idx[i]]
  }

  ghost predicate AllAbove(log: Records, upTo: nat, idx: seq<nat>) {
    forall k: nat :: k < |log| ==> (k in idx <==> log[k].lsn > upTo)
  }

  /** `kept` is `log` without the records at or below `upTo`, the others in file order. */
  ghost predicate CutFrom(log: Records, upTo: nat, kept: Records) {
    exists idx: seq<nat> :: Increasing(idx, |log|) && At(log, idx, kept) && AllAbove(log, upTo, idx)
  }

  /** A checkpoint removes the records at or below its LSN and leaves the others in their order. */
  lemma {:induction false} SurvivorsInOrder(log: Records, upTo: nat)
    ensures CutFrom(log, upTo, Survivors(log, upTo))
    decreases |log|
  {
    hide CutFrom;
    if log == [] {
      NothingCut(upTo);
    } else {
      var init, last := log[..|log| - 1], log[|log| - 1];
      SurvivorsInOrder(init, upTo);
      assert log == init + [last];
      CutOneMore(init, upTo, Survivors(init, upTo), last);
    }
  }

  lemma NothingCut(upTo: nat)
    ensures CutFrom([], upTo, [])
  {
    assert Increasing([], 0) && At([], [], []) && AllAbove([], upTo, []);
  }

  lemma CutOneMore(log: Records, upTo: nat, kept: Records, last: WalRecord)
    requires CutFrom(log, upTo, kept)
    ensures CutFrom(log + [last], upTo, if last.lsn > upTo then kept + [last] else kept)
  {
    hide Increasing, At, AllAbove;
    var idx: seq<nat> :| Increasing(idx, |log|) && At(log, idx, kept) && AllAbove(log, upTo, idx);
    if last.lsn > upTo {
      OneMoreKept(log, upTo, kept, last, idx);
      assert Increasing(idx + [|log|], |log + [last]|);
    } else {
      OneMoreCut(log, upTo, kept, last, idx);
    }
  }

  lemma OneMoreKept(log: Records, upTo: nat, kept: Records, last: WalRecord, idx: seq<nat>)
    requires Increasing(idx, |log|) && At(log, idx, kept) && AllAbove(log, upTo, idx) && last.lsn > upTo
    ensures Increasing(idx + [|log|], |log + [last]|) && At(log + [last], idx + [|log|], kept + [last])
    ensures AllAbove(log + [last], upTo, idx + [|log|])
  {
    var idx' := idx + [|log|];
    forall k: nat | k < |log + [last]| ensures k in idx' <==> (log + [last])[k].lsn > upTo {
      assert k in idx' <==> k in idx || k == |log|;
    }
  }

  lemma OneMoreCut(log: Records, upTo: nat, kept: Records, last: WalRecord, idx: seq<nat>)
    requires Increasing(idx, |log|) && At(log, idx, kept) && AllAbove(log, upTo, idx) && last.lsn <= upTo
    ensures Increasing(idx, |log + [last]|) && At(log + [last], idx, kept) && AllAbove(log + [last], upTo, idx)
  {
    assert |log| !in idx;
  }

  lemma {:induction false} HighestMeaning(log: Records)
    ensures forall r :: r in log ==> r.lsn <= Highest(log)
    ensures log != [] ==> exists r :: r in log && r.lsn == Highest(log)
    ensures log == [] ==> Highest(log) == 0
    decreases |log|
  {
    if log != [] {
      var init := log[..|log| - 1];
      var last := log[|log| - 1];
      HighestMeaning(init);
      assert log == init + [last];
      assert last in log;
      if Highest(init) > last.lsn {
        var r :| r in init && r.lsn == Highest(init);
        assert r in log;
      }
    }
  }

  lemma StatesExtend(log: Records, last: WalRecord)
    ensures States(log + [last]) == States(log) + {last.ToState()}
  {
    forall st | st in States(log) + {last.ToState()} ensures st in States(log + [last]) {
      if st in States(log) {
        var r :| r in log && r.ToState() == st;
        assert r in log + [last];
      } else {
        assert last in log + [last];
      }
    }
  }

  lemma {:induction false} ReplayHolds(log: Records)
    ensures Cache.HoldsMaximum(Replay(log), States(log))
    ensures forall p :: p in Replay(log) ==> Replay(log)[p].dirty
    decreases |log|
  {
    if log == [] {
    } else {
      hide States, Cache.Applied, Cache.HoldsMaximum;
      var init := log[..|log| - 1];
      var last := log[|log| - 1];
      ReplayHolds(init);
      assert log == init + [last];
      StatesExtend(init, last);
      AppliedHolds(Replay(init), States(init), WriteRequest(last.playerId, last.version, last.blob, |log| - 1));
    }
  }

  lemma AppliedHolds(m: Cache.Entries, applied: set<PlayerState>, req: WriteRequest)
    requires Cache.HoldsMaximum(m, applied)
    ensures Cache.HoldsMaximum(Cache.Applied(m, req), applied + {req.ToState()})
    ensures (forall p :: p in m ==> m[p].dirty) ==>
              forall p :: p in Cache.Applied(m, req) ==> Cache.Applied(m, req)[p].dirty
  {
  }

  /** Recovery forgets nothing: the rebuilt cache is dirty and holds each player's newest frame. */
  lemma ReplayMeaning(log: Records)
    ensures Cache.HoldsMaximum(Replay(log), States(log))
    ensures forall p :: p in Replay(log) ==> Replay(log)[p].dirty
    ensures forall p, v :: Covers(log, p, v) ==> Cache.Covers(Replay(log), p, v)
  {
    hide Replay;
    ReplayHolds(log);
    forall p, v | Covers(log, p, v) ensures Cache.Covers(Replay(log), p, v) {
      var r :| r in log && r.playerId == p && r.version >= v;
      assert r.ToState() in States(log);
    }
  }

  /** Record `i` has the highest version of its player, and is the last in the file to have it. */
  ghost predicate Newest(log: Records, i: nat)
    requires i < |log|
  {
    forall j :: 0 <= j < |log| && log[j].playerId == log[i].playerId ==>
      if j <= i then log[j].version <= log[i].version else log[j].version < log[i].version
  }

  /** At an equal version the frame later in the file wins. */
  lemma {:induction false} ReplayNewest(log: Records, i: nat)
    requires i < |log| && Newest(log, i)
    ensures var p := log[i].playerId; p in Replay(log) && Replay(log)[p] == Cache.Entry(log[i].ToState(), true)
    decreases |log|
  {
    var init, last := log[..|log| - 1], log[|log| - 1];
    if i < |init| {
      assert Newest(init, i);
      ReplayNewest(init, i);
    } else {
      ReplayHolds(init);
      assert forall st :: st in States(init) && st.playerId == last.playerId ==> st.version <= last.version;
    }
  }
}
