/**
 The flushing side run without interference: the worker's drain, flush, retry and shutdown loops and
 the caller-driven `flush_now`, over the real ring, cache, LSN authority, log and store objects.  The
 interleavings with other threads are the subject of `Pipeline`.
 */
module Worker {
  import opened Prelude
  import opened Domain
  import opened Cache
  import opened Calls
  import Log
  import Lsn
  import Pipeline
  import Ring
  import Store

  // ---------------------------------------------------------------- what the loops compute

  function AppliedAll(m: Entries, reqs: seq<WriteRequest>): Entries
    decreases |reqs|
  {
    if reqs == [] then m else Applied(AppliedAll(m, reqs[..|reqs| - 1]), reqs[|reqs| - 1])
  }

  function Seqs(reqs: seq<WriteRequest>): set<nat> {
    set r | r in reqs :: r.seqNo
  }

  lemma {:induction false} AppliedConcat(m: Entries, a: seq<WriteRequest>, b: seq<WriteRequest>)
    ensures AppliedAll(m, a + b) == AppliedAll(AppliedAll(m, a), b)
    decreases |b|
  {
    if b == [] {
      assert a + b == a;
    } else {
      var init := b[..|b| - 1];
      AppliedConcat(m, a, init);
      assert (a + b)[..|a + b| - 1] == a + init;
    }
  }

  /** Nothing already cached goes back, every request is covered, and each dirties one entry at most. */
  lemma {:induction false} AppliedMeaning(m: Entries, reqs: seq<WriteRequest>)
    requires Keyed(m)
    ensures var m' := AppliedAll(m, reqs);
            && Keyed(m')
            && (forall p :: p in m ==> Covers(m', p, m[p].state.version))
            && (forall r :: r in reqs ==> Covers(m', r.playerId, r.version))
            && (forall p :: p in m' && !m'[p].dirty ==> p in m && m'[p] == m[p])
            && |DirtyIds(m')| <= |DirtyIds(m)| + |reqs|
    decreases |reqs|
  {
    if reqs != [] {
      hide Applied, DirtyIds;
      var init, last := reqs[..|reqs| - 1], reqs[|reqs| - 1];
      AppliedMeaning(m, init);
      assert reqs == init + [last];
      OneApplied(AppliedAll(m, init), last);
    }
  }

  lemma OneApplied(m: Entries, req: WriteRequest)
    requires Keyed(m)
    ensures var m' := Applied(m, req);
            && Keyed(m')
            && (forall p :: p in m ==> Covers(m', p, m[p].state.version))
            && Covers(m', req.playerId, req.version)
            && (forall p :: p in m' && !m'[p].dirty ==> p in m && m'[p] == m[p])
            && |DirtyIds(m')| <= |DirtyIds(m)| + 1
  {
    var m' := Applied(m, req);
    assert DirtyIds(m') == DirtyIds(m) || DirtyIds(m') == DirtyIds(m) + {req.playerId};
  }

  /** Every clean entry is in the store; what is not there yet is dirty. */
  ghost predicate Settled(m: Entries, t: Store.Table) {
    forall p :: p in m && !m[p].dirty ==> Store.Covers(t, p, m[p].state.version)
  }

  /** A flush changes dirty bits only, clears some, and takes no row of the store back. */
  ghost predicate Flushed(m: Entries, t: Store.Table, m': Entries, t': Store.Table) {
    && m'.Keys == m.Keys
    && (forall p :: p in m ==> m'[p].state == m[p].state)
    && DirtyIds(m') <= DirtyIds(m)
    && (forall p :: p in t ==> Store.Covers(t', p, t[p].version))
  }

  /** The states are copies of dirty entries, one per player: what `take_dirty` hands out. */
  ghost predicate TakenFrom(m: Entries, states: seq<PlayerState>) {
    && Keyed(m) && Store.OnePerPlayer(states)
    && forall st :: st in states ==> st.playerId in DirtyIds(m) && m[st.playerId].state == st
  }

  /** Without interference, putting a whole batch back undoes taking it, dirty bits and all. */
  lemma {:induction false} RequeueUndoesTake(m: Entries, states: seq<PlayerState>, k: nat)
    requires TakenFrom(m, states) && k <= |states|
    ensures Requeued(Cleaned(m, Ids(states)), states[..k]) == Cleaned(m, Ids(states[k..]))
    decreases k
  {
    if k == 0 {
      assert states[0..] == states;
    } else {
      RequeueUndoesTake(m, states, k - 1);
      var st := states[k - 1];
      assert states[..k][..k - 1] == states[..k - 1];
      assert states[k - 1..] == [st] + states[k..];
      assert st in states;
      forall p ensures p in Ids(states[k - 1..]) <==> p == st.playerId || p in Ids(states[k..]) {
        assert st in states[k - 1..];
        if p in Ids(states[k..]) {
          var x :| x in states[k..] && x.playerId == p;
          assert x in states[k - 1..];
        }
      }
      assert st.playerId !in Ids(states[k..]);
    }
  }

  lemma RequeueRestores(m: Entries, states: seq<PlayerState>)
    requires TakenFrom(m, states)
    ensures Requeued(Cleaned(m, Ids(states)), states) == m
  {
    hide Requeued, Cleaned, Ids;
    RequeueUndoesTake(m, states, |states|);
    TookNothing(m);
    assert states[..|states|] == states && states[|states|..] == [];
  }

  lemma TookNothing(m: Entries)
    ensures Cleaned(m, Ids([])) == m
  {
    assert Ids([]) == {};
  }

  lemma FlushedRefl(m: Entries, t: Store.Table)
    ensures Flushed(m, t, m, t)
  {
  }

  /** A persisted batch leaves the rest settled. */
  lemma PersistSettles(m: Entries, t: Store.Table, states: seq<PlayerState>)
    requires TakenFrom(m, states) && Settled(m, t) && Store.Keyed(t)
    ensures Settled(Cleaned(m, Ids(states)), Store.UpsertedAll(t, states))
    ensures Flushed(m, t, Cleaned(m, Ids(states)), Store.UpsertedAll(t, states))
  {
    Store.UpsertMeaning(t, states);
    var m', t' := Cleaned(m, Ids(states)), Store.UpsertedAll(t, states);
    forall p | p in m' && !m'[p].dirty ensures Store.Covers(t', p, m'[p].state.version) {
      if p in Ids(states) {
        var st :| st in states && st.playerId == p;
        assert m[p].state == st;
      }
    }
  }

  // ---------------------------------------------------------------- from ring to store

  /**
   No loss: the ring gave up its oldest requests only, the cache holds exactly what applying them
   to it gives, whatever its dirty bits, and no row of the store went back.
   */
  ghost predicate Moved(m: Entries, t: Store.Table, q: seq<WriteRequest>,
                        m': Entries, t': Store.Table, q': seq<WriteRequest>) {
    && Keyed(m)
    && (forall p :: p in t ==> Store.Covers(t', p, t[p].version))
    && exists n: nat :: n <= |q| && q' == q[n..] && SameContent(AppliedAll(m, q[..n]), m')
  }

  /** The store has every entry that was cached and every request that was queued. */
  ghost predicate Delivered(m: Entries, q: seq<WriteRequest>, t: Store.Table) {
    && (forall p :: p in m ==> Store.Covers(t, p, m[p].state.version))
    && (forall r :: r in q ==> Store.Covers(t, r.playerId, r.version))
  }

  lemma AppliedNone(m: Entries)
    ensures AppliedAll(m, []) == m && Seqs([]) == {}
  {
  }

  lemma {:induction false} SameContentApplied(m1: Entries, m2: Entries, reqs: seq<WriteRequest>)
    requires SameContent(m1, m2)
    ensures SameContent(AppliedAll(m1, reqs), AppliedAll(m2, reqs))
    decreases |reqs|
  {
    if reqs != [] {
      SameContentApplied(m1, m2, reqs[..|reqs| - 1]);
    }
  }

  lemma NotMoved(m: Entries, t: Store.Table, q: seq<WriteRequest>)
    requires Keyed(m)
    ensures Moved(m, t, q, m, t, q)
  {
    assert q == q[0..] && q[..0] == [];
  }

  lemma MovedByDrain(m: Entries, t: Store.Table, q: seq<WriteRequest>,
                     m1: Entries, t1: Store.Table, q1: seq<WriteRequest>, count: nat)
    requires Moved(m, t, q, m1, t1, q1) && count <= |q1|
    ensures Moved(m, t, q, AppliedAll(m1, q1[..count]), t1, q1[count..])
  {
    hide AppliedAll;
    var n: nat :| n <= |q| && q1 == q[n..] && SameContent(AppliedAll(m, q[..n]), m1);
    assert q[..n + count] == q[..n] + q1[..count] && q1[count..] == q[n + count..];
    AppliedConcat(m, q[..n], q1[..count]);
    SameContentApplied(AppliedAll(m, q[..n]), m1, q1[..count]);
  }

  lemma MovedByFlush(m: Entries, t: Store.Table, q: seq<WriteRequest>, m1: Entries, t1: Store.Table,
                     q1: seq<WriteRequest>, m2: Entries, t2: Store.Table)
    requires Moved(m, t, q, m1, t1, q1) && Flushed(m1, t1, m2, t2)
    ensures Moved(m, t, q, m2, t2, q1)
  {
    hide AppliedAll;
    var n: nat :| n <= |q| && q1 == q[n..] && SameContent(AppliedAll(m, q[..n]), m1);
    assert SameContent(AppliedAll(m, q[..n]), m2);
  }

  lemma MovedTwice(m: Entries, t: Store.Table, q: seq<WriteRequest>,
                   m1: Entries, t1: Store.Table, q1: seq<WriteRequest>,
                   m2: Entries, t2: Store.Table, q2: seq<WriteRequest>)
    requires Moved(m, t, q, m1, t1, q1) && Moved(m1, t1, q1, m2, t2, q2)
    ensures Moved(m, t, q, m2, t2, q2)
  {
    hide AppliedAll, SameContent;
    var k: nat :| k <= |q1| && q2 == q1[k..] && SameContent(AppliedAll(m1, q1[..k]), m2);
    MovedByDrain(m, t, q, m1, t1, q1, k);
    var n: nat :| n <= |q| && q2 == q[n..] && SameContent(AppliedAll(m, q[..n]), AppliedAll(m1, q1[..k]));
    SameContentChains(AppliedAll(m, q[..n]), AppliedAll(m1, q1[..k]), m2);
  }

  lemma SameContentChains(a: Entries, b: Entries, c: Entries)
    requires SameContent(a, b) && SameContent(b, c)
    ensures SameContent(a, c)
  {
  }

  /** Once the ring is empty and nothing is dirty, everything has arrived. */
  lemma AllDelivered(m: Entries, t: Store.Table, q: seq<WriteRequest>, m': Entries, t': Store.Table)
    requires Moved(m, t, q, m', t', []) && Settled(m', t') && DirtyIds(m') == {}
    ensures Delivered(m, q, t')
    ensures forall p :: p in m' ==> Store.Covers(t', p, m'[p].state.version)
  {
    hide AppliedAll;
    var n: nat :| n <= |q| && [] == q[n..] && SameContent(AppliedAll(m, q[..n]), m');
    assert q[..n] == q;
    AppliedMeaning(m, q);
    forall p | p in m' ensures Store.Covers(t', p, m'[p].state.version) {
      assert p !in DirtyIds(m');
    }
  }

  lemma DrainedFurther(m: Entries, all: seq<WriteRequest>, n: nat, moved: nat)
    requires n + moved <= |all|
    ensures AppliedAll(m, all[..n + moved]) == AppliedAll(AppliedAll(m, all[..n]), all[n..][..moved])
    ensures Seqs(all[..n + moved]) == Seqs(all[..n]) + Seqs(all[n..][..moved])
  {
    hide AppliedAll;
    var a, b := all[..n], all[n..][..moved];
    assert all[..n + moved] == a + b;
    AppliedConcat(m, a, b);
    forall x | x in Seqs(a) + Seqs(b) ensures x in Seqs(a + b) {
      if x in Seqs(a) {
        var r :| r in a && r.seqNo == x;
        assert r in a + b;
      } else {
        var r :| r in b && r.seqNo == x;
        assert r in a + b;
      }
    }
  }

  lemma AppliedSettles(m: Entries, t: Store.Table, reqs: seq<WriteRequest>)
    requires Keyed(m) && Settled(m, t)
    ensures Settled(AppliedAll(m, reqs), t) && |DirtyIds(AppliedAll(m, reqs))| <= |DirtyIds(m)| + |reqs|
  {
    hide AppliedAll;
    AppliedMeaning(m, reqs);
  }

  lemma AllDirty(log: Log.Records)
    ensures DirtyIds(Log.Replay(log)) == Log.Replay(log).Keys
  {
    Log.ReplayMeaning(log);
  }

  lemma FlushShrinks(m: Entries, t: Store.Table, m': Entries, t': Store.Table)
    requires Flushed(m, t, m', t')
    ensures |DirtyIds(m')| <= |DirtyIds(m)|
  {
    var gone := DirtyIds(m) - DirtyIds(m');
    assert DirtyIds(m) == DirtyIds(m') + gone;
  }

  // ---------------------------------------------------------------- the log as a trait object

  /** The write-ahead log one level up: records, with appends and checkpoints that may fail. */
  class RecordLog {
    const trace: CallTrace
    var records: Log.Records
    var lastLsn: nat

    constructor (records: Log.Records, trace: CallTrace)
      ensures this.records == records && lastLsn == Log.Highest(records) && this.trace == trace
    {
      this.records, lastLsn, this.trace := records, Log.Highest(records), trace;
    }

    method AppendBatch(batch: Log.Records) returns (high: Option<nat>)
      modifies this, trace
      ensures trace.calls == old(trace.calls) + [Appended(batch, high.Some?)]
      ensures high.None? ==> records == old(records) && lastLsn == old(lastLsn)
      ensures high.Some? ==> records == old(records) + batch
      ensures high.Some? ==> high.value == lastLsn == Max(old(lastLsn), Log.Highest(batch))
    {
      var fails: bool := *;
      trace.Note(Appended(batch, !fails));
      if fails {
        return None;
      }
      records, lastLsn := records + batch, Max(lastLsn, Log.Highest(batch));
      high := Some(lastLsn);
    }

    method Checkpoint(upTo: nat) returns (ok: bool)
      modifies this, trace
      ensures trace.calls == old(trace.calls) + [Cut(upTo, ok)]
      ensures !ok ==> records == old(records) && lastLsn == old(lastLsn)
      ensures ok ==> records == Log.Survivors(old(records), upTo) && lastLsn == Max(Log.Highest(records), upTo)
      ensures ok ==> Log.CutFrom(old(records), upTo, records)
    {
      hide Log.CutFrom;
      Log.SurvivorsInOrder(records, upTo);
      var fails: bool := *;
      trace.Note(Cut(upTo, !fails));
      if fails {
        return false;
      }
      records := Log.Survivors(records, upTo);
      lastLsn := Max(Log.Highest(records), upTo);
      ok := true;
    }
  }

  /** What one call makes of the log. */
  function LogThen(log: Log.Records, c: Call): Log.Records {
    match c
    case Appended(batch, ok) => if ok then log + batch else log
    case Cut(upTo, ok) => if ok then Log.Survivors(log, upTo) else log
    case Stored(_, _) => log
  }

  /** What a sequence of calls makes of the log. */
  function LogAfter(log: Log.Records, t: seq<Call>): Log.Records
    decreases |t|
  {
    if t == [] then log else LogThen(LogAfter(log, t[..|t| - 1]), t[|t| - 1])
  }

  lemma LogAfterOne(log: Log.Records, t: seq<Call>, c: Call)
    ensures LogAfter(log, t + [c]) == LogThen(LogAfter(log, t), c)
  {
    assert (t + [c])[..|t|] == t;
  }

  /** Store calls leave the log alone. */
  lemma {:induction false} LogAfterStored(log: Log.Records, t: seq<Call>, more: seq<Call>)
    requires forall i :: 0 <= i < |more| ==> more[i].Stored?
    ensures LogAfter(log, t + more) == LogAfter(log, t)
    decreases |more|
  {
    if more == [] {
      assert t + more == t;
    } else {
      var init := more[..|more| - 1];
      LogAfterStored(log, t, init);
      LogAfterOne(log, t + init, more[|more| - 1]);
      assert t + more == (t + init) + [more[|more| - 1]];
    }
  }

  /** No frame under a still pending LSN has left the log. */
  ghost predicate FloorKept(before: Log.Records, after: Log.Records, pending: set<nat>) {
    forall r :: r in before && r.lsn in pending ==> r in after
  }

  lemma FloorKeptTwice(a: Log.Records, b: Log.Records, c: Log.Records, earlier: set<nat>, pending: set<nat>)
    requires FloorKept(a, b, earlier) && FloorKept(b, c, pending) && pending <= earlier
    ensures FloorKept(a, c, pending)
  {
  }

  lemma FloorKeptAppend(log: Log.Records, batch: Log.Records, pending: set<nat>)
    ensures FloorKept(log, log + batch, pending) && FloorKept(log, log, pending)
  {
  }

  /** A cut at a watermark keeps every pending frame. */
  lemma FloorKeptCut(log: Log.Records, batch: Log.Records, proposed: nat, upTo: nat, pending: set<nat>)
    requires Lsn.Watermark(pending, proposed) == Some(upTo)
    ensures FloorKept(log, Log.Survivors(log + batch, upTo), pending)
  {
    Log.SurvivorsMeaning(log + batch, upTo);
  }

  /** Whatever is left in the log below `next` is there because a pending LSN at or below it holds it back. */
  ghost predicate Trimmed(log: Log.Records, next: nat, pending: set<nat>) {
    forall r :: r in log && r.lsn < next ==> exists l :: l in pending && l <= r.lsn
  }

  /** A cut clamped from the newest LSN handed out trims the log. */
  lemma TrimmedByCut(log: Log.Records, batch: Log.Records, proposed: nat, upTo: nat, next: nat, pending: set<nat>)
    requires Lsn.Watermark(pending, proposed) == Some(upTo) && next <= proposed + 1
    ensures Trimmed(Log.Survivors(log + batch, upTo), next, pending)
  {
    hide Lsn.Watermark;
    Log.SurvivorsMeaning(log + batch, upTo);
    forall r | r in Log.Survivors(log + batch, upTo) && r.lsn < next ensures exists l :: l in pending && l <= r.lsn {
      assert !Lsn.BelowAll(r.lsn, pending);
    }
  }

  lemma TrimmedByNone(log: Log.Records, next: nat, pending: set<nat>)
    requires 0 in pending
    ensures Trimmed(log, next, pending)
  {
  }

  lemma LogAfterFirst(log: Log.Records, batch: Log.Records)
    ensures LogAfter(log, [Appended(batch, true)]) == log + batch
    ensures LogAfter(log, [Appended(batch, false)]) == log
  {
    LogAfterOne(log, [], Appended(batch, true));
    LogAfterOne(log, [], Appended(batch, false));
  }

  /** `calls` is a successful append of `batch` and store calls for it. */
  ghost predicate Logged(calls: seq<Call>, batch: Log.Records, states: seq<PlayerState>, limit: nat) {
    |calls| >= 2 && calls[0] == Appended(batch, true) && Persisting(calls[1..], states, limit)
  }

  lemma AttemptFailed(batch: Log.Records, calls: seq<Call>, limit: nat, states: seq<PlayerState>,
                      watermark: Option<nat>)
    requires states == ToStates(batch)
    requires calls == [Appended(batch, false)]
          || (Logged(calls, batch, states, limit) && calls[|calls| - 1].outcome != Persisted)
    ensures Attempt(calls, batch, limit, watermark, false)
  {
  }

  lemma AttemptUncut(batch: Log.Records, calls: seq<Call>, limit: nat, states: seq<PlayerState>)
    requires states == ToStates(batch) && Logged(calls, batch, states, limit)
    requires calls[|calls| - 1].outcome == Persisted
    ensures Attempt(calls, batch, limit, None, true)
  {
  }

  lemma AttemptCut(batch: Log.Records, calls: seq<Call>, upTo: nat, cut: bool, limit: nat, states: seq<PlayerState>)
    requires states == ToStates(batch) && Logged(calls, batch, states, limit)
    requires calls[|calls| - 1].outcome == Persisted
    ensures Attempt(calls + [Cut(upTo, cut)], batch, limit, Some(upTo), true)
  {
    var t := calls + [Cut(upTo, cut)];
    assert t[1..|t| - 1] == calls[1..];
  }

  lemma PersistingOnly(calls: seq<Call>, states: seq<PlayerState>, limit: nat)
    requires |calls| >= 2 ==> Persisting(calls[1..], states, limit)
    ensures |calls| >= 2 ==> calls[|calls| - 1].Stored?
  {
  }

  lemma NoCalls(limit: nat)
    ensures WriteAhead([], limit) && !EndsBadly([]) && !EndsRefused([]) && !EndsCut([])
  {
  }

  lemma EndOfConcat(a: seq<Call>, b: seq<Call>)
    ensures b != [] ==> (EndsBadly(a + b) <==> EndsBadly(b)) && (EndsRefused(a + b) <==> EndsRefused(b))
    ensures b == [] ==> a + b == a
    ensures a == [] ==> a + b == b
  {
  }

  lemma EndOf(t: seq<Call>, c: Call)
    ensures EndsBadly(t + [c]) <==> IsFailure(c)
    ensures EndsRefused(t + [c]) <==> IsFailure(c) || (c.Cut? && !c.ok)
  {
  }

  lemma CutOfConcat(a: seq<Call>, b: seq<Call>)
    ensures b != [] ==> (EndsCut(a + b) <==> EndsCut(b))
    ensures b == [] ==> a + b == a
  {
  }

  lemma AttemptCuts(t: seq<Call>, batch: Log.Records, limit: nat, watermark: Option<nat>, ok: bool)
    requires Attempt(t, batch, limit, watermark, ok)
    ensures CutsOk(t)
  {
    if t != [Appended(batch, false)] {
      var end := if ok && watermark.Some? then |t| - 1 else |t|;
      assert t[1..|t|] == t[1..];
      assert forall i :: 0 < i < end ==> t[i] == t[1..end][i - 1];
    }
  }

  lemma BadlyRefused(t: seq<Call>)
    ensures EndsBadly(t) ==> EndsRefused(t)
  {
  }

  lemma NoCutFailed()
    ensures CutsOk([])
  {
  }

  lemma CutsConcat(a: seq<Call>, b: seq<Call>)
    requires CutsOk(a) && CutsOk(b) && !EndsRefused(a)
    ensures CutsOk(a + b)
  {
  }

  lemma AttemptTried(t: seq<Call>, batch: Log.Records, limit: nat, watermark: Option<nat>, ok: bool)
    requires Attempt(t, batch, limit, watermark, ok)
    ensures Tried(t, |batch|, limit, ok)
  {
  }

  lemma StalledConcat(a: seq<Call>, b: seq<Call>, n: nat, limit: nat)
    requires StalledEnd(b, n, limit)
    ensures StalledEnd(a + b, n, limit)
  {
    var k: nat :| k <= |b| && Stalls(b[k..], n, limit);
    assert (a + b)[|a| + k..] == b[k..];
  }

  lemma PersistingEnds(t: seq<Call>, states: seq<PlayerState>, limit: nat)
    requires Persisting(t, states, limit)
    ensures t != [] && t[|t| - 1].Stored?
    ensures forall i :: 0 <= i < |t| ==> t[i].Stored?
  {
  }

  /** Applying requests cleans nothing. */
  lemma DirtyStays(m: Entries, reqs: seq<WriteRequest>)
    requires Keyed(m)
    ensures DirtyIds(m) != {} ==> DirtyIds(AppliedAll(m, reqs)) != {}
  {
    AppliedMeaning(m, reqs);
    if DirtyIds(m) != {} {
      var p :| p in DirtyIds(m);
      assert Covers(AppliedAll(m, reqs), p, m[p].state.version);
      assert p in DirtyIds(AppliedAll(m, reqs));
    }
  }

  lemma FlushedTwice(m: Entries, t: Store.Table, m1: Entries, t1: Store.Table, m2: Entries, t2: Store.Table)
    requires Flushed(m, t, m1, t1) && Flushed(m1, t1, m2, t2)
    ensures Flushed(m, t, m2, t2)
  {
    forall p | p in t ensures Store.Covers(t2, p, t[p].version) {
      assert Store.Covers(t2, p, t1[p].version);
    }
  }

  lemma SameStates(states: seq<PlayerState>, first: nat)
    ensures ToStates(Pipeline.RecordsOf(states, first)) == states
  {
  }

  /** The watermark a batch is checkpointed at: clamped from the highest LSN appended so far. */
  ghost function BatchWatermark(lastLsn: nat, batch: Log.Records, pending: set<nat>): Option<nat> {
    Lsn.Watermark(pending, Max(lastLsn, Log.Highest(batch)))
  }

  /** The checkpoint LSN the worker settles on is the highest LSN appended so far. */
  lemma SettledHigh(states: seq<PlayerState>, first: nat, lastLsn: nat)
    ensures var high := Max(lastLsn, Log.Highest(Pipeline.RecordsOf(states, first)));
            && (high == 0 ==> (if states == [] then 0 else first + |states| - 1) == 0)
            && (states != [] ==> first + |states| <= high + 1)
  {
    var records := Pipeline.RecordsOf(states, first);
    if states != [] {
      Log.HighestMeaning(records);
      assert records[|states| - 1] in records;
    }
  }

  /** What the worker can see of the engine between two turns of its loop. */
  datatype Snapshot = Snapshot(entries: Entries, table: Store.Table, queue: seq<WriteRequest>, calls: seq<Call>)

  /**
   One turn of a worker's loop: the oldest four batches' worth of requests reach the cache; then, exactly
   when `enough` entries are dirty, the dirty entries are flushed batch by batch, to the end or to the
   first refused batch.
   */
  ghost predicate WorkerTurn(a: Snapshot, b: Snapshot, max: nat, limit: nat, enough: nat) {
    var n := Min(4 * max, |a.queue|);
    var drained := AppliedAll(a.entries, a.queue[..n]);
    var due, left := |DirtyIds(drained)|, |DirtyIds(b.entries)|;
    && b.queue == a.queue[n..] && a.calls <= b.calls
    && var calls := b.calls[|a.calls|..];
       if calls == [] then
         due < enough && b.entries == drained && b.table == a.table
       else
         && due >= enough && Flushed(drained, a.table, b.entries, b.table)
         && FlushCalls(calls, due, left, max, limit) && (left == 0 <==> !EndsBadly(calls))
  }

  /** How many dirty entries call for a flush: a batch, or any at all once the interval is over. */
  function Enough(now: nat, lastFlush: nat, interval: nat, max: nat): nat {
    if now >= lastFlush + interval then 1 else max
  }

  /** What the clock shows when a turn decides and, if it flushed, after the flush. */
  datatype Reading = Reading(deciding: nat, flushed: nat)

  /** When the last flush before turn `i` ended, or the loop began. */
  ghost function LastFlush(history: seq<Snapshot>, start: nat, clock: seq<Reading>, i: nat): nat
    requires i < |history| && i <= |clock|
    decreases i
  {
    if i == 0 then start
    else if history[i].calls != history[i - 1].calls then clock[i - 1].flushed
    else LastFlush(history, start, clock, i - 1)
  }

  /** The worker's loop from `a` to `b`, one turn for each reading of the clock. */
  ghost predicate TimedTurns(history: seq<Snapshot>, a: Snapshot, b: Snapshot, start: nat, clock: seq<Reading>,
                             interval: nat, max: nat, limit: nat) {
    && |history| == |clock| + 1 && history[0] == a && history[|clock|] == b
    && forall i :: 0 <= i < |clock| ==>
         WorkerTurn(history[i], history[i + 1], max, limit,
                    Enough(clock[i].deciding, LastFlush(history, start, clock, i), interval, max))
  }

  lemma {:induction false} LastFlushKept(history: seq<Snapshot>, c: Snapshot, start: nat, clock: seq<Reading>,
                                         r: Reading, i: nat)
    requires i < |history| && i <= |clock|
    ensures LastFlush(history + [c], start, clock + [r], i) == LastFlush(history, start, clock, i)
    decreases i
  {
    if i > 0 {
      LastFlushKept(history, c, start, clock, r, i - 1);
    }
  }

  lemma OneMoreTimed(history: seq<Snapshot>, a: Snapshot, b: Snapshot, c: Snapshot, start: nat, clock: seq<Reading>,
                     r: Reading, interval: nat, max: nat, limit: nat)
    requires TimedTurns(history, a, b, start, clock, interval, max, limit)
    requires WorkerTurn(b, c, max, limit,
                        Enough(r.deciding, LastFlush(history, start, clock, |clock|), interval, max))
    ensures TimedTurns(history + [c], a, c, start, clock + [r], interval, max, limit)
    ensures LastFlush(history + [c], start, clock + [r], |clock| + 1)
         == if c.calls != b.calls then r.flushed else LastFlush(history, start, clock, |clock|)
  {
    hide WorkerTurn;
    var history', clock' := history + [c], clock + [r];
    forall i | 0 <= i <= |clock|
      ensures LastFlush(history', start, clock', i) == LastFlush(history, start, clock, i)
    {
      LastFlushKept(history, c, start, clock, r, i);
    }
    forall i | 0 <= i < |clock'|
      ensures WorkerTurn(history'[i], history'[i + 1], max, limit,
                         Enough(clock'[i].deciding, LastFlush(history', start, clock', i), interval, max))
    {
      if i < |clock| {
        assert history'[i] == history[i] && history'[i + 1] == history[i + 1] && clock'[i] == clock[i];
      }
    }
  }

  /** A history of turns from `a` to `b`. */
  ghost predicate Turns(history: seq<Snapshot>, a: Snapshot, b: Snapshot, max: nat, limit: nat, enough: nat) {
    && |history| >= 1 && history[0] == a && history[|history| - 1] == b
    && forall i :: 0 <= i < |history| - 1 ==> WorkerTurn(history[i], history[i + 1], max, limit, enough)
  }

  lemma NoTimed(a: Snapshot, start: nat, clock: seq<Reading>, interval: nat, max: nat, limit: nat)
    ensures TimedTurns([a], a, a, start, clock[..0], interval, max, limit)
    ensures LastFlush([a], start, clock[..0], 0) == start
  {
  }

  lemma NextTimed(history: seq<Snapshot>, a: Snapshot, b: Snapshot, c: Snapshot, start: nat, clock: seq<Reading>,
                  turn: nat, interval: nat, max: nat, limit: nat)
    requires turn < |clock| && |history| == turn + 1
    requires TimedTurns(history, a, b, start, clock[..turn], interval, max, limit)
    requires var lastFlush := LastFlush(history, start, clock[..turn], turn);
             WorkerTurn(b, c, max, limit, Enough(clock[turn].deciding, lastFlush, interval, max))
    ensures TimedTurns(history + [c], a, c, start, clock[..turn + 1], interval, max, limit)
    ensures LastFlush(history + [c], start, clock[..turn + 1], turn + 1)
         == if c.calls != b.calls then clock[turn].flushed else LastFlush(history, start, clock[..turn], turn)
  {
    hide WorkerTurn, TimedTurns, LastFlush;
    OneMoreTimed(history, a, b, c, start, clock[..turn], clock[turn], interval, max, limit);
    assert clock[..turn + 1] == clock[..turn] + [clock[turn]];
  }

  lemma NoTurns(a: Snapshot, max: nat, limit: nat, enough: nat)
    ensures Turns([a], a, a, max, limit, enough)
  {
  }

  lemma OneMoreTurn(history: seq<Snapshot>, a: Snapshot, b: Snapshot, c: Snapshot, max: nat, limit: nat, enough: nat)
    requires Turns(history, a, b, max, limit, enough) && WorkerTurn(b, c, max, limit, enough)
    ensures Turns(history + [c], a, c, max, limit, enough)
  {
  }

  lemma IdleTurn(a: Snapshot, b: Snapshot, max: nat, limit: nat)
    requires var n := Min(4 * max, |a.queue|);
             && b.queue == a.queue[n..] && a.calls == b.calls && a.table == b.table
             && b.entries == AppliedAll(a.entries, a.queue[..n]) && |DirtyIds(b.entries)| == 0
    ensures WorkerTurn(a, b, max, limit, 1)
  {
  }

  lemma FlushTurn(a: Snapshot, b: Snapshot, max: nat, limit: nat, enough: nat)
    requires var n := Min(4 * max, |a.queue|);
             && b.queue == a.queue[n..] && a.calls <= b.calls
             && |DirtyIds(AppliedAll(a.entries, a.queue[..n]))| >= enough
    requires var calls, left := b.calls[|a.calls|..], |DirtyIds(b.entries)|;
             var drained := AppliedAll(a.entries, a.queue[..Min(4 * max, |a.queue|)]);
             && calls != [] && Flushed(drained, a.table, b.entries, b.table)
             && FlushCalls(calls, |DirtyIds(drained)|, left, max, limit) && (left == 0 <==> !EndsBadly(calls))
    ensures WorkerTurn(a, b, max, limit, enough)
  {
  }

  const DRAIN_MULTIPLE: nat := 4
  const SHUTDOWN_MAX_STALLED_ATTEMPTS: nat := 64

  class Engine {
    const ring: Ring.RingBuffer<WriteRequest>
    const cache: WriteBehindCache
    const lsn: Lsn.LsnState
    const log: RecordLog
    const store: Store.Backend
    const trace: CallTrace      // every call into log and store
    const flushMaxBatch: nat
    const flushInterval: nat
    const storeRetryLimit: nat
    var scratch: seq<WriteRequest>

    /** The configuration is validated, and log and store report to the same trace. */
    ghost predicate Wired() {
      flushMaxBatch >= 1 && storeRetryLimit >= 1 && log.trace == trace && store.trace == trace
    }

    /** The parts are well formed, the configuration validated, and nothing clean is missing. */
    ghost predicate Valid()
      reads this, ring, ring.stamps, ring.slots, cache, store
    {
      && Wired() && ring.Valid() && cache.Valid() && store.Valid()
      && Settled(cache.entries, store.table)
    }

    constructor (ring: Ring.RingBuffer<WriteRequest>, cache: WriteBehindCache, lsn: Lsn.LsnState, log: RecordLog,
                 store: Store.Backend, flushMaxBatch: nat, flushInterval: nat, storeRetryLimit: nat)
      requires flushMaxBatch >= 1 && storeRetryLimit >= 1 && log.trace == store.trace
      requires cache.Valid() && store.Valid() && Settled(cache.entries, store.table)
      ensures ring.Valid() ==> Valid()
      ensures this.ring == ring && this.cache == cache && this.lsn == lsn && this.log == log && this.store == store
      ensures this.flushMaxBatch == flushMaxBatch && this.flushInterval == flushInterval
      ensures this.storeRetryLimit == storeRetryLimit
    {
      this.ring, this.cache, this.lsn, this.log, this.store := ring, cache, lsn, log, store;
      this.flushMaxBatch, this.flushInterval, this.storeRetryLimit := flushMaxBatch, flushInterval, storeRetryLimit;
      scratch, trace := [], store.trace;
    }

    /**
     Start on a recovered log: every record goes back into the cache, dirty, and the allocator starts
     one past the highest LSN on disk.  `wal` is what opening the log gave.  A ring of one cell is
     accepted, as the source accepts it, but is no valid ring.
     */
    static method Start(ringCapacity: nat, flushMaxBatch: nat, flushInterval: nat, storeRetryLimit: nat,
                        wal: Option<RecordLog>, store: Store.Backend) returns (engine: Option<Engine>)
      requires store.Valid() && ringCapacity <= Ring.ISIZE
      requires wal.Some? ==> wal.value.trace == store.trace
      ensures engine.None? <==>
                ringCapacity == 0 || flushMaxBatch == 0 || flushInterval == 0 || storeRetryLimit == 0 || wal.None?
      ensures engine.Some? ==>
                && fresh(engine.value) && engine.value.log == wal.value && engine.value.store == store
                && engine.value.flushMaxBatch == flushMaxBatch && engine.value.flushInterval == flushInterval
                && engine.value.storeRetryLimit == storeRetryLimit
                && (ringCapacity >= 2 ==> engine.value.Valid()) && engine.value.ring.capacity >= ringCapacity
                && Ring.PowerOfTwo(engine.value.ring.capacity)
                && (forall q :: Ring.PowerOfTwo(q) && ringCapacity <= q ==> engine.value.ring.capacity <= q)
                && engine.value.cache.entries == Log.Replay(wal.value.records) && engine.value.ring.items == []
                && engine.value.lsn.next == Log.Highest(wal.value.records) + 1 && engine.value.lsn.pending == {}
    {
      hide Log.Replay, Log.Highest, Keyed;
      if ringCapacity == 0 || flushMaxBatch == 0 || flushInterval == 0 || storeRetryLimit == 0 {
        return None;
      }
      if wal.None? {
        return None;
      }
      var log := wal.value;
      var cache, highestLsn := Reapply(log.records);
      var lsn := new Lsn.LsnState(highestLsn + 1);
      var ring := new Ring.RingBuffer<WriteRequest>(ringCapacity);
      var e := new Engine(ring, cache, lsn, log, store, flushMaxBatch, flushInterval, storeRetryLimit);
      engine := Some(e);
    }

    /** Recovered records go back as ordinary writes, in log order. */
    static method Reapply(recovered: Log.Records) returns (cache: WriteBehindCache, highestLsn: nat)
      ensures fresh(cache) && cache.Valid() && cache.entries == Log.Replay(recovered)
      ensures cache.dirty == cache.entries.Keys && highestLsn == Log.Highest(recovered)
    {
      hide Keyed, DirtyIds;
      cache := new WriteBehindCache();
      highestLsn := 0;
      var i := 0;
      while i < |recovered|
        invariant 0 <= i <= |recovered| && cache.Valid()
        invariant cache.entries == Log.Replay(recovered[..i]) && highestLsn == Log.Highest(recovered[..i])
      {
        var rec := recovered[i];
        assert recovered[..i + 1][..i] == recovered[..i];
        highestLsn := Max(highestLsn, rec.lsn);
        cache.Apply(WriteRequest(rec.playerId, rec.version, rec.blob, i));
        i := i + 1;
      }
      assert recovered[..|recovered|] == recovered;
      AllDirty(recovered);
    }

    /** Draws one number and offers the request once; a full ring sheds it. */
    method Submit(playerId: nat, version: nat, blob: Bytes, spurious: nat) returns (enqueued: bool)
      requires Valid() && ring.enqueuePos + ring.capacity < Ring.ISIZE
      modifies ring, ring.stamps, ring.slots, lsn`next
      ensures Valid() && lsn.next == old(lsn.next) + 1
      ensures enqueued <==> |old(ring.items)| < ring.capacity
      ensures ring.items == if enqueued then old(ring.items) + [WriteRequest(playerId, version, blob, old(lsn.next))]
                            else old(ring.items)
    {
      var seqNo := lsn.Alloc();
      var refused := ring.TryEnqueue(WriteRequest(playerId, version, blob, seqNo), spurious);
      enqueued := refused.None?;
    }

    /**
     On success the frame is in the log under a pending LSN, so no checkpoint may drop it, and that
     stays so when the ring sheds the copy; on failure neither log nor floor remembers the write.
     */
    method SubmitDurable(playerId: nat, version: nat, blob: Bytes, spurious: nat) returns (ok: bool)
      requires Valid() && ring.enqueuePos + ring.capacity < Ring.ISIZE
      modifies ring, ring.stamps, ring.slots, lsn, log, trace
      ensures Valid() && lsn.next == old(lsn.next) + 1
      ensures trace.calls == old(trace.calls) + [Appended([WalRecord(old(lsn.next), playerId, version, blob)], ok)]
      ensures var rec := WalRecord(old(lsn.next), playerId, version, blob);
              if ok then log.records == old(log.records) + [rec] && lsn.pending == old(lsn.pending) + {rec.lsn}
                      && ring.items == (if |old(ring.items)| < ring.capacity
                                        then old(ring.items) + [rec.ToRequest()] else old(ring.items))
              else log.records == old(log.records) && lsn.pending == old(lsn.pending) - {rec.lsn}
                   && ring.items == old(ring.items)
    {
      var l := lsn.Alloc();
      lsn.NotePending(l);
      var appended := log.AppendBatch([WalRecord(l, playerId, version, blob)]);
      if appended.None? {
        lsn.NoteDrained(l);
        return false;
      }
      var _ := ring.TryEnqueue(WriteRequest(playerId, version, blob, l), spurious);
      ok := true;
    }

    /** A read from the cache; what it serves and the store does not have yet is still due. */
    method CacheGet(id: nat) returns (r: Option<PlayerState>)
      requires Valid()
      ensures r == if id in cache.entries then Some(cache.entries[id].state) else None
      ensures r.Some? ==> r.value.playerId == id
      ensures r.Some? && !Store.Covers(store.table, id, r.value.version) ==> id in cache.dirty
    {
      r := cache.Get(id);
    }

    /** Lifts each request's checkpoint floor and coalesces it into the cache. */
    method ApplyScratch(reqs: seq<WriteRequest>)
      requires cache.Valid()
      modifies cache, lsn`pending
      ensures cache.Valid() && cache.entries == AppliedAll(old(cache.entries), reqs)
      ensures lsn.pending == old(lsn.pending) - Seqs(reqs)
    {
      var i := 0;
      while i < |reqs|
        invariant 0 <= i <= |reqs| && cache.Valid()
        invariant cache.entries == AppliedAll(old(cache.entries), reqs[..i])
        invariant lsn.pending == old(lsn.pending) - Seqs(reqs[..i])
      {
        assert reqs[..i + 1][..i] == reqs[..i] && reqs[..i + 1] == reqs[..i] + [reqs[i]];
        assert Seqs(reqs[..i + 1]) == Seqs(reqs[..i]) + {reqs[i].seqNo};
        lsn.NoteDrained(reqs[i].seqNo);
        cache.Apply(reqs[i]);
        i := i + 1;
      }
      assert reqs[..|reqs|] == reqs;
    }

    /** Moves the oldest requests through a scratch buffer into the cache, in order. */
    method DrainUpTo(max: nat) returns (buf: seq<WriteRequest>, count: nat)
      requires Valid()
      modifies ring, ring.stamps, ring.slots, cache, lsn`pending
      ensures Valid() && count == Min(max, |old(ring.items)|) && buf == old(ring.items)[..count]
      ensures ring.items == old(ring.items)[count..]
      ensures cache.entries == AppliedAll(old(cache.entries), buf)
      ensures lsn.pending == old(lsn.pending) - Seqs(buf)
      ensures |cache.dirty| <= |old(cache.dirty)| + count
    {
      hide AppliedAll, Settled, Keyed, DirtyIds;
      var spurious: nat := *;
      buf, count := ring.DrainInto([], max, spurious);
      ApplyScratch(buf);
      AppliedSettles(old(cache.entries), store.table, buf);
    }

    /** The worker's drain: four batches' worth at most. */
    method DrainRingIntoCache() returns (count: nat)
      requires Valid()
      modifies this`scratch, ring, ring.stamps, ring.slots, cache, lsn`pending
      ensures Valid() && count == Min(4 * flushMaxBatch, |old(ring.items)|)
      ensures ring.items == old(ring.items)[count..]
      ensures cache.entries == AppliedAll(old(cache.entries), old(ring.items)[..count])
      ensures lsn.pending == old(lsn.pending) - Seqs(old(ring.items)[..count])
      ensures |cache.dirty| <= |old(cache.dirty)| + count
    {
      scratch, count := DrainUpTo(flushMaxBatch * DRAIN_MULTIPLE);
    }

    /** At most `storeRetryLimit` store calls; a retryable failure is returned only when all are used. */
    method PersistWithRetry(states: seq<PlayerState>) returns (last: Outcome, attempts: nat)
      requires store.Valid() && Wired()
      modifies store, trace
      ensures store.Valid()
      ensures old(trace.calls) <= trace.calls
      ensures var calls := trace.calls[|old(trace.calls)|..];
              && Persisting(calls, states, storeRetryLimit)
              && attempts == |calls| && last == calls[|calls| - 1].outcome
      ensures store.table == if last == Persisted then Store.UpsertedAll(old(store.table), states)
                             else old(store.table)
    {
      attempts := 0;
      while true
        invariant store.Valid() && store.table == old(store.table) && attempts < storeRetryLimit
        invariant old(trace.calls) <= trace.calls && |trace.calls| == |old(trace.calls)| + attempts
        invariant forall i :: |old(trace.calls)| <= i < |trace.calls| ==> trace.calls[i] == Stored(states, Retryable)
        decreases storeRetryLimit - attempts
      {
        attempts := attempts + 1;
        last := store.PersistBatch(states);
        if last != Retryable || attempts >= storeRetryLimit {
          return;
        }
      }
    }

    /** The write-ahead half both flush paths share: append and, only if that succeeded, persist. */
    method LogAndStore(states: seq<PlayerState>, records: Log.Records) returns (high: Option<nat>, last: Outcome)
      requires store.Valid() && Wired() && states == ToStates(records)
      modifies log, store, trace
      ensures store.Valid() && old(trace.calls) <= trace.calls
      ensures var calls := trace.calls[|old(trace.calls)|..];
              && log.records == LogAfter(old(log.records), calls)
              && if high.None? then
                   && calls == [Appended(records, false)] && last != Persisted
                   && log.records == old(log.records) && store.table == old(store.table)
                 else
                   && |calls| >= 2 && calls[0] == Appended(records, true)
                   && Persisting(calls[1..], states, storeRetryLimit) && last == calls[|calls| - 1].outcome
                   && log.records == old(log.records) + records
                   && high.value == log.lastLsn == Max(old(log.lastLsn), Log.Highest(records))
      ensures store.table == if last == Persisted then Store.UpsertedAll(old(store.table), states)
                             else old(store.table)
    {
      hide Store.UpsertedAll, Persisting, Log.Highest, LogAfter;
      ghost var c0 := trace.calls;
      high := log.AppendBatch(records);
      LogAfterFirst(old(log.records), records);
      if high.None? {
        assert trace.calls[|c0|..] == [Appended(records, false)];
        last := Fatal;
        return;
      }
      ghost var c1 := trace.calls;
      var outcome, _ := PersistWithRetry(states);
      last := outcome;
      ghost var tries := trace.calls[|c1|..];
      PersistingEnds(tries, states, storeRetryLimit);
      assert trace.calls[|c0|..] == [Appended(records, true)] + tries;
      LogAfterStored(old(log.records), [Appended(records, true)], tries);
    }

    /** Log first, then store, then a clamped checkpoint; on any failure the batch is put back. */
    method FlushBatch(states: seq<PlayerState>) returns (ok: bool)
      requires cache.Valid() && store.Valid() && Wired()
      modifies cache, lsn`next, log, store, trace
      ensures cache.Valid() && store.Valid() && lsn.next == old(lsn.next) + |states|
      ensures ok ==> store.table == Store.UpsertedAll(old(store.table), states) && cache.entries == old(cache.entries)
      ensures !ok ==> store.table == old(store.table) && cache.entries == Requeued(old(cache.entries), states)
      ensures old(trace.calls) <= trace.calls
      ensures var calls := trace.calls[|old(trace.calls)|..];
              var batch := Pipeline.RecordsOf(states, old(lsn.next));
              && Attempt(calls, batch, storeRetryLimit, BatchWatermark(old(log.lastLsn), batch, lsn.pending), ok)
              && log.records == LogAfter(old(log.records), calls)
              && (ok ==> calls != [] && (calls[|calls| - 1].Cut? <==> 0 !in lsn.pending))
              && (EndsCut(calls) && states != [] ==> Trimmed(log.records, lsn.next, lsn.pending))
      ensures FloorKept(old(log.records), log.records, lsn.pending)
    {
      hide Store.UpsertedAll, Requeued, Persisting, Log.Highest, Log.Survivors, Keyed, DirtyIds, Attempt,
        Pipeline.RecordsOf, LogAfter, Lsn.Watermark, ToStates, FloorKept, Trimmed;
      ghost var c0 := trace.calls;
      var firstLsn := lsn.AllocBlock(|states|);
      var records := Pipeline.RecordsOf(states, firstLsn);
      SameStates(states, firstLsn);
      var highestLsn := if states == [] then 0 else firstLsn + |states| - 1;
      var confirmed, last := LogAndStore(states, records);
      ghost var calls := trace.calls[|c0|..];
      ghost var watermark := BatchWatermark(old(log.lastLsn), records, lsn.pending);
      FloorKeptAppend(old(log.records), records, lsn.pending);
      PersistingOnly(calls, states, storeRetryLimit);
      if last != Persisted {
        AttemptFailed(records, calls, storeRetryLimit, states, watermark);
        cache.RequeueDirty(states);
        return false;
      }
      SettledHigh(states, firstLsn, old(log.lastLsn));
      var checkpointLsn := if confirmed.value != 0 then confirmed.value else highestLsn;
      var safe := lsn.CheckpointWatermark(checkpointLsn);
      if safe.Some? {
        var cut := log.Checkpoint(safe.value);
        assert trace.calls[|c0|..] == calls + [Cut(safe.value, cut)];
        AttemptCut(records, calls, safe.value, cut, storeRetryLimit, states);
        LogAfterOne(old(log.records), calls, Cut(safe.value, cut));
        FloorKeptCut(old(log.records), records, checkpointLsn, safe.value, lsn.pending);
        if cut && states != [] {
          TrimmedByCut(old(log.records), records, checkpointLsn, safe.value, lsn.next, lsn.pending);
        }
      } else {
        AttemptUncut(records, calls, storeRetryLimit, states);
      }
      ok := true;
    }

    /**
     Batch after batch until nothing is dirty or a batch is put back: at the end nothing is dirty if and
     only if the last call did not refuse its batch, and a flush that cleaned nothing is one failed
     attempt.
     */
    method Flush()
      requires Valid()
      modifies cache, lsn`next, log, store, trace
      ensures Valid() && Flushed(old(cache.entries), old(store.table), cache.entries, store.table)
      ensures old(trace.calls) <= trace.calls && FloorKept(old(log.records), log.records, lsn.pending)
      ensures var calls := trace.calls[|old(trace.calls)|..];
              && WriteAhead(calls, storeRetryLimit)
              && (cache.dirty == {} <==> !EndsBadly(calls)) && (old(cache.dirty) != {} ==> calls != [])
              && (old(cache.dirty) != {} && |cache.dirty| >= |old(cache.dirty)| ==>
                    FailedAttempt(calls, storeRetryLimit))
              && FlushCalls(calls, |old(cache.dirty)|, |cache.dirty|, flushMaxBatch, storeRetryLimit)
              && (EndsCut(calls) ==> Trimmed(log.records, lsn.next, lsn.pending))
    {
      hide Flushed, Settled, WriteAhead, EndsBadly, FailedAttempt, Keyed, DirtyIds, FloorKept, Trimmed, Tried, Batches,
        FlushCalls, EndsCut;
      ghost var c0 := trace.calls;
      FlushedRefl(cache.entries, store.table);
      NoCalls(storeRetryLimit);
      NoBatches(|cache.dirty|, flushMaxBatch, storeRetryLimit);
      FloorKeptAppend(log.records, [], lsn.pending);
      assert c0[|c0|..] == [];
      while true
        invariant Valid() && Flushed(old(cache.entries), old(store.table), cache.entries, store.table)
        invariant c0 <= trace.calls && WriteAhead(trace.calls[|c0|..], storeRetryLimit)
        invariant !EndsBadly(trace.calls[|c0|..]) && |cache.dirty| <= |old(cache.dirty)|
        invariant |cache.dirty| == |old(cache.dirty)| ==> trace.calls == c0
        invariant trace.calls == c0 ==> cache.dirty == old(cache.dirty)
        invariant FloorKept(old(log.records), log.records, lsn.pending)
        invariant Batches(trace.calls[|c0|..], |old(cache.dirty)|, |cache.dirty|, flushMaxBatch, storeRetryLimit)
        invariant EndsCut(trace.calls[|c0|..]) ==> Trimmed(log.records, lsn.next, lsn.pending)
        decreases |cache.dirty|
      {
        ghost var m, t, c, l, due := cache.entries, store.table, trace.calls, log.records, |cache.dirty|;
        var more := FlushSome();
        FloorKeptTwice(old(log.records), l, log.records, lsn.pending, lsn.pending);
        FlushedTwice(old(cache.entries), old(store.table), m, t, cache.entries, store.table);
        assert trace.calls[|c0|..] == c[|c0|..] + trace.calls[|c|..];
        WriteAheadConcat(c[|c0|..], trace.calls[|c|..], storeRetryLimit);
        EndOfConcat(c[|c0|..], trace.calls[|c|..]);
        CutOfConcat(c[|c0|..], trace.calls[|c|..]);
        if !more {
          AllBatches(c[|c0|..], |old(cache.dirty)|, due, flushMaxBatch, storeRetryLimit);
          if trace.calls != c {
            RefusedBatch(c[|c0|..], trace.calls[|c|..], |old(cache.dirty)|, due, flushMaxBatch, storeRetryLimit);
          }
          return;
        }
        OneMoreBatch(c[|c0|..], trace.calls[|c|..], |old(cache.dirty)|, due, flushMaxBatch, storeRetryLimit);
      }
    }

    /** One turn of the flush loop. */
    method FlushSome() returns (more: bool)
      requires Valid()
      modifies cache, lsn`next, log, store, trace
      ensures Valid() && Flushed(old(cache.entries), old(store.table), cache.entries, store.table)
      ensures more ==> |cache.dirty| < |old(cache.dirty)|
      ensures !more ==> cache.entries == old(cache.entries) && store.table == old(store.table)
      ensures old(trace.calls) <= trace.calls && FloorKept(old(log.records), log.records, lsn.pending)
      ensures var calls := trace.calls[|old(trace.calls)|..];
              && WriteAhead(calls, storeRetryLimit)
              && (more ==> calls != [] && !EndsBadly(calls))
              && (!more ==> if cache.dirty == {} then calls == []
                            else FailedAttempt(calls, storeRetryLimit) && EndsBadly(calls))
              && (calls != [] ==> Tried(calls, Min(flushMaxBatch, |old(cache.dirty)|), storeRetryLimit, more))
              && (more ==> 0 < |old(cache.dirty)| == |cache.dirty| + Min(flushMaxBatch, |old(cache.dirty)|))
              && (EndsCut(calls) ==> Trimmed(log.records, lsn.next, lsn.pending))
              && (calls == [] ==> log.records == old(log.records) && lsn.next == old(lsn.next))
    {
      hide Store.UpsertedAll, Requeued, Cleaned, LogAfter, Ids, Settled, Flushed, Attempt, WriteAhead, EndsBadly,
        FailedAttempt, BatchWatermark, Keyed, DirtyIds, Store.Keyed, Store.OnePerPlayer,
        Ring.RingBuffer.Valid, FloorKept, Trimmed;
      FlushedRefl(cache.entries, store.table);
      NoCalls(storeRetryLimit);
      FloorKeptAppend(log.records, [], lsn.pending);
      ghost var m, t, c0 := cache.entries, store.table, trace.calls;
      assert c0[|c0|..] == [];
      var states := cache.TakeDirty(flushMaxBatch);
      assert TakenFrom(m, states);
      if states == [] {
        TookNothing(m);
        return false;
      }
      ghost var batch := Pipeline.RecordsOf(states, lsn.next);
      ghost var watermark := BatchWatermark(log.lastLsn, batch, lsn.pending);
      more := FlushBatch(states);
      AttemptWritesAhead(trace.calls[|c0|..], batch, storeRetryLimit, watermark, more);
      AttemptTried(trace.calls[|c0|..], batch, storeRetryLimit, watermark, more);
      if more {
        PersistSettles(m, t, states);
      } else {
        RequeueRestores(m, states);
      }
    }

    ghost function Now(): Snapshot
      reads this, ring, cache, store, trace
    {
      Snapshot(cache.entries, store.table, ring.items, trace.calls)
    }

    /** One turn of the shutdown drain: drain, then flush whatever is dirty. */
    method FinalTurn() returns (drained: nat, dirtyBefore: nat)
      requires Valid()
      modifies this`scratch, ring, ring.stamps, ring.slots, cache, lsn, log, store, trace
      ensures Valid() && WorkerTurn(old(Now()), Now(), flushMaxBatch, storeRetryLimit, 1)
      ensures Moved(old(cache.entries), old(store.table), old(ring.items), cache.entries, store.table, ring.items)
      ensures old(trace.calls) <= trace.calls && lsn.pending <= old(lsn.pending)
      ensures FloorKept(old(log.records), log.records, lsn.pending)
      ensures |ring.items| + drained == |old(ring.items)|
      ensures |cache.dirty| <= dirtyBefore <= |old(cache.dirty)| + drained
      ensures drained == Min(4 * flushMaxBatch, |old(ring.items)|)
      ensures var calls := trace.calls[|old(trace.calls)|..];
              && WriteAhead(calls, storeRetryLimit) && (cache.dirty == {} <==> !EndsBadly(calls))
              && (calls == [] <==> dirtyBefore == 0) && (old(cache.dirty) != {} ==> dirtyBefore > 0)
              && (calls != [] && |cache.dirty| >= dirtyBefore ==> FailedAttempt(calls, storeRetryLimit))
    {
      hide Moved, Flushed, Settled, AppliedAll, Seqs, WriteAhead, EndsBadly, FailedAttempt, Keyed, DirtyIds, FloorKept,
        Trimmed, FlushCalls, EndsCut, WorkerTurn;
      ghost var before, l := Now(), log.records;
      NotMoved(before.entries, before.table, before.queue);
      NoCalls(storeRetryLimit);
      assert before.calls[|before.calls|..] == [];
      drained := DrainRingIntoCache();
      MovedByDrain(before.entries, before.table, before.queue, before.entries, before.table, before.queue, drained);
      DirtyStays(before.entries, before.queue[..drained]);
      FloorKeptAppend(l, [], lsn.pending);
      dirtyBefore := |cache.dirty|;
      if dirtyBefore > 0 {
        ghost var m := cache.entries;
        Flush();
        MovedByFlush(before.entries, before.table, before.queue, m, before.table, ring.items,
                     cache.entries, store.table);
        FlushShrinks(m, before.table, cache.entries, store.table);
        FlushTurn(before, Now(), flushMaxBatch, storeRetryLimit, 1);
      } else {
        IdleTurn(before, Now(), flushMaxBatch, storeRetryLimit);
      }
    }

    /**
     The shutdown drain, with no new requests and a store that may always fail.  The ring ends empty.
     The dirty set ends empty, and then everything is delivered, if and only if the last call into log
     and store did not refuse a batch; otherwise the drain's last calls are 64 failed attempts in a row
     and nothing else.  `history` holds what the engine was before each turn and at the end.
     */
    method FinalDrain() returns (ghost history: seq<Snapshot>)
      requires Valid()
      modifies this`scratch, ring, ring.stamps, ring.slots, cache, lsn, log, store, trace
      ensures Valid() && ring.items == []
      ensures Turns(history, old(Now()), Now(), flushMaxBatch, storeRetryLimit, 1)
      ensures Moved(old(cache.entries), old(store.table), old(ring.items), cache.entries, store.table, ring.items)
      ensures old(trace.calls) <= trace.calls && lsn.pending <= old(lsn.pending)
      ensures FloorKept(old(log.records), log.records, lsn.pending)
      ensures var calls := trace.calls[|old(trace.calls)|..];
              && WriteAhead(calls, storeRetryLimit)
              && (cache.dirty == {} <==> !EndsBadly(calls)) && (old(cache.dirty) != {} ==> calls != [])
              && (cache.dirty != {} ==> StalledEnd(calls, 64, storeRetryLimit))
      ensures cache.dirty == {} ==> Delivered(old(cache.entries), old(ring.items), store.table)
    {
      hide Moved, Delivered, Flushed, Settled, AppliedAll, Seqs, WriteAhead, EndsBadly, StalledEnd, FailedAttempt,
        Keyed, DirtyIds, FloorKept, WorkerTurn, Turns, Ring.RingBuffer.Valid;
      ghost var m0, t0, q0, c0 := cache.entries, store.table, ring.items, trace.calls;
      var stalled := 0;
      NotMoved(m0, t0, q0);
      NoCalls(storeRetryLimit);
      FloorKeptAppend(log.records, [], lsn.pending);
      NotStalled([], storeRetryLimit);
      assert c0[|c0|..] == [];
      history := [Now()];
      NoTurns(Now(), flushMaxBatch, storeRetryLimit, 1);
      while true
        invariant Valid() && stalled < SHUTDOWN_MAX_STALLED_ATTEMPTS && c0 <= trace.calls
        invariant StalledEnd(trace.calls[|c0|..], stalled, storeRetryLimit)
        invariant WriteAhead(trace.calls[|c0|..], storeRetryLimit)
        invariant lsn.pending <= old(lsn.pending) && FloorKept(old(log.records), log.records, lsn.pending)
        invariant EndsBadly(trace.calls[|c0|..]) ==> cache.dirty != {}
        invariant trace.calls == c0 && old(cache.dirty) != {} ==> cache.dirty != {}
        invariant Moved(m0, t0, q0, cache.entries, store.table, ring.items)
        invariant Turns(history, old(Now()), Now(), flushMaxBatch, storeRetryLimit, 1)
        decreases 2 * |ring.items| + |cache.dirty|, SHUTDOWN_MAX_STALLED_ATTEMPTS - stalled
      {
        ghost var m, t, q, c := cache.entries, store.table, ring.items, trace.calls;
        ghost var l, pending := log.records, lsn.pending;
        ghost var before := Now();
        var drained, dirtyBefore := FinalTurn();
        OneMoreTurn(history, old(Now()), before, Now(), flushMaxBatch, storeRetryLimit, 1);
        history := history + [Now()];
        FloorKeptTwice(old(log.records), l, log.records, pending, lsn.pending);
        MovedTwice(m0, t0, q0, m, t, q, cache.entries, store.table, ring.items);
        assert trace.calls[|c0|..] == c[|c0|..] + trace.calls[|c|..];
        WriteAheadConcat(c[|c0|..], trace.calls[|c|..], storeRetryLimit);
        EndOfConcat(c[|c0|..], trace.calls[|c|..]);
        var length := ring.Len();
        var ringEmpty := length == 0;
        if ringEmpty && dirtyBefore == 0 {
          AllDelivered(m0, t0, q0, cache.entries, store.table);
          return;
        }
        var dirtyAfter := |cache.dirty|;
        var madeProgress := drained > 0 || dirtyAfter < dirtyBefore;
        if madeProgress {
          stalled := 0;
          NotStalled(trace.calls[|c0|..], storeRetryLimit);
        } else {
          StallsMore(c[|c0|..], stalled, storeRetryLimit, trace.calls[|c|..]);
          stalled := stalled + 1;
          if stalled >= SHUTDOWN_MAX_STALLED_ATTEMPTS {
            return;
          }
        }
      }
    }

    /**
     One turn of the worker's loop: drain, then flush when a batch is dirty or the flush interval is over
     and anything is.
     */
    method Turn(timeReady: bool) returns (flushed: bool)
      requires Valid()
      modifies this`scratch, ring, ring.stamps, ring.slots, cache, lsn, log, store, trace
      ensures Valid() && WorkerTurn(old(Now()), Now(), flushMaxBatch, storeRetryLimit,
                                    if timeReady then 1 else flushMaxBatch)
      ensures Moved(old(cache.entries), old(store.table), old(ring.items), cache.entries, store.table, ring.items)
      ensures old(trace.calls) <= trace.calls && lsn.pending <= old(lsn.pending)
      ensures FloorKept(old(log.records), log.records, lsn.pending)
      ensures var calls := trace.calls[|old(trace.calls)|..];
              && WriteAhead(calls, storeRetryLimit) && (EndsBadly(calls) ==> cache.dirty != {})
              && (calls == [] && old(cache.dirty) != {} ==> cache.dirty != {})
              && (flushed <==> calls != [])
    {
      hide Moved, Flushed, Settled, AppliedAll, Seqs, WriteAhead, EndsBadly, FailedAttempt, Keyed, DirtyIds, FloorKept,
        Trimmed, FlushCalls, EndsCut;
      ghost var m0, t0, q0, c0 := cache.entries, store.table, ring.items, trace.calls;
      ghost var l, pending := log.records, lsn.pending;
      NotMoved(m0, t0, q0);
      NoCalls(storeRetryLimit);
      assert c0[|c0|..] == [];
      var drained := DrainRingIntoCache();
      MovedByDrain(m0, t0, q0, m0, t0, q0, drained);
      DirtyStays(m0, q0[..drained]);
      FloorKeptAppend(l, [], lsn.pending);
      var volumeReady := |cache.dirty| >= flushMaxBatch;
      flushed := false;
      if |cache.dirty| > 0 && (volumeReady || timeReady) {
        ghost var m := cache.entries;
        Flush();
        flushed := true;
        MovedByFlush(m0, t0, q0, m, t0, ring.items, cache.entries, store.table);
      }
    }

    /**
     The worker's loop, begun at `start` and told to stop after as many turns as there are readings of the
     clock.  `history` holds what the engine was before each turn and at the end.
     */
    method TurnUntilStopped(start: nat, clock: seq<Reading>) returns (ghost history: seq<Snapshot>)
      requires Valid()
      modifies this`scratch, ring, ring.stamps, ring.slots, cache, lsn, log, store, trace
      ensures Valid()
      ensures TimedTurns(history, old(Now()), Now(), start, clock, flushInterval, flushMaxBatch, storeRetryLimit)
      ensures Moved(old(cache.entries), old(store.table), old(ring.items), cache.entries, store.table, ring.items)
      ensures old(trace.calls) <= trace.calls && lsn.pending <= old(lsn.pending)
      ensures FloorKept(old(log.records), log.records, lsn.pending)
      ensures var calls := trace.calls[|old(trace.calls)|..];
              WriteAhead(calls, storeRetryLimit) && (EndsBadly(calls) ==> cache.dirty != {})
    {
      hide Moved, Flushed, Settled, AppliedAll, Seqs, WriteAhead, EndsBadly, FailedAttempt, Keyed, DirtyIds, FloorKept,
        WorkerTurn, TimedTurns, LastFlush, Ring.RingBuffer.Valid;
      ghost var a := Now();
      NotMoved(a.entries, a.table, a.queue);
      NoCalls(storeRetryLimit);
      FloorKeptAppend(log.records, [], lsn.pending);
      assert a.calls[|a.calls|..] == [];
      var turn, lastFlush := 0, start;
      history := [a];
      NoTimed(a, start, clock, flushInterval, flushMaxBatch, storeRetryLimit);
      while turn < |clock|
        invariant Valid() && a.calls <= trace.calls && turn <= |clock| && |history| == turn + 1
        invariant TimedTurns(history, a, Now(), start, clock[..turn], flushInterval, flushMaxBatch, storeRetryLimit)
        invariant lastFlush == LastFlush(history, start, clock[..turn], turn)
        invariant WriteAhead(trace.calls[|a.calls|..], storeRetryLimit)
        invariant lsn.pending <= old(lsn.pending) && FloorKept(old(log.records), log.records, lsn.pending)
        invariant EndsBadly(trace.calls[|a.calls|..]) ==> cache.dirty != {}
        invariant Moved(a.entries, a.table, a.queue, cache.entries, store.table, ring.items)
      {
        ghost var b, l, pending := Now(), log.records, lsn.pending;
        var flushed := Turn(clock[turn].deciding >= lastFlush + flushInterval);
        NextTimed(history, a, b, Now(), start, clock, turn, flushInterval, flushMaxBatch, storeRetryLimit);
        history := history + [Now()];
        FloorKeptTwice(old(log.records), l, log.records, pending, lsn.pending);
        MovedTwice(a.entries, a.table, a.queue, b.entries, b.table, b.queue, cache.entries, store.table, ring.items);
        assert trace.calls[|a.calls|..] == b.calls[|a.calls|..] + trace.calls[|b.calls|..];
        WriteAheadConcat(b.calls[|a.calls|..], trace.calls[|b.calls|..], storeRetryLimit);
        EndOfConcat(b.calls[|a.calls|..], trace.calls[|b.calls|..]);
        if flushed {
          lastFlush := clock[turn].flushed;
        }
        turn := turn + 1;
      }
      assert clock[..turn] == clock;
    }

    /**
     The worker thread: its loop and then the final drain.  `history` holds what the engine was before each
     turn of the loop and before the drain.
     */
    method Run(start: nat, clock: seq<Reading>) returns (ghost history: seq<Snapshot>)
      requires Valid()
      modifies this`scratch, ring, ring.stamps, ring.slots, cache, lsn, log, store, trace
      ensures Valid() && ring.items == []
      ensures |history| == |clock| + 1
      ensures var last := history[|clock|];
              && TimedTurns(history, old(Now()), last, start, clock, flushInterval, flushMaxBatch, storeRetryLimit)
              && last.calls <= trace.calls
              && Moved(last.entries, last.table, last.queue, cache.entries, store.table, ring.items)
      ensures Moved(old(cache.entries), old(store.table), old(ring.items), cache.entries, store.table, ring.items)
      ensures old(trace.calls) <= trace.calls && lsn.pending <= old(lsn.pending)
      ensures FloorKept(old(log.records), log.records, lsn.pending)
      ensures var calls := trace.calls[|old(trace.calls)|..];
              && WriteAhead(calls, storeRetryLimit)
              && (cache.dirty == {} <==> !EndsBadly(calls))
              && (cache.dirty != {} ==> StalledEnd(calls, 64, storeRetryLimit))
      ensures cache.dirty == {} ==> Delivered(old(cache.entries), old(ring.items), store.table)
    {
      hide Moved, Delivered, Settled, AppliedAll, Seqs, WriteAhead, EndsBadly, StalledEnd, Keyed, DirtyIds, FloorKept,
        WorkerTurn, Turns, LastFlush, Ring.RingBuffer.Valid;
      ghost var a := Now();
      NoCalls(storeRetryLimit);
      history := TurnUntilStopped(start, clock);
      ghost var b, l, pending := Now(), log.records, lsn.pending;
      assert history[|clock|] == b;
      hide TimedTurns;
      var _ := FinalDrain();
      FloorKeptTwice(old(log.records), l, log.records, pending, lsn.pending);
      MovedTwice(a.entries, a.table, a.queue, b.entries, b.table, b.queue, cache.entries, store.table, ring.items);
      ghost var c, d := b.calls[|a.calls|..], trace.calls[|b.calls|..];
      assert trace.calls[|a.calls|..] == c + d;
      WriteAheadConcat(c, d, storeRetryLimit);
      EndOfConcat(c, d);
      if cache.dirty == {} {
        AllDelivered(a.entries, a.table, a.queue, cache.entries, store.table);
      } else {
        StalledConcat(c, d, SHUTDOWN_MAX_STALLED_ATTEMPTS, storeRetryLimit);
      }
    }

    // -------------------------------------------------------------- the caller-driven flush

    /** Batch after batch out of the ring until it is empty. */
    method DrainWholeRing()
      requires Valid()
      modifies ring, ring.stamps, ring.slots, cache, lsn`pending
      ensures Valid() && ring.items == []
      ensures cache.entries == AppliedAll(old(cache.entries), old(ring.items))
      ensures lsn.pending == old(lsn.pending) - Seqs(old(ring.items))
    {
      hide AppliedAll, Settled, Seqs;
      ghost var all: seq<WriteRequest>, n: nat := ring.items, 0;
      AppliedNone(cache.entries);
      assert all[..0] == [] && all[0..] == all;
      while true
        invariant Valid() && n <= |all| && ring.items == all[n..]
        invariant cache.entries == AppliedAll(old(cache.entries), all[..n])
        invariant lsn.pending == old(lsn.pending) - Seqs(all[..n])
        decreases |ring.items|
      {
        var buf, moved := DrainUpTo(flushMaxBatch);
        DrainedFurther(old(cache.entries), all, n, moved);
        n := n + moved;
        assert moved < flushMaxBatch ==> all[..n] == all;
        if moved == 0 {
          return;
        }
        if moved < flushMaxBatch {
          return;
        }
      }
    }

    /**
     One batch of the caller's flush.  Unlike the worker's it also reports a failed checkpoint: success
     means stored and, when the floor allows one, checkpointed.
     */
    method FlushStates(states: seq<PlayerState>) returns (persisted: Option<nat>)
      requires cache.Valid() && store.Valid() && Wired()
      modifies cache, lsn`next, log, store, trace
      ensures cache.Valid() && store.Valid() && lsn.next == old(lsn.next) + |states|
      ensures old(trace.calls) <= trace.calls && FloorKept(old(log.records), log.records, lsn.pending)
      ensures var calls := trace.calls[|old(trace.calls)|..];
              var batch := Pipeline.RecordsOf(states, old(lsn.next));
              var watermark := BatchWatermark(old(log.lastLsn), batch, lsn.pending);
              && Attempt(calls, batch, storeRetryLimit, watermark, !EndsBadly(calls))
              && log.records == LogAfter(old(log.records), calls)
              && persisted == (if EndsRefused(calls) then None else Some(|states|))
              && (persisted.Some? ==>
                    log.records == if watermark.None? then old(log.records) + batch
                                   else Log.Survivors(old(log.records) + batch, watermark.value))
              && (persisted.Some? && states != [] ==> Trimmed(log.records, lsn.next, lsn.pending))
              && if EndsBadly(calls)
                 then store.table == old(store.table) && cache.entries == Requeued(old(cache.entries), states)
                 else store.table == Store.UpsertedAll(old(store.table), states) && cache.entries == old(cache.entries)
    {
      hide Store.UpsertedAll, Requeued, Persisting, Log.Highest, Log.Survivors, Keyed, DirtyIds, Attempt,
        Pipeline.RecordsOf, LogAfter, Lsn.Watermark, ToStates, EndsBadly, EndsRefused, FloorKept, Trimmed;
      ghost var c0 := trace.calls;
      var firstLsn := lsn.AllocBlock(|states|);
      var records := Pipeline.RecordsOf(states, firstLsn);
      SameStates(states, firstLsn);
      var lastLsn, last := LogAndStore(states, records);
      ghost var calls := trace.calls[|c0|..];
      ghost var watermark := BatchWatermark(old(log.lastLsn), records, lsn.pending);
      FloorKeptAppend(old(log.records), records, lsn.pending);
      assert calls == calls[..|calls| - 1] + [calls[|calls| - 1]];
      EndOf(calls[..|calls| - 1], calls[|calls| - 1]);
      PersistingOnly(calls, states, storeRetryLimit);
      if last != Persisted {
        AttemptFailed(records, calls, storeRetryLimit, states, watermark);
        cache.RequeueDirty(states);
        return None;
      }
      SettledHigh(states, firstLsn, old(log.lastLsn));
      var safe := lsn.CheckpointWatermark(lastLsn.value);
      if safe.Some? {
        var ok := log.Checkpoint(safe.value);
        assert trace.calls[|c0|..] == calls + [Cut(safe.value, ok)];
        AttemptCut(records, calls, safe.value, ok, storeRetryLimit, states);
        LogAfterOne(old(log.records), calls, Cut(safe.value, ok));
        FloorKeptCut(old(log.records), records, lastLsn.value, safe.value, lsn.pending);
        EndOf(calls, Cut(safe.value, ok));
        if !ok {
          return None;
        }
        if states != [] {
          TrimmedByCut(old(log.records), records, lastLsn.value, safe.value, lsn.next, lsn.pending);
        }
      } else {
        AttemptUncut(records, calls, storeRetryLimit, states);
        TrimmedByNone(log.records, lsn.next, lsn.pending);
      }
      persisted := Some(|states|);
    }

    /**
     `flush_now` without interference: it ends, and succeeds if and only if the last call into log and
     store did.  On success ring and dirty set are empty, everything is in the store, and the count is
     the number of players dirty once the ring was drained.
     */
    method FlushNow() returns (total: Option<nat>)
      requires Valid()
      modifies this`scratch, ring, ring.stamps, ring.slots, cache, lsn, log, store, trace
      ensures Valid() && ring.items == []
      ensures Moved(old(cache.entries), old(store.table), old(ring.items), cache.entries, store.table, [])
      ensures old(trace.calls) <= trace.calls && lsn.pending == old(lsn.pending) - Seqs(old(ring.items))
      ensures FloorKept(old(log.records), log.records, lsn.pending)
      ensures var calls := trace.calls[|old(trace.calls)|..];
              && WriteAhead(calls, storeRetryLimit)
              && (total.Some? <==> !EndsRefused(calls)) && CutsOk(calls)
              && FlushCalls(calls, |DirtyIds(AppliedAll(old(cache.entries), old(ring.items)))|, |cache.dirty|,
                            flushMaxBatch, storeRetryLimit)
      ensures total.Some? && total.value > 0 ==> Trimmed(log.records, lsn.next, lsn.pending)
      ensures total.Some? ==> cache.dirty == {} && Delivered(old(cache.entries), old(ring.items), store.table)
      ensures total.Some? ==> total.value == |DirtyIds(AppliedAll(old(cache.entries), old(ring.items)))|
      ensures total.Some? ==>
                forall p :: p in cache.entries ==> Store.Covers(store.table, p, cache.entries[p].state.version)
    {
      hide Moved, Delivered, Flushed, AppliedAll, Settled, Seqs, WriteAhead, EndsRefused, EndsBadly, FloorKept, Trimmed,
        Tried, Batches, FlushCalls, CutsOk;
      ghost var m0, t0, q0, c0 := cache.entries, store.table, ring.items, trace.calls;
      NotMoved(m0, t0, q0);
      NoCalls(storeRetryLimit);
      assert c0[|c0|..] == [];
      DrainWholeRing();
      FloorKeptAppend(log.records, [], lsn.pending);
      assert q0[..|q0|] == q0 && q0[|q0|..] == [];
      MovedByDrain(m0, t0, q0, m0, t0, q0, |q0|);
      ghost var due := |cache.dirty|;
      var count := 0;
      NoBatches(due, flushMaxBatch, storeRetryLimit);
      assert CutsOk([]) by { NoCutFailed(); }
      while |cache.dirty| > 0
        invariant Valid() && ring.items == [] && count + |cache.dirty| == due && c0 <= trace.calls
        invariant WriteAhead(trace.calls[|c0|..], storeRetryLimit) && !EndsRefused(trace.calls[|c0|..])
        invariant Moved(m0, t0, q0, cache.entries, store.table, [])
        invariant lsn.pending == old(lsn.pending) - Seqs(q0)
        invariant FloorKept(old(log.records), log.records, lsn.pending)
        invariant CutsOk(trace.calls[|c0|..]) && (count > 0 ==> Trimmed(log.records, lsn.next, lsn.pending))
        invariant Batches(trace.calls[|c0|..], due, |cache.dirty|, flushMaxBatch, storeRetryLimit)
        decreases |cache.dirty|
      {
        ghost var m, t, c, l := cache.entries, store.table, trace.calls, log.records;
        ghost var left := |cache.dirty|;
        var persisted := FlushNextBatch();
        FloorKeptTwice(old(log.records), l, log.records, lsn.pending, lsn.pending);
        MovedByFlush(m0, t0, q0, m, t, [], cache.entries, store.table);
        assert trace.calls[|c0|..] == c[|c0|..] + trace.calls[|c|..];
        WriteAheadConcat(c[|c0|..], trace.calls[|c|..], storeRetryLimit);
        EndOfConcat(c[|c0|..], trace.calls[|c|..]);
        CutsConcat(c[|c0|..], trace.calls[|c|..]);
        if EndsBadly(trace.calls[|c|..]) {
          RefusedBatch(c[|c0|..], trace.calls[|c|..], due, left, flushMaxBatch, storeRetryLimit);
        } else {
          OneMoreBatch(c[|c0|..], trace.calls[|c|..], due, left, flushMaxBatch, storeRetryLimit);
          AllBatches(trace.calls[|c0|..], due, |cache.dirty|, flushMaxBatch, storeRetryLimit);
        }
        if persisted.None? {
          return None;
        }
        count := count + persisted.value;
      }
      AllDelivered(m0, t0, q0, cache.entries, store.table);
      AllBatches(trace.calls[|c0|..], due, |cache.dirty|, flushMaxBatch, storeRetryLimit);
      total := Some(count);
    }

    /** One turn of the `flush_now` loop: drain again, take a batch, flush it. */
    method FlushNextBatch() returns (persisted: Option<nat>)
      requires Valid() && ring.items == [] && |cache.dirty| > 0
      modifies ring, ring.stamps, ring.slots, cache, lsn, log, store, trace
      ensures Valid() && ring.items == []
      ensures Flushed(old(cache.entries), old(store.table), cache.entries, store.table)
      ensures old(trace.calls) <= trace.calls && lsn.pending == old(lsn.pending)
      ensures FloorKept(old(log.records), log.records, lsn.pending)
      ensures var calls := trace.calls[|old(trace.calls)|..];
              WriteAhead(calls, storeRetryLimit) && calls != [] && (persisted.Some? <==> !EndsRefused(calls))
      ensures persisted.Some? ==> 0 < persisted.value && |cache.dirty| + persisted.value == |old(cache.dirty)|
      ensures persisted.Some? ==> Trimmed(log.records, lsn.next, lsn.pending)
      ensures var calls := trace.calls[|old(trace.calls)|..];
              && Tried(calls, Min(flushMaxBatch, |old(cache.dirty)|), storeRetryLimit, !EndsBadly(calls))
              && CutsOk(calls)
              && |cache.dirty| == |old(cache.dirty)| -
                                  (if EndsBadly(calls) then 0 else Min(flushMaxBatch, |old(cache.dirty)|))
    {
      hide Settled, Flushed, LogAfter, Requeued, Cleaned, Ids, Store.UpsertedAll, Seqs, AppliedAll, Attempt, WriteAhead,
        BatchWatermark, Log.Survivors, FloorKept, Trimmed, EndsBadly, EndsRefused;
      ghost var m, t, c0 := cache.entries, store.table, trace.calls;
      DrainWholeRing();
      AppliedNone(m);
      var states := cache.TakeDirty(flushMaxBatch);
      assert TakenFrom(m, states) && states != [];
      ghost var batch := Pipeline.RecordsOf(states, lsn.next);
      ghost var watermark := BatchWatermark(log.lastLsn, batch, lsn.pending);
      persisted := FlushStates(states);
      ghost var calls := trace.calls[|c0|..];
      AttemptWritesAhead(calls, batch, storeRetryLimit, watermark, !EndsBadly(calls));
      AttemptTried(calls, batch, storeRetryLimit, watermark, !EndsBadly(calls));
      BadlyRefused(calls);
      AttemptCuts(calls, batch, storeRetryLimit, watermark, !EndsBadly(calls));
      PersistSettles(m, t, states);
      RequeueRestores(m, states);
      FlushedRefl(m, t);
    }
  }
}
