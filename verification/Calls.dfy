/**
 The calls the flushing side makes into the log and the store, in order, with how each one went.  A
 ghost trace shared by both objects keeps them, so a method can promise which calls it made.
 */
module Calls {
  import opened Domain
  import opened Prelude

  datatype Outcome = Persisted | Retryable | Fatal

  datatype Call =
    | Appended(batch: seq<WalRecord>, ok: bool)
    | Stored(states: seq<PlayerState>, outcome: Outcome)
    | Cut(upTo: nat, ok: bool)

  class CallTrace {
    ghost var calls: seq<Call>

    constructor ()
      ensures calls == []
    {
      calls := [];
    }

    ghost method Note(c: Call)
      modifies this
      ensures calls == old(calls) + [c]
    {
      calls := calls + [c];
    }
  }

  function ToStates(batch: seq<WalRecord>): (states: seq<PlayerState>)
    ensures |states| == |batch| && forall i :: 0 <= i < |batch| ==> states[i] == batch[i].ToState()
  {
    seq(|batch|, i requires 0 <= i < |batch| => batch[i].ToState())
  }

  // ---------------------------------------------------------------- one batch

  /** Store calls for one batch: retryable failures, then the last, at most `limit` in all. */
  ghost predicate Persisting(t: seq<Call>, states: seq<PlayerState>, limit: nat) {
    && 1 <= |t| <= limit
    && (forall i :: 0 <= i < |t| ==> t[i].Stored? && t[i].states == states)
    && (forall i :: 0 <= i < |t| - 1 ==> t[i].outcome == Retryable)
    && (t[|t| - 1].outcome == Retryable ==> |t| == limit)
  }

  /**
   One attempt at a batch: the append; if it succeeded the store calls; and if those succeeded the cut
   at the watermark, when there is one.
   */
  ghost predicate Attempt(t: seq<Call>, batch: seq<WalRecord>, limit: nat, watermark: Option<nat>, ok: bool) {
    if t == [Appended(batch, false)] then !ok
    else
      && |t| >= 2 && t[0] == Appended(batch, true)
      && if ok && watermark.Some? then
           && t[|t| - 1].Cut? && t[|t| - 1].upTo == watermark.value
           && Persisting(t[1..|t| - 1], ToStates(batch), limit) && t[|t| - 2].outcome == Persisted
         else
           && Persisting(t[1..], ToStates(batch), limit)
           && (ok <==> t[|t| - 1].outcome == Persisted)
  }

  ghost predicate FailedAttempt(t: seq<Call>, limit: nat) {
    t != [] && t[0].Appended? && Attempt(t, t[0].batch, limit, None, false)
  }

  /** One attempt at a batch of `n` entries, at whatever watermark. */
  ghost predicate Tried(t: seq<Call>, n: nat, limit: nat, ok: bool) {
    t != [] && t[0].Appended? && |t[0].batch| == n && exists w :: Attempt(t, t[0].batch, limit, w, ok)
  }

  // ---------------------------------------------------------------- sequences of batches

  predicate IsFailure(c: Call) {
    match c
    case Appended(_, ok) => !ok
    case Stored(_, outcome) => outcome != Persisted
    case Cut(_, _) => false
  }

  /** The last call refused a batch. */
  predicate EndsBadly(t: seq<Call>) {
    t != [] && IsFailure(t[|t| - 1])
  }

  /** The last call failed, a checkpoint included. */
  predicate EndsRefused(t: seq<Call>) {
    EndsBadly(t) || (t != [] && t[|t| - 1].Cut? && !t[|t| - 1].ok)
  }

  /** The store call at `i` follows the successful append of its batch at `j`, with only retries between. */
  ghost predicate Leads(t: seq<Call>, j: nat, i: nat) {
    && j < i < |t| && t[i].Stored?
    && t[j].Appended? && t[j].ok && ToStates(t[j].batch) == t[i].states
    && forall k :: j < k < i ==> t[k] == Stored(t[i].states, Retryable)
  }

  /**
   Write-ahead and bounded retry: every store call comes at most `limit` calls after the successful
   append of the same batch, and every checkpoint right after a successful store call.
   */
  ghost predicate WriteAhead(t: seq<Call>, limit: nat) {
    && (forall i: nat :: i < |t| && t[i].Stored? ==> exists j: nat :: i <= j + limit && Leads(t, j, i))
    && (forall i: nat :: i < |t| && t[i].Cut? ==> i > 0 && t[i - 1].Stored? && t[i - 1].outcome == Persisted)
  }

  /** `n` failed attempts in a row and nothing else. */
  ghost predicate Stalls(t: seq<Call>, n: nat, limit: nat)
    decreases n
  {
    if n == 0 then t == []
    else exists k: nat :: k < |t| && FailedAttempt(t[k..], limit) && Stalls(t[..k], n - 1, limit)
  }

  ghost predicate StalledEnd(t: seq<Call>, n: nat, limit: nat) {
    exists k: nat :: k <= |t| && Stalls(t[k..], n, limit)
  }

  /** One successful attempt, at as many entries as there were up to `max`; `left` are left. */
  ghost predicate Batch(t: seq<Call>, left: nat, max: nat, limit: nat) {
    && t != [] && t[0].Appended? && 1 <= |t[0].batch| == Min(max, left + |t[0].batch|)
    && Tried(t, |t[0].batch|, limit, true)
  }

  /** Successful attempts that took `due` entries down to `left`. */
  ghost predicate Batches(t: seq<Call>, due: nat, left: nat, max: nat, limit: nat)
    decreases |t|
  {
    if t == [] then left == due
    else
      exists k: nat ::
        k < |t| && Batch(t[k..], left, max, limit) && Batches(t[..k], due, left + |t[k..][0].batch|, max, limit)
  }

  /** A flush of `due` entries: batch after batch, until `left` are left and the next batch was refused. */
  ghost predicate FlushCalls(t: seq<Call>, due: nat, left: nat, max: nat, limit: nat) {
    exists k: nat :: k <= |t| && Batches(t[..k], due, left, max, limit)
                  && (k == |t| || (left > 0 && Tried(t[k..], Min(max, left), limit, false)))
  }

  /** No checkpoint failed, but for the last call. */
  predicate CutsOk(t: seq<Call>) {
    forall i :: 0 <= i < |t| - 1 && t[i].Cut? ==> t[i].ok
  }

  /** The last call is a checkpoint that succeeded. */
  predicate EndsCut(t: seq<Call>) {
    t != [] && t[|t| - 1].Cut? && t[|t| - 1].ok
  }

  lemma NoBatches(due: nat, max: nat, limit: nat)
    ensures Batches([], due, due, max, limit)
  {
  }

  lemma OneMoreBatch(t: seq<Call>, more: seq<Call>, due: nat, left: nat, max: nat, limit: nat)
    requires max >= 1 && left >= 1
    requires Batches(t, due, left, max, limit) && Tried(more, Min(max, left), limit, true)
    ensures Batches(t + more, due, left - Min(max, left), max, limit)
  {
    hide Batches, Tried;
    var n := Min(max, left);
    assert more != [] && |more[0].batch| == n by { TriedBatch(more, n, limit, true); }
    BatchAppended(t, more, due, left - n, max, limit);
  }

  lemma TriedBatch(t: seq<Call>, n: nat, limit: nat, ok: bool)
    requires Tried(t, n, limit, ok)
    ensures t != [] && t[0].Appended? && |t[0].batch| == n
  {
  }

  lemma BatchAppended(t: seq<Call>, more: seq<Call>, due: nat, left: nat, max: nat, limit: nat)
    requires Batch(more, left, max, limit) && Batches(t, due, left + |more[0].batch|, max, limit)
    ensures Batches(t + more, due, left, max, limit)
  {
    hide Tried;
    assert more[0].Appended?;
    hide Batch;
    var u := t + more;
    assert u[|t|..] == more && u[..|t|] == t;
  }

  lemma AllBatches(t: seq<Call>, due: nat, left: nat, max: nat, limit: nat)
    requires Batches(t, due, left, max, limit)
    ensures FlushCalls(t, due, left, max, limit)
  {
    assert t[..|t|] == t;
  }

  lemma RefusedBatch(t: seq<Call>, more: seq<Call>, due: nat, left: nat, max: nat, limit: nat)
    requires left >= 1 && Batches(t, due, left, max, limit) && Tried(more, Min(max, left), limit, false)
    ensures FlushCalls(t + more, due, left, max, limit)
  {
    var u := t + more;
    assert u[|t|..] == more && u[..|t|] == t;
  }

  /** Every store call is for between one and `max` states. */
  ghost predicate Sized(t: seq<Call>, max: nat) {
    forall i :: 0 <= i < |t| && t[i].Stored? ==> 1 <= |t[i].states| <= max
  }

  lemma TriedSized(t: seq<Call>, n: nat, limit: nat, ok: bool, max: nat)
    requires Tried(t, n, limit, ok) && 1 <= n <= max
    ensures Sized(t, max)
  {
    var w :| Attempt(t, t[0].batch, limit, w, ok);
    if t != [Appended(t[0].batch, false)] {
      var end := if ok && w.Some? then |t| - 1 else |t|;
      assert t[1..|t|] == t[1..];
      var body := t[1..end];
      assert Persisting(body, ToStates(t[0].batch), limit);
      assert forall i :: 0 < i < end ==> t[i] == body[i - 1];
    }
  }

  lemma {:induction false} BatchesSized(t: seq<Call>, due: nat, left: nat, max: nat, limit: nat)
    requires Batches(t, due, left, max, limit)
    ensures Sized(t, max)
    decreases |t|
  {
    hide Tried;
    if t != [] {
      var k: nat :|
        k < |t| && Batch(t[k..], left, max, limit) && Batches(t[..k], due, left + |t[k..][0].batch|, max, limit);
      TriedSized(t[k..], |t[k..][0].batch|, limit, true, max);
      BatchesSized(t[..k], due, left + |t[k..][0].batch|, max, limit);
      hide Sized;
      SizedConcat(t[..k], t[k..], max);
      assert t == t[..k] + t[k..];
    }
  }

  lemma SizedConcat(a: seq<Call>, b: seq<Call>, max: nat)
    requires Sized(a, max) && Sized(b, max)
    ensures Sized(a + b, max)
  {
  }

  /** A flush hands the store at most `max` states a call. */
  lemma FlushSized(t: seq<Call>, due: nat, left: nat, max: nat, limit: nat)
    requires max >= 1 && FlushCalls(t, due, left, max, limit)
    ensures Sized(t, max)
  {
    hide Batches, Tried, Sized;
    var k: nat :| k <= |t| && Batches(t[..k], due, left, max, limit)
      && (k == |t| || (left > 0 && Tried(t[k..], Min(max, left), limit, false)));
    BatchesSized(t[..k], due, left, max, limit);
    if k == |t| {
      assert t[..k] == t;
    } else {
      TriedSized(t[k..], Min(max, left), limit, false, max);
      SizedConcat(t[..k], t[k..], max);
      assert t == t[..k] + t[k..];
    }
  }

  lemma WriteAheadConcat(a: seq<Call>, b: seq<Call>, limit: nat)
    requires WriteAhead(a, limit) && WriteAhead(b, limit)
    ensures WriteAhead(a + b, limit)
  {
    var t := a + b;
    forall i: nat | i < |t| && t[i].Stored? ensures exists j: nat :: i <= j + limit && Leads(t, j, i) {
      if i < |a| {
        var j: nat :| i <= j + limit && Leads(a, j, i);
        assert Leads(t, j, i);
      } else {
        var j: nat :| i - |a| <= j + limit && Leads(b, j, i - |a|);
        forall k | j + |a| < k < i ensures t[k] == Stored(t[i].states, Retryable) {
          assert t[k] == b[k - |a|];
        }
        assert Leads(t, j + |a|, i);
      }
    }
  }

  lemma AttemptWritesAhead(t: seq<Call>, batch: seq<WalRecord>, limit: nat, watermark: Option<nat>, ok: bool)
    requires Attempt(t, batch, limit, watermark, ok)
    ensures WriteAhead(t, limit) && t != [] && (ok <==> !EndsBadly(t))
    ensures !ok ==> FailedAttempt(t, limit)
  {
    hide Leads, FailedAttempt, ToStates;
    if !ok {
      FailedIs(t, batch, limit, watermark);
    }
    if t != [Appended(batch, false)] {
      var n := if ok && watermark.Some? then |t| - 1 else |t|;
      assert t[1..|t|] == t[1..];
      StoredBetween(t, batch, limit, n);
      assert t[n - 1].outcome == t[1..n][n - 2].outcome;
      hide Persisting, Attempt;
      LeadsAll(t, batch, limit, n);
    }
  }

  lemma FailedIs(t: seq<Call>, batch: seq<WalRecord>, limit: nat, watermark: Option<nat>)
    requires Attempt(t, batch, limit, watermark, false)
    ensures FailedAttempt(t, limit)
  {
    hide Persisting;
  }

  lemma StoredBetween(t: seq<Call>, batch: seq<WalRecord>, limit: nat, n: nat)
    requires 1 <= n <= |t| && Persisting(t[1..n], ToStates(batch), limit)
    ensures 1 < n <= limit + 1
    ensures forall i :: 0 < i < n ==> t[i].Stored? && t[i].states == ToStates(batch)
    ensures forall i :: 0 < i < n - 1 ==> t[i].outcome == Retryable
  {
    assert forall i :: 0 < i < n ==> t[i] == t[1..n][i - 1];
  }

  /** The append leads every store call after it. */
  lemma LeadsAll(t: seq<Call>, batch: seq<WalRecord>, limit: nat, n: nat)
    requires 1 < n <= |t| && n <= limit + 1 && t[0] == Appended(batch, true)
    requires forall i :: 0 < i < n ==> t[i].Stored? && t[i].states == ToStates(batch)
    requires forall i :: 0 < i < n - 1 ==> t[i].outcome == Retryable
    requires forall i :: n <= i < |t| ==> !t[i].Stored?
    ensures forall i: nat :: i < |t| && t[i].Stored? ==> exists j: nat :: i <= j + limit && Leads(t, j, i)
  {
    forall i: nat | i < |t| && t[i].Stored? ensures exists j: nat :: i <= j + limit && Leads(t, j, i) {
      assert Leads(t, 0, i);
    }
  }

  /** One more failed attempt after a stalled end. */
  lemma StallsMore(t: seq<Call>, n: nat, limit: nat, more: seq<Call>)
    requires StalledEnd(t, n, limit) && FailedAttempt(more, limit)
    ensures StalledEnd(t + more, n + 1, limit)
  {
    hide FailedAttempt, Stalls;
    var k: nat :| k <= |t| && Stalls(t[k..], n, limit);
    StalledBy(t[k..], n, limit, more);
    assert (t + more)[k..] == t[k..] + more;
  }

  lemma StalledBy(t: seq<Call>, n: nat, limit: nat, more: seq<Call>)
    requires Stalls(t, n, limit) && FailedAttempt(more, limit)
    ensures Stalls(t + more, n + 1, limit)
  {
    assert more != [];
    hide FailedAttempt;
    var u := t + more;
    assert u[|t|..] == more && u[..|t|] == t;
  }

  lemma NotStalled(t: seq<Call>, limit: nat)
    ensures StalledEnd(t, 0, limit)
  {
    assert Stalls(t[|t|..], 0, limit);
  }
}
