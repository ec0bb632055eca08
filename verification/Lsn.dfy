/** The LSN authority: one allocator and the pending-durable floor under every checkpoint. */
module Lsn {
  import opened Prelude

  ghost predicate IsLowest(m: nat, s: set<nat>) {
    m in s && forall x :: x in s ==> m <= x
  }

  lemma {:induction false} LowestExists(s: set<nat>) returns (m: nat)
    requires s != {}
    ensures IsLowest(m, s)
    decreases |s|
  {
    var x :| x in s;
    var rest := s - {x};
    assert s == rest + {x};
    if rest == {} {
      m := x;
    } else {
      m := LowestExists(rest);
      m := Min(m, x);
    }
  }

  ghost function Lowest(s: set<nat>): (m: nat)
    requires s != {}
    ensures IsLowest(m, s)
  {
    assert exists m :: IsLowest(m, s) by {
      var m := LowestExists(s);
    }
    var m :| IsLowest(m, s);
    m
  }

  /** A checkpoint at `u` discards no record with a pending LSN. */
  predicate BelowAll(u: nat, pending: set<nat>) {
    forall l :: l in pending ==> u < l
  }

  /**
   The clamped checkpoint LSN.  It is the largest LSN that is at most `proposed` and strictly below
   every pending one, and it is absent exactly when LSN 0 itself is pending.
   */
  ghost function Watermark(pending: set<nat>, proposed: nat): (w: Option<nat>)
    ensures w.None? <==> 0 in pending
    ensures w.Some? ==> w.value <= proposed && BelowAll(w.value, pending)
    ensures w.Some? ==> forall u: nat :: u <= proposed && BelowAll(u, pending) ==> u <= w.value
  {
    if pending == {} then Some(proposed)
    else if Lowest(pending) == 0 then None
    else Some(Min(proposed, Lowest(pending) - 1))
  }

  class LsnState {
    var next: nat
    var pending: set<nat>

    constructor (start: nat)
      ensures next == start && pending == {}
    {
      next, pending := start, {};
    }

    method Alloc() returns (lsn: nat)
      modifies this`next
      ensures lsn == old(next) && next == old(next) + 1
    {
      lsn := next;
      next := next + 1;
    }

    /** Reserves [first, first + count). */
    method AllocBlock(count: nat) returns (first: nat)
      modifies this`next
      ensures first == old(next) && next == old(next) + count
    {
      first := next;
      next := next + count;
    }

    method NotePending(lsn: nat)
      modifies this`pending
      ensures pending == old(pending) + {lsn}
    {
      pending := pending + {lsn};
    }

    method NoteDrained(lsn: nat)
      modifies this`pending
      ensures pending == old(pending) - {lsn}
    {
      pending := pending - {lsn};
    }

    method CheckpointWatermark(proposed: nat) returns (w: Option<nat>)
      ensures w == Watermark(pending, proposed)
    {
      if pending == {} {
        return Some(proposed);
      }
      ghost var low := LowestExists(pending);
      assert IsLowest(low, pending);
      var min :| min in pending && forall x :: x in pending ==> min <= x;
      assert min == Lowest(pending);
      if min == 0 {
        return None;
      }
      w := Some(Min(proposed, min - 1));
    }
  }
}
