/**
 The ring buffer run by one thread: the array of stamped cells, the bit-mask index and the counters
 of the source, refining a bounded first-in first-out queue.  What many threads at once can do to it
 is the subject of `RingProtocol`.
 */
module Ring {
  import opened Prelude

  const USIZE: nat := 0x1_0000_0000_0000_0000
  const ISIZE: nat := 0x8000_0000_0000_0000

  // ---------------------------------------------------------------- machine words

  function WrappingAdd(a: nat, b: nat): nat {
    (a + b) % USIZE
  }

  lemma NoWrap(a: nat, b: nat)
    requires a + b < USIZE
    ensures WrappingAdd(a, b) == a + b
  {
  }

  /** `x as isize`. */
  function AsIsize(x: nat): int {
    if x < ISIZE then x else x - USIZE
  }

  /** The bitwise and of two words. */
  function BitAnd(a: nat, b: nat): nat
    decreases a
  {
    if a == 0 then 0 else (a % 2) * (b % 2) + 2 * BitAnd(a / 2, b / 2)
  }

  predicate PowerOfTwo(n: nat)
    decreases n
  {
    n == 1 || (n > 1 && n % 2 == 0 && PowerOfTwo(n / 2))
  }

  lemma {:induction false} HalfModulus(a: nat, half: nat)
    requires half > 0
    ensures a % (2 * half) == a % 2 + 2 * ((a / 2) % half)
  {
    var q := a / 2 / half;
    var r := a % 2 + 2 * ((a / 2) % half);
    assert a / 2 == half * q + (a / 2) % half by { Quotients(half, a / 2, 0); }
    assert a == 2 * half * q + r;
    Quotients(2 * half, a, r);
    assert r < 2 * half;
    var d := a / (2 * half) - r / (2 * half) - q;
    assert 2 * half * d == r % (2 * half) - a % (2 * half) by {
      assert 2 * half * (a / (2 * half) - r / (2 * half)) == 2 * half * d + 2 * half * q;
    }
    Multiple(2 * half, d);
    ModSmall(r, 2 * half);
  }

  lemma ModSmall(r: nat, n: nat)
    requires r < n
    ensures r % n == r
  {
  }

  /** Masking with `cap - 1` is reduction modulo `cap`, because `cap` is a power of two. */
  lemma {:induction false} MaskIsModulus(pos: nat, cap: nat)
    requires PowerOfTwo(cap)
    ensures BitAnd(pos, cap - 1) == pos % cap
    decreases cap
  {
    if cap == 1 {
      MaskZero(pos);
    } else {
      var half := cap / 2;
      MaskIsModulus(pos / 2, half);
      MaskStep(pos, half);
      HalfModulus(pos, half);
    }
  }

  lemma MaskStep(pos: nat, half: nat)
    requires half > 0
    ensures BitAnd(pos, 2 * half - 1) == pos % 2 + 2 * BitAnd(pos / 2, half - 1)
  {
    assert (2 * half - 1) / 2 == half - 1 && (2 * half - 1) % 2 == 1;
    assert (pos % 2) * 1 == pos % 2;
  }

  lemma {:induction false} MaskZero(pos: nat)
    ensures BitAnd(pos, 0) == 0 && pos % 1 == 0
    decreases pos
  {
    if pos > 0 {
      MaskZero(pos / 2);
    }
  }

  lemma {:induction false} NextPower(p: nat, q: nat)
    requires PowerOfTwo(p) && PowerOfTwo(q) && p < q
    ensures 2 * p <= q
    decreases p
  {
    if p > 1 {
      NextPower(p / 2, q / 2);
    }
  }

  function Pow2(k: nat): nat
    decreases k
  {
    if k == 0 then 1 else 2 * Pow2(k - 1)
  }

  lemma {:induction false} PowersArePowers(k: nat)
    ensures PowerOfTwo(Pow2(k))
    decreases k
  {
    if k > 0 {
      PowersArePowers(k - 1);
    }
  }

  lemma {:induction false} Pow2Sum(a: nat, b: nat)
    ensures Pow2(a + b) == Pow2(a) * Pow2(b)
    decreases b
  {
    if b > 0 {
      Pow2Sum(a, b - 1);
      assert a + b - 1 == a + (b - 1);
    }
  }

  lemma SmallPowers()
    ensures Pow2(7) == 128 && Pow2(8) == 256
  {
    assert Pow2(2) == 4 && Pow2(4) == 16 && Pow2(6) == 64;
  }

  lemma IsizeIsPower()
    ensures PowerOfTwo(ISIZE)
  {
    hide Pow2, PowerOfTwo;
    SmallPowers();
    Pow2Sum(8, 7);
    Pow2Sum(8, 8);
    Pow2Sum(16, 15);
    Pow2Sum(16, 16);
    Pow2Sum(32, 31);
    PowersArePowers(63);
  }

  /** The smallest power of two that is at least `n`. */
  method NextPowerOfTwo(n: nat) returns (p: nat)
    requires 1 <= n
    ensures PowerOfTwo(p) && n <= p < 2 * n
    ensures forall q :: PowerOfTwo(q) && n <= q ==> p <= q
  {
    p := 1;
    while p < n
      invariant PowerOfTwo(p) && p < 2 * n
      invariant forall q :: PowerOfTwo(q) && n <= q ==> p <= q
      decreases 2 * n - p
    {
      forall q | PowerOfTwo(q) && n <= q ensures 2 * p <= q {
        NextPower(p, q);
      }
      assert PowerOfTwo(2 * p);
      p := 2 * p;
    }
  }

  // ---------------------------------------------------------------- the buffer

  function CellOf(pos: nat, cap: nat): (i: nat)
    requires cap > 0
    ensures i < cap
  {
    pos % cap
  }

  lemma NextCellOf(pos: nat, cap: nat)
    requires cap > 0
    ensures CellOf(pos + cap, cap) == CellOf(pos, cap)
  {
    NextLap(pos, cap);
  }

  /** Distinct positions less than one lap apart use distinct cells. */
  lemma Apart(from: nat, cap: nat, pos: nat)
    requires cap > 0 && from <= pos < from + cap
    ensures forall p: nat :: from <= p < from + cap && p != pos ==> CellOf(p, cap) != CellOf(pos, cap)
  {
    forall p: nat | from <= p < from + cap && p != pos ensures CellOf(p, cap) != CellOf(pos, cap) {
      if CellOf(p, cap) == CellOf(pos, cap) {
        SameCell(p, pos, cap);
      }
    }
  }

  /** The cell index `i` of a window of `cap` positions belongs to one position of the window. */
  lemma WindowCovers(from: nat, cap: nat, i: nat) returns (p: nat)
    requires i < cap
    ensures from <= p < from + cap && CellOf(p, cap) == i
  {
    var lap := from / cap;
    Quotients(cap, from, 0);
    var r := from % cap;
    if r <= i {
      p := from + (i - r);
      assert p == cap * lap + i;
    } else {
      p := from + (cap - r) + i;
      assert p == cap * (lap + 1) + i;
    }
    AtCell(cap, if r <= i then lap else lap + 1, i);
  }

  lemma AtCell(cap: nat, lap: nat, i: nat)
    requires i < cap
    ensures (cap * lap + i) % cap == i
  {
    var p := cap * lap + i;
    Quotients(cap, p, i);
    ModSmall(i, cap);
    assert i / cap == 0;
    assert cap * (lap - (p / cap)) == p % cap - i by {
      assert cap * (p / cap - 0) == cap * (p / cap);
      assert cap * (lap - p / cap) == cap * lap - cap * (p / cap);
    }
    Multiple(cap, lap - p / cap);
  }

  class RingBuffer<T> {
    const capacity: nat
    const mask: nat
    const stamps: array<nat>
    const slots: array<Option<T>>
    var enqueuePos: nat
    var dequeuePos: nat
    ghost var items: seq<T>     // the queued requests, oldest first

    /** The array a position maps to, and the shape that never changes. */
    ghost predicate Shaped()
      reads this
    {
      && PowerOfTwo(capacity) && mask == capacity - 1
      && stamps.Length == slots.Length == capacity && 0 < capacity
    }

    ghost predicate Published(p: nat)
      requires Shaped()
      reads this, stamps, slots
    {
      && stamps[CellOf(p, capacity)] == p + 1
      && dequeuePos <= p < dequeuePos + |items| && slots[CellOf(p, capacity)] == Some(items[p - dequeuePos])
    }

    ghost predicate Free(p: nat)
      requires Shaped()
      reads this, stamps, slots
    {
      stamps[CellOf(p, capacity)] == p && slots[CellOf(p, capacity)] == None
    }

    /** With two cells or more, every cell is either published or free, and positions fit isize. */
    ghost predicate Valid()
      reads this, stamps, slots
    {
      && Shaped() && capacity >= 2
      && enqueuePos == dequeuePos + |items| && |items| <= capacity && enqueuePos + capacity <= ISIZE
      && (forall p: nat :: dequeuePos <= p < enqueuePos ==> Published(p))
      && (forall p: nat :: enqueuePos <= p < dequeuePos + capacity ==> Free(p))
    }

    /** Any requested capacity is accepted and rounded up; below two cells the protocol breaks. */
    constructor (requested: nat)
      requires requested <= ISIZE    // beyond, the next power of two is no usize
      ensures capacity >= requested && PowerOfTwo(capacity)
      ensures forall q :: PowerOfTwo(q) && requested <= q ==> capacity <= q
      ensures requested >= 2 ==> Valid()
      ensures items == [] && enqueuePos == 0 && fresh(stamps) && fresh(slots)
    {
      var cap := NextPowerOfTwo(Max(requested, 1));
      IsizeIsPower();
      capacity, mask := cap, cap - 1;
      stamps := new nat[cap](i => i);
      slots := new Option<T>[cap](_ => None);
      enqueuePos, dequeuePos, items := 0, 0, [];
      new;
      forall p: nat | p < capacity ensures Free(p) {
        ModSmall(p, capacity);
      }
    }

    /** The cell of a position. */
    method Index(pos: nat) returns (i: nat)
      requires Shaped()
      ensures i == CellOf(pos, capacity) && i < capacity
    {
      MaskIsModulus(pos, capacity);
      i := BitAnd(pos, mask);
    }

    /** What a producer at the front finds: its own stamp, or that of the lap before. */
    lemma EnqueueStamp()
      requires Valid()
      ensures stamps[CellOf(enqueuePos, capacity)]
           == if |items| < capacity then enqueuePos else enqueuePos - capacity + 1
      ensures |items| < capacity ==> slots[CellOf(enqueuePos, capacity)] == None
    {
      if |items| < capacity {
        assert Free(enqueuePos);
      } else {
        assert Published(dequeuePos);
        NextCellOf(dequeuePos, capacity);
      }
    }

    /** What a consumer at the back finds: the published stamp exactly when something is queued. */
    lemma DequeueStamp()
      requires Valid()
      ensures stamps[CellOf(dequeuePos, capacity)] == if items != [] then dequeuePos + 1 else dequeuePos
      ensures items != [] ==> slots[CellOf(dequeuePos, capacity)] == Some(items[0])
    {
      assert if items != [] then Published(dequeuePos) else Free(dequeuePos);
    }

    /**
     Alone, an enqueue is refused exactly when `capacity` requests are held, and then hands the
     request back.  `spurious` bounds how often the weak compare-and-swap fails for no reason.
     */
    method TryEnqueue(req: T, spurious: nat) returns (refused: Option<T>)
      requires Valid() && enqueuePos + capacity < ISIZE
      modifies this, stamps, slots
      ensures Valid() && dequeuePos == old(dequeuePos)
      ensures refused == if |old(items)| == capacity then Some(req) else None
      ensures items == if |old(items)| == capacity then old(items) else old(items) + [req]
    {
      hide WrappingAdd, PowerOfTwo, CellOf;
      var pos := enqueuePos;
      var luck := spurious;
      while true
        invariant pos == enqueuePos == old(enqueuePos) && dequeuePos == old(dequeuePos)
        invariant Valid() && items == old(items)
        decreases luck
      {
        EnqueueStamp();
        var i := Index(pos);
        var diff := AsIsize(stamps[i]) - AsIsize(pos);
        if diff == 0 {
          var fails: bool := *;
          if fails && luck > 0 {
            pos := enqueuePos;
            luck := luck - 1;
          } else {
            Publish(i, pos, req);
            return None;
          }
        } else if diff < 0 {
          return Some(req);
        } else {
          assert false;
        }
      }
    }

    /** The winner of `pos` writes the payload and stores the stamp a consumer waits for. */
    method Publish(i: nat, pos: nat, req: T)
      requires Valid() && |items| < capacity && enqueuePos + capacity < ISIZE
      requires pos == enqueuePos && i == CellOf(pos, capacity)
      modifies this`enqueuePos, this`items, stamps, slots
      ensures Valid() && items == old(items) + [req]
    {
      hide WrappingAdd, PowerOfTwo, CellOf;
      NoWrap(pos, 1);
      Apart(dequeuePos, capacity, pos);
      EnqueueStamp();
      enqueuePos := WrappingAdd(pos, 1);
      assert slots[i] == None;
      slots[i] := Some(req);
      stamps[i] := WrappingAdd(pos, 1);
      items := items + [req];
      forall p: nat | dequeuePos <= p < enqueuePos ensures Published(p) {
        assert p < pos ==> old(Published(p));
      }
      forall p: nat | enqueuePos <= p < dequeuePos + capacity ensures Free(p) {
        assert old(Free(p));
      }
    }

    /** Alone, a dequeue finds nothing exactly when nothing is queued, and else returns the oldest. */
    method TryDequeue(spurious: nat) returns (got: Option<T>)
      requires Valid()
      modifies this, stamps, slots
      ensures Valid() && enqueuePos == old(enqueuePos)
      ensures got == if old(items) == [] then None else Some(old(items)[0])
      ensures items == if old(items) == [] then [] else old(items)[1..]
    {
      hide WrappingAdd, PowerOfTwo, CellOf;
      NoWrap(dequeuePos, 1);
      var pos := dequeuePos;
      var luck := spurious;
      while true
        invariant pos == dequeuePos == old(dequeuePos) && enqueuePos == old(enqueuePos)
        invariant Valid() && items == old(items)
        decreases luck
      {
        DequeueStamp();
        var i := Index(pos);
        var diff := AsIsize(stamps[i]) - AsIsize(WrappingAdd(pos, 1));
        if diff == 0 {
          var fails: bool := *;
          if fails && luck > 0 {
            pos := dequeuePos;
            luck := luck - 1;
          } else {
            got := Consume(i, pos);
            return got;
          }
        } else if diff < 0 {
          return None;
        } else {
          assert false;
        }
      }
    }

    /** The winner of `pos` moves the payload out and frees the cell for one lap ahead. */
    method Consume(i: nat, pos: nat) returns (got: Option<T>)
      requires Valid() && items != [] && pos == dequeuePos && i == CellOf(pos, capacity)
      modifies this`dequeuePos, this`items, stamps, slots
      ensures Valid() && got == Some(old(items)[0]) && items == old(items)[1..]
    {
      hide WrappingAdd, PowerOfTwo, CellOf;
      NoWrap(pos, 1);
      NoWrap(pos, mask);
      NoWrap(pos + mask, 1);
      Apart(pos, capacity, pos);
      NextCellOf(pos, capacity);
      DequeueStamp();
      dequeuePos := WrappingAdd(pos, 1);
      got := slots[i];
      slots[i] := None;
      stamps[i] := WrappingAdd(WrappingAdd(pos, mask), 1);
      items := items[1..];
      forall p: nat | dequeuePos <= p < enqueuePos ensures Published(p) {
        assert old(Published(p));
      }
      forall p: nat | enqueuePos <= p < dequeuePos + capacity ensures Free(p) {
        assert p < pos + capacity ==> old(Free(p));
      }
    }

    /** Moves the oldest `min(max, length)` requests out, in order. */
    method DrainInto(out: seq<T>, max: nat, spurious: nat) returns (out': seq<T>, count: nat)
      requires Valid()
      modifies this, stamps, slots
      ensures Valid() && enqueuePos == old(enqueuePos)
      ensures count == Min(max, |old(items)|)
      ensures out' == out + old(items)[..count] && items == old(items)[count..]
    {
      out', count := out, 0;
      while count < max
        invariant count <= Min(max, |old(items)|) && Valid() && enqueuePos == old(enqueuePos)
        invariant out' == out + old(items)[..count] && items == old(items)[count..]
      {
        var got := TryDequeue(spurious);
        if got.None? {
          break;
        }
        out' := out' + [got.value];
        count := count + 1;
      }
    }

    method Len() returns (n: nat)
      requires Valid()
      ensures n == |items|
    {
      var deq := dequeuePos;
      var enq := enqueuePos;
      n := if enq <= deq then 0 else Min(enq - deq, capacity);
    }

    /**
     Drop releases exactly the cells that hold a request, each once: `freed` lists them without
     repetition, every other cell was already uninitialised, and none holds a request afterwards.
     */
    method Drop() returns (freed: seq<nat>)
      requires Valid()
      modifies slots
      ensures forall i, j :: 0 <= i < j < |freed| ==> freed[i] != freed[j]
      ensures forall i :: 0 <= i < capacity ==> (i in freed <==> old(slots[i]).Some?)
      ensures forall i :: 0 <= i < capacity ==> slots[i] == None
      ensures |freed| == |items|
    {
      var deq := dequeuePos;
      var enq := enqueuePos;
      ghost var was := slots[..];
      forall p: nat | deq <= p < deq + capacity ensures was[CellOf(p, capacity)].Some? <==> p < enq {
        assert if p < enq then Published(p) else Free(p);
      }
      var pos := deq;
      freed := [];
      while pos != enq
        invariant deq <= pos <= enq && |freed| == pos - deq
        invariant forall k: nat :: k < |freed| ==> freed[k] == CellOf(deq + k, capacity)
        invariant forall i :: 0 <= i < capacity ==> slots[i] == if i in freed then None else was[i]
        decreases enq - pos
      {
        var i := Index(pos);
        Unvisited(freed, deq, pos, capacity);
        assert slots[i].Some?;
        slots[i] := None;
        freed := freed + [i];
        pos := WrappingAdd(pos, 1);
      }
      DroppedExactly(was, freed, deq, enq, capacity);
    }
  }

  /** The cell of the next position has not been visited on this lap. */
  lemma Unvisited(freed: seq<nat>, deq: nat, pos: nat, cap: nat)
    requires deq <= pos < deq + cap && |freed| == pos - deq
    requires forall k: nat :: k < |freed| ==> freed[k] == CellOf(deq + k, cap)
    ensures CellOf(pos, cap) !in freed
  {
    Apart(deq, cap, pos);
    forall k: nat | k < |freed| ensures freed[k] != CellOf(pos, cap) {
      assert deq + k != pos;
    }
  }

  /** Walking a window visits each of its cells once, and those are all the cells in use. */
  lemma DroppedExactly<T>(was: seq<Option<T>>, freed: seq<nat>, deq: nat, enq: nat, cap: nat)
    requires 0 < cap == |was| && deq <= enq <= deq + cap && |freed| == enq - deq
    requires forall k: nat :: k < |freed| ==> freed[k] == CellOf(deq + k, cap)
    requires forall p: nat :: deq <= p < deq + cap ==> (was[CellOf(p, cap)].Some? <==> p < enq)
    ensures forall i, j :: 0 <= i < j < |freed| ==> freed[i] != freed[j]
    ensures forall i :: 0 <= i < cap ==> (i in freed <==> was[i].Some?)
  {
    forall i, j | 0 <= i < j < |freed| ensures freed[i] != freed[j] {
      Apart(deq, cap, deq + i);
    }
    forall i | 0 <= i < cap ensures i in freed <==> was[i].Some? {
      var p := WindowCovers(deq, cap, i);
      if p < enq {
        assert freed[p - deq] == i;
      } else {
        Apart(deq, cap, p);
      }
    }
  }
}
