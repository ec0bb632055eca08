/** Small vocabulary shared by every other module. */
module Prelude {

  datatype Option<+T> = None | Some(value: T)

  function Max(a: nat, b: nat): nat {
    if a < b then b else a
  }

  function Min(a: nat, b: nat): nat {
    if a < b then a else b
  }

  lemma Quotients(cap: nat, a: int, b: int)
    requires cap > 0
    ensures a - b == cap * (a / cap - b / cap) + (a % cap - b % cap)
  {
  }

  lemma {:induction false} MulAtLeast(cap: nat, q: int)
    ensures q >= 1 ==> cap * q >= cap
    ensures q <= -1 ==> cap * q <= 0 - cap
    decreases if q < 0 then -q else q
  {
    if q > 1 {
      MulAtLeast(cap, q - 1);
    } else if q < -1 {
      MulAtLeast(cap, q + 1);
    }
  }

  lemma Multiple(cap: nat, q: int)
    requires 0 - cap < cap * q < cap
    ensures q == 0
  {
    MulAtLeast(cap, q);
  }

  /** Two positions that share a cell and lie less than one lap apart are equal. */
  lemma SameCell(a: int, b: int, cap: nat)
    requires cap > 0 && a % cap == b % cap
    requires 0 - cap < a - b < cap
    ensures a == b
  {
    Quotients(cap, a, b);
    Multiple(cap, a / cap - b / cap);
  }

  /** With at least two cells, consecutive positions use different cells. */
  lemma NextCell(a: int, cap: nat)
    requires cap >= 2
    ensures (a + 1) % cap != a % cap
  {
    if (a + 1) % cap == a % cap {
      SameCell(a + 1, a, cap);
    }
  }

  /** One lap later is the same cell. */
  lemma NextLap(a: nat, cap: nat)
    requires cap > 0
    ensures (a + cap) % cap == a % cap
  {
    Quotients(cap, a + cap, a);
    var q := (a + cap) / cap - a / cap;
    assert cap * q == cap * (q - 1) + cap;
    Multiple(cap, q - 1);
  }
}
