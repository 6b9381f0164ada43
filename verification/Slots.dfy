/**
 Ring positions and the cells they map to.  A ring of `p` cells stores position
 `n` in cell `n & (p - 1)`; since `p` is a power of two this is `n mod p`, and
 two positions less than one lap apart never share a cell.
 */
module Slots {

  /** The cell of position `n` in a ring of `p` cells. */
  function Slot(n: nat, p: nat): (i: nat)
    requires p > 0
    ensures i < p
  {
    if n < p then n else Slot(n - p, p)
  }

  /** One lap later the position is back in the same cell. */
  lemma SlotPeriod(n: nat, p: nat)
    requires p > 0
    ensures Slot(n + p, p) == Slot(n, p)
  {
  }

  /** Positions less than one lap apart use different cells. */
  lemma {:induction false} SlotInjective(a: nat, b: nat, p: nat)
    requires a <= b < a + p
    requires Slot(a, p) == Slot(b, p)
    ensures a == b
  {
    if a < p {
    } else {
      SlotInjective(a - p, b - p, p);
    }
  }

  /** Within the window of one lap starting at `lo`, only `m` itself uses the cell of `m`. */
  lemma SlotWindow(lo: nat, m: nat, p: nat)
    requires p > 0
    requires lo <= m < lo + p
    ensures forall n :: lo <= n < lo + p && n != m ==> Slot(n, p) != Slot(m, p)
  {
    forall n | lo <= n < lo + p && n != m
      ensures Slot(n, p) != Slot(m, p)
    {
      if Slot(n, p) == Slot(m, p) {
        SlotInjective(if n < m then n else m, if n < m then m else n, p);
      }
    }
  }

  /** Every cell is used by some position of the window of one lap starting at `lo`. */
  lemma {:induction false} SlotOnto(lo: nat, i: nat, p: nat) returns (n: nat)
    requires i < p
    ensures lo <= n < lo + p && Slot(n, p) == i
    decreases lo
  {
    if lo <= i {
      n := i;
    } else if lo < p {
      n := i + p;
    } else {
      n := SlotOnto(lo - p, i, p);
      n := n + p;
    }
  }

  /** In a ring of at least two cells, neighbouring positions use different cells. */
  lemma SlotNext(n: nat, p: nat)
    requires p >= 2
    ensures Slot(n + 1, p) != Slot(n, p)
  {
    if Slot(n + 1, p) == Slot(n, p) {
      SlotInjective(n, n + 1, p);
    }
  }

  /** An earlier position in the same cell is at least one lap behind. */
  lemma {:induction false} SlotLapBehind(a: nat, b: nat, p: nat)
    requires p > 0 && a < b && Slot(a, p) == Slot(b, p)
    ensures a + p <= b
  {
    if b < a + p {
      SlotInjective(a, b, p);
    }
  }

  function Pow2(k: nat): (r: nat)
    ensures r >= 1
  {
    if k == 0 then 1 else 2 * Pow2(k - 1)
  }

  ghost predicate IsPow2(p: nat) {
    exists k: nat {:trigger Pow2(k)} :: p == Pow2(k)
  }

  /** Bitwise and of two naturals, low bit first. */
  function BitAnd(a: nat, b: nat): nat
  {
    if a == 0 || b == 0 then 0
    else 2 * BitAnd(a / 2, b / 2) + (if a % 2 == 1 && b % 2 == 1 then 1 else 0)
  }

  /** Doubling the ring appends the low bit of the position to the cell of its half. */
  lemma {:induction false} SlotOfDouble(n: nat, m: nat)
    requires m > 0
    ensures Slot(n, 2 * m) == 2 * Slot(n / 2, m) + n % 2
    decreases n
  {
    if n < 2 * m {
    } else {
      SlotOfDouble(n - 2 * m, m);
      assert (n - 2 * m) / 2 == n / 2 - m && (n - 2 * m) % 2 == n % 2;
    }
  }

  /** Masking with `p - 1` selects the cell, for every power of two `p`. */
  lemma {:induction false} MaskIsSlot(n: nat, k: nat)
    ensures BitAnd(n, Pow2(k) - 1) == Slot(n, Pow2(k))
    decreases k
  {
    if k == 0 {
      SlotOfOne(n);
    } else {
      MaskIsSlot(n / 2, k - 1);
      SlotOfDouble(n, Pow2(k - 1));
      assert (Pow2(k) - 1) / 2 == Pow2(k - 1) - 1;
    }
  }

  lemma SlotOfOne(n: nat)
    ensures Slot(n, 1) == 0
  {
  }
}
