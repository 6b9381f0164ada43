/**
 The lock-free ring used by one thread at a time, as an object over arrays: with two
 or more cells it behaves exactly like a plain list bounded by the number of cells. A
 ring of one cell overwrites its item, and cannot be popped after it has done so.
 */
module RingQueue {
  import opened Counting
  import opened Slots
  import opened RingProtocol

  /** A push on a plain list of at most `bound` items: the new list, the new drop count and the answer. */
  function ListPush<T>(policy: Policy, bound: nat, stopped: bool, items: seq<T>, dropped: nat, x: T)
    : (seq<T>, nat, bool)
  {
    if stopped then (items, dropped, false)
    else if |items| < bound then (items + [x], dropped, true)
    else if policy.DropNew? then (items, dropped + 1, false)
    else ((if items == [] then [] else items[1..]) + [x], dropped + 1, true)
  }

  /** A pop on a plain list. */
  function ListPop<T>(items: seq<T>): (seq<T>, Option<T>)
  {
    if items == [] then ([], None) else (items[1..], Some(items[0]))
  }

  /** What the list operations do: append, refuse or replace the oldest; and first in, first out. */
  lemma ListLaws<T>(policy: Policy, bound: nat, stopped: bool, first: T, rest: seq<T>, dropped: nat, x: T)
    ensures ListPush(policy, bound, true, rest, dropped, x) == (rest, dropped, false)
    ensures |rest| < bound ==> ListPush(policy, bound, false, rest, dropped, x) == (rest + [x], dropped, true)
    ensures |rest| + 1 >= bound ==> ListPush(DropNew, bound, false, [first] + rest, dropped, x) == ([first] + rest, dropped + 1, false)
    ensures |rest| + 1 >= bound ==> ListPush(DropOldest, bound, false, [first] + rest, dropped, x) == (rest + [x], dropped + 1, true)
    ensures ListPop([first] + rest) == (rest, Some(first)) && ListPop<T>([]) == ([], None)
  {
    assert ([first] + rest)[1..] == rest;
  }

  class Ring<T> {
    const policy: Policy
    const mask: nat
    const sequence: array<nat>
    const data: array<Payload<T>>
    var enq: nat
    var deq: nat
    var dropped: nat
    var stopped: bool
    ghost var items: seq<T>

    /** The arrays have one entry per cell and the number of cells is a power of two. */
    ghost predicate Shaped() {
      && sequence.Length == data.Length == mask + 1
      && IsPow2(mask + 1)
    }

    /** What the cell of position `n` holds between operations. */
    ghost predicate CellAtRest(n: nat)
      requires Shaped() && |items| == enq - deq && n >= deq
      reads this`enq, this`deq, this`items, sequence, data
    {
      var i := Slot(n, mask + 1);
      if n < enq then sequence[i] == n + 1 && data[i] == Holds(items[n - deq])
      else sequence[i] == n && data[i] == Empty
    }

    /** The one cell of the smallest ring holds the item pushed last. */
    ghost predicate OneCellAtRest()
      requires Shaped() && mask == 0
      reads this`enq, this`deq, this`items, sequence, data
    {
      && sequence[0] == enq
      && if enq == deq then items == [] && data[0] == Empty else |items| == 1 && data[0] == Holds(items[0])
    }

    ghost predicate Valid()
      reads this`enq, this`deq, this`items, sequence, data
    {
      && Shaped() && deq <= enq
      && (mask == 0 ==> OneCellAtRest())
      && (mask >= 1 ==>
            && enq <= deq + mask + 1 && |items| == enq - deq
            && forall n :: deq <= n < deq + mask + 1 ==> CellAtRest(n))
    }

    /** One cell and two pushes behind: a pop would wait for its turn for ever. */
    ghost predicate Stuck()
      reads this`enq, this`deq
    {
      mask == 0 && enq > deq + 1
    }

    /** Capacity 0 is raised to 1, then rounded up to a power of two. */
    constructor (capacity: nat, policy: Policy)
      ensures fresh(sequence) && fresh(data)
      ensures this.policy == policy && items == [] && dropped == 0 && !stopped
      ensures Shaped() && mask + 1 >= capacity && (capacity >= 1 ==> mask + 1 < 2 * capacity)
      ensures Valid() && !Stuck()
    {
      var cap := if capacity == 0 then 1 else capacity;
      var p := 1;
      ghost var k := 0;
      while p < cap
        invariant p == Pow2(k)
        invariant p < 2 * cap
        decreases cap - p
      {
        p, k := 2 * p, k + 1;
        assert p == Pow2(k);
      }
      this.policy := policy;
      mask := p - 1;
      var turns := new nat[p];
      var cells := new Payload<T>[p](_ => Empty);
      for i := 0 to p
        invariant forall j :: 0 <= j < i ==> turns[j] == j
        invariant forall j :: 0 <= j < p ==> cells[j] == Empty
      {
        turns[i] := i;
      }
      sequence, data := turns, cells;
      enq, deq, dropped, stopped := 0, 0, 0, false;
      items := [];
      new;
      assert p == 1 ==> sequence[0] == 0 && data[0] == Empty;
      forall n | 0 <= n < p
        ensures CellAtRest(n)
      {
        assert Slot(n, p) == n;
      }
    }

    /** `pos & mask_`. */
    function Index(pos: nat): (i: nat)
      requires Shaped()
      ensures i == Slot(pos, mask + 1)
    {
      ghost var k: nat :| mask + 1 == Pow2(k);
      MaskIsSlot(pos, k);
      BitAnd(pos, mask)
    }

    method Push(item: T) returns (ok: bool)
      requires Valid()
      modifies this, sequence, data
      ensures Valid() && stopped == old(stopped)
      ensures mask >= 1 ==> (items, dropped, ok) == ListPush(policy, mask + 1, stopped, old(items), old(dropped), item)
      ensures mask == 0 ==> (items, dropped, ok) == if stopped then (old(items), old(dropped), false) else ([item], old(dropped), true)
      ensures Stuck() <==> old(Stuck()) || (mask == 0 && !stopped && old(items) != [])
    {
      if stopped {
        return false;
      }
      while true
        invariant Valid() && !stopped && old(enq) == enq && (mask == 0 ==> old(deq) == deq)
        invariant (items == old(items) && dropped == old(dropped))
               || (mask >= 1 && policy.DropOldest? && |old(items)| == mask + 1
                   && items == old(items)[1..] && dropped == old(dropped) + 1)
        decreases |items|
      {
        var pos := enq;
        var i := Index(pos);
        NextCell();
        if sequence[i] == pos {
          Place(pos, item);
          return true;
        } else if sequence[i] < pos {
          if policy.DropNew? {
            dropped := dropped + 1;
            return false;
          }
          var made := EvictOne();
        } else {
          assert false;
        }
      }
    }

    /** The next cell is free, always so on one cell, or the ring is full and it belongs to the front item. */
    lemma NextCell()
      requires Valid()
      ensures
        var turn := sequence[Slot(enq, mask + 1)];
        && (turn == enq <==> mask == 0 || |items| < mask + 1)
        && (mask >= 1 && |items| == mask + 1 ==> turn < enq)
    {
      if mask == 0 {
        SlotOfOne(enq);
      } else {
        SlotPeriod(deq, mask + 1);
        assert CellAtRest(deq);
        assert enq < deq + mask + 1 ==> CellAtRest(enq);
      }
    }

    /** The winning branch of push: claim, write the payload, publish. */
    method Place(pos: nat, item: T)
      requires Valid() && pos == enq && sequence[Slot(pos, mask + 1)] == pos
      modifies this`enq, this`items, sequence, data
      ensures Valid() && enq == old(enq) + 1
      ensures mask >= 1 ==> items == old(items) + [item] && |old(items)| < mask + 1
      ensures mask == 0 ==> items == [item]
    {
      NextCell();
      if mask == 0 {
        SlotOfOne(pos);
      } else {
        SlotWindow(deq, pos, mask + 1);
      }
      var i := Index(pos);
      enq := pos + 1;
      data[i] := Holds(item);
      sequence[i] := pos + 1;
      items := if mask == 0 then [item] else items + [item];
      if mask >= 1 {
        forall n | deq <= n < deq + mask + 1
          ensures CellAtRest(n)
        {
          assert old(CellAtRest(n));
        }
      }
    }

    /** The front cell is published, or the ring is empty; on one cell this takes a ring that is not stuck. */
    lemma FrontCell()
      requires Valid() && !Stuck()
      ensures
        var i := Slot(deq, mask + 1);
        if items == [] then sequence[i] == deq else sequence[i] == deq + 1 && data[i] == Holds(items[0])
    {
      if mask == 0 {
        SlotOfOne(deq);
      } else {
        assert CellAtRest(deq);
      }
    }

    /** Remove the front item without returning it; false when the ring is empty. */
    method EvictOne() returns (made: bool)
      requires Valid() && !Stuck()
      modifies this`deq, this`items, this`dropped, sequence, data
      ensures Valid() && !Stuck()
      ensures made == (old(items) != [])
      ensures items == ListPop(old(items)).0
      ensures dropped == old(dropped) + if made then 1 else 0
    {
      var pos := deq;
      var i := Index(pos);
      FrontCell();
      if sequence[i] == pos + 1 {
        Release(pos);
        dropped := dropped + 1;
        return true;
      } else if sequence[i] < pos + 1 {
        return false;
      } else {
        assert false;  // a producer ahead of this turn, which takes a second thread
      }
    }

    method TryPop() returns (out: Option<T>)
      requires Valid() && !Stuck()
      modifies this`deq, this`items, sequence, data
      ensures Valid() && !Stuck()
      ensures (items, out) == ListPop(old(items))
    {
      var pos := deq;
      var i := Index(pos);
      FrontCell();
      if sequence[i] == pos + 1 {
        out := Some(data[i].value);
        Release(pos);
      } else if sequence[i] < pos + 1 {
        out := None;
      } else {
        assert false;  // a producer ahead of this turn, which takes a second thread
      }
    }

    /** The winning branch of a take: claim, empty the cell, hand it to the next lap. */
    method Release(pos: nat)
      requires Valid() && !Stuck() && pos == deq && items != []
      modifies this`deq, this`items, sequence, data
      ensures Valid() && !Stuck() && items == old(items)[1..]
    {
      FrontCell();
      SlotPeriod(pos, mask + 1);
      SlotWindow(pos, pos, mask + 1);
      var i := Index(pos);
      deq := pos + 1;
      data[i] := Empty;
      sequence[i] := pos + mask + 1;
      items := items[1..];
      if mask >= 1 {
        forall n | deq <= n < deq + mask + 1
          ensures CellAtRest(n)
        {
          if n < pos + mask + 1 {
            assert old(CellAtRest(n));
          }
        }
      }
    }

    /** On one cell the difference of the cursors also counts the items that were overwritten. */
    method Size() returns (n: nat)
      requires Valid()
      ensures mask >= 1 ==> n == |items| <= mask + 1
      ensures n == enq - deq
    {
      n := 0;
      if enq >= deq {
        n := enq - deq;
      }
    }

    method Stop()
      requires Valid()
      modifies this`stopped
      ensures Valid() && stopped
    {
      stopped := true;
    }
  }
}
