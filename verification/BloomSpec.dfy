/**
 A counting Bloom filter on plain counters: what add, remove and decay do to the
 counter of each slot, and when the counters are exactly the number of probes of
 the items present.
 */
module BloomSpec {
  import opened Numbers

  const COUNTER_MAX: nat := 15

  function SaturateInc(c: nat): nat { if c >= COUNTER_MAX then COUNTER_MAX else c + 1 }

  function FloorDec(c: nat): nat { if c > 0 then c - 1 else 0 }

  /** How often the probes of one item hit slot `s`; one item may probe a slot several times. */
  ghost function Hits(probes: seq<nat>, s: nat): nat
  {
    if probes == [] then 0 else (if probes[0] == s then 1 else 0) + Hits(probes[1..], s)
  }

  ghost predicate InRange(probes: seq<nat>, m: nat) {
    forall i :: 0 <= i < |probes| ==> probes[i] < m
  }

  /** Bump the probed counters one after the other. */
  ghost function AddProbes(cs: seq<nat>, probes: seq<nat>): (r: seq<nat>)
    requires InRange(probes, |cs|)
    ensures |r| == |cs|
    decreases |probes|
  {
    if probes == [] then cs else AddProbes(cs[probes[0] := SaturateInc(cs[probes[0]])], probes[1..])
  }

  /** Decrement the probed counters one after the other. */
  ghost function RemoveProbes(cs: seq<nat>, probes: seq<nat>): (r: seq<nat>)
    requires InRange(probes, |cs|)
    ensures |r| == |cs|
    decreases |probes|
  {
    if probes == [] then cs else RemoveProbes(cs[probes[0] := FloorDec(cs[probes[0]])], probes[1..])
  }

  ghost predicate Nibbles(cs: seq<nat>) {
    forall s :: 0 <= s < |cs| ==> cs[s] <= COUNTER_MAX
  }

  /** Adding raises each counter by its hits, capped at 15. */
  lemma {:induction false} AddFormula(cs: seq<nat>, probes: seq<nat>)
    requires Nibbles(cs) && InRange(probes, |cs|)
    ensures forall s :: 0 <= s < |cs| ==> AddProbes(cs, probes)[s] == Min(COUNTER_MAX, cs[s] + Hits(probes, s))
    decreases |probes|
  {
    if probes == [] {
    } else {
      AddFormula(cs[probes[0] := SaturateInc(cs[probes[0]])], probes[1..]);
    }
  }

  /** Removing lowers each counter by its hits, floored at 0. */
  lemma {:induction false} RemoveFormula(cs: seq<nat>, probes: seq<nat>)
    requires InRange(probes, |cs|)
    ensures forall s :: 0 <= s < |cs| ==>
      RemoveProbes(cs, probes)[s] == if Hits(probes, s) <= cs[s] then cs[s] - Hits(probes, s) else 0
    decreases |probes|
  {
    if probes == [] {
    } else {
      RemoveFormula(cs[probes[0] := FloorDec(cs[probes[0]])], probes[1..]);
    }
  }

  /** All probed counters are non-zero. */
  ghost predicate AllHit(cs: seq<nat>, probes: seq<nat>)
    requires InRange(probes, |cs|)
  {
    forall i :: 0 <= i < |probes| ==> cs[probes[i]] > 0
  }

  // ---- Remove undoes add ---------------------------------------------------

  /**
   Adding and then removing an item restores the counters exactly when no probed
   counter overflows, except for a counter that was zero.
   */
  lemma RemoveUndoesAdd(cs: seq<nat>, probes: seq<nat>)
    requires Nibbles(cs) && InRange(probes, |cs|)
    ensures RemoveProbes(AddProbes(cs, probes), probes) == cs <==>
            forall s :: 0 <= s < |cs| ==> cs[s] + Hits(probes, s) <= COUNTER_MAX || cs[s] == 0
  {
    var up := AddProbes(cs, probes);
    var down := RemoveProbes(up, probes);
    AddFormula(cs, probes);
    RemoveFormula(up, probes);
    forall s | 0 <= s < |cs|
      ensures down[s] == cs[s] <==> cs[s] + Hits(probes, s) <= COUNTER_MAX || cs[s] == 0
    {
      assert up[s] == Min(COUNTER_MAX, cs[s] + Hits(probes, s));
    }
    if down != cs {
      assert exists s :: 0 <= s < |cs| && down[s] != cs[s];
    }
  }

  // ---- Histories of adds and removes ---------------------------------------

  datatype Op<T> = Add(item: T) | Remove(item: T)

  /** The bag after removing one occurrence of `x`. */
  ghost function Drop<T>(bag: seq<T>, x: T): seq<T>
  {
    if bag == [] then [] else if bag[0] == x then bag[1..] else [bag[0]] + Drop(bag[1..], x)
  }

  /** The true count of slot `s`: the probe hits summed over the bag of items present. */
  ghost function TrueCount<T>(probes: T -> seq<nat>, bag: seq<T>, s: nat): nat
  {
    if bag == [] then 0 else Hits(probes(bag[0]), s) + TrueCount(probes, bag[1..], s)
  }

  ghost function BagAfter<T>(bag: seq<T>, op: Op<T>): seq<T> {
    match op
    case Add(x) => bag + [x]
    case Remove(x) => Drop(bag, x)
  }

  ghost function CountersAfter<T>(probes: T -> seq<nat>, cs: seq<nat>, op: Op<T>): (r: seq<nat>)
    requires InRange(probes(op.item), |cs|)
    ensures |r| == |cs|
  {
    match op
    case Add(x) => AddProbes(cs, probes(x))
    case Remove(x) => RemoveProbes(cs, probes(x))
  }

  ghost predicate AllInRange<T(!new)>(probes: T -> seq<nat>, m: nat) {
    forall x :: InRange(probes(x), m)
  }

  ghost function ExecBag<T>(bag: seq<T>, run: seq<Op<T>>): seq<T>
    decreases |run|
  {
    if run == [] then bag else ExecBag(BagAfter(bag, run[0]), run[1..])
  }

  ghost function ExecCounters<T(!new)>(probes: T -> seq<nat>, cs: seq<nat>, run: seq<Op<T>>): (r: seq<nat>)
    requires AllInRange(probes, |cs|)
    ensures |r| == |cs|
    decreases |run|
  {
    if run == [] then cs else ExecCounters(probes, CountersAfter(probes, cs, run[0]), run[1..])
  }

  ghost predicate ExactCounters<T>(probes: T -> seq<nat>, cs: seq<nat>, bag: seq<T>) {
    forall s :: 0 <= s < |cs| ==> cs[s] == TrueCount(probes, bag, s)
  }

  lemma {:induction false} TrueCountAppend<T>(probes: T -> seq<nat>, bag: seq<T>, x: T, s: nat)
    ensures TrueCount(probes, bag + [x], s) == TrueCount(probes, bag, s) + Hits(probes(x), s)
  {
    if bag == [] {
      assert bag + [x] == [x];
    } else {
      assert (bag + [x])[1..] == bag[1..] + [x];
      TrueCountAppend(probes, bag[1..], x, s);
    }
  }

  lemma {:induction false} TrueCountDrop<T>(probes: T -> seq<nat>, bag: seq<T>, x: T, s: nat)
    requires x in bag
    ensures TrueCount(probes, bag, s) == TrueCount(probes, Drop(bag, x), s) + Hits(probes(x), s)
  {
    if bag[0] == x {
    } else {
      TrueCountDrop(probes, bag[1..], x, s);
    }
  }

  /** What an operation needs in order to keep exact counters exact. */
  ghost predicate KeepsExact<T>(probes: T -> seq<nat>, m: nat, bag: seq<T>, op: Op<T>) {
    var x := op.item;
    if op.Add? then forall s :: 0 <= s < m ==> TrueCount(probes, bag + [x], s) <= COUNTER_MAX
    else x in bag || forall s :: 0 <= s < m ==> Hits(probes(x), s) == 0 || TrueCount(probes, bag, s) == 0
  }

  lemma {:induction false} DropAbsent<T>(bag: seq<T>, x: T)
    requires x !in bag
    ensures Drop(bag, x) == bag
  {
    if bag == [] {
    } else {
      DropAbsent(bag[1..], x);
    }
  }

  /**
   From exact counters, an add stays exact if and only if no slot overflows, and a
   remove if and only if the item is present or all its slots are untouched or empty.
   */
  lemma ExactAfterStep<T>(probes: T -> seq<nat>, cs: seq<nat>, bag: seq<T>, op: Op<T>)
    requires InRange(probes(op.item), |cs|) && Nibbles(cs) && ExactCounters(probes, cs, bag)
    ensures ExactCounters(probes, CountersAfter(probes, cs, op), BagAfter(bag, op)) <==> KeepsExact(probes, |cs|, bag, op)
    ensures Nibbles(CountersAfter(probes, cs, op))
  {
    var x, cs', bag' := op.item, CountersAfter(probes, cs, op), BagAfter(bag, op);
    AddFormula(cs, probes(x));
    RemoveFormula(cs, probes(x));
    forall s | 0 <= s < |cs|
      ensures cs'[s] == TrueCount(probes, bag', s) <==>
        if op.Add? then TrueCount(probes, bag', s) <= COUNTER_MAX
        else x in bag || Hits(probes(x), s) == 0 || TrueCount(probes, bag, s) == 0
    {
      SlotExact(probes, cs[s], bag, op, s);
    }
  }

  lemma SlotExact<T>(probes: T -> seq<nat>, c: nat, bag: seq<T>, op: Op<T>, s: nat)
    requires c == TrueCount(probes, bag, s) <= COUNTER_MAX
    ensures
      var h := Hits(probes(op.item), s);
      var true' := TrueCount(probes, BagAfter(bag, op), s);
      if op.Add? then Min(COUNTER_MAX, c + h) == true' <==> true' <= COUNTER_MAX
      else (if h <= c then c - h else 0) == true' <==> op.item in bag || h == 0 || c == 0
  {
    if op.Add? {
      TrueCountAppend(probes, bag, op.item, s);
    } else if op.item in bag {
      TrueCountDrop(probes, bag, op.item, s);
    } else {
      DropAbsent(bag, op.item);
    }
  }

  /** Every operation of the history keeps exact counters exact. */
  ghost predicate KeepsExactRun<T>(probes: T -> seq<nat>, m: nat, bag: seq<T>, run: seq<Op<T>>)
    decreases |run|
  {
    run == [] || (KeepsExact(probes, m, bag, run[0]) && KeepsExactRun(probes, m, BagAfter(bag, run[0]), run[1..]))
  }

  /** The counters are exact now and after every operation of the history. */
  ghost predicate ExactThroughout<T(!new)>(probes: T -> seq<nat>, cs: seq<nat>, bag: seq<T>, run: seq<Op<T>>)
    requires AllInRange(probes, |cs|)
    decreases |run|
  {
    && ExactCounters(probes, cs, bag)
    && (run == [] || ExactThroughout(probes, CountersAfter(probes, cs, run[0]), BagAfter(bag, run[0]), run[1..]))
  }

  /**
   Each counter is the number of probe hits of the items present, counting repeated probes of one
   item, all through a history if and only if every operation of it keeps exact counters exact.
   */
  lemma {:induction false} CountersAreExact<T(!new)>(probes: T -> seq<nat>, cs: seq<nat>, bag: seq<T>, run: seq<Op<T>>)
    requires AllInRange(probes, |cs|) && Nibbles(cs) && ExactCounters(probes, cs, bag)
    ensures ExactThroughout(probes, cs, bag, run) <==> KeepsExactRun(probes, |cs|, bag, run)
    decreases |run|
  {
    if run == [] {
    } else {
      ExactAfterStep(probes, cs, bag, run[0]);
      var cs', bag' := CountersAfter(probes, cs, run[0]), BagAfter(bag, run[0]);
      if KeepsExact(probes, |cs|, bag, run[0]) {
        CountersAreExact(probes, cs', bag', run[1..]);
      }
    }
  }

  lemma {:induction false} ExactInTheEnd<T(!new)>(probes: T -> seq<nat>, cs: seq<nat>, bag: seq<T>, run: seq<Op<T>>)
    requires AllInRange(probes, |cs|) && ExactThroughout(probes, cs, bag, run)
    ensures ExactCounters(probes, ExecCounters(probes, cs, run), ExecBag(bag, run))
    decreases |run|
  {
    if run == [] {
    } else {
      ExactInTheEnd(probes, CountersAfter(probes, cs, run[0]), BagAfter(bag, run[0]), run[1..]);
    }
  }

  /** Only present items are removed, and no slot's true count ever exceeds 15. */
  ghost predicate Faithful<T>(probes: T -> seq<nat>, bag: seq<T>, m: nat, run: seq<Op<T>>)
    decreases |run|
  {
    run == [] || (
      var bag' := BagAfter(bag, run[0]);
      && (run[0].Remove? ==> run[0].item in bag)
      && (forall s :: 0 <= s < m ==> TrueCount(probes, bag', s) <= COUNTER_MAX)
      && Faithful(probes, bag', m, run[1..]))
  }

  /** The simple condition a user can keep to is enough. */
  lemma {:induction false} FaithfulKeepsExact<T>(probes: T -> seq<nat>, bag: seq<T>, m: nat, run: seq<Op<T>>)
    requires Faithful(probes, bag, m, run)
    ensures KeepsExactRun(probes, m, bag, run)
    decreases |run|
  {
    if run == [] {
    } else {
      FaithfulKeepsExact(probes, BagAfter(bag, run[0]), m, run[1..]);
    }
  }

  lemma {:induction false} HitsPositive(probes: seq<nat>, i: nat)
    requires i < |probes|
    ensures Hits(probes, probes[i]) > 0
  {
    if i == 0 {
    } else {
      HitsPositive(probes[1..], i - 1);
    }
  }

  lemma {:induction false} PresentCounts<T>(probes: T -> seq<nat>, bag: seq<T>, x: T, s: nat)
    requires x in bag
    ensures TrueCount(probes, bag, s) >= Hits(probes(x), s)
  {
    TrueCountDrop(probes, bag, x, s);
  }

  /** In every history that keeps the counters exact no item that is present is ever reported absent. */
  lemma NoFalseNegatives<T(!new)>(probes: T -> seq<nat>, m: nat, run: seq<Op<T>>, x: T)
    requires AllInRange(probes, m) && KeepsExactRun(probes, m, [], run) && x in ExecBag([], run)
    ensures AllHit(ExecCounters(probes, seq(m, _ => 0), run), probes(x))
  {
    var zero := seq(m, _ => 0);
    var cs, bag := ExecCounters(probes, zero, run), ExecBag([], run);
    CountersAreExact(probes, zero, [], run);
    ExactInTheEnd(probes, zero, [], run);
    forall i | 0 <= i < |probes(x)|
      ensures cs[probes(x)[i]] > 0
    {
      HitsPositive(probes(x), i);
      PresentCounts(probes, bag, x, probes(x)[i]);
    }
  }

  // ---- Histories with false negatives --------------------------------------

  ghost function Times<T>(op: Op<T>, n: nat): seq<Op<T>>
  {
    if n == 0 then [] else [op] + Times(op, n - 1)
  }

  /** How many copies of `x` are present. */
  ghost function Copies<T>(bag: seq<T>, x: T): nat
  {
    if bag == [] then 0 else (if bag[0] == x then 1 else 0) + Copies(bag[1..], x)
  }

  lemma {:induction false} CopiesPresent<T>(bag: seq<T>, x: T)
    ensures Copies(bag, x) > 0 <==> x in bag
  {
    if bag == [] {
    } else {
      CopiesPresent(bag[1..], x);
    }
  }

  lemma {:induction false} CopiesAfter<T>(bag: seq<T>, op: Op<T>, x: T)
    ensures
      Copies(BagAfter(bag, op), x) ==
      if op.item != x then Copies(bag, x)
      else if op.Add? then Copies(bag, x) + 1
      else if Copies(bag, x) == 0 then 0 else Copies(bag, x) - 1
  {
    if bag == [] {
      assert bag + [op.item] == [op.item];
    } else {
      CopiesAfter(bag[1..], op, x);
      assert (bag + [op.item])[1..] == bag[1..] + [op.item];
      CopiesPresent(bag[1..], x);
    }
  }

  lemma {:induction false} CopiesAfterTimes<T>(bag: seq<T>, op: Op<T>, n: nat, x: T)
    ensures
      Copies(ExecBag(bag, Times(op, n)), x) ==
      if op.item != x then Copies(bag, x)
      else if op.Add? then Copies(bag, x) + n
      else if Copies(bag, x) <= n then 0 else Copies(bag, x) - n
    decreases n
  {
    if n == 0 {
    } else {
      assert Times(op, n)[1..] == Times(op, n - 1);
      CopiesAfter(bag, op, x);
      CopiesAfterTimes(BagAfter(bag, op), op, n - 1, x);
    }
  }

  lemma {:induction false} ExecInTwo<T(!new)>(probes: T -> seq<nat>, cs: seq<nat>, bag: seq<T>, a: seq<Op<T>>, b: seq<Op<T>>)
    requires AllInRange(probes, |cs|)
    ensures ExecBag(bag, a + b) == ExecBag(ExecBag(bag, a), b)
    ensures ExecCounters(probes, cs, a + b) == ExecCounters(probes, ExecCounters(probes, cs, a), b)
    decreases |a|
  {
    if a == [] {
      assert a + b == b;
    } else {
      assert (a + b)[1..] == a[1..] + b;
      ExecInTwo(probes, CountersAfter(probes, cs, a[0]), BagAfter(bag, a[0]), a[1..], b);
    }
  }

  lemma {:induction false} NibblesKept<T(!new)>(probes: T -> seq<nat>, cs: seq<nat>, run: seq<Op<T>>)
    requires AllInRange(probes, |cs|) && Nibbles(cs)
    ensures Nibbles(ExecCounters(probes, cs, run))
    decreases |run|
  {
    if run == [] {
    } else {
      AddFormula(cs, probes(run[0].item));
      RemoveFormula(cs, probes(run[0].item));
      NibblesKept(probes, CountersAfter(probes, cs, run[0]), run[1..]);
    }
  }

  /** As many removes of an item as a counter it probes has units bring that counter to zero. */
  lemma {:induction false} RemovesDrain<T(!new)>(probes: T -> seq<nat>, cs: seq<nat>, y: T, n: nat, s: nat)
    requires AllInRange(probes, |cs|) && s < |cs| && Hits(probes(y), s) > 0 && cs[s] <= n
    ensures ExecCounters(probes, cs, Times(Remove(y), n))[s] == 0
    decreases n
  {
    if n == 0 {
    } else {
      assert Times(Remove(y), n)[1..] == Times(Remove(y), n - 1);
      RemoveFormula(cs, probes(y));
      RemovesDrain(probes, RemoveProbes(cs, probes(y)), y, n - 1, s);
    }
  }

  /**
   Why the counts must not exceed 15: in any filter and any state, after n > 15 adds of an item and
   15 removes of it at least n - 15 copies are present, but the item is reported absent.
   */
  lemma SaturationForgets<T(!new)>(probes: T -> seq<nat>, cs: seq<nat>, bag: seq<T>, x: T, n: nat)
    requires AllInRange(probes, |cs|) && Nibbles(cs) && probes(x) != [] && n > COUNTER_MAX
    ensures
      var run := Times(Add(x), n) + Times(Remove(x), COUNTER_MAX);
      && Copies(ExecBag(bag, run), x) >= n - COUNTER_MAX && x in ExecBag(bag, run)
      && !AllHit(ExecCounters(probes, cs, run), probes(x))
  {
    var adds, removes := Times(Add(x), n), Times(Remove(x), COUNTER_MAX);
    ExecInTwo(probes, cs, bag, adds, removes);
    CopiesAfterTimes(bag, Add(x), n, x);
    CopiesAfterTimes(ExecBag(bag, adds), Remove(x), COUNTER_MAX, x);
    CopiesPresent(ExecBag(bag, adds + removes), x);
    NibblesKept(probes, cs, adds);
    HitsPositive(probes(x), 0);
    RemovesDrain(probes, ExecCounters(probes, cs, adds), x, COUNTER_MAX, probes(x)[0]);
    assert ExecCounters(probes, cs, adds + removes)[probes(x)[0]] == 0;
  }

  /**
   Why absent items must not be removed: in any new filter, removing an item that was never added
   as often as a slot it shares is hit makes an item that is present report absent.
   */
  lemma AbsentRemoveForgets<T(!new)>(probes: T -> seq<nat>, m: nat, x: T, y: T, i: nat)
    requires AllInRange(probes, m) && x != y && i < |probes(x)| && probes(x)[i] in probes(y)
    ensures
      var run := [Add(x)] + Times(Remove(y), Hits(probes(x), probes(x)[i]));
      && x in ExecBag([], run) && y !in ExecBag([], [Add(x)])
      && !AllHit(ExecCounters(probes, seq(m, _ => 0), run), probes(x))
  {
    var s, zero := probes(x)[i], seq(m, _ => 0);
    var removes := Times(Remove(y), Hits(probes(x), s));
    var up := AddProbes(zero, probes(x));
    ExecInTwo(probes, zero, [], [Add(x)], removes);
    assert [Add(x)][1..] == [];
    assert ExecBag([], [Add(x)]) == [] + [x] == [x];
    assert ExecCounters(probes, zero, [Add(x)]) == up;
    CopiesAfterTimes([x], Remove(y), Hits(probes(x), s), x);
    assert Copies([x], x) == 1;
    CopiesPresent(ExecBag([x], removes), x);
    AddFormula(zero, probes(x));
    var j :| 0 <= j < |probes(y)| && probes(y)[j] == s;
    HitsPositive(probes(y), j);
    RemovesDrain(probes, up, y, Hits(probes(x), s), s);
    assert ExecCounters(probes, zero, [Add(x)] + removes)[s] == 0;
  }

  // ---- Decay ---------------------------------------------------------------

  /** The counter shifted right by `k` bits. */
  function Shift(c: nat, k: nat): nat
    decreases k
  {
    if k == 0 then c else Shift(c / 2, k - 1)
  }

  ghost function DecayAll(cs: seq<nat>, k: nat): (r: seq<nat>)
    ensures |r| == |cs|
  {
    seq(|cs|, s requires 0 <= s < |cs| => Shift(cs[s], k))
  }

  /** Decay halves every counter as often as it shifts, rounding down, and leaves nothing from four shifts on. */
  lemma DecayHalves(cs: seq<nat>, k: nat, s: nat)
    requires Nibbles(cs) && s < |cs|
    ensures
      DecayAll(cs, k)[s] ==
      if k == 0 then cs[s] else if k == 1 then cs[s] / 2 else if k == 2 then cs[s] / 4 else if k == 3 then cs[s] / 8 else 0
  {
    if k >= 4 {
      ShiftOut(cs[s], k);
    } else {
      assert Shift(cs[s] / 2 / 2, 0) == cs[s] / 4 && Shift(cs[s] / 2 / 2 / 2, 0) == cs[s] / 8;
    }
  }

  lemma {:induction false} ShiftTwice(c: nat, a: nat, b: nat)
    ensures Shift(Shift(c, a), b) == Shift(c, a + b)
    decreases a
  {
    if a == 0 {
    } else {
      ShiftTwice(c / 2, a - 1, b);
    }
  }

  lemma {:induction false} ShiftMonotone(c: nat, d: nat, k: nat)
    requires c <= d
    ensures Shift(c, k) <= Shift(d, k) <= d
    decreases k
  {
    if k == 0 {
    } else {
      ShiftMonotone(c / 2, d / 2, k - 1);
    }
  }

  lemma {:induction false} ShiftOut(c: nat, k: nat)
    requires c <= COUNTER_MAX && k >= 4
    ensures Shift(c, k) == 0
    decreases k
  {
    ShiftTwice(c, 4, k - 4);
    assert Shift(c, 4) == c / 2 / 2 / 2 / 2;
    ShiftMonotone(0, 0, k - 4);
  }

  /** Two decays are one decay by the sum of the shifts. */
  lemma DecaysAddUp(cs: seq<nat>, a: nat, b: nat)
    ensures DecayAll(DecayAll(cs, a), b) == DecayAll(cs, a + b)
  {
    forall s | 0 <= s < |cs|
      ensures DecayAll(DecayAll(cs, a), b)[s] == DecayAll(cs, a + b)[s]
    {
      ShiftTwice(cs[s], a, b);
    }
  }

  datatype Aging<T> = Decay(shift: nat) | Forget(item: T)

  /** Decays and removes, in any order, without adds. */
  ghost function ExecAging<T(!new)>(probes: T -> seq<nat>, cs: seq<nat>, run: seq<Aging<T>>): (r: seq<nat>)
    requires AllInRange(probes, |cs|)
    ensures |r| == |cs|
    decreases |run|
  {
    if run == [] then cs
    else if run[0].Decay? then ExecAging(probes, DecayAll(cs, run[0].shift), run[1..])
    else ExecAging(probes, RemoveProbes(cs, probes(run[0].item)), run[1..])
  }

  ghost function TotalShift<T>(run: seq<Aging<T>>): nat
  {
    if run == [] then 0 else (if run[0].Decay? then run[0].shift else 0) + TotalShift(run[1..])
  }

  lemma {:induction false} AgingBound<T(!new)>(probes: T -> seq<nat>, cs: seq<nat>, run: seq<Aging<T>>)
    requires AllInRange(probes, |cs|)
    ensures forall s :: 0 <= s < |cs| ==> ExecAging(probes, cs, run)[s] <= Shift(cs[s], TotalShift(run))
    decreases |run|
  {
    if run == [] {
    } else {
      var cs' := if run[0].Decay? then DecayAll(cs, run[0].shift) else RemoveProbes(cs, probes(run[0].item));
      var rest := TotalShift(run[1..]);
      AgingBound(probes, cs', run[1..]);
      forall s | 0 <= s < |cs|
        ensures Shift(cs'[s], rest) <= Shift(cs[s], TotalShift(run))
      {
        if run[0].Decay? {
          ShiftTwice(cs[s], run[0].shift, rest);
        } else {
          RemoveFormula(cs, probes(run[0].item));
          ShiftMonotone(cs'[s], cs[s], rest);
        }
      }
    }
  }

  /** Without adds, a total shift of four or more empties the filter: every query is answered no. */
  lemma AgingEmptiesFilter<T(!new)>(probes: T -> seq<nat>, cs: seq<nat>, run: seq<Aging<T>>, x: T)
    requires AllInRange(probes, |cs|) && Nibbles(cs) && probes(x) != [] && TotalShift(run) >= 4
    ensures ExecAging(probes, cs, run) == seq(|cs|, _ => 0)
    ensures !AllHit(ExecAging(probes, cs, run), probes(x))
  {
    var cs' := ExecAging(probes, cs, run);
    AgingBound(probes, cs, run);
    forall s | 0 <= s < |cs|
      ensures cs'[s] == 0
    {
      ShiftOut(cs[s], TotalShift(run));
    }
    assert probes(x)[0] < |cs|;
  }
}
