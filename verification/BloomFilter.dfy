/**
 The counting Bloom filter as stored: two 4-bit counters packed into each byte,
 probed by double hashing.
 */
module BloomFilter {
  import opened BloomSpec
  import opened Numbers

  // ---- Packed nibbles ------------------------------------------------------

  function Low(b: bv8): bv8 { b & 0x0F }

  function High(b: bv8): bv8 { (b >> 4) & 0x0F }

  function SetLow(b: bv8, v: bv8): bv8 { (b & 0xF0) | (v & 0x0F) }

  function SetHigh(b: bv8, v: bv8): bv8 { (b & 0x0F) | ((v & 0x0F) << 4) }

  lemma NibbleLaws(b: bv8, v: bv8)
    requires v <= 0x0F
    ensures Low(SetLow(b, v)) == v && High(SetLow(b, v)) == High(b)
    ensures High(SetHigh(b, v)) == v && Low(SetHigh(b, v)) == Low(b)
    ensures Low(b) <= 0x0F && High(b) <= 0x0F
  {
  }

  /** The counter of slot `s`: even slots in the low nibble, odd slots in the high one. */
  function CounterAt(bytes: seq<bv8>, s: nat): bv8
    requires s / 2 < |bytes|
  {
    if s % 2 == 0 then Low(bytes[s / 2]) else High(bytes[s / 2])
  }

  /** The counters of all slots, as numbers. */
  ghost function Unpack(bytes: seq<bv8>): (cs: seq<nat>)
    ensures |cs| == 2 * |bytes|
  {
    seq(2 * |bytes|, s requires 0 <= s < 2 * |bytes| => CounterAt(bytes, s) as nat)
  }

  lemma SmallNumbers(c: bv8)
    requires c <= 0x0F
    ensures c as nat <= 15
    ensures c < 0x0F ==> (c + 1) as nat == c as nat + 1
    ensures c > 0 ==> (c - 1) as nat == c as nat - 1
    ensures (c == 0 <==> c as nat == 0) && (c == 0x0F <==> c as nat == 15)
  {
  }

  lemma UnpackNibbles(bytes: seq<bv8>)
    ensures Nibbles(Unpack(bytes))
  {
    forall s | 0 <= s < 2 * |bytes|
      ensures Unpack(bytes)[s] <= 15
    {
      NibbleLaws(bytes[s / 2], 0);
      SmallNumbers(CounterAt(bytes, s));
    }
  }

  /** The byte after storing `v` in slot `s`. */
  function Stored(b: bv8, s: nat, v: bv8): bv8
  {
    if s % 2 == 0 then SetLow(b, v) else SetHigh(b, v)
  }

  /** Storing one nibble changes that slot and no other. */
  lemma StoreUpdates(bytes: seq<bv8>, s: nat, v: bv8)
    requires s < 2 * |bytes| && v <= 0x0F
    ensures Unpack(bytes[s / 2 := Stored(bytes[s / 2], s, v)]) == Unpack(bytes)[s := v as nat]
  {
    var after := bytes[s / 2 := Stored(bytes[s / 2], s, v)];
    NibbleLaws(bytes[s / 2], v);
    forall r | 0 <= r < 2 * |bytes|
      ensures Unpack(after)[r] == Unpack(bytes)[s := v as nat][r]
    {
      if r / 2 == s / 2 && r != s {
        assert r % 2 != s % 2;
      }
    }
  }

  /** The byte after shifting both nibbles right. */
  function Shifted(b: bv8, shift: nat): bv8
    requires shift < 4
  {
    SetHigh(SetLow(0, Low(b) >> shift), High(b) >> shift)
  }

  lemma ShiftNumbers(c: bv8, shift: nat)
    requires c <= 0x0F && 1 <= shift < 4
    ensures c >> shift <= 0x0F && (c >> shift) as nat == Shift(c as nat, shift)
  {
    assert Shift(c as nat, 1) == c as nat / 2;
    assert Shift(c as nat, 2) == c as nat / 2 / 2;
    assert Shift(c as nat, 3) == c as nat / 2 / 2 / 2;
    if shift == 1 {
      assert (c >> 1) as nat == c as nat / 2;
    } else if shift == 2 {
      assert (c >> 2) as nat == c as nat / 2 / 2;
    } else {
      assert (c >> 3) as nat == c as nat / 2 / 2 / 2;
    }
  }

  lemma ShiftedCounters(b: bv8, shift: nat)
    requires 1 <= shift < 4
    ensures Low(Shifted(b, shift)) as nat == Shift(Low(b) as nat, shift)
    ensures High(Shifted(b, shift)) as nat == Shift(High(b) as nat, shift)
  {
    NibbleLaws(b, 0);
    ShiftNumbers(Low(b), shift);
    ShiftNumbers(High(b), shift);
    NibbleLaws(0, Low(b) >> shift);
    NibbleLaws(SetLow(0, Low(b) >> shift), High(b) >> shift);
  }

  // ---- Double hashing ------------------------------------------------------

  /** The second hash mixes the first and is never zero. */
  function Stride(h1: bv64): (h2: bv64)
    ensures h2 != 0
  {
    Mixed(h1 * 0x9E3779B97F4A7C15, h1 >> 32)
  }

  /** Both parts, or a constant where they cancel out. */
  function Mixed(product: bv64, high: bv64): (h2: bv64)
    ensures h2 != 0
  {
    var h2 := product ^ high;
    if h2 == 0 then 0x517cc1b727220a95 else h2
  }

  lemma XorTwice(a: bv64, b: bv64)
    ensures (a ^ b) ^ b == a && (a ^ b == 0 <==> a == b)
  {
  }

  /** Where the parts differ, what is mixed can be unmixed. */
  lemma MixedUnmixes(product: bv64, high: bv64)
    ensures product == high ==> Mixed(product, high) == 0x517cc1b727220a95
    ensures product != high ==> Mixed(product, high) ^ high == product
  {
    XorTwice(product, high);
  }

  /** The second hashes of some first ones: nothing to mix, the multiplier itself, and both halves. */
  lemma StrideSamples()
    ensures Stride(0) == 0x517cc1b727220a95 && Stride(1) == 0x9E3779B97F4A7C15 && Stride(2) == 0x3C6EF372FE94F82A
    ensures Stride(0x1_0000_0000) == 0x7F4A7C1500000001
  {
  }

  /** The i-th probed slot, in 64-bit arithmetic. */
  function SlotOf(h1: bv64, h2: bv64, i: nat, m: nat): (s: nat)
    requires m > 0
    ensures s < m
  {
    ((h1 as nat + i * (h2 as nat)) % TWO_64) % m
  }

  /** Where the probes walk: from the first hash on in strides of the second, wrapping at two to the 64. */
  ghost function Walk(h1: nat, h2: nat, i: nat): nat
  {
    if i == 0 then h1 else
      var next := Walk(h1, h2, i - 1) + h2;
      if next >= TWO_64 then next - TWO_64 else next
  }

  lemma {:induction false} WalkIs(h1: nat, h2: nat, i: nat)
    requires h1 < TWO_64 && h2 < TWO_64
    ensures Walk(h1, h2, i) == (h1 + i * h2) % TWO_64
  {
    if i == 0 {
    } else {
      WalkIs(h1, h2, i - 1);
      NextStride(h1, h2, i);
      WrapsOnce(h1 + (i - 1) * h2, h2);
    }
  }

  lemma NextStride(h1: nat, h2: nat, i: nat)
    requires i > 0
    ensures h1 + (i - 1) * h2 + h2 == h1 + i * h2 && (i - 1) * h2 >= 0
  {
  }

  lemma WrapsOnce(x: nat, y: nat)
    requires y < TWO_64
    ensures (x + y) % TWO_64 == if x % TWO_64 + y >= TWO_64 then x % TWO_64 + y - TWO_64 else x % TWO_64 + y
  {
    StepMod(x, y);
  }

  lemma StepMod(x: nat, y: nat)
    ensures (x % TWO_64 + y) % TWO_64 == (x + y) % TWO_64
  {
    assert x + y == x / TWO_64 * TWO_64 + (x % TWO_64 + y);
    ModAdds(x / TWO_64, x % TWO_64 + y);
  }

  lemma {:induction false} ModAdds(k: nat, y: nat)
    ensures (k * TWO_64 + y) % TWO_64 == y % TWO_64
  {
    if k == 0 {
    } else {
      ModAdds(k - 1, y);
      assert k * TWO_64 + y == (k - 1) * TWO_64 + y + TWO_64;
    }
  }

  /** The i-th probe is where the walk is after i strides, reduced to a slot. */
  lemma ProbesWalk(h1: bv64, h2: bv64, i: nat, m: nat)
    requires m > 0
    ensures SlotOf(h1, h2, i, m) == Walk(h1 as nat, h2 as nat, i) % m
  {
    WalkIs(h1 as nat, h2 as nat, i);
  }

  /** All slots an item with hashes `h1` and `h2` probes. */
  ghost function ProbesOf(h1: bv64, h2: bv64, k: nat, m: nat): (probes: seq<nat>)
    requires m > 0
    ensures |probes| == k && InRange(probes, m)
  {
    seq(k, i requires 0 <= i < k => SlotOf(h1, h2, i, m))
  }

  /** Handling the probes one by one handles the prefix, then the next one. */
  lemma {:induction false} AddOneMore(cs: seq<nat>, probes: seq<nat>, p: nat)
    requires InRange(probes, |cs|) && p < |cs|
    ensures InRange(probes + [p], |cs|)
    ensures AddProbes(cs, probes + [p]) == AddProbes(cs, probes)[p := SaturateInc(AddProbes(cs, probes)[p])]
    decreases |probes|
  {
    if probes == [] {
      assert probes + [p] == [p];
      assert AddProbes(cs[p := SaturateInc(cs[p])], []) == cs[p := SaturateInc(cs[p])];
    } else {
      assert (probes + [p])[1..] == probes[1..] + [p];
      AddOneMore(cs[probes[0] := SaturateInc(cs[probes[0]])], probes[1..], p);
    }
  }

  lemma {:induction false} RemoveOneMore(cs: seq<nat>, probes: seq<nat>, p: nat)
    requires InRange(probes, |cs|) && p < |cs|
    ensures InRange(probes + [p], |cs|)
    ensures RemoveProbes(cs, probes + [p]) == RemoveProbes(cs, probes)[p := FloorDec(RemoveProbes(cs, probes)[p])]
    decreases |probes|
  {
    if probes == [] {
      assert probes + [p] == [p];
      assert RemoveProbes(cs[p := FloorDec(cs[p])], []) == cs[p := FloorDec(cs[p])];
    } else {
      assert (probes + [p])[1..] == probes[1..] + [p];
      RemoveOneMore(cs[probes[0] := FloorDec(cs[probes[0]])], probes[1..], p);
    }
  }

  class CountingBloomFilter<T(!new)> {
    const hash: T -> bv64
    const numSlots: nat
    const numHashes: nat
    const bytes: array<bv8>

    ghost predicate Valid() {
      numSlots > 0 && numSlots == 2 * bytes.Length && numHashes > 0
    }

    /** The counter of every slot. */
    ghost function Counters(): (cs: seq<nat>)
      requires Valid()
      reads bytes
      ensures |cs| == numSlots
    {
      Unpack(bytes[..])
    }

    ghost function Probes(item: T): (probes: seq<nat>)
      requires Valid()
      ensures InRange(probes, numSlots) && |probes| == numHashes
    {
      ProbesOf(hash(item), Stride(hash(item)), numHashes, numSlots)
    }

    /** `slots` rounded up to an even number of at least two, as the sizing formula does. */
    constructor (hash: T -> bv64, slots: nat, hashes: nat)
      ensures Valid() && fresh(bytes) && this.hash == hash
      ensures numSlots == (if slots < 2 then 2 else slots + slots % 2)
      ensures numHashes == (if hashes < 1 then 1 else hashes)
      ensures Counters() == seq(numSlots, _ => 0)
    {
      var m := if slots < 2 then 2 else slots;
      m := m + m % 2;
      this.hash := hash;
      numSlots := m;
      numHashes := if hashes < 1 then 1 else hashes;
      bytes := new bv8[m / 2](_ => 0);
      new;
      AllZero(bytes[..]);
    }

    method SetCounter(s: nat, v: bv8)
      requires Valid() && s < numSlots && v <= 0x0F
      modifies bytes
      ensures Counters() == old(Counters())[s := v as nat]
    {
      StoreUpdates(bytes[..], s, v);
      ghost var before := bytes[..];
      if s % 2 == 0 {
        bytes[s / 2] := SetLow(bytes[s / 2], v);
      } else {
        bytes[s / 2] := SetHigh(bytes[s / 2], v);
      }
      assert bytes[..] == before[s / 2 := Stored(before[s / 2], s, v)];
    }

    method GetCounter(s: nat) returns (c: bv8)
      requires Valid() && s < numSlots
      ensures c <= 0x0F && c as nat == Counters()[s]
    {
      NibbleLaws(bytes[s / 2], 0);
      c := if s % 2 == 0 then Low(bytes[s / 2]) else High(bytes[s / 2]);
      assert c == CounterAt(bytes[..], s);
    }

    method Add(item: T)
      requires Valid()
      modifies bytes
      ensures Counters() == AddProbes(old(Counters()), Probes(item))
    {
      var h1 := hash(item);
      var h2 := Stride(h1);
      ghost var probes, start := Probes(item), Counters();
      for i := 0 to numHashes
        invariant Counters() == AddProbes(start, probes[..i])
      {
        var s := SlotOf(h1, h2, i, numSlots);
        var c := GetCounter(s);
        SmallNumbers(c);
        AddOneMore(start, probes[..i], s);
        assert probes[..i + 1] == probes[..i] + [s];
        SetCounter(s, if c >= 0x0F then 0x0F else c + 1);
      }
      assert probes[..numHashes] == probes;
    }

    method Contains(item: T) returns (found: bool)
      requires Valid()
      ensures found <==> AllHit(Counters(), Probes(item))
    {
      var h1 := hash(item);
      var h2 := Stride(h1);
      for i := 0 to numHashes
        invariant forall j :: 0 <= j < i ==> Counters()[Probes(item)[j]] > 0
      {
        var s := SlotOf(h1, h2, i, numSlots);
        var c := GetCounter(s);
        SmallNumbers(c);
        assert s == Probes(item)[i];
        if c == 0 {
          return false;
        }
      }
      return true;
    }

    method Remove(item: T) returns (changed: bool)
      requires Valid()
      modifies bytes
      ensures Counters() == RemoveProbes(old(Counters()), Probes(item))
      ensures changed <==> Counters() != old(Counters())
    {
      var h1 := hash(item);
      var h2 := Stride(h1);
      changed := false;
      ghost var probes, start := Probes(item), Counters();
      for i := 0 to numHashes
        invariant Counters() == RemoveProbes(start, probes[..i])
        invariant changed <==> Counters() != start
      {
        var s := SlotOf(h1, h2, i, numSlots);
        var c := GetCounter(s);
        SmallNumbers(c);
        RemoveOneMore(start, probes[..i], s);
        RemoveFormula(start, probes[..i]);
        assert probes[..i + 1] == probes[..i] + [s];
        if c > 0 {
          SetCounter(s, c - 1);
          changed := true;
        }
      }
      assert probes[..numHashes] == probes;
    }

    method Decay(shift: nat)
      requires Valid()
      modifies bytes
      ensures Counters() == DecayAll(old(Counters()), shift)
    {
      if shift == 0 {
        return;
      }
      if shift >= 4 {
        Clear();
        DecayedOut(old(bytes[..]), shift);
        return;
      }
      for i := 0 to bytes.Length
        invariant forall j :: 0 <= j < i ==> bytes[j] == Shifted(old(bytes[j]), shift)
        invariant forall j :: i <= j < bytes.Length ==> bytes[j] == old(bytes[j])
      {
        var packed := bytes[i];
        bytes[i] := SetHigh(SetLow(0, Low(packed) >> shift), High(packed) >> shift);
      }
      DecayedBytes(old(bytes[..]), bytes[..], shift);
    }

    method Clear()
      requires Valid()
      modifies bytes
      ensures Counters() == seq(numSlots, _ => 0)
    {
      for i := 0 to bytes.Length
        invariant forall j :: 0 <= j < i ==> bytes[j] == 0
      {
        bytes[i] := 0;
      }
      AllZero(bytes[..]);
    }
  }

  lemma DecayedOut(bytes: seq<bv8>, shift: nat)
    requires shift >= 4
    ensures DecayAll(Unpack(bytes), shift) == seq(2 * |bytes|, _ => 0)
  {
    var cs := Unpack(bytes);
    UnpackNibbles(bytes);
    forall s | 0 <= s < |cs|
      ensures Shift(cs[s], shift) == 0
    {
      ShiftOut(cs[s], shift);
    }
  }

  lemma DecayedBytes(before: seq<bv8>, after: seq<bv8>, shift: nat)
    requires 1 <= shift < 4 && |after| == |before| && forall j :: 0 <= j < |before| ==> after[j] == Shifted(before[j], shift)
    ensures Unpack(after) == DecayAll(Unpack(before), shift)
  {
    forall s | 0 <= s < 2 * |before|
      ensures Unpack(after)[s] == Shift(Unpack(before)[s], shift)
    {
      ShiftedCounters(before[s / 2], shift);
    }
  }

  lemma AllZero(bytes: seq<bv8>)
    requires forall j :: 0 <= j < |bytes| ==> bytes[j] == 0
    ensures Unpack(bytes) == seq(2 * |bytes|, _ => 0)
  {
  }
}
