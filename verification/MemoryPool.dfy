/**
 The pool itself: a bump pointer over an arena of machine words, free lists threaded
 through the free slots, block headers and counters, all updated in place. Every method
 is tied to the operation of `PoolSpec` it carries out on the abstract pool `view`.
 */
module MemoryPool {
  import opened Counting
  import opened PoolSpec
  import PoolPtr

  const MAGIC: nat := 0x4D555345
  const ESCAPED: nat := 0xFFFF

  datatype Header = Header(magic: nat, cls: nat, refs: nat)

  // ---- Size classes and arena size -----------------------------------------

  function Insert(c: nat, sorted: seq<nat>): (r: seq<nat>)
    requires forall i, j :: 0 <= i < j < |sorted| ==> sorted[i] < sorted[j]
    ensures forall i, j :: 0 <= i < j < |r| ==> r[i] < r[j]
    ensures forall x :: x in r <==> x == c || x in sorted
  {
    if sorted == [] then [c]
    else if c < sorted[0] then [c] + sorted
    else if c == sorted[0] then sorted
    else
      var rest := Insert(c, sorted[1..]);
      assert sorted == [sorted[0]] + sorted[1..];
      assert forall k :: 0 <= k < |rest| ==> rest[k] in rest;
      [sorted[0]] + rest
  }

  /** The requested classes without zeros, in increasing order and without repetition. */
  function Positive(requested: seq<nat>): (r: seq<nat>)
    ensures forall i, j :: 0 <= i < j < |r| ==> r[i] < r[j]
    ensures forall x :: x in r <==> x > 0 && x in requested
  {
    if requested == [] then []
    else if requested[0] == 0 then Positive(requested[1..])
    else Insert(requested[0], Positive(requested[1..]))
  }

  /** What the constructor makes of the requested classes; 64 when nothing usable is asked for. */
  function Normalized(requested: seq<nat>): (r: seq<nat>)
    ensures ClassesOk(r)
    ensures (exists x :: x in requested && x > 0) ==> forall x :: x in r <==> x > 0 && x in requested
    ensures (forall x :: x in requested ==> x == 0) ==> r == [64]
  {
    var r := Positive(requested);
    if r == [] then [64] else
      assert forall i :: 0 <= i < |r| ==> r[i] in r;
      assert r[0] in requested && r[0] > 0;
      r
  }

  function Units(bytes: nat, unit: nat): (k: nat)
    requires unit > 0
    ensures k > 0
  {
    if bytes / unit == 0 then 1 else bytes / unit
  }

  /** The arena is cut to a whole number of blocks of the largest class, at least one. */
  function ArenaBytes(classes: seq<nat>, bytes: nat): nat
    requires ClassesOk(classes)
  {
    var unit := Stride(classes[|classes| - 1]);
    Units(bytes, unit) * unit
  }

  lemma {:induction false} AlignedProduct(k: nat, unit: nat)
    requires unit % ALIGN == 0
    ensures k * unit % ALIGN == 0
    ensures k > 0 ==> k * unit >= unit
  {
    if k == 0 {
    } else {
      AlignedProduct(k - 1, unit);
      assert k * unit == (k - 1) * unit + unit;
      AlignedSum((k - 1) * unit, unit);
    }
  }

  lemma StrideMonotone(c: nat, d: nat)
    requires c <= d
    ensures Stride(c) <= Stride(d) && Stride(d) % ALIGN == 0
  {
  }

  /** The arena is aligned, has room for a block of any class, and is the request less a part of a block of the largest class. */
  lemma ArenaFits(classes: seq<nat>, bytes: nat, i: nat)
    requires ClassesOk(classes) && i < |classes|
    ensures ArenaBytes(classes, bytes) % ALIGN == 0
    ensures Stride(classes[i]) <= ArenaBytes(classes, bytes)
    ensures
      var unit := Stride(classes[|classes| - 1]);
      if bytes < unit then ArenaBytes(classes, bytes) == unit
      else ArenaBytes(classes, bytes) <= bytes < ArenaBytes(classes, bytes) + unit
  {
    var last := classes[|classes| - 1];
    StrideMonotone(classes[i], last);
    AlignedProduct(Units(bytes, Stride(last)), Stride(last));
    WholeUnits(bytes, Stride(last));
  }

  lemma WholeUnits(bytes: nat, unit: nat)
    requires unit > 0
    ensures if bytes < unit then Units(bytes, unit) == 1 else Units(bytes, unit) * unit <= bytes < Units(bytes, unit) * unit + unit
  {
    if bytes >= unit {
      assert bytes == bytes / unit * unit + bytes % unit;
      QuotientPositive(bytes, unit);
    }
  }

  lemma QuotientPositive(bytes: nat, unit: nat)
    requires 0 < unit <= bytes
    ensures bytes / unit > 0
  {
  }

  // ---- Free lists in memory ------------------------------------------------

  /** The word that holds the link of a free slot. */
  function Word(p: nat): nat { p / LINK }

  /** Following links from `head` visits exactly the slots of `l` and ends at null, which is 0. */
  ghost predicate Linked(words: seq<nat>, head: nat, l: seq<nat>)
    decreases |l|
  {
    if l == [] then head == 0
    else head == l[0] && head > 0 && Word(head) < |words| && Linked(words, words[Word(head)], l[1..])
  }

  lemma {:induction false} LinkedFrame(words: seq<nat>, w: nat, v: nat, head: nat, l: seq<nat>)
    requires Linked(words, head, l) && w < |words|
    requires forall p :: p in l ==> Word(p) != w
    ensures Linked(words[w := v], head, l)
    decreases |l|
  {
    if l == [] {
    } else {
      assert l[0] in l;
      LinkedFrame(words, w, v, words[Word(head)], l[1..]);
    }
  }

  /** A list is determined by its head and the memory. */
  lemma {:induction false} LinkedUnique(words: seq<nat>, head: nat, l: seq<nat>, m: seq<nat>)
    requires Linked(words, head, l) && Linked(words, head, m)
    ensures l == m
    decreases |l|
  {
    if l == [] {
    } else {
      LinkedUnique(words, words[Word(head)], l[1..], m[1..]);
    }
  }

  ghost predicate ListOk(words: seq<nat>, head: nat, count: nat, l: seq<nat>) {
    Linked(words, head, l) && count == |l|
  }

  ghost predicate ListsOk(words: seq<nat>, heads: seq<nat>, counts: seq<nat>, bins: seq<seq<nat>>) {
    && |heads| == |counts| == |bins|
    && forall i :: 0 <= i < |bins| ==> ListOk(words, heads[i], counts[i], bins[i])
  }

  lemma ListsPush(words: seq<nat>, heads: seq<nat>, counts: seq<nat>, bins: seq<seq<nat>>, i: nat, p: nat)
    requires ListsOk(words, heads, counts, bins) && i < |bins|
    requires p > 0 && Word(p) < |words|
    requires forall j, q :: 0 <= j < |bins| && q in bins[j] ==> Word(q) != Word(p)
    ensures ListsOk(words[Word(p) := heads[i]], heads[i := p], counts[i := counts[i] + 1], bins[i := [p] + bins[i]])
  {
    var words' := words[Word(p) := heads[i]];
    forall j | 0 <= j < |bins|
      ensures ListOk(words', heads[j], counts[j], bins[j])
    {
      assert ListOk(words, heads[j], counts[j], bins[j]);
      LinkedFrame(words, Word(p), heads[i], heads[j], bins[j]);
    }
    assert ([p] + bins[i])[1..] == bins[i];
    assert ListOk(words', p, counts[i] + 1, [p] + bins[i]);
  }

  // ---- Headers -------------------------------------------------------------

  ghost function ClassTag(s: Pool, a: Address): nat {
    match a
    case Arena(p) => if p in s.blocks then s.blocks[p].cls else 0
    case Heap(_) => ESCAPED
  }

  /** A block in use has a header with the magic number, its class and its count; a recycled one has no magic. */
  ghost predicate HeaderOk(headers: map<Address, Header>, s: Pool, a: Address) {
    match StatusOf(s, a)
    case Live(n) => a in headers && headers[a] == Header(MAGIC, ClassTag(s, a), n)
    case Releasing => a in headers && headers[a] == Header(MAGIC, ClassTag(s, a), 0)
    case Free => a in headers ==> a.Arena? && headers[a].magic == 0
  }

  ghost predicate HeadersOk(headers: map<Address, Header>, s: Pool) {
    forall a :: HeaderOk(headers, s, a)
  }

  /** Changing one status and one header together keeps them in step. */
  lemma HeaderChange(headers: map<Address, Header>, s: Pool, s': Pool, a: Address, h: Header)
    requires HeadersOk(headers, s)
    requires forall b :: b != a ==> StatusOf(s', b) == StatusOf(s, b) && ClassTag(s', b) == ClassTag(s, b)
    requires HeaderOk(headers[a := h], s', a)
    ensures HeadersOk(headers[a := h], s')
  {
    var headers' := headers[a := h];
    forall b
      ensures HeaderOk(headers', s', b)
    {
      assert HeaderOk(headers, s, b);
    }
  }

  /** A slot that is in use shares no word with any slot on a free list. */
  lemma OffTheLists(s: Pool, p: nat, w: nat)
    requires PoolSpec.Inv(s) && p in s.blocks && !s.blocks[p].status.Free?
    requires p <= w * LINK < p + s.classes[s.blocks[p].cls]
    ensures forall j, q :: 0 <= j < |s.bins| && q in s.bins[j] ==> Word(q) != w
  {
    forall j, q | 0 <= j < |s.bins| && q in s.bins[j]
      ensures Word(q) != w
    {
      assert BinOk(s, j);
      assert FreeClass(s.blocks, q) == Some(j);
      assert q in s.blocks && q != p;
      if q < p {
        assert End(s, q) <= Start(p);
      } else {
        assert End(s, p) <= Start(q);
      }
    }
  }

  /** Recycling, where the invariant makes it possible. */
  ghost function Recycled(s: Pool, a: Address): Pool
    requires PoolSpec.Inv(s) && StatusOf(s, a).Releasing?
  {
    RecycleKeepsInv(s, a);
    Recycle(s, a)
  }

  /** The whole effect of dropping a reference in one go. */
  ghost function Released(s: Pool, a: Address): (s': Pool)
    requires PoolSpec.Inv(s) && StatusOf(s, a).Live?
    ensures PoolSpec.Inv(s')
  {
    var n := StatusOf(s, a).refs;
    StatusKeepsInv(s, a, if n == 1 then Releasing else Live(n - 1));
    var mid := Decrement(s, a);
    if n == 1 then RecycleKeepsInv(mid, a); Recycled(mid, a) else mid
  }

  /** The header written by an allocation is the one the new block needs. */
  lemma AllocateHeaders(headers: map<Address, Header>, s: Pool, bytes: nat, id: nat)
    requires |s.bins| == |s.classes| && HeadersOk(headers, s)
    ensures
      var (s', a) := PoolSpec.Allocate(s, bytes, id);
      HeadersOk(headers[a := Header(MAGIC, if a.Heap? then ESCAPED else PickClass(s.classes, bytes), 1)], s')
  {
    var (s', a) := PoolSpec.Allocate(s, bytes, id);
    HeaderChange(headers, s, s', a, Header(MAGIC, if a.Heap? then ESCAPED else PickClass(s.classes, bytes), 1));
  }

  /** Slots are never at offset 0, which stands for null. */
  lemma NoSlotAtZero(s: Pool, i: nat)
    requires BlocksOk(s) && BinsOk(s)
    ensures i < |s.bins| && s.bins[i] != [] ==> s.bins[i][0] > 0
  {
    if i < |s.bins| && s.bins[i] != [] {
      assert BinOk(s, i) && s.bins[i][0] in s.bins[i];
    }
  }

  lemma NotInHeap(headers: map<Address, Header>, s: Pool, id: nat)
    requires HeadersOk(headers, s) && RefsPositive(s) && Heap(id) !in headers
    ensures id !in s.heap
  {
    assert HeaderOk(headers, s, Heap(id));
  }

  ghost function SlotFrom(src: Source, s: Pool, i: nat): nat {
    if src.Reuse? && i < |s.bins| && s.bins[i] != [] then s.bins[i][0] else if src.Carve? then s.bump + HEADER else 0
  }

  ghost function BumpAfter(src: Source, s: Pool, i: nat): nat {
    if src.Carve? && i < |s.classes| then s.bump + Stride(s.classes[i]) else s.bump
  }

  ghost function BinsAfter(src: Source, s: Pool, i: nat): seq<seq<nat>> {
    if src.Reuse? && i < |s.bins| && s.bins[i] != [] then s.bins[i := s.bins[i][1..]] else s.bins
  }

  /** What an allocation changes, field by field. */
  lemma AllocateFields(s: Pool, bytes: nat, id: nat)
    requires |s.bins| == |s.classes|
    ensures
      var (s', a) := PoolSpec.Allocate(s, bytes, id);
      var (i, src) := (PickClass(s.classes, bytes), SourceOf(s, bytes));
      && (s'.classes, s'.arenaBytes) == (s.classes, s.arenaBytes)
      && (s'.bump, s'.bins) == (BumpAfter(src, s, i), BinsAfter(src, s, i))
      && (s'.live, s'.escaped) == (s.live + 1, if src.Escape? then s.escaped + 1 else s.escaped)
      && a == (if src.Escape? then Heap(id) else Arena(SlotFrom(src, s, i)))
  {
  }

  /** All the concrete state against the abstract pool. */
  datatype Memory = Memory(
    words: seq<nat>, bump: nat, heads: seq<nat>, counts: seq<nat>,
    headers: map<Address, Header>, live: nat, escaped: nat)

  ghost predicate Agrees(m: Memory, s: Pool) {
    && PoolSpec.Inv(s) && s.arenaBytes == |m.words| * LINK
    && (m.bump, m.live, m.escaped) == (s.bump, s.live, s.escaped)
    && ListsOk(m.words, m.heads, m.counts, s.bins)
    && HeadersOk(m.headers, s)
  }

  lemma EmptyAgrees(words: seq<nat>, classes: seq<nat>)
    requires ClassesOk(classes)
    ensures
      var zeros := seq(|classes|, _ => 0);
      Agrees(Memory(words, 0, zeros, zeros, map[], 0, 0), PoolPtr.EmptyPool(classes, |words| * LINK))
  {
    PoolPtr.InitInv(classes, |words| * LINK, {});
  }

  lemma AllocateAgrees(m: Memory, m': Memory, s: Pool, bytes: nat, id: nat)
    requires Agrees(m, s) && Heap(id) !in m.headers
    requires
      var (i, src) := (PickClass(s.classes, bytes), SourceOf(s, bytes));
      && m'.words == m.words && (m'.bump, m'.live) == (BumpAfter(src, s, i), s.live + 1)
      && m'.escaped == (if src.Escape? then s.escaped + 1 else s.escaped)
      && ListsOk(m.words, m'.heads, m'.counts, BinsAfter(src, s, i))
      && m'.headers ==
           if src.Escape? then m.headers[Heap(id) := Header(MAGIC, ESCAPED, 1)]
           else m.headers[Arena(SlotFrom(src, s, i)) := Header(MAGIC, i, 1)]
    ensures
      var (s', a) := PoolSpec.Allocate(s, bytes, id);
      && Agrees(m', s') && s'.classes == s.classes && s'.arenaBytes == s.arenaBytes
      && a == if SourceOf(s, bytes).Escape? then Heap(id) else Arena(SlotFrom(SourceOf(s, bytes), s, PickClass(s.classes, bytes)))
  {
    NotInHeap(m.headers, s, id);
    AllocateKeepsInv(s, bytes, id);
    AllocateHeaders(m.headers, s, bytes, id);
    AllocateFields(s, bytes, id);
  }

  /** A count and the header that stores it change together. */
  lemma StatusAgrees(m: Memory, s: Pool, a: Address, st: Status)
    requires Agrees(m, s) && StatusOf(s, a).Live? && !st.Free? && (st.Live? ==> st.refs > 0)
    ensures a in m.headers && m.headers[a] == Header(MAGIC, ClassTag(s, a), StatusOf(s, a).refs)
    ensures
      var n := if st.Live? then st.refs else 0;
      Agrees(m.(headers := m.headers[a := m.headers[a].(refs := n)]), WithStatus(s, a, st))
  {
    assert HeaderOk(m.headers, s, a);
    StatusKeepsInv(s, a, st);
    StatusHeaders(m.headers, s, a, st);
  }

  lemma StatusHeaders(headers: map<Address, Header>, s: Pool, a: Address, st: Status)
    requires HeadersOk(headers, s) && StatusOf(s, a).Live? && !st.Free?
    ensures a in headers
    ensures HeadersOk(headers[a := headers[a].(refs := if st.Live? then st.refs else 0)], WithStatus(s, a, st))
  {
    assert HeaderOk(headers, s, a);
    HeaderChange(headers, s, WithStatus(s, a, st), a, headers[a].(refs := if st.Live? then st.refs else 0));
  }

  /** The header of slot `p` loses the magic number and the slot joins list `i`. */
  ghost function Pushed(m: Memory, i: nat, p: nat): Memory
    requires i < |m.heads| == |m.counts| && Word(p) < |m.words| && Arena(p) in m.headers && m.live > 0
  {
    m.(words := m.words[Word(p) := m.heads[i]], heads := m.heads[i := p], counts := m.counts[i := m.counts[i] + 1],
       headers := m.headers[Arena(p) := m.headers[Arena(p)].(magic := 0)], live := m.live - 1)
  }

  lemma RecycleSlotHeaders(headers: map<Address, Header>, s: Pool, p: nat)
    requires HeadersOk(headers, s) && StatusOf(s, Arena(p)).Releasing?
    requires s.live > 0 && p in s.blocks && s.blocks[p].cls < |s.bins|
    ensures Arena(p) in headers && headers[Arena(p)].cls == s.blocks[p].cls
    ensures HeadersOk(headers[Arena(p) := headers[Arena(p)].(magic := 0)], Recycle(s, Arena(p)))
  {
    assert HeaderOk(headers, s, Arena(p));
    HeaderChange(headers, s, Recycle(s, Arena(p)), Arena(p), headers[Arena(p)].(magic := 0));
  }

  lemma RecycleSlotLists(words: seq<nat>, heads: seq<nat>, counts: seq<nat>, s: Pool, p: nat)
    requires PoolSpec.Inv(s) && s.arenaBytes == |words| * LINK && ListsOk(words, heads, counts, s.bins)
    requires p in s.blocks && s.blocks[p].status.Releasing?
    ensures Word(p) < |words| && s.blocks[p].cls < |heads| == |counts| == |s.bins|
    ensures
      var i := s.blocks[p].cls;
      ListsOk(words[Word(p) := heads[i]], heads[i := p], counts[i := counts[i] + 1], s.bins[i := [p] + s.bins[i]])
  {
    SlotInArena(s, p);
    OffTheLists(s, p, Word(p));
    ListsPush(words, heads, counts, s.bins, s.blocks[p].cls, p);
  }

  lemma RecycleFields(s: Pool, p: nat)
    requires StatusOf(s, Arena(p)).Releasing? && s.live > 0 && p in s.blocks && s.blocks[p].cls < |s.bins|
    ensures
      var s', i := Recycle(s, Arena(p)), s.blocks[p].cls;
      && s'.bins == s.bins[i := [p] + s.bins[i]] && (s'.live, s'.escaped) == (s.live - 1, s.escaped)
      && (s'.classes, s'.arenaBytes, s'.bump) == (s.classes, s.arenaBytes, s.bump)
  {
  }

  /** What recycling slot `p` needs and touches. */
  lemma RecycleSlotBounds(m: Memory, s: Pool, p: nat)
    requires Agrees(m, s) && StatusOf(s, Arena(p)).Releasing?
    ensures p in s.blocks && s.blocks[p].cls < |s.bins| && s.live > 0
    ensures Arena(p) in m.headers && m.headers[Arena(p)].cls == s.blocks[p].cls
    ensures s.blocks[p].cls < |m.heads| == |m.counts| && Word(p) < |m.words| && m.live > 0
  {
    RecycleKeepsInv(s, Arena(p));
    SlotInArena(s, p);
    assert HeaderOk(m.headers, s, Arena(p));
  }

  lemma PushedLists(m: Memory, s: Pool, p: nat)
    requires Agrees(m, s) && StatusOf(s, Arena(p)).Releasing?
    requires p in s.blocks && s.blocks[p].cls < |m.heads| == |m.counts| && s.blocks[p].cls < |s.bins| && s.live > 0
    requires Word(p) < |m.words| && Arena(p) in m.headers && m.live > 0
    ensures
      var m', s' := Pushed(m, s.blocks[p].cls, p), Recycle(s, Arena(p));
      ListsOk(m'.words, m'.heads, m'.counts, s'.bins) && s'.arenaBytes == |m'.words| * LINK
  {
    RecycleSlotLists(m.words, m.heads, m.counts, s, p);
    RecycleFields(s, p);
  }

  /** The last reference to an arena block. */
  lemma RecycleSlotAgrees(m: Memory, s: Pool, p: nat)
    requires Agrees(m, s) && StatusOf(s, Arena(p)).Releasing?
    ensures Arena(p) in m.headers && m.headers[Arena(p)].cls < |m.heads| == |m.counts| && m.live > 0 && Word(p) < |m.words|
    ensures Agrees(Pushed(m, m.headers[Arena(p)].cls, p), Recycled(s, Arena(p)))
  {
    RecycleSlotBounds(m, s, p);
    PushedLists(m, s, p);
    RecycleFields(s, p);
    RecycleKeepsInv(s, Arena(p));
    RecycleSlotHeaders(m.headers, s, p);
  }

  lemma WordAligned(p: nat)
    requires p % ALIGN == 0
    ensures Word(p) * LINK == p
  {
    var k := p / ALIGN;
    assert p == k * ALIGN;
    assert Word(p) == 2 * k;
  }

  lemma SlotInArena(s: Pool, p: nat)
    requires ClassesOk(s.classes) && BlocksOk(s) && p in s.blocks
    ensures p > 0 && Word(p) * LINK == p && p + LINK <= s.arenaBytes
  {
    WordAligned(p);
    LinkFits(s.classes[s.blocks[p].cls]);
    assert End(s, p) <= s.bump;
  }

  /** The last reference to an escaped block: its header goes with it. */
  lemma RecycleHeapAgrees(m: Memory, s: Pool, id: nat)
    requires Agrees(m, s) && StatusOf(s, Heap(id)).Releasing?
    ensures s.live > 0 && s.escaped > 0
    ensures
      var m' := m.(headers := m.headers - {Heap(id)}, live := m.live - 1, escaped := m.escaped - 1);
      Agrees(m', Recycle(s, Heap(id)))
  {
    RecycleKeepsInv(s, Heap(id));
    var headers', s' := m.headers - {Heap(id)}, Recycle(s, Heap(id));
    forall b
      ensures HeaderOk(headers', s', b)
    {
      assert HeaderOk(m.headers, s, b);
    }
  }

  lemma WriteAgrees(m: Memory, s: Pool, p: nat, w: nat, v: nat)
    requires Agrees(m, s) && p in s.blocks && s.blocks[p].status.Live?
    requires p <= w * LINK < p + s.classes[s.blocks[p].cls]
    ensures w < |m.words| && Agrees(m.(words := m.words[w := v]), s)
  {
    OffTheLists(s, p, w);
    LinkFits(s.classes[s.blocks[p].cls]);
    forall i | 0 <= i < |s.bins|
      ensures ListOk(m.words[w := v], m.heads[i], m.counts[i], s.bins[i])
    {
      assert ListOk(m.words, m.heads[i], m.counts[i], s.bins[i]);
      LinkedFrame(m.words, w, v, m.heads[i], s.bins[i]);
    }
  }

  /** The free blocks of the first `n` classes. */
  ghost function FreeBelow(s: Pool, n: nat): set<nat> {
    set p | p in s.blocks && s.blocks[p].status.Free? && s.blocks[p].cls < n
  }

  ghost function Elements(l: seq<nat>): set<nat> {
    set p | p in l
  }

  lemma {:induction false} DistinctSize(l: seq<nat>)
    requires NoDup(l)
    ensures |Elements(l)| == |l|
  {
    if l == [] {
      assert Elements(l) == {};
    } else {
      DistinctSize(l[1..]);
      assert Elements(l) == {l[0]} + Elements(l[1..]);
      assert l[0] !in Elements(l[1..]);
    }
  }

  lemma FreeBelowGrows(s: Pool, i: nat)
    requires BinsOk(s) && i < |s.bins|
    ensures |FreeBelow(s, i + 1)| == |FreeBelow(s, i)| + |s.bins[i]|
  {
    var bin := Elements(s.bins[i]);
    assert BinOk(s, i);
    DistinctSize(s.bins[i]);
    assert forall p :: p in bin <==> p in s.bins[i];
    assert forall p :: p in bin <==> FreeClass(s.blocks, p) == Some(i);
    assert FreeBelow(s, i + 1) == FreeBelow(s, i) + bin;
    assert FreeBelow(s, i) !! bin;
  }

  /** Carved blocks are free or in use, and not both. */
  lemma FreeAndInUse(s: Pool)
    requires BlocksOk(s) && |s.bins| == |s.classes|
    ensures |FreeBelow(s, |s.bins|)| + CountIf(s.blocks, InUse) == |s.blocks|
  {
    assert s.blocks.Keys == FreeBelow(s, |s.bins|) + Matching(s.blocks, InUse);
    assert FreeBelow(s, |s.bins|) !! Matching(s.blocks, InUse);
  }

  class MemoryPool {
    const classes: seq<nat>
    const arenaBytes: nat
    const arena: array<nat>
    var bump: nat
    var heads: seq<nat>
    var counts: seq<nat>
    var headers: map<Address, Header>
    var live: nat
    var escaped: nat
    ghost var view: Pool

    ghost function Concrete(): Memory
      reads this, arena
    {
      Memory(arena[..], bump, heads, counts, headers, live, escaped)
    }

    ghost predicate Valid()
      reads this, arena
    {
      view.classes == classes && view.arenaBytes == arenaBytes && Agrees(Concrete(), view)
    }

    constructor (bytes: nat, requested: seq<nat>)
      ensures Valid() && fresh(arena)
      ensures view == PoolPtr.EmptyPool(Normalized(requested), ArenaBytes(Normalized(requested), bytes))
    {
      var cs := Normalized(requested);
      var size := ArenaBytes(cs, bytes);
      classes, arenaBytes := cs, size;
      arena := new nat[size / LINK](_ => 0);
      bump, live, escaped := 0, 0, 0;
      heads, counts := seq(|cs|, _ => 0), seq(|cs|, _ => 0);
      headers := map[];
      view := PoolPtr.EmptyPool(cs, size);
      new;
      ArenaFits(cs, bytes, 0);
      WordAligned(size);
      EmptyAgrees(arena[..], cs);
    }

    /** The smallest class that fits, found by a scan. */
    method FindClass(bytes: nat) returns (i: nat)
      ensures i == PickClass(classes, bytes)
    {
      i := 0;
      while i < |classes| && classes[i] < bytes
        invariant i <= |classes|
        invariant forall j :: 0 <= j < i ==> classes[j] < bytes
      {
        i := i + 1;
      }
    }

    /** Take the head off a free list; 0 when it is empty. */
    method PopFree(i: nat) returns (slot: nat)
      requires Valid() && i < |classes|
      modifies this`heads, this`counts
      ensures slot == if view.bins[i] == [] then 0 else view.bins[i][0]
      ensures ListsOk(arena[..], heads, counts, if slot == 0 then view.bins else view.bins[i := view.bins[i][1..]])
    {
      assert ListOk(arena[..], heads[i], counts[i], view.bins[i]);
      if heads[i] == 0 {
        return 0;
      }
      slot := heads[i];
      heads := heads[i := arena[slot / LINK]];
      counts := counts[i := counts[i] - 1];
    }

    /** Write the link into the slot and make it the head of its list. */
    method PushFree(i: nat, slot: nat)
      requires i < |heads| == |counts| && Word(slot) < arena.Length
      modifies this`heads, this`counts, arena
      ensures arena[..] == old(arena[..])[Word(slot) := old(heads[i])]
      ensures heads == old(heads)[i := slot] && counts == old(counts)[i := old(counts[i]) + 1]
    {
      arena[slot / LINK] := heads[i];
      heads := heads[i := slot];
      counts := counts[i := counts[i] + 1];
    }

    /** Cut the next block of class `i` off the arena; 0 when it does not fit. */
    method CarveFromArena(i: nat) returns (slot: nat)
      requires i < |classes|
      modifies this`bump
      ensures
        var need := Stride(classes[i]);
        if old(bump) + need <= arenaBytes then slot == old(bump) + HEADER && bump == old(bump) + need
        else slot == 0 && bump == old(bump)
    {
      var need := Stride(classes[i]);
      if bump + need > arenaBytes {
        return 0;
      }
      slot := bump + HEADER;
      bump := bump + need;
    }

    /** A slot of the arena for `bytes` bytes, recycled if possible; 0 when there is none. */
    method TakeSlot(bytes: nat) returns (i: nat, slot: nat)
      requires Valid()
      modifies this`heads, this`counts, this`bump
      ensures i == PickClass(classes, bytes)
      ensures
        var src := SourceOf(view, bytes);
        && slot == SlotFrom(src, view, i) && (slot == 0 <==> src.Escape?)
        && bump == BumpAfter(src, view, i) && ListsOk(arena[..], heads, counts, BinsAfter(src, view, i))
    {
      i := FindClass(bytes);
      slot := 0;
      if i < |classes| {
        NoSlotAtZero(view, i);
        slot := PopFree(i);
        if slot == 0 {
          slot := CarveFromArena(i);
        }
      }
    }

    /** Hand out a block with one reference; `id` is the address the global allocator would return. */
    method Allocate(bytes: nat, id: nat) returns (a: Address)
      requires Valid() && Heap(id) !in headers
      modifies this
      ensures Valid()
      ensures (view, a) == PoolSpec.Allocate(old(view), bytes, id)
    {
      ghost var (next, at) := PoolSpec.Allocate(view, bytes, id);
      ghost var before := Concrete();
      var i, slot := TakeSlot(bytes);
      live := live + 1;
      if slot == 0 {
        a := Heap(id);
        headers := headers[a := Header(MAGIC, ESCAPED, 1)];
        escaped := escaped + 1;
      } else {
        a := Arena(slot);
        headers := headers[a := Header(MAGIC, i, 1)];
      }
      AllocateAgrees(before, Concrete(), view, bytes, id);
      view := next;
    }

    /** Take one more reference; refused when the header carries no magic number. */
    method Retain(o: Option<Address>) returns (ok: bool)
      requires Valid()
      requires o.Some? ==> o.value in headers && !StatusOf(view, o.value).Releasing?
      modifies this
      ensures Valid()
      ensures ok <==> o.None? || StatusOf(old(view), o.value).Live?
      ensures view == if o.Some? && ok then PoolSpec.Retain(old(view), o.value) else old(view)
    {
      if o.None? {
        return true;
      }
      var a := o.value;
      assert HeaderOk(headers, view, a);
      if headers[a].magic != MAGIC {
        return false;
      }
      ghost var st := Live(StatusOf(view, a).refs + 1);
      StatusAgrees(Concrete(), view, a, st);
      headers := headers[a := headers[a].(refs := headers[a].refs + 1)];
      view := WithStatus(view, a, st);
      return true;
    }

    /** Drop a reference; the last one recycles the block. Refused when the header carries no magic number. */
    method Release(o: Option<Address>) returns (ok: bool)
      requires Valid()
      requires o.Some? ==> o.value in headers && !StatusOf(view, o.value).Releasing?
      requires o.Some? && o.value.Arena? && o.value.slot in view.blocks ==> view.blocks[o.value.slot].cls != ESCAPED
      modifies this, arena
      ensures Valid()
      ensures ok <==> o.None? || StatusOf(old(view), o.value).Live?
      ensures view == if o.Some? && ok then Released(old(view), o.value) else old(view)
    {
      if o.None? {
        return true;
      }
      var a := o.value;
      assert HeaderOk(headers, view, a);
      if headers[a].magic != MAGIC {
        return false;
      }
      var n := headers[a].refs;
      ghost var st := if n == 1 then Releasing else Live(n - 1);
      StatusAgrees(Concrete(), view, a, st);
      headers := headers[a := headers[a].(refs := n - 1)];
      view := Decrement(view, a);
      if n == 1 {
        assert HeaderOk(headers, view, a);
        if headers[a].cls == ESCAPED {
          DeleteEscaped(a.id);
        } else {
          RecycleToBin(a.slot);
        }
      }
      return true;
    }

    /** Poison the header and thread the slot onto the free list of its class. */
    method RecycleToBin(p: nat)
      requires Valid() && StatusOf(view, Arena(p)).Releasing?
      modifies this, arena
      ensures Valid() && PoolSpec.Inv(old(view)) && view == Recycled(old(view), Arena(p))
    {
      ghost var next, before := Recycled(view, Arena(p)), Concrete();
      RecycleSlotAgrees(before, view, p);
      var i := headers[Arena(p)].cls;
      headers := headers[Arena(p) := headers[Arena(p)].(magic := 0)];
      PushFree(i, p);
      live := live - 1;
      view := next;
      assert Concrete() == Pushed(before, i, p);
    }

    /** Give an escaped block back to the global allocator. */
    method DeleteEscaped(id: nat)
      requires Valid() && StatusOf(view, Heap(id)).Releasing?
      modifies this
      ensures Valid() && PoolSpec.Inv(old(view)) && view == Recycled(old(view), Heap(id))
    {
      ghost var next := Recycled(view, Heap(id));
      RecycleHeapAgrees(Concrete(), view, id);
      live, escaped := live - 1, escaped - 1;
      headers := headers - {Heap(id)};
      view := next;
    }

    /** The holder of a block writes a word of its usable region: nothing the pool keeps is touched. */
    method UserWrite(p: nat, w: nat, v: nat)
      requires Valid() && p in view.blocks && view.blocks[p].status.Live?
      requires p <= w * LINK < p + classes[view.blocks[p].cls]
      modifies arena
      ensures Valid() && arena[..] == old(arena[..])[w := v]
    {
      WriteAgrees(Concrete(), view, p, w, v);
      arena[w] := v;
      assert arena[..] == old(arena[..])[w := v];
    }

    /** Following the links of a bin visits exactly the free blocks of its class, each once, `free_count` of them. */
    lemma FreeListInOrder(i: nat, p: nat)
      requires Valid() && i < |classes|
      ensures |heads| == |counts| == |view.bins| == |classes|
      ensures Linked(arena[..], heads[i], view.bins[i]) && |view.bins[i]| == counts[i] && NoDup(view.bins[i])
      ensures p in view.bins[i] <==> p in view.blocks && view.blocks[p] == Block(i, Free)
    {
      assert ListOk(arena[..], heads[i], counts[i], view.bins[i]);
      assert BinOk(view, i);
      assert p in view.bins[i] <==> FreeClass(view.blocks, p) == Some(i);
    }

    /** The recycled statistic is the number of free blocks, so it and the blocks in use make up all blocks carved. */
    method RecycledCount() returns (n: nat)
      requires Valid()
      ensures n + CountIf(view.blocks, InUse) == |view.blocks|
    {
      n := 0;
      for i := 0 to |counts|
        invariant n == |FreeBelow(view, i)|
      {
        FreeBelowGrows(view, i);
        assert ListOk(arena[..], heads[i], counts[i], view.bins[i]);
        n := n + counts[i];
      }
      FreeAndInUse(view);
    }
  }
}
