/**
 The memory pool on plain values: blocks carved from a bump arena, one free list
 per size class, reference counts, and escaped blocks from the global allocator.
 */
module PoolSpec {
  import opened Counting

  const ALIGN: nat := 16    // alignof(std::max_align_t)
  const HEADER: nat := 32   // sizeof(BlockHeader), a multiple of ALIGN
  const LINK: nat := 8      // sizeof(void*), the free-list link at the start of a free slot

  function RoundUp(n: nat): (r: nat)
    ensures n <= r < n + ALIGN && r % ALIGN == 0
  {
    (n + ALIGN - 1) / ALIGN * ALIGN
  }

  /** Bytes a block of usable size `c` takes in the arena. */
  function Stride(c: nat): nat
  {
    RoundUp(HEADER + c)
  }

  /** The link written into a free slot stays inside its block, even for one-byte slots. */
  lemma LinkFits(c: nat)
    requires c > 0
    ensures HEADER + LINK <= Stride(c) && HEADER + c <= Stride(c)
  {
  }

  /** Live blocks have at least one reference; a releasing block is on its way to its free list. */
  datatype Status = Live(refs: nat) | Releasing | Free

  datatype Block = Block(cls: nat, status: Status)

  /** Arena blocks are named by the offset of their usable region, escaped blocks by an identity. */
  datatype Address = Arena(slot: nat) | Heap(id: nat)

  datatype Pool = Pool(
    classes: seq<nat>, arenaBytes: nat, bump: nat,
    blocks: map<nat, Block>, bins: seq<seq<nat>>,
    heap: map<nat, Status>, live: nat, escaped: nat)

  ghost predicate ClassesOk(classes: seq<nat>) {
    && classes != []
    && (forall i :: 0 <= i < |classes| ==> classes[i] > 0)
    && (forall i, j :: 0 <= i < j < |classes| ==> classes[i] < classes[j])
  }

  // ---- Operations ----------------------------------------------------------

  /** The smallest class that fits, or `|classes|`. */
  function PickClass(classes: seq<nat>, bytes: nat): (i: nat)
    ensures i <= |classes|
    ensures forall j :: 0 <= j < i ==> classes[j] < bytes
    ensures i < |classes| ==> classes[i] >= bytes
  {
    if classes == [] || classes[0] >= bytes then 0
    else
      var i := PickClass(classes[1..], bytes);
      assert forall j :: 0 < j < i + 1 ==> classes[j] == classes[1..][j - 1];
      i + 1
  }

  /** Where the next block of a class comes from. */
  datatype Source = Reuse(cls: nat) | Carve(cls: nat) | Escape

  function SourceOf(s: Pool, bytes: nat): Source
    requires |s.bins| == |s.classes|
  {
    var i := PickClass(s.classes, bytes);
    if i == |s.classes| then Escape
    else if s.bins[i] != [] then Reuse(i)
    else if s.bump + Stride(s.classes[i]) <= s.arenaBytes then Carve(i)
    else Escape
  }

  /** The head of a free list, taken off it. */
  function Reused(s: Pool, i: nat): Pool
    requires i < |s.bins| && s.bins[i] != []
  {
    s.(bins := s.bins[i := s.bins[i][1..]], blocks := s.blocks[s.bins[i][0] := Block(i, Live(1))], live := s.live + 1)
  }

  /** A new block at the bump pointer. */
  function Carved(s: Pool, i: nat): Pool
    requires i < |s.classes|
  {
    s.(bump := s.bump + Stride(s.classes[i]), blocks := s.blocks[s.bump + HEADER := Block(i, Live(1))], live := s.live + 1)
  }

  /** A block from the global allocator. */
  function Escaped(s: Pool, id: nat): Pool
  {
    s.(heap := s.heap[id := Live(1)], live := s.live + 1, escaped := s.escaped + 1)
  }

  /** Hand out a block with one reference; `id` names the block if the global allocator has to provide it. */
  function Allocate(s: Pool, bytes: nat, id: nat): (Pool, Address)
    requires |s.bins| == |s.classes|
  {
    match SourceOf(s, bytes)
    case Reuse(i) => (Reused(s, i), Arena(s.bins[i][0]))
    case Carve(i) => (Carved(s, i), Arena(s.bump + HEADER))
    case Escape => (Escaped(s, id), Heap(id))
  }

  function StatusOf(s: Pool, a: Address): Status
  {
    match a
    case Arena(p) => if p in s.blocks then s.blocks[p].status else Free
    case Heap(id) => if id in s.heap then s.heap[id] else Free
  }

  function WithStatus(s: Pool, a: Address, st: Status): Pool
  {
    match a
    case Arena(p) => if p in s.blocks then s.(blocks := s.blocks[p := s.blocks[p].(status := st)]) else s
    case Heap(id) => s.(heap := s.heap[id := st])
  }

  function Retain(s: Pool, a: Address): Pool
    requires StatusOf(s, a).Live?
  {
    WithStatus(s, a, Live(StatusOf(s, a).refs + 1))
  }

  /** The atomic decrement: the last reference leaves the block releasing. */
  function Decrement(s: Pool, a: Address): Pool
    requires StatusOf(s, a).Live? && StatusOf(s, a).refs > 0
  {
    var n := StatusOf(s, a).refs;
    WithStatus(s, a, if n == 1 then Releasing else Live(n - 1))
  }

  /** What the thread that dropped the last reference does next: back to the free list, or to the global allocator. */
  function Recycle(s: Pool, a: Address): Pool
    requires StatusOf(s, a).Releasing? && s.live > 0
    requires a.Arena? ==> a.slot in s.blocks && s.blocks[a.slot].cls < |s.bins|
    requires a.Heap? ==> s.escaped > 0
  {
    match a
    case Arena(p) =>
      var i := s.blocks[p].cls;
      WithStatus(s, a, Free).(bins := s.bins[i := [p] + s.bins[i]], live := s.live - 1)
    case Heap(id) =>
      s.(heap := s.heap - {id}, live := s.live - 1, escaped := s.escaped - 1)
  }

  /** `i` is the smallest class that fits, or `|classes|` when none does. */
  ghost predicate Smallest(classes: seq<nat>, bytes: nat, i: nat) {
    && i <= |classes| && (i < |classes| ==> classes[i] >= bytes)
    && forall j :: 0 <= j < i ==> classes[j] < bytes
  }

  /**
   Where a block comes from: the head of the free list of the smallest class that fits if there is
   one, else the bump pointer if the arena has room, else the global allocator.
   */
  lemma AllocatePrefers(s: Pool, bytes: nat, id: nat, i: nat)
    requires |s.bins| == |s.classes| && Smallest(s.classes, bytes, i)
    ensures
      var (s', a) := Allocate(s, bytes, id);
      && s'.live == s.live + 1 && s'.classes == s.classes && s'.arenaBytes == s.arenaBytes && |s'.bins| == |s.bins|
      && (forall j :: 0 <= j < |s.bins| && j != i ==> s'.bins[j] == s.bins[j])
      && if i < |s.classes| && s.bins[i] != [] then
           && a == Arena(s.bins[i][0]) && s'.bins[i] == s.bins[i][1..]
           && s'.bump == s.bump && s'.escaped == s.escaped && s'.heap == s.heap
         else if i < |s.classes| && s.bump + Stride(s.classes[i]) <= s.arenaBytes then
           && a == Arena(s.bump + HEADER) && s'.bins == s.bins
           && s'.bump == s.bump + Stride(s.classes[i]) && s'.escaped == s.escaped && s'.heap == s.heap
         else
           && a == Heap(id) && s'.bins == s.bins && s'.bump == s.bump && s'.escaped == s.escaped + 1
           && s'.blocks == s.blocks
  {
    assert PickClass(s.classes, bytes) == i;
  }

  /** The block recycled last is the next one handed out for its class, without carving or escaping. */
  lemma RecycledIsReusedFirst(s: Pool, p: nat, bytes: nat, id: nat)
    requires |s.bins| == |s.classes| && p in s.blocks && s.blocks[p].status.Releasing? && s.live > 0
    requires s.blocks[p].cls < |s.bins| && Smallest(s.classes, bytes, s.blocks[p].cls)
    ensures
      var freed := Recycle(s, Arena(p));
      var (s', a) := Allocate(freed, bytes, id);
      && freed.live == s.live - 1 && StatusOf(freed, Arena(p)).Free?
      && a == Arena(p) && StatusOf(s', a) == Live(1) && s'.bins == s.bins && s'.bump == s.bump && s'.escaped == s.escaped
  {
    var i := s.blocks[p].cls;
    var freed := Recycle(s, Arena(p));
    AllocatePrefers(freed, bytes, id, i);
    assert freed.bins[i][1..] == s.bins[i];
    assert Allocate(freed, bytes, id).0.bins == s.bins;
  }

  // ---- The invariant -------------------------------------------------------

  /** First and one-past-last arena offset of the block with usable region at `p`. */
  ghost function Start(p: nat): int { p - HEADER }

  ghost function End(s: Pool, p: nat): int
    requires p in s.blocks && s.blocks[p].cls < |s.classes|
  {
    p - HEADER + Stride(s.classes[s.blocks[p].cls])
  }

  /** Blocks have a class, are aligned and lie in the carved part of the arena. */
  ghost predicate BlocksOk(s: Pool) {
    && s.bump <= s.arenaBytes && s.bump % ALIGN == 0
    && forall p :: p in s.blocks ==>
         s.blocks[p].cls < |s.classes| && HEADER <= p && p % ALIGN == 0 && End(s, p) <= s.bump
  }

  ghost predicate Disjoint(s: Pool)
    requires BlocksOk(s)
  {
    forall p, q :: p in s.blocks && q in s.blocks && p < q ==> End(s, p) <= Start(q)
  }

  ghost predicate Holds(s: Pool, p: nat, x: nat)
    requires BlocksOk(s)
  {
    p in s.blocks && Start(p) <= x < End(s, p)
  }

  ghost predicate InSomeBlock(s: Pool, x: nat)
    requires BlocksOk(s)
  {
    exists p :: Holds(s, p, x)
  }

  /** Carved blocks are aligned, in bounds, pairwise disjoint, and every carved byte belongs to one. */
  ghost predicate Tiled(s: Pool) {
    && BlocksOk(s) && Disjoint(s)
    && forall x :: 0 <= x < s.bump ==> InSomeBlock(s, x)
  }

  /** The class of a free block. */
  ghost function FreeClass(blocks: map<nat, Block>, p: nat): Option<nat> {
    if p in blocks && blocks[p].status.Free? then Some(blocks[p].cls) else None
  }

  /** The free list of class `i` holds exactly the free blocks of that class, each once. */
  ghost predicate BinOk(s: Pool, i: nat)
    requires i < |s.bins|
  {
    && NoDup(s.bins[i])
    && forall p :: p in s.bins[i] <==> FreeClass(s.blocks, p) == Some(i)
  }

  ghost predicate BinsOk(s: Pool) {
    |s.bins| == |s.classes| && forall i :: 0 <= i < |s.bins| ==> BinOk(s, i)
  }

  ghost predicate InUse(b: Block) { !b.status.Free? }

  ghost predicate Any(st: Status) { true }

  /** The statistics count the blocks handed out and not yet recycled. */
  ghost predicate StatsOk(s: Pool) {
    s.escaped == CountIf(s.heap, Any) && s.live == CountIf(s.blocks, InUse) + s.escaped
  }

  ghost predicate RefsPositive(s: Pool) {
    && (forall p :: p in s.blocks && s.blocks[p].status.Live? ==> s.blocks[p].status.refs > 0)
    && (forall id :: id in s.heap ==> !s.heap[id].Free? && (s.heap[id].Live? ==> s.heap[id].refs > 0))
  }

  /** Free lists, statistics and reference counts, apart from where the blocks lie. */
  ghost predicate BooksOk(s: Pool) {
    BinsOk(s) && StatsOk(s) && RefsPositive(s)
  }

  ghost predicate Inv(s: Pool) {
    ClassesOk(s.classes) && Tiled(s) && BooksOk(s)
  }

  // ---- Layout --------------------------------------------------------------

  /** Changing statuses leaves the layout alone. */
  ghost predicate SameLayout(s: Pool, s': Pool) {
    && s'.classes == s.classes && s'.arenaBytes == s.arenaBytes && s'.bump == s.bump
    && s'.blocks.Keys == s.blocks.Keys
    && forall p :: p in s.blocks ==> s'.blocks[p].cls == s.blocks[p].cls
  }

  lemma LayoutKept(s: Pool, s': Pool)
    requires Tiled(s) && SameLayout(s, s')
    ensures Tiled(s')
  {
    forall x | 0 <= x < s'.bump
      ensures InSomeBlock(s', x)
    {
      assert InSomeBlock(s, x);
      var p :| Holds(s, p, x);
      assert Holds(s', p, x);
    }
  }

  lemma AlignedSum(a: nat, b: nat)
    requires a % ALIGN == 0 && b % ALIGN == 0
    ensures (a + b) % ALIGN == 0
  {
  }

  /** Carving extends the layout by one block at the end. */
  lemma CarvedLayout(s: Pool, i: nat)
    requires Tiled(s) && i < |s.classes| && s.bump + Stride(s.classes[i]) <= s.arenaBytes
    ensures s.bump + HEADER !in s.blocks && Tiled(Carved(s, i))
  {
    var q, s' := s.bump + HEADER, Carved(s, i);
    AlignedSum(s.bump, HEADER);
    AlignedSum(s.bump, Stride(s.classes[i]));
    assert q !in s.blocks;
    assert forall p :: p in s.blocks ==> End(s', p) == End(s, p);
    assert BlocksOk(s');
    forall x | 0 <= x < s'.bump
      ensures InSomeBlock(s', x)
    {
      if x < s.bump {
        assert InSomeBlock(s, x);
        var p :| Holds(s, p, x);
        assert Holds(s', p, x);
      } else {
        assert Holds(s', q, x);
      }
    }
  }

  // ---- Free lists ----------------------------------------------------------

  /** Blocks that were not free and are not free now change no free list. */
  lemma BinsKept(s: Pool, s': Pool)
    requires BinsOk(s) && s'.bins == s.bins && s'.classes == s.classes
    requires forall p :: FreeClass(s'.blocks, p) == FreeClass(s.blocks, p)
    ensures BinsOk(s')
  {
    forall j | 0 <= j < |s'.bins|
      ensures BinOk(s', j)
    {
      assert BinOk(s, j);
    }
  }

  lemma ReusedBins(s: Pool, i: nat)
    requires BinsOk(s) && i < |s.bins| && s.bins[i] != []
    ensures s.bins[i][0] in s.blocks && s.blocks[s.bins[i][0]] == Block(i, Free) && BinsOk(Reused(s, i))
  {
    var p, s' := s.bins[i][0], Reused(s, i);
    assert BinOk(s, i) && p in s.bins[i];
    assert forall q :: FreeClass(s'.blocks, q) == if q == p then None else FreeClass(s.blocks, q);
    forall j | 0 <= j < |s'.bins|
      ensures BinOk(s', j)
    {
      assert BinOk(s, j);
    }
  }

  lemma RecycledBins(s: Pool, p: nat)
    requires BinsOk(s) && p in s.blocks && s.blocks[p].status.Releasing? && s.blocks[p].cls < |s.bins| && s.live > 0
    ensures BinsOk(Recycle(s, Arena(p)))
  {
    var i, s' := s.blocks[p].cls, Recycle(s, Arena(p));
    assert forall q :: FreeClass(s'.blocks, q) == if q == p then Some(i) else FreeClass(s.blocks, q);
    forall j | 0 <= j < |s'.bins|
      ensures BinOk(s', j)
    {
      assert BinOk(s, j);
      if j == i {
        assert s'.bins[i] == [p] + s.bins[i] && s'.bins[i][1..] == s.bins[i];
        assert p !in s.bins[i];
      }
    }
  }

  // ---- Statistics ----------------------------------------------------------

  lemma CountInsert<X>(m: map<nat, X>, t: nat, x: X, f: X -> bool)
    requires t !in m
    ensures CountIf(m[t := x], f) == CountIf(m, f) + (if f(x) then 1 else 0)
  {
    assert Matching(m[t := x], f) == if f(x) then Matching(m, f) + {t} else Matching(m, f);
  }

  lemma CountRemove<X>(m: map<nat, X>, t: nat, f: X -> bool)
    requires t in m
    ensures CountIf(m, f) == CountIf(m - {t}, f) + (if f(m[t]) then 1 else 0)
  {
    assert Matching(m, f) == if f(m[t]) then Matching(m - {t}, f) + {t} else Matching(m - {t}, f);
  }

  // ---- Each operation keeps the invariant ----------------------------------

  lemma ReusedBooks(s: Pool, i: nat)
    requires BooksOk(s) && i < |s.bins| && s.bins[i] != []
    ensures BooksOk(Reused(s, i)) && SameLayout(s, Reused(s, i))
  {
    ReusedBins(s, i);
    CountUpdate(s.blocks, s.bins[i][0], Block(i, Live(1)), InUse);
  }

  lemma CarvedBooks(s: Pool, i: nat)
    requires BooksOk(s) && i < |s.classes| && s.bump + HEADER !in s.blocks
    ensures BooksOk(Carved(s, i))
  {
    CountInsert(s.blocks, s.bump + HEADER, Block(i, Live(1)), InUse);
    BinsKept(s, Carved(s, i));
  }

  lemma EscapedBooks(s: Pool, id: nat)
    requires BooksOk(s) && id !in s.heap
    ensures BooksOk(Escaped(s, id)) && SameLayout(s, Escaped(s, id))
  {
    CountInsert(s.heap, id, Live(1), Any);
    BinsKept(s, Escaped(s, id));
  }

  lemma ReusedKeepsInv(s: Pool, i: nat)
    requires Inv(s) && i < |s.bins| && s.bins[i] != []
    ensures Inv(Reused(s, i)) && StatusOf(s, Arena(s.bins[i][0])).Free?
  {
    ReusedBins(s, i);
    ReusedBooks(s, i);
    LayoutKept(s, Reused(s, i));
  }

  lemma CarvedKeepsInv(s: Pool, i: nat)
    requires Inv(s) && i < |s.classes| && s.bump + Stride(s.classes[i]) <= s.arenaBytes
    ensures Inv(Carved(s, i)) && StatusOf(s, Arena(s.bump + HEADER)).Free?
  {
    CarvedLayout(s, i);
    CarvedBooks(s, i);
  }

  lemma EscapedKeepsInv(s: Pool, id: nat)
    requires Inv(s) && id !in s.heap
    ensures Inv(Escaped(s, id)) && StatusOf(s, Heap(id)).Free?
  {
    EscapedBooks(s, id);
    LayoutKept(s, Escaped(s, id));
  }

  /** Allocation keeps the invariant, and the block handed out was not in use. */
  lemma AllocateKeepsInv(s: Pool, bytes: nat, id: nat)
    requires Inv(s) && id !in s.heap
    ensures Inv(Allocate(s, bytes, id).0) && StatusOf(s, Allocate(s, bytes, id).1).Free?
  {
    var src, result := SourceOf(s, bytes), Allocate(s, bytes, id);
    if src.Reuse? {
      ReusedKeepsInv(s, src.cls);
      assert result == (Reused(s, src.cls), Arena(s.bins[src.cls][0]));
    } else if src.Carve? {
      CarvedKeepsInv(s, src.cls);
      assert result == (Carved(s, src.cls), Arena(s.bump + HEADER));
    } else {
      EscapedKeepsInv(s, id);
      assert result == (Escaped(s, id), Heap(id));
    }
  }

  lemma StatusBooks(s: Pool, a: Address, st: Status)
    requires BooksOk(s) && !StatusOf(s, a).Free? && !st.Free? && (st.Live? ==> st.refs > 0)
    ensures BooksOk(WithStatus(s, a, st)) && SameLayout(s, WithStatus(s, a, st))
  {
    BinsKept(s, WithStatus(s, a, st));
    if a.Arena? {
      CountUpdate(s.blocks, a.slot, s.blocks[a.slot].(status := st), InUse);
    } else {
      CountUpdate(s.heap, a.id, st, Any);
    }
  }

  /** Moving a block between live counts, or from live to releasing. */
  lemma StatusKeepsInv(s: Pool, a: Address, st: Status)
    requires Inv(s) && !StatusOf(s, a).Free? && !st.Free? && (st.Live? ==> st.refs > 0)
    ensures Inv(WithStatus(s, a, st)) && StatusOf(WithStatus(s, a, st), a) == st
  {
    StatusBooks(s, a, st);
    LayoutKept(s, WithStatus(s, a, st));
  }

  lemma RecycleArenaBooks(s: Pool, p: nat)
    requires BooksOk(s) && p in s.blocks && s.blocks[p].status.Releasing? && s.blocks[p].cls < |s.bins|
    ensures s.live > 0 && BooksOk(Recycle(s, Arena(p))) && SameLayout(s, Recycle(s, Arena(p)))
  {
    CountUpdate(s.blocks, p, Block(s.blocks[p].cls, Free), InUse);
    RecycledBins(s, p);
  }

  lemma RecycleHeapBooks(s: Pool, id: nat)
    requires BooksOk(s) && id in s.heap && s.heap[id].Releasing?
    ensures s.live > 0 && s.escaped > 0 && BooksOk(Recycle(s, Heap(id))) && SameLayout(s, Recycle(s, Heap(id)))
  {
    CountRemove(s.heap, id, Any);
    BinsKept(s, Recycle(s, Heap(id)));
  }

  /** Recycling keeps the invariant: the block is free again, on the list of the class it was carved for. */
  lemma RecycleKeepsInv(s: Pool, a: Address)
    requires Inv(s) && StatusOf(s, a).Releasing?
    ensures s.live > 0 && (a.Heap? ==> s.escaped > 0)
    ensures Inv(Recycle(s, a)) && StatusOf(Recycle(s, a), a).Free?
  {
    if a.Arena? {
      RecycleArenaBooks(s, a.slot);
    } else {
      RecycleHeapBooks(s, a.id);
    }
    LayoutKept(s, Recycle(s, a));
  }
}
