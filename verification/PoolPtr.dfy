/**
 Handles to pool blocks (`PoolPtr`): runs of create, copy, move, assignment and
 reset over any number of handles, with the recycling of a block that lost its
 last handle as a later step of its own.
 */
module PoolPtr {
  import opened Counting
  import opened PoolSpec

  /** The pool, what each handle names, and how often each slot was handed out and recycled. */
  datatype State = State(
    pool: Pool, handles: map<nat, Option<Address>>,
    handedOut: map<nat, nat>, recycled: map<nat, nat>)

  datatype Op =
    | Create(h: nat, bytes: nat, id: nat)
    | CopyConstruct(h: nat, from: nat)
    | MoveConstruct(h: nat, from: nat)
    | CopyAssign(h: nat, from: nat)
    | MoveAssign(h: nat, from: nat)
    | Reset(h: nat)
    | Finish(a: Address)   // the thread that dropped the last reference recycles the block

  ghost function Naming(a: Address): Option<Address> -> bool {
    o => o == Some(a)
  }

  function Tally(m: map<nat, nat>, p: nat): nat { if p in m then m[p] else 0 }

  ghost predicate Null(s: State, h: nat) {
    h in s.handles && s.handles[h].None?
  }

  // ---- What the operations are made of -------------------------------------

  /** reset(): release what the handle names. */
  ghost function Detach(s: State, h: nat): State
    requires h in s.handles
    requires s.handles[h].Some? ==> StatusOf(s.pool, s.handles[h].value).Live? && StatusOf(s.pool, s.handles[h].value).refs > 0
  {
    if s.handles[h].None? then s
    else s.(pool := Decrement(s.pool, s.handles[h].value), handles := s.handles[h := None])
  }

  /** Name a live block with a null handle and retain it. */
  ghost function Attach(s: State, h: nat, a: Address): State
    requires Null(s, h) && StatusOf(s.pool, a).Live?
  {
    s.(pool := Retain(s.pool, a), handles := s.handles[h := Some(a)])
  }

  /** Name a newly allocated block, which already carries one reference. */
  ghost function AttachNew(s: State, h: nat, bytes: nat, id: nat): State
    requires Null(s, h) && |s.pool.bins| == |s.pool.classes|
  {
    var (pool, a) := Allocate(s.pool, bytes, id);
    s.(pool := pool, handles := s.handles[h := Some(a)],
       handedOut := if a.Arena? then s.handedOut[a.slot := Tally(s.handedOut, a.slot) + 1] else s.handedOut)
  }

  /** Take over what another handle names, leaving it null. */
  ghost function Transfer(s: State, h: nat, from: nat): State
    requires Null(s, h) && from in s.handles && h != from
  {
    s.(handles := s.handles[h := s.handles[from]][from := None])
  }

  ghost function Finished(s: State, a: Address): State
    requires StatusOf(s.pool, a).Releasing? && s.pool.live > 0
    requires a.Arena? ==> a.slot in s.pool.blocks && s.pool.blocks[a.slot].cls < |s.pool.bins|
    requires a.Heap? ==> s.pool.escaped > 0
  {
    s.(pool := Recycle(s.pool, a),
       recycled := if a.Arena? then s.recycled[a.slot := Tally(s.recycled, a.slot) + 1] else s.recycled)
  }

  // ---- The invariant -------------------------------------------------------

  /** A block is live exactly when handles name it, and its count is the number of those handles. */
  ghost predicate RefsMatch(s: State, a: Address) {
    var n := CountIf(s.handles, Naming(a));
    if n > 0 then StatusOf(s.pool, a) == Live(n) else !StatusOf(s.pool, a).Live?
  }

  /** Every hand-out of a slot is followed by exactly one recycling before the next. */
  ghost predicate TallyOk(s: State, p: nat) {
    Tally(s.handedOut, p) == Tally(s.recycled, p) + (if StatusOf(s.pool, Arena(p)).Free? then 0 else 1)
  }

  ghost predicate HandlesOk(s: State) {
    (forall a :: RefsMatch(s, a)) && (forall p :: TallyOk(s, p))
  }

  ghost predicate Inv(s: State) {
    PoolSpec.Inv(s.pool) && HandlesOk(s)
  }

  lemma NamedIsLive(s: State, h: nat)
    requires Inv(s) && h in s.handles && s.handles[h].Some?
    ensures
      var a := s.handles[h].value;
      StatusOf(s.pool, a) == Live(CountIf(s.handles, Naming(a))) && CountIf(s.handles, Naming(a)) > 0
  {
    var a := s.handles[h].value;
    assert Naming(a)(s.handles[h]);
    CountZero(s.handles, Naming(a));
    assert RefsMatch(s, a);
  }

  /** Only the named block's status changes. */
  lemma OtherStatus(s: Pool, a: Address, st: Status, b: Address)
    requires !StatusOf(s, a).Free?
    ensures StatusOf(WithStatus(s, a, st), b) == if a == b then st else StatusOf(s, b)
  {
  }

  /** One handle is redirected between null and `a`, and the status of `a` follows its new count. */
  lemma Redirect(s: State, h: nat, o: Option<Address>, a: Address, st: Status)
    requires HandlesOk(s) && h in s.handles && StatusOf(s.pool, a).Live?
    requires s.handles[h] in {None, Some(a)} && o in {None, Some(a)}
    requires
      var n := CountIf(s.handles[h := o], Naming(a));
      st == if n > 0 then Live(n) else Releasing
    ensures HandlesOk(s.(pool := WithStatus(s.pool, a, st), handles := s.handles[h := o]))
  {
    var s' := s.(pool := WithStatus(s.pool, a, st), handles := s.handles[h := o]);
    forall b
      ensures RefsMatch(s', b)
    {
      assert RefsMatch(s, b);
      OtherStatus(s.pool, a, st, b);
      CountUpdate(s.handles, h, o, Naming(b));
    }
    forall p
      ensures TallyOk(s', p)
    {
      assert TallyOk(s, p);
      OtherStatus(s.pool, a, st, Arena(p));
    }
  }

  lemma DetachKeepsInv(s: State, h: nat)
    requires Inv(s) && h in s.handles
    ensures s.handles[h].Some? ==> StatusOf(s.pool, s.handles[h].value).Live? && StatusOf(s.pool, s.handles[h].value).refs > 0
    ensures Inv(Detach(s, h)) && Null(Detach(s, h), h)
  {
    if s.handles[h].Some? {
      NamedIsLive(s, h);
      var a := s.handles[h].value;
      CountUpdate(s.handles, h, None, Naming(a));
      var n := StatusOf(s.pool, a).refs;
      var st := if n == 1 then Releasing else Live(n - 1);
      Redirect(s, h, None, a, st);
      StatusKeepsInv(s.pool, a, st);
    }
  }

  lemma AttachKeepsInv(s: State, h: nat, a: Address)
    requires Inv(s) && Null(s, h) && StatusOf(s.pool, a).Live?
    ensures Inv(Attach(s, h, a))
  {
    assert RefsMatch(s, a);
    CountUpdate(s.handles, h, Some(a), Naming(a));
    var st := Live(StatusOf(s.pool, a).refs + 1);
    Redirect(s, h, Some(a), a, st);
    StatusKeepsInv(s.pool, a, st);
  }

  lemma AllocateStatus(s: Pool, bytes: nat, id: nat, b: Address)
    requires |s.bins| == |s.classes|
    ensures
      var (s', a) := Allocate(s, bytes, id);
      StatusOf(s', b) == if a == b then Live(1) else StatusOf(s, b)
  {
  }

  lemma AttachNewHandles(s: State, h: nat, bytes: nat, id: nat)
    requires HandlesOk(s) && Null(s, h) && |s.pool.bins| == |s.pool.classes|
    requires StatusOf(s.pool, Allocate(s.pool, bytes, id).1).Free?
    ensures HandlesOk(AttachNew(s, h, bytes, id))
  {
    var a := Allocate(s.pool, bytes, id).1;
    var s' := AttachNew(s, h, bytes, id);
    forall b
      ensures RefsMatch(s', b)
    {
      assert RefsMatch(s, b);
      AllocateStatus(s.pool, bytes, id, b);
      CountUpdate(s.handles, h, Some(a), Naming(b));
    }
    forall p
      ensures TallyOk(s', p)
    {
      assert TallyOk(s, p);
      AllocateStatus(s.pool, bytes, id, Arena(p));
    }
  }

  lemma AttachNewKeepsInv(s: State, h: nat, bytes: nat, id: nat)
    requires Inv(s) && Null(s, h) && id !in s.pool.heap
    ensures Inv(AttachNew(s, h, bytes, id))
  {
    AllocateKeepsInv(s.pool, bytes, id);
    AttachNewHandles(s, h, bytes, id);
  }

  lemma TransferKeepsInv(s: State, h: nat, from: nat)
    requires Inv(s) && Null(s, h) && from in s.handles && h != from
    ensures Inv(Transfer(s, h, from))
  {
    var s' := Transfer(s, h, from);
    forall b
      ensures RefsMatch(s', b)
    {
      assert RefsMatch(s, b);
      CountUpdate(s.handles, h, s.handles[from], Naming(b));
      CountUpdate(s.handles[h := s.handles[from]], from, None, Naming(b));
    }
    forall p
      ensures TallyOk(s', p)
    {
      assert TallyOk(s, p);
    }
  }

  lemma RecycleStatus(s: Pool, a: Address, b: Address)
    requires StatusOf(s, a).Releasing? && s.live > 0
    requires a.Arena? ==> a.slot in s.blocks && s.blocks[a.slot].cls < |s.bins|
    requires a.Heap? ==> s.escaped > 0
    ensures StatusOf(Recycle(s, a), b) == if a == b then Free else StatusOf(s, b)
  {
  }

  lemma FinishedHandles(s: State, a: Address)
    requires HandlesOk(s) && StatusOf(s.pool, a).Releasing? && s.pool.live > 0
    requires a.Arena? ==> a.slot in s.pool.blocks && s.pool.blocks[a.slot].cls < |s.pool.bins|
    requires a.Heap? ==> s.pool.escaped > 0
    ensures HandlesOk(Finished(s, a))
  {
    var s' := Finished(s, a);
    forall b
      ensures RefsMatch(s', b)
    {
      assert RefsMatch(s, b);
      RecycleStatus(s.pool, a, b);
    }
    forall p
      ensures TallyOk(s', p)
    {
      assert TallyOk(s, p);
      RecycleStatus(s.pool, a, Arena(p));
    }
  }

  lemma FinishedKeepsInv(s: State, a: Address)
    requires Inv(s) && StatusOf(s.pool, a).Releasing?
    ensures s.pool.live > 0 && (a.Heap? ==> s.pool.escaped > 0)
    ensures Inv(Finished(s, a))
  {
    RecycleKeepsInv(s.pool, a);
    FinishedHandles(s, a);
  }

  // ---- Runs ----------------------------------------------------------------

  /** Whether an operation can be carried out; a constructor needs a handle that names nothing yet. */
  ghost predicate Enabled(s: State, op: Op) {
    match op
    case Create(h, bytes, id) => Null(s, h) && id !in s.pool.heap
    case CopyConstruct(h, from) => Null(s, h) && from in s.handles && h != from
    case MoveConstruct(h, from) => Null(s, h) && from in s.handles && h != from
    case CopyAssign(h, from) => h in s.handles && from in s.handles
    case MoveAssign(h, from) => h in s.handles && from in s.handles
    case Reset(h) => h in s.handles
    case Finish(a) => StatusOf(s.pool, a).Releasing?
  }

  /** Copy what `from` names into the null handle `h`. */
  ghost function Copied(s: State, h: nat, from: nat): State
    requires Null(s, h) && from in s.handles
    requires s.handles[from].Some? ==> StatusOf(s.pool, s.handles[from].value).Live?
  {
    if s.handles[from].Some? then Attach(s, h, s.handles[from].value) else s
  }

  lemma CopiedKeepsInv(s: State, h: nat, from: nat)
    requires Inv(s) && Null(s, h) && from in s.handles
    ensures s.handles[from].Some? ==> StatusOf(s.pool, s.handles[from].value).Live?
    ensures Inv(Copied(s, h, from))
  {
    if s.handles[from].Some? {
      NamedIsLive(s, from);
      AttachKeepsInv(s, h, s.handles[from].value);
    }
  }

  /** One operation; assignment to oneself does nothing, any other assignment resets before it takes the new block. */
  ghost function Step(s: State, op: Op): (s': State)
    requires Inv(s) && Enabled(s, op)
    ensures Inv(s')
  {
    match op
    case Create(h, bytes, id) => AttachNewKeepsInv(s, h, bytes, id); AttachNew(s, h, bytes, id)
    case CopyConstruct(h, from) => CopiedKeepsInv(s, h, from); Copied(s, h, from)
    case MoveConstruct(h, from) => TransferKeepsInv(s, h, from); Transfer(s, h, from)
    case CopyAssign(h, from) =>
      if h == from then s
      else
        DetachKeepsInv(s, h);
        CopiedKeepsInv(Detach(s, h), h, from);
        Copied(Detach(s, h), h, from)
    case MoveAssign(h, from) =>
      if h == from then s
      else
        DetachKeepsInv(s, h);
        TransferKeepsInv(Detach(s, h), h, from);
        Transfer(Detach(s, h), h, from)
    case Reset(h) => DetachKeepsInv(s, h); Detach(s, h)
    case Finish(a) => FinishedKeepsInv(s, a); Finished(s, a)
  }

  /** Carry out a run, skipping operations that cannot happen in the state they meet. */
  ghost function Exec(s: State, run: seq<Op>): (s': State)
    requires Inv(s)
    ensures Inv(s')
    decreases |run|
  {
    if run == [] then s
    else Exec(if Enabled(s, run[0]) then Step(s, run[0]) else s, run[1..])
  }

  function EmptyPool(classes: seq<nat>, arenaBytes: nat): Pool {
    Pool(classes, arenaBytes, 0, map[], seq(|classes|, _ => []), map[], 0, 0)
  }

  /** A new pool and null handles. */
  function Init(classes: seq<nat>, arenaBytes: nat, handles: set<nat>): State {
    State(EmptyPool(classes, arenaBytes), map h | h in handles :: None, map[], map[])
  }

  lemma InitInv(classes: seq<nat>, arenaBytes: nat, handles: set<nat>)
    requires ClassesOk(classes)
    ensures Inv(Init(classes, arenaBytes, handles))
  {
    var s := Init(classes, arenaBytes, handles);
    CountZero(s.pool.blocks, InUse);
    CountZero(s.pool.heap, Any);
    forall i | 0 <= i < |s.pool.bins|
      ensures BinOk(s.pool, i)
    {
      assert NoDup([]);
    }
    forall a
      ensures RefsMatch(s, a)
    {
      CountZero(s.handles, Naming(a));
    }
  }

  // ---- What holds in every run ---------------------------------------------

  /**
   In every run the carved part of the arena is tiled by aligned, pairwise disjoint blocks
   within the arena, and each free list holds exactly the free blocks of its own class, each once.
   */
  lemma LayoutInEveryRun(classes: seq<nat>, arenaBytes: nat, handles: set<nat>, run: seq<Op>, p: nat, q: nat, x: nat, i: nat)
    requires ClassesOk(classes)
    ensures Inv(Init(classes, arenaBytes, handles))
    ensures
      var s := Exec(Init(classes, arenaBytes, handles), run).pool;
      && BlocksOk(s) && s.bump <= s.arenaBytes
      && (p in s.blocks ==> HEADER <= p && p % ALIGN == 0 && End(s, p) <= s.bump)
      && (p in s.blocks && q in s.blocks && p < q ==> End(s, p) <= Start(q))
      && (x < s.bump ==> exists b :: Holds(s, b, x))
      && (i < |s.bins| ==> NoDup(s.bins[i]) && (p in s.bins[i] <==> p in s.blocks && s.blocks[p] == Block(i, Free)))
  {
    InitInv(classes, arenaBytes, handles);
    var s := Exec(Init(classes, arenaBytes, handles), run).pool;
    if x < s.bump {
      assert InSomeBlock(s, x);
    }
    if i < |s.bins| {
      assert BinOk(s, i);
      assert p in s.bins[i] <==> FreeClass(s.blocks, p) == Some(i);
    }
  }

  /**
   In every run the reference count of a block is the number of handles naming it:
   a block is live exactly while some handle names it, and `live` and `escaped`
   count the blocks not yet given back.
   */
  lemma RefcountsInEveryRun(classes: seq<nat>, arenaBytes: nat, handles: set<nat>, run: seq<Op>, a: Address)
    requires ClassesOk(classes)
    ensures Inv(Init(classes, arenaBytes, handles))
    ensures
      var s := Exec(Init(classes, arenaBytes, handles), run);
      var n := CountIf(s.handles, Naming(a));
      && (StatusOf(s.pool, a).Live? <==> n > 0)
      && (n > 0 ==> StatusOf(s.pool, a).refs == n)
      && s.pool.escaped == |s.pool.heap|
      && s.pool.live == CountIf(s.pool.blocks, InUse) + |s.pool.heap|
  {
    InitInv(classes, arenaBytes, handles);
    var s := Exec(Init(classes, arenaBytes, handles), run);
    assert RefsMatch(s, a);
    assert Matching(s.pool.heap, Any) == s.pool.heap.Keys;
  }

  /**
   In every run each slot has been recycled once for each time it was handed out,
   except for the current use; recycling happens only after the last handle has gone.
   */
  lemma RecycledOncePerUse(classes: seq<nat>, arenaBytes: nat, handles: set<nat>, run: seq<Op>, p: nat)
    requires ClassesOk(classes)
    ensures Inv(Init(classes, arenaBytes, handles))
    ensures
      var s := Exec(Init(classes, arenaBytes, handles), run);
      var free := StatusOf(s.pool, Arena(p)).Free?;
      && Tally(s.handedOut, p) == Tally(s.recycled, p) + (if free then 0 else 1)
      && (free ==> forall h :: h in s.handles ==> s.handles[h] != Some(Arena(p)))
  {
    InitInv(classes, arenaBytes, handles);
    var s := Exec(Init(classes, arenaBytes, handles), run);
    assert TallyOk(s, p) && RefsMatch(s, Arena(p));
    CountZero(s.handles, Naming(Arena(p)));
    if StatusOf(s.pool, Arena(p)).Free? {
      forall h | h in s.handles
        ensures s.handles[h] != Some(Arena(p))
      {
        assert !Naming(Arena(p))(s.handles[h]);
      }
    }
  }

  /** Dropping one of several references and taking one leaves the pool as it was. */
  lemma DropThenRetain(s: Pool, a: Address)
    requires StatusOf(s, a).Live? && StatusOf(s, a).refs > 1
    ensures StatusOf(Decrement(s, a), a).Live? && Retain(Decrement(s, a), a) == s
  {
    var s' := Decrement(s, a);
    OtherStatus(s, a, Live(StatusOf(s, a).refs - 1), a);
    if a.Arena? {
      assert Retain(s', a).blocks == s.blocks;
    } else {
      assert Retain(s', a).heap == s.heap;
    }
  }

  lemma TwoHandles(handles: map<nat, Option<Address>>, h: nat, from: nat, a: Address)
    requires h in handles && from in handles && h != from && handles[h] == handles[from] == Some(a)
    ensures CountIf(handles, Naming(a)) > 1
  {
    CountUpdate(handles, h, None, Naming(a));
    CountZero(handles[h := None], Naming(a));
    assert Naming(a)(handles[h := None][from]);
  }

  /**
   Assigning to a handle another handle of the same block changes nothing, although
   the old reference is dropped first: the block is still live in between.
   */
  lemma SharedBlockSurvivesAssignment(s: State, h: nat, from: nat)
    requires Inv(s) && h in s.handles && from in s.handles && h != from
    requires s.handles[h].Some? && s.handles[h] == s.handles[from]
    ensures StatusOf(s.pool, s.handles[h].value).Live? && StatusOf(s.pool, s.handles[h].value).refs > 0
    ensures StatusOf(Detach(s, h).pool, s.handles[h].value).Live?
    ensures Step(s, CopyAssign(h, from)) == s
  {
    var a := s.handles[h].value;
    NamedIsLive(s, h);
    TwoHandles(s.handles, h, from, a);
    DropThenRetain(s.pool, a);
    assert s.handles[h := None][h := Some(a)] == s.handles;
  }

  /** No block is lost and none changes its class. */
  ghost predicate ClassesKept(s: Pool, s': Pool) {
    && |s'.bins| == |s.bins|
    && forall p :: p in s.blocks ==> p in s'.blocks && s'.blocks[p].cls == s.blocks[p].cls
  }

  lemma DetachEffect(s: State, h: nat)
    requires h in s.handles
    requires s.handles[h].Some? ==> StatusOf(s.pool, s.handles[h].value).Live? && StatusOf(s.pool, s.handles[h].value).refs > 0
    ensures Detach(s, h).handles == s.handles[h := None] && ClassesKept(s.pool, Detach(s, h).pool)
  {
  }

  lemma CopiedEffect(s: State, h: nat, from: nat)
    requires Null(s, h) && from in s.handles
    requires s.handles[from].Some? ==> StatusOf(s.pool, s.handles[from].value).Live?
    ensures Copied(s, h, from).handles == s.handles[h := s.handles[from]]
    ensures ClassesKept(s.pool, Copied(s, h, from).pool)
  {
  }

  lemma AttachNewEffect(s: State, h: nat, bytes: nat, id: nat)
    requires BlocksOk(s.pool) && BinsOk(s.pool) && Null(s, h)
    ensures AttachNew(s, h, bytes, id).handles == s.handles[h := Some(Allocate(s.pool, bytes, id).1)]
    ensures ClassesKept(s.pool, AttachNew(s, h, bytes, id).pool)
  {
    var src := SourceOf(s.pool, bytes);
    if src.Reuse? {
      ReusedBins(s.pool, src.cls);
    }
  }

  lemma FinishedEffect(s: State, a: Address)
    requires StatusOf(s.pool, a).Releasing? && s.pool.live > 0
    requires a.Arena? ==> a.slot in s.pool.blocks && s.pool.blocks[a.slot].cls < |s.pool.bins|
    requires a.Heap? ==> s.pool.escaped > 0
    ensures Finished(s, a).handles == s.handles && ClassesKept(s.pool, Finished(s, a).pool)
  {
  }

  lemma CopyAssignEffect(s: State, h: nat, from: nat)
    requires h in s.handles && from in s.handles && h != from
    requires s.handles[h].Some? ==> StatusOf(s.pool, s.handles[h].value).Live? && StatusOf(s.pool, s.handles[h].value).refs > 0
    requires s.handles[from].Some? ==> StatusOf(Detach(s, h).pool, s.handles[from].value).Live?
    ensures
      var s' := Copied(Detach(s, h), h, from);
      s'.handles == s.handles[h := s.handles[from]] && ClassesKept(s.pool, s'.pool)
  {
    DetachEffect(s, h);
    CopiedEffect(Detach(s, h), h, from);
  }

  lemma MoveAssignEffect(s: State, h: nat, from: nat)
    requires h in s.handles && from in s.handles && h != from
    requires s.handles[h].Some? ==> StatusOf(s.pool, s.handles[h].value).Live? && StatusOf(s.pool, s.handles[h].value).refs > 0
    ensures
      var s' := Transfer(Detach(s, h), h, from);
      s'.handles == s.handles[h := s.handles[from]][from := None] && ClassesKept(s.pool, s'.pool)
  {
    DetachEffect(s, h);
  }

  /** What the handles name after each operation. */
  ghost function Named(s: State, op: Op): map<nat, Option<Address>>
    requires Enabled(s, op) && |s.pool.bins| == |s.pool.classes|
  {
    match op
    case Create(h, bytes, id) => s.handles[h := Some(Allocate(s.pool, bytes, id).1)]
    case CopyConstruct(h, from) => s.handles[h := s.handles[from]]
    case MoveConstruct(h, from) => s.handles[h := s.handles[from]][from := None]
    case CopyAssign(h, from) => s.handles[h := s.handles[from]]
    case MoveAssign(h, from) => if h == from then s.handles else s.handles[h := s.handles[from]][from := None]
    case Reset(h) => s.handles[h := None]
    case Finish(_) => s.handles
  }

  /** Every operation redirects its handles as its name says, and keeps every block in its class. */
  lemma StepEffect(s: State, op: Op)
    requires Inv(s) && Enabled(s, op)
    ensures Step(s, op).handles == Named(s, op) && ClassesKept(s.pool, Step(s, op).pool)
  {
    if op.Create? {
      AttachNewEffect(s, op.h, op.bytes, op.id);
    } else if op.CopyConstruct? {
      CopiedKeepsInv(s, op.h, op.from);
      CopiedEffect(s, op.h, op.from);
    } else if op.Finish? {
      FinishedKeepsInv(s, op.a);
      FinishedEffect(s, op.a);
    } else if !op.MoveConstruct? {
      DetachKeepsInv(s, op.h);
      DetachEffect(s, op.h);
      if op.CopyAssign? && op.h != op.from {
        CopiedKeepsInv(Detach(s, op.h), op.h, op.from);
        CopyAssignEffect(s, op.h, op.from);
      } else if op.MoveAssign? && op.h != op.from {
        MoveAssignEffect(s, op.h, op.from);
      }
    }
  }

  /** A block that is ever recycled joins the free list of the class it was carved for, at its head. */
  lemma {:induction false} RecycledToItsOwnBin(s: State, run: seq<Op>, p: nat)
    requires Inv(s) && p in s.pool.blocks
    ensures
      var s' := Exec(s, run);
      var i := s.pool.blocks[p].cls;
      && i < |s'.pool.bins|
      && (Enabled(s', Finish(Arena(p))) ==>
            Step(s', Finish(Arena(p))).pool.bins == s'.pool.bins[i := [p] + s'.pool.bins[i]])
    decreases |run|
  {
    if run == [] {
    } else if Enabled(s, run[0]) {
      StepEffect(s, run[0]);
      RecycledToItsOwnBin(Step(s, run[0]), run[1..], p);
    } else {
      RecycledToItsOwnBin(s, run[1..], p);
    }
  }
}
