/**
 The lock-free ring of `BoundedQueue` as a transition system.

 Any number of threads push, pop, evict, read the size and stop the queue.  Each
 load of a cursor, load of a cell's sequence number, compare-and-swap, payload
 access, sequence store and counter increment is a step of its own, so a run is
 an arbitrary interleaving of those steps.  Memory is sequentially consistent
 and cursors are unbounded.
 */
module RingProtocol {
  import opened Counting
  import opened Slots

  datatype Policy = DropNew | DropOldest

  /** The `std::optional<T>` of a cell; `MovedFrom` is engaged but already moved out. */
  datatype Payload<+T> = Empty | Holds(value: T) | MovedFrom

  datatype Cell<+T> = Cell(sequence: nat, data: Payload<T>)

  /** Who takes the front item: a `try_pop`, or the `evict_one` of a push that still has to place `item`. */
  datatype Taker<+T> = Popper | Evictor(item: T)

  /** The next step of a thread, with the locals it has loaded. */
  datatype Pc<+T> =
    | Idle
    | PushStart(item: T)              // about to read stopped_
    | PushLoad(item: T)               // about to load enqueue_pos_
    | PushCheck(item: T, pos: nat)    // about to load the cell's sequence
    | PushCas(item: T, pos: nat)      // saw sequence == pos
    | PushWrite(item: T, pos: nat)    // claimed pos, about to emplace the payload
    | PushPublish(item: T, pos: nat)  // about to store sequence = pos + 1
    | PushReject                      // saw a full ring under DropNew, about to count it
    | TakeLoad(who: Taker<T>)         // about to load dequeue_pos_
    | TakeCheck(who: Taker<T>, pos: nat)
    | TakeCas(who: Taker<T>, pos: nat)  // saw sequence == pos + 1
    | TakeMove(pos: nat)              // popper claimed pos, about to move the payload out
    | TakeReset(who: Taker<T>, pos: nat, out: Option<T>)
    | TakeRelease(who: Taker<T>, pos: nat, out: Option<T>)  // about to store sequence = pos + p
    | EvictCount(item: T)             // about to count the eviction
    | SizeCheck(seen: nat)            // size() has loaded enqueue_pos_

  /**
   The shared memory, the threads, and a history of what happened: which thread
   claimed each position on either side, what try_pop returned, and how many
   pushes succeeded or saw a full ring.
   */
  datatype State<+T> = State(
    p: nat, policy: Policy,
    cells: seq<Cell<T>>, enq: nat, deq: nat, dropped: nat, stopped: bool,
    pcs: map<nat, Pc<T>>,
    pushLog: seq<(nat, T)>, takeLog: seq<(nat, bool)>,
    delivered: seq<(nat, Option<T>)>, sizes: seq<nat>,
    accepted: nat, rejected: nat)

  datatype Action<+T> =
    | CallPush(item: T)
    | CallPop
    | CallSize
    | CallStop
    | Advance       // the thread's next step
    | CasFails      // compare_exchange_weak fails spuriously

  datatype Event<+T> = Event(tid: nat, action: Action<T>)

  ghost predicate Shape<T>(s: State<T>) {
    0 < s.p == |s.cells|
  }

  // ---- The steps -----------------------------------------------------------

  /** What one step does: the thread's next program counter, the cell it writes, and what it adds to the rest. */
  datatype Effect<+T> = Effect(
    pc: Pc<T>, cell: Option<(nat, Cell<T>)>, claims: Option<T>, takes: Option<bool>,
    delivers: Option<(nat, Option<T>)>, size: Option<nat>,
    accepted: nat, rejected: nat, dropped: nat, stops: bool)

  ghost function Goto<T>(pc: Pc<T>): Effect<T>
  {
    Effect(pc, None, None, None, None, None, 0, 0, 0, false)
  }

  ghost function Apply<T>(s: State<T>, t: nat, e: Effect<T>): (r: State<T>)
    requires Shape(s)
    ensures Shape(r)
  {
    State(
      s.p, s.policy,
      if e.cell.Some? then s.cells[Slot(e.cell.value.0, s.p) := e.cell.value.1] else s.cells,
      if e.claims.Some? then s.enq + 1 else s.enq,
      if e.takes.Some? then s.deq + 1 else s.deq,
      s.dropped + e.dropped, s.stopped || e.stops, s.pcs[t := e.pc],
      if e.claims.Some? then s.pushLog + [(t, e.claims.value)] else s.pushLog,
      if e.takes.Some? then s.takeLog + [(t, e.takes.value)] else s.takeLog,
      if e.delivers.Some? then s.delivered + [e.delivers.value] else s.delivered,
      if e.size.Some? then s.sizes + [e.size.value] else s.sizes,
      s.accepted + e.accepted, s.rejected + e.rejected)
  }

  ghost function CellAt<T>(s: State<T>, n: nat): Cell<T>
    requires Shape(s)
  {
    s.cells[Slot(n, s.p)]
  }

  /** Where a push goes after loading the sequence of the cell of `pos`. */
  ghost function AfterPushCheck<T>(s: State<T>, item: T, pos: nat): Pc<T>
    requires Shape(s)
  {
    var seen := CellAt(s, pos).sequence;
    if seen == pos then PushCas(item, pos)
    else if seen < pos then (if s.policy.DropNew? then PushReject else TakeLoad(Evictor(item)))
    else PushLoad(item)
  }

  /** Where a take goes after loading the sequence of the cell of `pos`. */
  ghost function AfterTakeCheck<T>(s: State<T>, who: Taker<T>, pos: nat): Pc<T>
    requires Shape(s)
  {
    var seen := CellAt(s, pos).sequence;
    if seen == pos + 1 then TakeCas(who, pos)
    else if seen < pos + 1 then (match who case Popper => Idle case Evictor(item) => PushLoad(item))
    else TakeLoad(who)
  }

  /** The thread's next step. */
  ghost function AdvanceEffect<T>(s: State<T>, pc: Pc<T>): Effect<T>
    requires Shape(s)
  {
    match pc
    case Idle => Goto(Idle)
    case PushStart(item) => Goto(if s.stopped then Idle else PushLoad(item))
    case PushLoad(item) => Goto(PushCheck(item, s.enq))
    case PushCheck(item, pos) =>
      var next := AfterPushCheck(s, item, pos);
      Goto(next).(rejected := if next.PushReject? then 1 else 0)
    case PushCas(item, pos) =>
      if s.enq != pos then Goto(PushLoad(item)) else Goto(PushWrite(item, pos)).(claims := Some(item))
    case PushWrite(item, pos) =>
      Goto(PushPublish(item, pos)).(cell := Some((pos, CellAt(s, pos).(data := Holds(item)))))
    case PushPublish(item, pos) =>
      Goto(Idle).(cell := Some((pos, CellAt(s, pos).(sequence := pos + 1))), accepted := 1)
    case PushReject => Goto(Idle).(dropped := 1)
    case TakeLoad(who) => Goto(TakeCheck(who, s.deq))
    case TakeCheck(who, pos) => Goto(AfterTakeCheck(s, who, pos))
    case TakeCas(who, pos) =>
      if s.deq != pos then Goto(TakeLoad(who))
      else Goto(if who.Popper? then TakeMove(pos) else TakeReset(who, pos, None)).(takes := Some(who.Evictor?))
    case TakeMove(pos) =>
      var d := CellAt(s, pos).data;
      Goto(TakeReset(Popper, pos, if d.Holds? then Some(d.value) else None))
      .(cell := Some((pos, CellAt(s, pos).(data := MovedFrom))))
    case TakeReset(who, pos, out) =>
      Goto(TakeRelease(who, pos, out)).(cell := Some((pos, CellAt(s, pos).(data := Empty))))
    case TakeRelease(who, pos, out) =>
      var e := Goto(if who.Popper? then Idle else EvictCount(who.item))
               .(cell := Some((pos, CellAt(s, pos).(sequence := pos + s.p))));
      if who.Popper? then e.(delivers := Some((pos, out))) else e
    case EvictCount(item) => Goto(PushLoad(item)).(dropped := 1)
    case SizeCheck(seen) => Goto(Idle).(size := Some(if seen >= s.deq then seen - s.deq else 0))
  }

  /** Calls start only in an idle thread; anything that does not apply does nothing. */
  ghost function EffectOf<T>(s: State<T>, pc: Pc<T>, a: Action<T>): Effect<T>
    requires Shape(s)
  {
    match a
    case Advance => AdvanceEffect(s, pc)
    case CasFails =>
      Goto(if pc.PushCas? then PushLoad(pc.item) else if pc.TakeCas? then TakeLoad(pc.who) else pc)
    case CallPush(item) => Goto(if pc.Idle? then PushStart(item) else pc)
    case CallPop => Goto(if pc.Idle? then TakeLoad(Popper) else pc)
    case CallSize => Goto(if pc.Idle? then SizeCheck(s.enq) else pc)
    case CallStop => Goto(pc).(stops := pc.Idle?)
  }

  /** One step of thread `t`. */
  ghost function Step<T>(s: State<T>, t: nat, a: Action<T>): (r: State<T>)
    requires Shape(s)
    ensures Shape(r) && r.p == s.p && r.policy == s.policy
  {
    if t in s.pcs then Apply(s, t, EffectOf(s, s.pcs[t], a)) else s
  }

  ghost function Init<T>(p: nat, policy: Policy, tids: set<nat>): (s: State<T>)
    requires p > 0
    ensures Shape(s) && s.p == p
  {
    State(p, policy, seq(p, (i: nat) => Cell(i, Empty)), 0, 0, 0, false,
          map t | t in tids :: Idle, [], [], [], [], 0, 0)
  }

  ghost function Exec<T>(s: State<T>, run: seq<Event<T>>): (r: State<T>)
    requires Shape(s)
    ensures Shape(r) && r.p == s.p && r.policy == s.policy
    decreases |run|
  {
    if run == [] then s else Exec(Step(s, run[0].tid, run[0].action), run[1..])
  }

  // ---- The invariant -------------------------------------------------------

  /** The thread has claimed `n` for a push and not yet published it. */
  ghost predicate PushesAt<T>(pc: Pc<T>, n: nat) {
    (pc.PushWrite? || pc.PushPublish?) && pc.pos == n
  }

  /** The thread has claimed `n` for a take and not yet released it. */
  ghost predicate TakesAt<T>(pc: Pc<T>, n: nat) {
    (pc.TakeMove? || pc.TakeReset? || pc.TakeRelease?) && pc.pos == n
  }

  ghost predicate Logs<T>(s: State<T>) {
    && 2 <= s.p == |s.cells|
    && |s.pushLog| == s.enq && |s.takeLog| == s.deq
    && s.deq <= s.enq <= s.deq + s.p
  }

  ghost predicate PushOwner<T>(s: State<T>, n: nat) {
    n < |s.pushLog| && s.pushLog[n].0 in s.pcs && PushesAt(s.pcs[s.pushLog[n].0], n)
  }

  ghost predicate TakeOwner<T>(s: State<T>, n: nat) {
    n < |s.takeLog| && s.takeLog[n].0 in s.pcs && TakesAt(s.pcs[s.takeLog[n].0], n)
  }

  /** What the cell of position `n` of the current lap may hold. */
  ghost predicate CellOk<T>(s: State<T>, n: nat)
    requires Logs(s)
  {
    var c := CellAt(s, n);
    if n < s.enq then
      c == Cell(n + 1, Holds(s.pushLog[n].1)) || (c.sequence == n && PushOwner(s, n))
    else
      c == Cell(n, Empty) || (n >= s.p && c.sequence == n - s.p + 1 && TakeOwner(s, n - s.p))
  }

  ghost predicate CellsOk<T>(s: State<T>)
    requires Logs(s)
  {
    forall n :: s.deq <= n < s.deq + s.p ==> CellOk(s, n)
  }

  /** A claim for a push is still open: the cell carries the claimed turn. */
  ghost predicate PushClaim<T>(s: State<T>, t: nat, item: T, pos: nat)
    requires Logs(s)
  {
    s.deq <= pos < s.enq && s.pushLog[pos] == (t, item) && CellAt(s, pos).sequence == pos
  }

  ghost predicate TakeClaim<T>(s: State<T>, t: nat, evicts: bool, pos: nat)
    requires Logs(s)
  {
    pos < s.deq && s.enq <= pos + s.p && s.takeLog[pos] == (t, evicts) && CellAt(s, pos).sequence == pos + 1
  }

  ghost predicate ThreadOk<T>(s: State<T>, t: nat)
    requires Logs(s) && t in s.pcs
  {
    match s.pcs[t]
    case PushCheck(_, pos) => pos <= s.enq
    case PushCas(_, pos) => pos <= s.enq && (pos == s.enq ==> CellAt(s, pos).sequence == pos)
    case PushWrite(item, pos) => PushClaim(s, t, item, pos) && CellAt(s, pos).data == Empty
    case PushPublish(item, pos) => PushClaim(s, t, item, pos) && CellAt(s, pos).data == Holds(item)
    case TakeCheck(_, pos) => pos <= s.deq
    case TakeCas(_, pos) => pos <= s.deq && (pos == s.deq ==> CellAt(s, pos).sequence == pos + 1)
    case TakeMove(pos) => TakeClaim(s, t, false, pos) && CellAt(s, pos).data == Holds(s.pushLog[pos].1)
    case TakeReset(who, pos, out) =>
      TakeClaim(s, t, who.Evictor?, pos) && (who.Popper? ==> out == Some(s.pushLog[pos].1))
    case TakeRelease(who, pos, out) =>
      TakeClaim(s, t, who.Evictor?, pos) && CellAt(s, pos).data == Empty
      && (who.Popper? ==> out == Some(s.pushLog[pos].1))
    case SizeCheck(seen) => seen <= s.enq
    case _ => true
  }

  ghost predicate ThreadsOk<T>(s: State<T>)
    requires Logs(s)
  {
    forall t :: t in s.pcs ==> ThreadOk(s, t)
  }

  ghost predicate Inv<T>(s: State<T>) {
    Logs(s) && CellsOk(s) && ThreadsOk(s)
  }

  // ---- Every step keeps the invariant --------------------------------------

  ghost predicate OwnsNothing<T>(pc: Pc<T>) {
    !pc.PushWrite? && !pc.PushPublish? && !pc.TakeMove? && !pc.TakeReset? && !pc.TakeRelease?
  }

  /** The position of the current lap that sits in the cell a thread owns. */
  lemma OwnedCell<T>(s: State<T>, t: nat, n: nat)
    requires Inv(s) && t in s.pcs && !OwnsNothing(s.pcs[t])
    requires s.deq <= n < s.deq + s.p && Slot(n, s.p) == Slot(s.pcs[t].pos, s.p)
    ensures n == if PushesAt(s.pcs[t], s.pcs[t].pos) then s.pcs[t].pos else s.pcs[t].pos + s.p
  {
    assert ThreadOk(s, t);
    var pos := s.pcs[t].pos;
    if PushesAt(s.pcs[t], pos) {
      SlotWindow(s.deq, pos, s.p);
    } else {
      SlotPeriod(pos, s.p);
      SlotWindow(s.deq, pos + s.p, s.p);
    }
  }

  /** Two threads never own the same cell. */
  lemma CellsDisjoint<T>(s: State<T>, t: nat, u: nat)
    requires Inv(s) && t in s.pcs && u in s.pcs && t != u
    requires !OwnsNothing(s.pcs[t]) && !OwnsNothing(s.pcs[u])
    ensures Slot(s.pcs[t].pos, s.p) != Slot(s.pcs[u].pos, s.p)
  {
    assert ThreadOk(s, t) && ThreadOk(s, u);
    var a, b := s.pcs[t].pos, s.pcs[u].pos;
    if Slot(a, s.p) == Slot(b, s.p) {
      var n := SlotOnto(s.deq, Slot(a, s.p), s.p);
      OwnedCell(s, t, n);
      OwnedCell(s, u, n);
    }
  }

  /** A thread that owns no cell may change its own program counter freely. */
  lemma Relabel<T>(s: State<T>, t: nat, e: Effect<T>)
    requires Inv(s) && t in s.pcs && OwnsNothing(s.pcs[t])
    requires e.cell.None? && e.claims.None? && e.takes.None?
    requires ThreadOk(Apply(s, t, e), t)
    ensures Inv(Apply(s, t, e))
  {
    var s' := Apply(s, t, e);
    forall n | s'.deq <= n < s'.deq + s'.p
      ensures CellOk(s', n)
    {
      assert CellOk(s, n);
    }
    forall u | u in s'.pcs
      ensures ThreadOk(s', u)
    {
      assert u != t ==> ThreadOk(s, u);
    }
  }

  /** The effect touches only thread `t`, the cell `t` owns, and counters and results. */
  ghost predicate LocalChange<T>(s: State<T>, t: nat, e: Effect<T>) {
    && Inv(s) && t in s.pcs && !OwnsNothing(s.pcs[t])
    && e.claims.None? && e.takes.None?
    && e.cell.Some? && e.cell.value.0 == s.pcs[t].pos
  }

  /** The thread relies on the sequence number of the cell of its position. */
  ghost predicate Relies<T>(s: State<T>, u: nat)
    requires u in s.pcs
  {
    var pc := s.pcs[u];
    !OwnsNothing(pc) || (pc.PushCas? && pc.pos == s.enq) || (pc.TakeCas? && pc.pos == s.deq)
  }

  /** No thread relies on a cell another thread owns. */
  lemma ReliedCellsDisjoint<T>(s: State<T>, t: nat, u: nat)
    requires Inv(s) && t in s.pcs && u in s.pcs && t != u
    requires !OwnsNothing(s.pcs[t]) && Relies(s, u)
    ensures Slot(s.pcs[t].pos, s.p) != Slot(s.pcs[u].pos, s.p)
  {
    if !OwnsNothing(s.pcs[u]) {
      CellsDisjoint(s, t, u);
    } else {
      assert ThreadOk(s, t) && ThreadOk(s, u);
      SlotNext(s.pcs[t].pos, s.p);
      SlotNext(s.pcs[u].pos, s.p);
    }
  }

  /** A change local to `t` leaves every other thread as it was. */
  lemma FrameThread<T>(s: State<T>, t: nat, e: Effect<T>, u: nat)
    requires LocalChange(s, t, e) && u in s.pcs && u != t
    ensures ThreadOk(Apply(s, t, e), u)
  {
    assert ThreadOk(s, u);
    if Relies(s, u) {
      ReliedCellsDisjoint(s, t, u);
    }
  }

  lemma FrameFilled<T>(s: State<T>, t: nat, e: Effect<T>, n: nat)
    requires LocalChange(s, t, e)
    requires s.deq <= n < s.enq && Slot(n, s.p) != Slot(s.pcs[t].pos, s.p)
    ensures CellOk(Apply(s, t, e), n)
  {
    assert CellOk(s, n);
    assert s.pushLog[n].0 == t ==> !PushesAt(s.pcs[t], n);
  }

  lemma FrameFree<T>(s: State<T>, t: nat, e: Effect<T>, n: nat)
    requires LocalChange(s, t, e)
    requires s.deq <= n < s.deq + s.p && s.enq <= n && Slot(n, s.p) != Slot(s.pcs[t].pos, s.p)
    ensures CellOk(Apply(s, t, e), n)
  {
    assert CellOk(s, n);
    if n >= s.p {
      SlotPeriod(n - s.p, s.p);
      assert !TakesAt(s.pcs[t], n - s.p);
    }
  }

  /** A change local to `t` leaves every cell that `t` does not own as it was. */
  lemma FrameCell<T>(s: State<T>, t: nat, e: Effect<T>, n: nat)
    requires LocalChange(s, t, e)
    requires s.deq <= n < s.deq + s.p && Slot(n, s.p) != Slot(s.pcs[t].pos, s.p)
    ensures CellOk(Apply(s, t, e), n)
  {
    if n < s.enq {
      FrameFilled(s, t, e, n);
    } else {
      FrameFree(s, t, e, n);
    }
  }

  /** Combining the frames: it remains to check the changed thread and the changed cell. */
  lemma LocalChangeKeepsInv<T>(s: State<T>, t: nat, e: Effect<T>)
    requires LocalChange(s, t, e) && ThreadOk(Apply(s, t, e), t)
    requires
      var pos := s.pcs[t].pos;
      CellOk(Apply(s, t, e), if PushesAt(s.pcs[t], pos) then pos else pos + s.p)
    ensures Inv(Apply(s, t, e))
  {
    var s' := Apply(s, t, e);
    forall n | s'.deq <= n < s'.deq + s'.p
      ensures CellOk(s', n)
    {
      if Slot(n, s.p) == Slot(s.pcs[t].pos, s.p) {
        OwnedCell(s, t, n);
      } else {
        FrameCell(s, t, e, n);
      }
    }
    forall u | u in s'.pcs
      ensures ThreadOk(s', u)
    {
      if u != t {
        FrameThread(s, t, e, u);
      }
    }
  }

  lemma PushOwnerStep<T>(s: State<T>, t: nat)
    requires Inv(s) && t in s.pcs && (s.pcs[t].PushWrite? || s.pcs[t].PushPublish?)
    ensures Inv(Step(s, t, Advance))
  {
    assert ThreadOk(s, t);
    LocalChangeKeepsInv(s, t, AdvanceEffect(s, s.pcs[t]));
  }

  lemma TakeOwnerStep<T>(s: State<T>, t: nat)
    requires Inv(s) && t in s.pcs && (s.pcs[t].TakeMove? || s.pcs[t].TakeReset?)
    ensures Inv(Step(s, t, Advance))
  {
    assert ThreadOk(s, t);
    SlotPeriod(s.pcs[t].pos, s.p);
    LocalChangeKeepsInv(s, t, AdvanceEffect(s, s.pcs[t]));
  }

  lemma ReleaseStep<T>(s: State<T>, t: nat)
    requires Inv(s) && t in s.pcs && s.pcs[t].TakeRelease?
    ensures Inv(Step(s, t, Advance))
  {
    assert ThreadOk(s, t);
    SlotPeriod(s.pcs[t].pos, s.p);
    LocalChangeKeepsInv(s, t, AdvanceEffect(s, s.pcs[t]));
  }

  /** The steps of a thread inside a cell it owns. */
  lemma OwnerStep<T>(s: State<T>, t: nat)
    requires Inv(s) && t in s.pcs && !OwnsNothing(s.pcs[t])
    ensures Inv(Step(s, t, Advance))
  {
    if s.pcs[t].PushWrite? || s.pcs[t].PushPublish? {
      PushOwnerStep(s, t);
    } else if s.pcs[t].TakeRelease? {
      ReleaseStep(s, t);
    } else {
      TakeOwnerStep(s, t);
    }
  }

  /** A push whose compare-and-swap will succeed saw a cell that is still free: the ring is not full. */
  lemma PushCasSeesFreeCell<T>(s: State<T>, t: nat)
    requires Inv(s) && t in s.pcs && s.pcs[t].PushCas? && s.pcs[t].pos == s.enq
    ensures s.enq < s.deq + s.p && CellAt(s, s.enq) == Cell(s.enq, Empty)
  {
    assert ThreadOk(s, t);
    SlotPeriod(s.deq, s.p);
    assert CellOk(s, s.deq);
    assert s.enq < s.deq + s.p;
    assert CellOk(s, s.enq);
  }

  /** Claiming a position for a push disturbs no other thread. */
  lemma ClaimPushFrame<T>(s: State<T>, t: nat, u: nat)
    requires Inv(s) && t in s.pcs && s.pcs[t].PushCas? && s.pcs[t].pos == s.enq
    requires u in s.pcs && u != t
    requires s.enq < s.deq + s.p && CellAt(s, s.enq).sequence == s.enq
    ensures Logs(Step(s, t, Advance)) && ThreadOk(Step(s, t, Advance), u)
  {
    assert ThreadOk(s, u);
    if !OwnsNothing(s.pcs[u]) {
      SlotPeriod(s.pcs[u].pos, s.p);
    }
  }

  /** Claiming a position for a push. */
  lemma ClaimPush<T>(s: State<T>, t: nat)
    requires Inv(s) && t in s.pcs && s.pcs[t].PushCas? && s.pcs[t].pos == s.enq
    ensures Inv(Step(s, t, Advance))
  {
    var s' := Step(s, t, Advance);
    PushCasSeesFreeCell(s, t);
    forall n | s'.deq <= n < s'.deq + s'.p
      ensures CellOk(s', n)
    {
      assert CellOk(s, n);
    }
    forall u | u in s'.pcs
      ensures ThreadOk(s', u)
    {
      if u != t {
        ClaimPushFrame(s, t, u);
      }
    }
  }

  /** A take whose compare-and-swap will succeed saw a cell that still holds the front item. */
  lemma TakeCasSeesItem<T>(s: State<T>, t: nat)
    requires Inv(s) && t in s.pcs && s.pcs[t].TakeCas? && s.pcs[t].pos == s.deq
    ensures s.deq < s.enq && CellAt(s, s.deq) == Cell(s.deq + 1, Holds(s.pushLog[s.deq].1))
  {
    assert ThreadOk(s, t);
    assert CellOk(s, s.deq);
  }

  /** Claiming a position for a take disturbs no other thread. */
  lemma ClaimTakeFrame<T>(s: State<T>, t: nat, u: nat)
    requires Inv(s) && t in s.pcs && s.pcs[t].TakeCas? && s.pcs[t].pos == s.deq && s.deq < s.enq
    requires CellAt(s, s.deq) == Cell(s.deq + 1, Holds(s.pushLog[s.deq].1))
    requires u in s.pcs && u != t
    ensures Logs(Step(s, t, Advance)) && ThreadOk(Step(s, t, Advance), u)
  {
    assert ThreadOk(s, u);
  }

  /** Claiming a position for a take leaves the cells of the window in order. */
  lemma ClaimTakeCell<T>(s: State<T>, t: nat, n: nat)
    requires Inv(s) && t in s.pcs && s.pcs[t].TakeCas? && s.pcs[t].pos == s.deq && s.deq < s.enq
    requires CellAt(s, s.deq) == Cell(s.deq + 1, Holds(s.pushLog[s.deq].1))
    requires s.deq < n <= s.deq + s.p
    ensures Logs(Step(s, t, Advance)) && CellOk(Step(s, t, Advance), n)
  {
    if n < s.deq + s.p {
      assert CellOk(s, n);
    } else {
      SlotPeriod(s.deq, s.p);
    }
  }

  /** Claiming a position for a pop or an eviction. */
  lemma ClaimTake<T>(s: State<T>, t: nat)
    requires Inv(s) && t in s.pcs && s.pcs[t].TakeCas? && s.pcs[t].pos == s.deq
    ensures s.deq < s.enq && CellAt(s, s.deq) == Cell(s.deq + 1, Holds(s.pushLog[s.deq].1))
    ensures Inv(Step(s, t, Advance))
  {
    var s' := Step(s, t, Advance);
    TakeCasSeesItem(s, t);
    forall n | s'.deq <= n < s'.deq + s'.p
      ensures CellOk(s', n)
    {
      ClaimTakeCell(s, t, n);
    }
    forall u | u in s'.pcs
      ensures ThreadOk(s', u)
    {
      if u != t {
        ClaimTakeFrame(s, t, u);
      }
    }
  }

  /** A call or a failed compare-and-swap owns no cell before or after. */
  lemma OtherStep<T>(s: State<T>, t: nat, a: Action<T>)
    requires Inv(s) && t in s.pcs && !a.Advance?
    ensures Inv(Step(s, t, a))
  {
    assert ThreadOk(s, t);
    if OwnsNothing(s.pcs[t]) {
      Relabel(s, t, EffectOf(s, s.pcs[t], a));
    } else {
      assert s.pcs[t := s.pcs[t]] == s.pcs;
      assert Step(s, t, a) == s;
    }
  }

  /** A step of a thread that owns no cell and claims none. */
  lemma FreeStep<T>(s: State<T>, t: nat)
    requires Inv(s) && t in s.pcs && OwnsNothing(s.pcs[t]) && !Relies(s, t)
    ensures Inv(Step(s, t, Advance))
  {
    assert ThreadOk(s, t);
    Relabel(s, t, AdvanceEffect(s, s.pcs[t]));
  }

  lemma AdvanceKeepsInv<T>(s: State<T>, t: nat)
    requires Inv(s) && t in s.pcs
    ensures Inv(Step(s, t, Advance))
  {
    assert ThreadOk(s, t);
    if !OwnsNothing(s.pcs[t]) {
      OwnerStep(s, t);
    } else if s.pcs[t].PushCas? && s.pcs[t].pos == s.enq {
      ClaimPush(s, t);
    } else if s.pcs[t].TakeCas? && s.pcs[t].pos == s.deq {
      ClaimTake(s, t);
    } else {
      FreeStep(s, t);
    }
  }

  /** Every step of every thread keeps the invariant. */
  lemma StepKeepsInv<T>(s: State<T>, t: nat, a: Action<T>)
    requires Inv(s)
    ensures Inv(Step(s, t, a))
  {
    if t in s.pcs {
      if a.Advance? {
        AdvanceKeepsInv(s, t);
      } else {
        OtherStep(s, t, a);
      }
    }
  }

  lemma InitInv<T>(p: nat, policy: Policy, tids: set<nat>)
    requires p >= 2
    ensures Inv(Init<T>(p, policy, tids))
  {
    var s := Init<T>(p, policy, tids);
    forall n | 0 <= n < p
      ensures CellOk(s, n)
    {
      assert Slot(n, p) == n;
    }
  }

  lemma {:induction false} ExecKeepsInv<T>(s: State<T>, run: seq<Event<T>>)
    requires Inv(s)
    ensures Inv(Exec(s, run))
    decreases |run|
  {
    if run == [] {
    } else {
      StepKeepsInv(s, run[0].tid, run[0].action);
      ExecKeepsInv(Step(s, run[0].tid, run[0].action), run[1..]);
    }
  }
}
