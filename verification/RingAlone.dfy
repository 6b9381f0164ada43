/**
 A thread of the lock-free ring that runs alone, while every other thread stands still
 wherever it happens to be.  Every operation then returns within a fixed number of steps,
 except a push under DropOldest whose cell another thread is still inside: that push
 evicts what it can reach and goes round for ever.
 */
module RingAlone {
  import opened Numbers
  import opened Slots
  import opened RingProtocol
  import opened RingTheorems
  import opened RingProgress

  /** The thread has an item to place and no position for it yet. */
  ghost predicate Unplaced<T>(pc: Pc<T>) {
    || pc.PushLoad? || pc.PushCheck? || pc.PushCas? || pc.EvictCount?
    || ((pc.TakeLoad? || pc.TakeCheck? || pc.TakeCas? || pc.TakeReset? || pc.TakeRelease?) && pc.who.Evictor?)
  }

  ghost predicate Pushing<T>(s: State<T>, t: nat) {
    t in s.pcs && (Unplaced(s.pcs[t]) || (s.pcs[t].PushStart? && !s.stopped))
  }

  /**
   Another thread is inside the cell of the next position to push: the taker of the lap before has
   not released it, or the ring holds a full lap and its front item is not published.
   */
  ghost predicate Blocked<T>(s: State<T>, t: nat) {
    || (s.enq >= s.p && TakeOwner(s, s.enq - s.p) && s.takeLog[s.enq - s.p].0 != t)
    || (s.enq == s.deq + s.p && PushOwner(s, s.deq) && s.pushLog[s.deq].0 != t)
  }

  ghost predicate Stuck<T>(s: State<T>, t: nat) {
    s.policy.DropOldest? && Pushing(s, t) && Blocked(s, t)
  }

  ghost function Alone<T>(s: State<T>, t: nat, k: nat): (r: State<T>)
    requires Shape(s)
    ensures Shape(r) && r.p == s.p && r.policy == s.policy
  {
    Exec(s, Steps(t, k))
  }

  /** The thread comes back to its caller if nobody else moves. */
  ghost predicate Returns<T>(s: State<T>, t: nat)
    requires Shape(s)
  {
    exists k :: t in Alone(s, t, k).pcs && Alone(s, t, k).pcs[t].Idle?
  }

  // ---- A blocked push ------------------------------------------------------

  lemma TakeOwnerKept<T>(s: State<T>, t: nat, n: nat)
    requires Inv(s) && t in s.pcs && n < s.deq && s.takeLog[n].0 != t
    ensures
      var s' := Step(s, t, Advance);
      n < |s'.takeLog| && s'.takeLog[n] == s.takeLog[n] && (TakeOwner(s', n) <==> TakeOwner(s, n))
  {
  }

  lemma PushOwnerKept<T>(s: State<T>, t: nat, n: nat)
    requires Inv(s) && t in s.pcs && n < s.enq && s.pushLog[n].0 != t
    ensures
      var s' := Step(s, t, Advance);
      n < |s'.pushLog| && s'.pushLog[n] == s.pushLog[n] && (PushOwner(s', n) <==> PushOwner(s, n))
  {
  }

  /** A blocked push finds neither its cell free nor, on a full lap, an item to evict. */
  lemma BlockedCell<T>(s: State<T>, t: nat)
    requires Inv(s) && Pushing(s, t) && Blocked(s, t)
    ensures CellAt(s, s.enq).sequence < s.enq
    ensures s.enq == s.deq + s.p ==> CellAt(s, s.deq).sequence == s.deq
  {
    if s.enq == s.deq + s.p {
      SlotPeriod(s.deq, s.p);
      assert ThreadOk(s, s.pushLog[s.deq].0);
    } else {
      assert ThreadOk(s, s.takeLog[s.enq - s.p].0);
      SlotPeriod(s.enq - s.p, s.p);
    }
  }

  /** The item of a push that has no position yet. */
  ghost function ItemOf<T>(pc: Pc<T>): T
    requires Unplaced(pc)
  {
    if pc.PushLoad? || pc.PushCheck? || pc.PushCas? || pc.EvictCount? then pc.item else pc.who.item
  }

  /** What a push does before it has a position: it claims one, evicts, or goes on looking. */
  lemma UnplacedLocal<T>(s: State<T>, pc: Pc<T>)
    requires Shape(s) && s.policy.DropOldest? && Unplaced(pc)
    ensures
      var f := AdvanceEffect(s, pc);
      && (f.claims.Some? <==> pc.PushCas? && pc.pos == s.enq)
      && (f.takes.Some? <==> pc.TakeCas? && pc.pos == s.deq)
      && (f.takes.Some? ==> f.takes.value)
      && (if f.claims.Some? then Publishing(f.pc) && f.claims.value == ItemOf(pc) else Unplaced(f.pc) && ItemOf(f.pc) == ItemOf(pc))
  {
  }

  /** A cell that has moved past the turn of a push is not owned by it. */
  lemma NotOwned<T>(s: State<T>, n: nat)
    requires Inv(s)
    ensures CellAt(s, n).sequence != n ==> !PushOwner(s, n)
  {
    if PushOwner(s, n) {
      assert ThreadOk(s, s.pushLog[n].0);
    }
  }

  /** A step of a push that claims no position leaves it blocked, or not, as it was. */
  lemma BlockedStep<T>(s: State<T>, t: nat)
    requires Inv(s) && s.policy.DropOldest? && t in s.pcs && Unplaced(s.pcs[t])
    requires AdvanceEffect(s, s.pcs[t]).claims.None?
    ensures Blocked(Step(s, t, Advance), t) <==> Blocked(s, t)
  {
    var s' := Step(s, t, Advance);
    UnplacedLocal(s, s.pcs[t]);
    if s.enq >= s.p && s.enq - s.p < s.deq && s.takeLog[s.enq - s.p].0 != t {
      TakeOwnerKept(s, t, s.enq - s.p);
    }
    if s.enq == s.deq + s.p && s.pushLog[s.deq].0 != t {
      PushOwnerKept(s, t, s.deq);
    }
    if AdvanceEffect(s, s.pcs[t]).takes.Some? {
      TakeCasSeesItem(s, t);
      NotOwned(s, s.deq);
    }
  }

  lemma StuckStep<T>(s: State<T>, t: nat)
    requires Inv(s) && Stuck(s, t)
    ensures Stuck(Step(s, t, Advance), t)
  {
    if s.pcs[t].PushStart? {
      StartStep(s, t);
    } else {
      BlockedCell(s, t);
      assert ThreadOk(s, t);
      UnplacedLocal(s, s.pcs[t]);
      BlockedStep(s, t);
    }
  }

  lemma StartStep<T>(s: State<T>, t: nat)
    requires Inv(s) && t in s.pcs && s.pcs[t].PushStart?
    ensures Step(s, t, Advance) == s.(pcs := s.pcs[t := if s.stopped then Idle else PushLoad(s.pcs[t].item)])
    ensures Blocked(Step(s, t, Advance), t) <==> Blocked(s, t)
  {
  }

  /** A stuck push never returns, however long it runs. */
  lemma {:induction false} StuckForever<T>(s: State<T>, t: nat, k: nat)
    requires Inv(s) && Stuck(s, t)
    ensures Inv(Alone(s, t, k)) && Stuck(Alone(s, t, k), t)
    decreases k
  {
    if k == 0 {
    } else {
      StepKeepsInv(s, t, Advance);
      StuckStep(s, t);
      ExecStep(s, t, k);
      StuckForever(Step(s, t, Advance), t, k - 1);
    }
  }

  // ---- Everything else returns ---------------------------------------------

  /** Steps a push has left once it loads the cursor: five when there is room, thirteen when it evicts first. */
  ghost function LoadRank(enq: nat, deq: nat, p: nat): nat {
    if enq < deq + p then 5 else 13
  }

  /** A bound on the steps a thread has left when nothing blocks it. */
  ghost function Rank<T>(pc: Pc<T>, enq: nat, deq: nat, p: nat): nat
  {
    var load := LoadRank(enq, deq, p);
    match pc
    case Idle => 0
    case PushStart(_) => load + 1
    case PushLoad(_) => load
    case PushCheck(_, pos) => if pos == enq then load - 1 else load + 2
    case PushCas(_, pos) => if pos == enq then 3 else load + 1
    case PushWrite(_, _) => 2
    case PushPublish(_, _) => 1
    case PushReject => 1
    case TakeLoad(_) => 11
    case TakeCheck(_, pos) => if pos == deq then 10 else 13
    case TakeCas(_, pos) => if pos == deq then 9 else 12
    case TakeMove(_) => 3
    case TakeReset(who, _, _) => if who.Popper? then 2 else load + 3
    case TakeRelease(who, _, _) => if who.Popper? then 1 else load + 2
    case EvictCount(_) => load + 1
    case SizeCheck(_) => 1
  }

  ghost function RankOf<T>(s: State<T>, t: nat): nat
    requires t in s.pcs
  {
    Rank(s.pcs[t], s.enq, s.deq, s.p)
  }

  const RETURN_BOUND: nat := 16

  /** What a sequence load of a thread that is not stuck tells about the cursors. */
  ghost predicate VerdictOk<T>(s: State<T>, pc: Pc<T>)
    requires Shape(s)
  {
    match pc
    case PushCheck(_, pos) =>
      var seen := CellAt(s, pos).sequence;
      (seen < pos ==> pos == s.enq && (s.policy.DropOldest? ==> s.enq == s.deq + s.p)) && (seen > pos ==> pos != s.enq)
    case TakeCheck(who, pos) =>
      var seen := CellAt(s, pos).sequence;
      (seen < pos + 1 ==> pos == s.deq && (who.Evictor? ==> s.enq < s.deq + s.p)) && (seen > pos + 1 ==> pos != s.deq)
    case _ => true
  }

  lemma VerdictWhenFree<T>(s: State<T>, t: nat)
    requires Inv(s) && PolicyOk(s) && t in s.pcs && !Stuck(s, t)
    ensures VerdictOk(s, s.pcs[t])
  {
    AheadMeansMoved(s, t);
    if s.pcs[t].PushCheck? {
      FullVerdict(s, t);
    } else if s.pcs[t].TakeCheck? {
      EmptyVerdict(s, t);
    }
  }

  lemma RankLocal<T>(s: State<T>, pc: Pc<T>)
    requires Shape(s) && !pc.Idle? && VerdictOk(s, pc) && s.enq <= s.deq + s.p
    ensures
      var f := AdvanceEffect(s, pc);
      Rank(f.pc, s.enq + One(f.claims.Some?), s.deq + One(f.takes.Some?), s.p) < Rank(pc, s.enq, s.deq, s.p)
  {
  }

  lemma RankDrops<T>(s: State<T>, t: nat)
    requires Inv(s) && PolicyOk(s) && t in s.pcs && !s.pcs[t].Idle? && !Stuck(s, t)
    ensures RankOf(Step(s, t, Advance), t) < RankOf(s, t)
  {
    VerdictWhenFree(s, t);
    RankLocal(s, s.pcs[t]);
  }

  /** A thread that has placed its item, or has none, does not start a push by itself. */
  lemma PlacedLocal<T>(s: State<T>, pc: Pc<T>)
    requires Shape(s) && !Unplaced(pc) && !pc.PushStart?
    ensures !Unplaced(AdvanceEffect(s, pc).pc) && !AdvanceEffect(s, pc).pc.PushStart?
  {
  }

  lemma FreePushStep<T>(s: State<T>, t: nat)
    requires Inv(s) && s.policy.DropOldest? && t in s.pcs && Unplaced(s.pcs[t]) && !Blocked(s, t)
    ensures !Stuck(Step(s, t, Advance), t)
  {
    UnplacedLocal(s, s.pcs[t]);
    if AdvanceEffect(s, s.pcs[t]).claims.None? {
      BlockedStep(s, t);
    }
  }

  lemma FreeStaysFree<T>(s: State<T>, t: nat)
    requires Inv(s) && t in s.pcs && !Stuck(s, t)
    ensures !Stuck(Step(s, t, Advance), t)
  {
    if s.policy.DropOldest? {
      if Unplaced(s.pcs[t]) {
        FreePushStep(s, t);
      } else if s.pcs[t].PushStart? {
        StartStep(s, t);
      } else {
        PlacedLocal(s, s.pcs[t]);
      }
    }
  }

  lemma {:induction false} RanDown<T>(s: State<T>, t: nat, k: nat)
    requires Inv(s) && PolicyOk(s) && t in s.pcs && !Stuck(s, t) && k >= RankOf(s, t)
    ensures t in Alone(s, t, k).pcs && Alone(s, t, k).pcs[t].Idle?
    decreases k
  {
    if k == 0 {
    } else {
      StepKeepsInv(s, t, Advance);
      PolicyStep(s, t, Advance);
      FreeStaysFree(s, t);
      ExecStep(s, t, k);
      if !s.pcs[t].Idle? {
        RankDrops(s, t);
      }
      RanDown(Step(s, t, Advance), t, k - 1);
    }
  }

  lemma RankBound<T>(s: State<T>, t: nat)
    requires t in s.pcs
    ensures RankOf(s, t) <= RETURN_BOUND
  {
  }

  /**
   At any point of any run, a thread that runs alone from there on returns if and only if it is not
   stuck, and then within sixteen steps.
   */
  lemma ReturnsIffNotStuck<T>(p: nat, policy: Policy, tids: set<nat>, run: seq<Event<T>>, t: nat)
    requires p >= 2 && t in Reached(p, policy, tids, run).pcs
    ensures
      var s := Reached(p, policy, tids, run);
      && (Returns(s, t) <==> !Stuck(s, t))
      && (!Stuck(s, t) ==> forall k :: k >= RETURN_BOUND ==> t in Alone(s, t, k).pcs && Alone(s, t, k).pcs[t].Idle?)
  {
    var s := Reached(p, policy, tids, run);
    ReachedIsFull(p, policy, tids, run);
    if Stuck(s, t) {
      forall k: nat
        ensures t in Alone(s, t, k).pcs ==> !Alone(s, t, k).pcs[t].Idle?
      {
        StuckForever(s, t, k);
      }
    } else {
      RankBound(s, t);
      forall k: nat | k >= RETURN_BOUND
        ensures t in Alone(s, t, k).pcs && Alone(s, t, k).pcs[t].Idle?
      {
        RanDown(s, t, k);
      }
      assert Alone(s, t, RETURN_BOUND).pcs[t].Idle?;
    }
  }

  // ---- What a lone push evicts ---------------------------------------------

  /** The first position from `n` on that holds no published item. */
  ghost function FrontEnd<T>(s: State<T>, n: nat): (e: nat)
    requires n <= s.enq
    ensures n <= e <= s.enq
    decreases s.enq - n
  {
    if n == s.enq || PushOwner(s, n) then n else FrontEnd(s, n + 1)
  }

  lemma {:induction false} FrontEndKept<T>(s: State<T>, t: nat, n: nat)
    requires Inv(s) && s.policy.DropOldest? && t in s.pcs && Unplaced(s.pcs[t])
    requires AdvanceEffect(s, s.pcs[t]).claims.None? && n <= s.enq
    ensures Step(s, t, Advance).enq == s.enq && FrontEnd(Step(s, t, Advance), n) == FrontEnd(s, n)
    decreases s.enq - n
  {
    UnplacedLocal(s, s.pcs[t]);
    if n == s.enq {
    } else {
      assert PushOwner(Step(s, t, Advance), n) <==> PushOwner(s, n);
      FrontEndKept(s, t, n + 1);
    }
  }

  /** The push is looking for an item to evict. */
  ghost predicate Seeking<T>(pc: Pc<T>) {
    pc.TakeLoad? || pc.TakeCheck? || pc.TakeCas?
  }

  /** Where the front of the ring is once a lone push has evicted all it is going to. */
  ghost function Target<T>(s: State<T>, t: nat): nat
    requires t in s.pcs && s.deq <= s.enq
  {
    if Blocked(s, t) then FrontEnd(s, s.deq)
    else if s.enq == s.deq + s.p || (Seeking(s.pcs[t]) && FrontEnd(s, s.deq) > s.deq) then s.deq + 1
    else s.deq
  }

  /** Evicting the front item moves on to the next position and keeps the end of the published ones. */
  lemma EvictFront<T>(s: State<T>, t: nat)
    requires Inv(s) && t in s.pcs && s.pcs[t].TakeCas? && s.pcs[t].pos == s.deq
    ensures s.deq < s.enq && FrontEnd(s, s.deq) == FrontEnd(s, s.deq + 1)
  {
    TakeCasSeesItem(s, t);
    NotOwned(s, s.deq);
  }

  lemma TargetStep<T>(s: State<T>, t: nat)
    requires Inv(s) && PolicyOk(s) && s.policy.DropOldest? && t in s.pcs && Unplaced(s.pcs[t])
    requires AdvanceEffect(s, s.pcs[t]).claims.None?
    ensures Inv(Step(s, t, Advance)) && Target(Step(s, t, Advance), t) == Target(s, t)
  {
    var f := AdvanceEffect(s, s.pcs[t]);
    StepKeepsInv(s, t, Advance);
    UnplacedLocal(s, s.pcs[t]);
    BlockedStep(s, t);
    FrontEndKept(s, t, s.deq);
    if f.takes.Some? {
      EvictFront(s, t);
      FrontEndKept(s, t, s.deq + 1);
    } else if !Blocked(s, t) && s.enq < s.deq + s.p {
      SeekingStep(s, t);
    }
  }

  /** A push that is not blocked starts to evict on a full lap only, and gives up only without an item. */
  lemma SeekingStep<T>(s: State<T>, t: nat)
    requires Inv(s) && PolicyOk(s) && s.policy.DropOldest? && t in s.pcs && Unplaced(s.pcs[t]) && !Blocked(s, t)
    requires AdvanceEffect(s, s.pcs[t]).takes.None? && s.enq < s.deq + s.p
    ensures Seeking(AdvanceEffect(s, s.pcs[t]).pc) ==> Seeking(s.pcs[t])
    ensures Seeking(s.pcs[t]) && !Seeking(AdvanceEffect(s, s.pcs[t]).pc) ==> FrontEnd(s, s.deq) == s.deq
  {
    VerdictWhenFree(s, t);
    if s.pcs[t].TakeCheck? {
      EmptyVerdict(s, t);
    }
  }

  lemma AloneLast<T>(s: State<T>, t: nat, k: nat)
    requires Shape(s) && k > 0
    ensures Alone(s, t, k) == Step(Alone(s, t, k - 1), t, Advance)
  {
    assert Steps<T>(t, k) == Steps(t, k - 1) + [Event(t, Advance)];
    ExecAppend(s, Steps(t, k - 1), [Event(t, Advance)]);
  }

  /** What a lone push has done since state `s`: nothing but evict, or placed its item after evicting all it had to. */
  ghost predicate Books<T>(s: State<T>, s': State<T>, t: nat)
    requires t in s.pcs && Unplaced(s.pcs[t]) && s.deq <= s.enq
  {
    && t in s'.pcs && s'.pcs == s.pcs[t := s'.pcs[t]] && s'.stopped == s.stopped && s'.delivered == s.delivered
    && s.deq <= s'.deq <= s'.enq
    && s'.dropped + One(Uncounted(s'.pcs[t])) == s.dropped + One(Uncounted(s.pcs[t])) + (s'.deq - s.deq)
    && if Unplaced(s'.pcs[t]) then
         && ItemOf(s'.pcs[t]) == ItemOf(s.pcs[t]) && s'.enq == s.enq && s'.pushLog == s.pushLog
         && Target(s', t) == Target(s, t) && (Blocked(s', t) <==> Blocked(s, t))
       else
         && (Publishing(s'.pcs[t]) || s'.pcs[t].Idle?) && !Blocked(s, t)
         && s'.pushLog == s.pushLog + [(t, ItemOf(s.pcs[t]))] && s'.deq == Target(s, t)
  }

  /** The step in which a push claims its position: it was not blocked and had nothing left to evict. */
  lemma ClaimEnds<T>(s: State<T>, t: nat)
    requires Inv(s) && s.policy.DropOldest? && t in s.pcs && s.pcs[t].PushCas? && s.pcs[t].pos == s.enq
    ensures !Blocked(s, t) && Target(s, t) == s.deq
  {
    PushCasSeesFreeCell(s, t);
    if Blocked(s, t) {
      BlockedCell(s, t);
    }
  }

  lemma BooksStep<T>(s: State<T>, t: nat)
    requires Inv(s) && PolicyOk(s) && s.policy.DropOldest? && t in s.pcs && Unplaced(s.pcs[t])
    ensures Books(s, Step(s, t, Advance), t)
  {
    var f := AdvanceEffect(s, s.pcs[t]);
    UnplacedLocal(s, s.pcs[t]);
    Balance(s, s.pcs[t], Advance);
    PolicyLocal(s, s.pcs[t], Advance);
    StepKeepsInv(s, t, Advance);
    if f.claims.Some? {
      ClaimEnds(s, t);
    } else {
      TargetStep(s, t);
      BlockedStep(s, t);
    }
  }

  lemma BooksOn<T>(s: State<T>, s1: State<T>, s2: State<T>, t: nat)
    requires t in s.pcs && Unplaced(s.pcs[t]) && s.deq <= s.enq
    requires Books(s, s1, t) && Unplaced(s1.pcs[t]) && Books(s1, s2, t)
    ensures Books(s, s2, t)
  {
    assert s2.pcs == s.pcs[t := s2.pcs[t]];
  }

  lemma PlacedLocalBooks<T>(s: State<T>, pc: Pc<T>)
    requires Shape(s) && (Publishing(pc) || pc.Idle?)
    ensures
      var f := AdvanceEffect(s, pc);
      && (Publishing(f.pc) || f.pc.Idle?) && f.claims.None? && f.takes.None? && f.delivers.None? && f.dropped == 0 && !f.stops
  {
  }

  lemma BooksPlaced<T>(s: State<T>, s': State<T>, t: nat)
    requires t in s.pcs && Unplaced(s.pcs[t]) && s.deq <= s.enq && Shape(s')
    requires Books(s, s', t) && !Unplaced(s'.pcs[t])
    ensures Books(s, Step(s', t, Advance), t)
  {
    PlacedLocalBooks(s', s'.pcs[t]);
    assert Step(s', t, Advance).pcs == s.pcs[t := Step(s', t, Advance).pcs[t]];
  }

  /** The books of a lone push balance after any number of its steps. */
  lemma {:induction false} BooksAlone<T>(s: State<T>, t: nat, k: nat)
    requires Inv(s) && PolicyOk(s) && s.policy.DropOldest? && t in s.pcs && Unplaced(s.pcs[t])
    ensures Inv(Alone(s, t, k)) && PolicyOk(Alone(s, t, k)) && Books(s, Alone(s, t, k), t)
    decreases k
  {
    if k == 0 {
      assert s.pcs[t := s.pcs[t]] == s.pcs;
    } else {
      var s' := Alone(s, t, k - 1);
      BooksAlone(s, t, k - 1);
      AloneLast(s, t, k);
      StepKeepsInv(s', t, Advance);
      PolicyStep(s', t, Advance);
      if Unplaced(s'.pcs[t]) {
        BooksStep(s', t);
        BooksOn(s, s', Alone(s, t, k), t);
      } else {
        BooksPlaced(s, s', t);
      }
    }
  }

  /** Steps a blocked push takes to its next eviction, when there is one left. */
  ghost function Turn<T>(pc: Pc<T>, enq: nat, deq: nat): nat
  {
    match pc
    case TakeCas(_, pos) => if pos == deq then 1 else 4
    case TakeCheck(_, pos) => if pos == deq then 2 else 5
    case TakeLoad(_) => 3
    case PushCheck(_, pos) => if pos == enq then 4 else 7
    case PushLoad(_) => 5
    case PushCas(_, _) => 6
    case EvictCount(_) => 6
    case TakeRelease(_, _, _) => 7
    case TakeReset(_, _, _) => 8
    case _ => 0
  }

  const ROUND: nat := 9

  /** A bound on the steps after which a blocked push has evicted all it is going to. */
  ghost function TurnsLeft<T>(s: State<T>, t: nat): nat
    requires t in s.pcs && s.deq <= s.enq
  {
    ROUND * (FrontEnd(s, s.deq) - s.deq) + Turn(s.pcs[t], s.enq, s.deq)
  }

  /** What the sequence loads of a blocked push show while the front item is published. */
  ghost predicate RoundOk<T>(s: State<T>, pc: Pc<T>)
    requires Shape(s)
  {
    match pc
    case PushCheck(_, pos) => pos == s.enq <==> CellAt(s, pos).sequence < pos
    case PushCas(_, pos) => pos != s.enq
    case TakeCheck(_, pos) => CellAt(s, pos).sequence >= pos + 1 && (CellAt(s, pos).sequence > pos + 1 ==> pos != s.deq)
    case _ => true
  }

  lemma RoundVerdict<T>(s: State<T>, t: nat)
    requires Inv(s) && Stuck(s, t) && FrontEnd(s, s.deq) > s.deq
    ensures RoundOk(s, s.pcs[t])
  {
    BlockedCell(s, t);
    AheadMeansMoved(s, t);
    assert ThreadOk(s, t);
    if s.pcs[t].PushCheck? {
      FullVerdict(s, t);
    } else if s.pcs[t].TakeCheck? {
      EmptyVerdict(s, t);
    }
  }

  lemma TurnLocal<T>(s: State<T>, pc: Pc<T>)
    requires Shape(s) && s.policy.DropOldest? && Unplaced(pc) && RoundOk(s, pc)
    ensures
      var f := AdvanceEffect(s, pc);
      Turn(f.pc, s.enq, s.deq + One(f.takes.Some?)) < Turn(pc, s.enq, s.deq) + if f.takes.Some? then ROUND else 0
  {
  }

  lemma TurnsDrop<T>(s: State<T>, t: nat)
    requires Inv(s) && Stuck(s, t) && Unplaced(s.pcs[t]) && FrontEnd(s, s.deq) > s.deq
    ensures Inv(Step(s, t, Advance)) && t in Step(s, t, Advance).pcs
    ensures TurnsLeft(Step(s, t, Advance), t) < TurnsLeft(s, t)
  {
    RoundVerdict(s, t);
    TurnLocal(s, s.pcs[t]);
    UnplacedLocal(s, s.pcs[t]);
    StepKeepsInv(s, t, Advance);
    FrontEndKept(s, t, s.deq);
    if AdvanceEffect(s, s.pcs[t]).takes.Some? {
      EvictFront(s, t);
      FrontEndKept(s, t, s.deq + 1);
    }
  }

  lemma NothingToEvict<T>(s: State<T>, t: nat, k: nat)
    requires Inv(s) && PolicyOk(s) && Stuck(s, t) && Unplaced(s.pcs[t]) && FrontEnd(s, s.deq) == s.deq
    ensures Alone(s, t, k).deq == s.deq
  {
    BooksAlone(s, t, k);
  }

  lemma StuckUnplaced<T>(s: State<T>, t: nat)
    requires Inv(s) && PolicyOk(s) && Stuck(s, t) && Unplaced(s.pcs[t])
    ensures
      var s' := Step(s, t, Advance);
      && Stuck(s', t) && Unplaced(s'.pcs[t]) && s'.deq <= s'.enq == s.enq
      && FrontEnd(s', s'.deq) == FrontEnd(s, s.deq)
  {
    StuckStep(s, t);
    BooksStep(s, t);
  }

  /** A blocked push that will have evicted everything in front of `end`. */
  ghost predicate Evicting<T>(s: State<T>, t: nat, end: nat) {
    && Inv(s) && PolicyOk(s) && Stuck(s, t) && Unplaced(s.pcs[t])
    && FrontEnd(s, s.deq) == end
  }

  lemma RoundStep<T>(s: State<T>, t: nat, end: nat)
    requires Evicting(s, t, end) && s.deq < end
    ensures Evicting(Step(s, t, Advance), t, end) && TurnsLeft(Step(s, t, Advance), t) < TurnsLeft(s, t)
  {
    TurnsDrop(s, t);
    StuckUnplaced(s, t);
    PolicyStep(s, t, Advance);
  }

  /** A blocked push ends up with every published item in front evicted. */
  lemma {:induction false} EvictsTheFront<T>(s: State<T>, t: nat, end: nat, k: nat)
    requires Evicting(s, t, end) && k >= TurnsLeft(s, t)
    ensures Alone(s, t, k).deq == end
    decreases k
  {
    if s.deq == end {
      NothingToEvict(s, t, k);
    } else {
      RoundStep(s, t, end);
      ExecStep(s, t, k);
      EvictsTheFront(Step(s, t, Advance), t, end, k - 1);
    }
  }

  /** How many items a push evicts if it runs alone from its call on. */
  ghost function Evictions<T>(s: State<T>, t: nat): nat
    requires s.deq <= s.enq
  {
    if Blocked(s, t) then FrontEnd(s, s.deq) - s.deq else One(s.enq == s.deq + s.p)
  }

  /** The call and the stop check change nothing but the program counter. */
  lemma CallSteps<T>(s: State<T>, t: nat, x: T)
    requires Shape(s) && t in s.pcs && s.pcs[t].Idle? && !s.stopped
    ensures Step(Step(s, t, CallPush(x)), t, Advance) == s.(pcs := s.pcs[t := PushLoad(x)])
  {
    assert s.pcs[t := PushStart(x)][t := PushLoad(x)] == s.pcs[t := PushLoad(x)];
  }

  lemma CallAlone<T>(s: State<T>, t: nat, x: T, k: nat)
    requires Inv(s) && PolicyOk(s) && t in s.pcs && s.pcs[t].Idle? && !s.stopped && k > 0
    ensures
      var s1 := s.(pcs := s.pcs[t := PushLoad(x)]);
      && Inv(s1) && PolicyOk(s1)
      && Exec(s, [Event(t, CallPush(x))] + Steps(t, k)) == Alone(s1, t, k - 1)
  {
    var s0 := Step(s, t, CallPush(x));
    StepKeepsInv(s, t, CallPush(x));
    PolicyStep(s, t, CallPush(x));
    StepKeepsInv(s0, t, Advance);
    PolicyStep(s0, t, Advance);
    CallSteps(s, t, x);
    CallExec(s, t, x, k);
    ExecStep(s0, t, k);
  }

  lemma CallExec<T>(s: State<T>, t: nat, x: T, k: nat)
    requires Shape(s)
    ensures Exec(s, [Event(t, CallPush(x))] + Steps(t, k)) == Alone(Step(s, t, CallPush(x)), t, k)
  {
    assert ([Event(t, CallPush(x))] + Steps(t, k))[1..] == Steps(t, k);
  }

  lemma {:induction false} FrontEndSame<T>(s: State<T>, s': State<T>, t: nat, n: nat)
    requires Inv(s) && t in s.pcs && s.pcs[t].Idle? && s' == s.(pcs := s'.pcs) && t in s'.pcs
    requires s'.pcs == s.pcs[t := s'.pcs[t]] && Unplaced(s'.pcs[t]) && n <= s.enq
    ensures FrontEnd(s', n) == FrontEnd(s, n)
    decreases s.enq - n
  {
    if n == s.enq {
    } else {
      assert PushOwner(s', n) <==> PushOwner(s, n);
      FrontEndSame(s, s', t, n + 1);
    }
  }

  /** A push about to load the cursor is as blocked as its idle caller, and has the same items to evict. */
  lemma CallTarget<T>(s: State<T>, t: nat, x: T)
    requires Inv(s) && t in s.pcs && s.pcs[t].Idle?
    ensures
      var s1 := s.(pcs := s.pcs[t := PushLoad(x)]);
      (Blocked(s1, t) <==> Blocked(s, t)) && Target(s1, t) == s.deq + Evictions(s, t)
  {
    FrontEndSame(s, s.(pcs := s.pcs[t := PushLoad(x)]), t, s.deq);
  }

  /** What a push that runs alone from its load of the cursor on does, whether blocked or not. */
  lemma LonePush<T>(s: State<T>, t: nat, k: nat)
    requires Inv(s) && PolicyOk(s) && s.policy.DropOldest? && t in s.pcs && s.pcs[t].PushLoad?
    requires k >= if Blocked(s, t) then ROUND * (Target(s, t) - s.deq) + 5 else LoadRank(s.enq, s.deq, s.p)
    ensures
      var s' := Alone(s, t, k);
      && Inv(s') && PolicyOk(s') && Books(s, s', t) && s'.deq == Target(s, t)
      && (if Blocked(s, t) then Unplaced(s'.pcs[t]) else s'.pcs[t].Idle?)
  {
    BooksAlone(s, t, k);
    if Blocked(s, t) {
      EvictsTheFront(s, t, Target(s, t), k);
    } else {
      RanDown(s, t, k);
    }
  }

  /** Where a push that ran alone from its call in state `s` has got to. */
  ghost predicate Ended<T>(s: State<T>, s': State<T>, t: nat, x: T)
    requires s.deq <= s.enq
  {
    && t in s'.pcs && s'.pcs == s.pcs[t := s'.pcs[t]] && s'.stopped == s.stopped && s'.delivered == s.delivered
    && s'.deq == s.deq + Evictions(s, t) && s'.dropped + One(Uncounted(s'.pcs[t])) == s.dropped + Evictions(s, t)
    && if Blocked(s, t) then !s'.pcs[t].Idle? && s'.pushLog == s.pushLog
       else s'.pcs[t].Idle? && s'.pushLog == s.pushLog + [(t, x)]
  }

  lemma BooksEnd<T>(s: State<T>, s1: State<T>, s': State<T>, t: nat, x: T)
    requires t in s.pcs && s.deq <= s.enq && s1 == s.(pcs := s.pcs[t := PushLoad(x)])
    requires Target(s1, t) == s.deq + Evictions(s, t) && (Blocked(s1, t) <==> Blocked(s, t))
    requires Books(s1, s', t) && s'.deq == Target(s1, t) && (if Blocked(s, t) then Unplaced(s'.pcs[t]) else s'.pcs[t].Idle?)
    ensures Ended(s, s', t, x)
  {
    assert s'.pcs == s.pcs[t := s'.pcs[t]];
  }

  lemma LonePushCall<T>(s: State<T>, t: nat, x: T, k: nat)
    requires Inv(s) && PolicyOk(s) && s.policy.DropOldest? && t in s.pcs && s.pcs[t].Idle? && !s.stopped
    requires k >= if Blocked(s, t) then ROUND * Evictions(s, t) + 6 else LoadRank(s.enq, s.deq, s.p) + 1
    ensures
      var s' := Exec(s, [Event(t, CallPush(x))] + Steps(t, k));
      Inv(s') && PolicyOk(s') && Ended(s, s', t, x)
  {
    var s1 := s.(pcs := s.pcs[t := PushLoad(x)]);
    CallAlone(s, t, x, k);
    CallTarget(s, t, x);
    LonePush(s1, t, k - 1);
    BooksEnd(s, s1, Alone(s1, t, k - 1), t, x);
  }

  /** Steps after which a lone push has returned, or has evicted all it is going to. */
  ghost function LoneBound<T>(s: State<T>, t: nat): nat
    requires s.deq <= s.enq
  {
    if Blocked(s, t) then ROUND * Evictions(s, t) + 6 else LoadRank(s.enq, s.deq, s.p) + 1
  }

  /**
   In every run: a DropOldest push called by a thread that then runs alone returns if and only if no
   other thread is inside the cell it needs.  If it returns it has evicted one item on a full lap and
   none otherwise; if not, it throws away every published item in front and places nothing.
   */
  lemma LonePushEvicts<T>(p: nat, tids: set<nat>, run: seq<Event<T>>, t: nat, x: T, k: nat)
    requires p >= 2 && t in Reached(p, DropOldest, tids, run).pcs
    requires Reached(p, DropOldest, tids, run).pcs[t].Idle? && !Reached(p, DropOldest, tids, run).stopped
    ensures
      var s := Reached(p, DropOldest, tids, run);
      && s.deq <= s.enq
      && (k >= LoneBound(s, t) ==> Ended(s, Reached(p, DropOldest, tids, run + ([Event(t, CallPush(x))] + Steps(t, k))), t, x))
  {
    var s := Reached(p, DropOldest, tids, run);
    ReachedIsFull(p, DropOldest, tids, run);
    ExecAppend(Init<T>(p, DropOldest, tids), run, [Event(t, CallPush(x))] + Steps(t, k));
    if k >= LoneBound(s, t) {
      LonePushCall(s, t, x, k);
    }
  }

  /** The only thread of a ring always returns. */
  lemma OnlyThreadReturns<T>(p: nat, policy: Policy, run: seq<Event<T>>, t: nat)
    requires p >= 2
    ensures
      var s := Reached(p, policy, {t}, run);
      t in s.pcs && Returns(s, t)
  {
    var s := Reached(p, policy, {t}, run);
    OwnLogs(Init<T>(p, policy, {t}), run, t);
    ThreadsKept(Init<T>(p, policy, {t}), run);
    ReturnsIffNotStuck(p, policy, {t}, run, t);
  }

  lemma {:induction false} ThreadsKept<T>(s: State<T>, run: seq<Event<T>>)
    requires Shape(s)
    ensures Exec(s, run).pcs.Keys == s.pcs.Keys
    decreases |run|
  {
    if run == [] {
    } else {
      ThreadsKept(Step(s, run[0].tid, run[0].action), run[1..]);
    }
  }

  // ---- The thread that holds a push up -------------------------------------

  ghost function Holder<T>(s: State<T>, t: nat): nat
    requires Blocked(s, t)
  {
    if s.enq >= s.p && TakeOwner(s, s.enq - s.p) && s.takeLog[s.enq - s.p].0 != t then s.takeLog[s.enq - s.p].0
    else s.pushLog[s.deq].0
  }

  /** Steps a thread has left inside its cell. */
  ghost function StepsInside<T>(pc: Pc<T>): nat
  {
    match pc
    case PushWrite(_, _) => 2
    case PushPublish(_, _) => 1
    case TakeMove(_) => 3
    case TakeReset(_, _, _) => 2
    case TakeRelease(_, _, _) => 1
    case _ => 0
  }

  lemma InsideLocal<T>(s: State<T>, pc: Pc<T>)
    requires Shape(s) && !OwnsNothing(pc)
    ensures
      var f := AdvanceEffect(s, pc);
      && StepsInside(f.pc) < StepsInside(pc) && f.claims.None? && f.takes.None?
      && (forall n :: TakesAt(f.pc, n) ==> TakesAt(pc, n)) && (forall n :: PushesAt(f.pc, n) ==> PushesAt(pc, n))
  {
  }

  lemma HolderStep<T>(s: State<T>, t: nat)
    requires Inv(s) && Stuck(s, t)
    ensures
      var u := Holder(s, t);
      var s' := Step(s, u, Advance);
      && u != t && u in s.pcs && u in s'.pcs && 0 < StepsInside(s.pcs[u]) <= 3
      && (Stuck(s', t) ==> Holder(s', t) == u && StepsInside(s'.pcs[u]) < StepsInside(s.pcs[u]))
  {
    InsideLocal(s, s.pcs[Holder(s, t)]);
  }

  lemma {:induction false} HolderLeaves<T>(s: State<T>, t: nat) returns (n: nat)
    requires Inv(s) && Stuck(s, t)
    ensures 0 < n <= StepsInside(s.pcs[Holder(s, t)]) && !Stuck(Alone(s, Holder(s, t), n), t)
    decreases StepsInside(s.pcs[Holder(s, t)])
  {
    var u := Holder(s, t);
    var s' := Step(s, u, Advance);
    HolderStep(s, t);
    StepKeepsInv(s, u, Advance);
    if Stuck(s', t) {
      n := HolderLeaves(s', t);
      n := n + 1;
    } else {
      n := 1;
    }
    ExecStep(s, u, n);
  }

  /**
   In every run a stuck push is held up by one other thread, and at most three steps of that thread
   set it free: from there it returns if it runs alone.
   */
  lemma OneThreadHoldsItUp<T>(p: nat, policy: Policy, tids: set<nat>, run: seq<Event<T>>, t: nat) returns (u: nat, n: nat)
    requires p >= 2 && Stuck(Reached(p, policy, tids, run), t)
    ensures u != t && 0 < n <= 3
    ensures
      var s := Reached(p, policy, tids, run + Steps(u, n));
      t in s.pcs && Returns(s, t)
  {
    var s := Reached(p, policy, tids, run);
    ReachedIsFull(p, policy, tids, run);
    u := Holder(s, t);
    HolderStep(s, t);
    n := HolderLeaves(s, t);
    ExecAppend(Init<T>(p, policy, tids), run, Steps(u, n));
    ThreadsKept(s, Steps(u, n));
    ReturnsIffNotStuck(p, policy, tids, run + Steps(u, n), t);
  }

  lemma CallIsStuck<T>(s: State<T>, t: nat, x: T, k: nat)
    requires Inv(s) && s.policy.DropOldest? && t in s.pcs && s.pcs[t].Idle? && !s.stopped && Blocked(s, t)
    ensures Stuck(Exec(s, [Event(t, CallPush(x))] + Steps(t, k)), t)
  {
    StepKeepsInv(s, t, CallPush(x));
    CallExec(s, t, x, k);
    StuckForever(Step(s, t, CallPush(x)), t, k);
  }

  // ---- A run that strands a push -------------------------------------------

  /** Thread 0 pushes the items one after the other. */
  ghost function Fill<T>(items: seq<T>): seq<Event<T>>
  {
    if items == [] then [] else Fill(items[..|items| - 1]) + PushAlone(0, items[|items| - 1])
  }

  /** Thread 1 starts to pop, claims the front position and stops there. */
  ghost function StalledPop<T>(): seq<Event<T>>
  {
    [Event(1, CallPop)] + Steps(1, 3)
  }

  ghost predicate Filled<T>(s: State<T>, n: nat) {
    && Inv(s) && PolicyOk(s) && s.policy.DropOldest? && !s.stopped
    && s.pcs == map[0 := Idle, 1 := Idle] && s.enq == n && s.deq == 0 && s.dropped == 0 && s.delivered == []
  }

  lemma FillOne<T>(s: State<T>, n: nat, x: T)
    requires Filled(s, n) && n < s.p
    ensures Filled(Exec(s, PushAlone(0, x)), n + 1)
  {
    LonePushCall(s, 0, x, 6);
  }

  lemma {:induction false} FillRuns<T>(p: nat, items: seq<T>)
    requires 2 <= p && |items| <= p
    ensures Filled(Reached(p, DropOldest, {0, 1}, Fill(items)), |items|)
    decreases |items|
  {
    var s := Init<T>(p, DropOldest, {0, 1});
    if items == [] {
      InitInv<T>(p, DropOldest, {0, 1});
    } else {
      var init, x := items[..|items| - 1], items[|items| - 1];
      FillRuns(p, init);
      ExecAppend(s, Fill(init), PushAlone(0, x));
      FillOne(Reached(p, DropOldest, {0, 1}, Fill(init)), |init|, x);
    }
  }

  ghost function PopperAt<T>(s: State<T>, pc: Pc<T>): State<T> {
    s.(pcs := map[0 := Idle, 1 := pc])
  }

  lemma PopperMoves<T>(s: State<T>, pc: Pc<T>, pc': Pc<T>)
    requires Shape(s)
    ensures Apply(PopperAt(s, pc), 1, Goto(pc')) == PopperAt(s, pc')
  {
    assert PopperAt(s, pc).pcs[1 := pc'] == PopperAt(s, pc').pcs;
  }

  lemma PopLooks<T>(s: State<T>)
    requires Shape(s) && s.deq == 0 && CellAt(s, 0).sequence == 1
    ensures Step(PopperAt(s, Idle), 1, CallPop) == PopperAt(s, TakeLoad(Popper))
    ensures Step(PopperAt(s, TakeLoad(Popper)), 1, Advance) == PopperAt(s, TakeCheck(Popper, 0))
    ensures Step(PopperAt(s, TakeCheck(Popper, 0)), 1, Advance) == PopperAt(s, TakeCas(Popper, 0))
  {
    PopperMoves(s, Idle, TakeLoad(Popper));
    PopperMoves(s, TakeLoad(Popper), TakeCheck(Popper, 0));
    PopperMoves(s, TakeCheck(Popper, 0), TakeCas(Popper, 0));
  }

  lemma PopClaims<T>(s: State<T>)
    requires Shape(s) && s.deq == 0
    ensures
      Step(PopperAt(s, TakeCas(Popper, 0)), 1, Advance) ==
      PopperAt(s, TakeMove(0)).(deq := 1, takeLog := s.takeLog + [(1, false)])
  {
    assert PopperAt(s, TakeCas(Popper, 0)).pcs[1 := TakeMove(0)] == PopperAt(s, TakeMove(0)).pcs;
  }

  lemma PopStalls<T>(s: State<T>)
    requires Shape(s) && s.pcs == map[0 := Idle, 1 := Idle] && s.deq == 0 && CellAt(s, 0).sequence == 1
    ensures Exec(s, StalledPop()) == PopperAt(s, TakeMove(0)).(deq := 1, takeLog := s.takeLog + [(1, false)])
  {
    assert PopperAt(s, Idle) == s;
    assert StalledPop<T>()[1..] == Steps(1, 3);
    PopLooks(s);
    PopClaims(s);
    ExecStep(PopperAt(s, TakeLoad(Popper)), 1, 3);
    ExecStep(PopperAt(s, TakeCheck(Popper, 0)), 1, 2);
    ExecStep(PopperAt(s, TakeCas(Popper, 0)), 1, 1);
  }

  lemma FilledFront<T>(s: State<T>)
    requires Filled(s, s.p)
    ensures CellAt(s, 0).sequence == 1
  {
    assert CellOk(s, 0);
  }

  lemma {:induction false} AllPublished<T>(s: State<T>, n: nat)
    requires s.pcs == map[0 := Idle, 1 := TakeMove(0)] && n <= s.enq
    ensures FrontEnd(s, n) == s.enq
    decreases s.enq - n
  {
    if n == s.enq {
    } else {
      AllPublished(s, n + 1);
    }
  }

  /** The ring has been filled and a pop stands still in the front cell. */
  ghost predicate Stalled<T>(s: State<T>) {
    && Inv(s) && PolicyOk(s) && s.policy.DropOldest? && !s.stopped && s.pcs == map[0 := Idle, 1 := TakeMove(0)]
    && s.enq == s.p && s.deq == 1 && s.dropped == 0 && s.delivered == [] && Blocked(s, 0)
  }

  lemma StalledState<T>(p: nat, items: seq<T>)
    requires 2 <= p == |items|
    ensures Stalled(Reached(p, DropOldest, {0, 1}, Fill(items) + StalledPop()))
  {
    var s0 := Reached(p, DropOldest, {0, 1}, Fill(items));
    FillRuns(p, items);
    ExecAppend(Init<T>(p, DropOldest, {0, 1}), Fill(items), StalledPop());
    FilledFront(s0);
    PopStalls(s0);
    ReachedIsFull(p, DropOldest, {0, 1}, Fill(items) + StalledPop());
    assert TakeOwner(Reached(p, DropOldest, {0, 1}, Fill(items) + StalledPop()), 0);
  }

  lemma StrandedPush<T>(s: State<T>, x: T, k: nat)
    requires Stalled(s) && k >= ROUND * (s.p - 1) + 6
    ensures
      var s' := Exec(s, [Event(0, CallPush(x))] + Steps(0, k));
      && 0 in s'.pcs && s'.enq == s'.deq == s.p && s'.delivered == []
      && s'.dropped + One(Uncounted(s'.pcs[0])) == s.p - 1
  {
    AllPublished(s, 1);
    LonePushCall(s, 0, x, k);
  }

  /**
   For every ring of two or more cells under DropOldest: thread 0 fills the ring, a pop by thread 1
   stops inside the front cell, and thread 0 pushes once more.  That push throws away all the other
   items, places nothing and never returns, however many steps it takes.
   */
  lemma StalledPopStrandsPush<T>(p: nat, items: seq<T>, x: T, k: nat)
    requires 2 <= p == |items|
    ensures
      var run := Fill(items) + StalledPop() + ([Event(0, CallPush(x))] + Steps(0, k));
      var s := Reached(p, DropOldest, {0, 1}, run);
      && 0 in s.pcs && !s.pcs[0].Idle?
      && (k >= ROUND * (p - 1) + 6 ==>
            s.enq == s.deq == p && s.delivered == [] && s.dropped + One(Uncounted(s.pcs[0])) == p - 1)
  {
    var s := Reached(p, DropOldest, {0, 1}, Fill(items) + StalledPop());
    StalledState(p, items);
    ExecAppend(Init<T>(p, DropOldest, {0, 1}), Fill(items) + StalledPop(), [Event(0, CallPush(x))] + Steps(0, k));
    CallIsStuck(s, 0, x, k);
    if k >= ROUND * (p - 1) + 6 {
      StrandedPush(s, x, k);
    }
  }
}
