/**
 What the calls of the lock-free ring answer, step by step in every run: a pop that comes back
 empty-handed, a push that is refused, a push that is accepted, and the size.
 */
module RingAnswers {
  import opened RingProtocol
  import opened RingTheorems
  import opened RingProgress
  import opened RingAlone

  /** The thread is inside a `try_pop`. */
  ghost predicate InPop<T>(pc: Pc<T>) {
    || pc.TakeMove?
    || ((pc.TakeLoad? || pc.TakeCheck? || pc.TakeCas? || pc.TakeReset? || pc.TakeRelease?) && pc.who.Popper?)
  }

  /** The thread is inside a push of `item`, or on its way out after placing it. */
  ghost predicate InPush<T>(pc: Pc<T>, item: T) {
    || (pc.PushStart? && pc.item == item)
    || (Unplaced(pc) && ItemOf(pc) == item)
    || (Publishing(pc) && pc.item == item)
  }

  /** Nothing can be taken: the ring is empty, or the push of its front item is not published. */
  ghost predicate NothingToTake<T>(s: State<T>) {
    s.deq == s.enq || PushOwner(s, s.deq)
  }

  /** Nothing can be pushed: the ring is full, or the cell of the next position is not released. */
  ghost predicate NoRoom<T>(s: State<T>) {
    s.enq == s.deq + s.p || (s.enq >= s.p && TakeOwner(s, s.enq - s.p))
  }

  // ---- Pops ----------------------------------------------------------------

  /** Only a look at the front cell that finds nothing to take ends a pop without an item. */
  lemma PopStep<T>(s: State<T>, t: nat, a: Action<T>)
    requires Inv(s) && t in s.pcs && InPop(s.pcs[t])
    ensures
      var s' := Step(s, t, a);
      if InPop(s'.pcs[t]) then s'.delivered == s.delivered
      else
        && s'.pcs[t].Idle?
        && if s'.delivered == s.delivered then NothingToTake(s) && s.pcs[t] == TakeCheck(Popper, s.deq)
           else |s'.delivered| == |s.delivered| + 1 && s'.delivered[..|s.delivered|] == s.delivered
  {
    assert ThreadOk(s, t);
    if s.pcs[t].TakeCheck? {
      EmptyVerdict(s, t);
    }
  }

  /** In particular for every look at the front: with something to take, the pop goes on; without, it ends. */
  lemma PopLooks<T>(s: State<T>, t: nat)
    requires Inv(s) && t in s.pcs && s.pcs[t] == TakeCheck(Popper, s.deq)
    ensures
      var s' := Step(s, t, Advance);
      if NothingToTake(s) then s'.pcs[t].Idle? && s'.delivered == s.delivered else s'.pcs[t] == TakeCas(Popper, s.deq)
  {
    EmptyVerdict(s, t);
    AheadMeansMoved(s, t);
  }

  // ---- Pushes --------------------------------------------------------------

  /** The push of `item` by thread `t` has been published. */
  ghost predicate Published<T>(s: State<T>, t: nat, item: T, n: nat)
    requires Shape(s)
  {
    n < |s.pushLog| && s.pushLog[n] == (t, item) && CellAt(s, n) == Cell(n + 1, Holds(item))
  }

  /**
   A push comes back with its item published, or refused by a stopped queue; under DropNew it turns
   to refusing only after a look at a ring without room.
   */
  lemma PushStep<T>(s: State<T>, t: nat, a: Action<T>, item: T)
    requires Inv(s) && t in s.pcs && InPush(s.pcs[t], item)
    ensures
      var s' := Step(s, t, a);
      if InPush(s'.pcs[t], item) then s'.accepted == s.accepted && s'.rejected == s.rejected
      else if s'.pcs[t].PushReject? then
        && s.policy.DropNew? && NoRoom(s) && s.pcs[t] == PushCheck(item, s.enq)
        && s'.accepted == s.accepted && s'.rejected == s.rejected + 1 && s'.pushLog == s.pushLog
      else
        && s'.pcs[t].Idle?
        && if s'.accepted == s.accepted then s.stopped && s.pcs[t].PushStart? && s'.pushLog == s.pushLog
           else s'.accepted == s.accepted + 1 && s.pcs[t].PushPublish? && Published(s', t, item, s.pcs[t].pos)
  {
    assert ThreadOk(s, t);
    if s.pcs[t].PushCheck? {
      FullVerdict(s, t);
    }
  }

  /** A refused push counts itself and leaves; nothing was placed. */
  lemma RejectStep<T>(s: State<T>, t: nat, a: Action<T>)
    requires Shape(s) && t in s.pcs && s.pcs[t].PushReject?
    ensures
      var s' := Step(s, t, a);
      && s'.accepted == s.accepted && s'.pushLog == s.pushLog && s'.cells == s.cells
      && if a.Advance? then s'.pcs[t].Idle? && s'.dropped == s.dropped + 1
         else s'.pcs[t].PushReject? && s'.dropped == s.dropped
  {
  }

  /** A look at the cell of the next position: without room it refuses or evicts, with room it claims. */
  lemma PushLooks<T>(s: State<T>, t: nat, item: T)
    requires Inv(s) && t in s.pcs && s.pcs[t] == PushCheck(item, s.enq)
    ensures
      Step(s, t, Advance).pcs[t] ==
      if !NoRoom(s) then PushCas(item, s.enq) else if s.policy.DropNew? then PushReject else TakeLoad(Evictor(item))
  {
    FullVerdict(s, t);
    AheadMeansMoved(s, t);
  }

  // ---- Calls ---------------------------------------------------------------

  /** A call by an idle thread starts the operation it names; a stopped queue refuses only pushes. */
  lemma CallsStart<T>(s: State<T>, t: nat, item: T)
    requires Shape(s) && t in s.pcs && s.pcs[t].Idle?
    ensures InPush(Step(s, t, CallPush(item)).pcs[t], item) && InPop(Step(s, t, CallPop).pcs[t])
    ensures
      var s1 := Step(s, t, CallPush(item));
      Step(s1, t, Advance).pcs[t] == if s.stopped then Idle else PushLoad(item)
    ensures Step(s, t, CallStop).stopped && Step(s, t, CallStop).pcs[t].Idle?
  {
  }

  /** An event of one thread does not touch what another is doing. */
  lemma OthersStay<T>(s: State<T>, e: Event<T>, t: nat)
    requires Shape(s) && t in s.pcs && e.tid != t
    ensures var s' := Step(s, e.tid, e.action); t in s'.pcs && s'.pcs[t] == s.pcs[t]
  {
  }

  lemma ReachedStep<T>(p: nat, policy: Policy, tids: set<nat>, run: seq<Event<T>>, e: Event<T>)
    requires p >= 2
    ensures Inv(Reached(p, policy, tids, run))
    ensures Reached(p, policy, tids, run + [e]) == Step(Reached(p, policy, tids, run), e.tid, e.action)
  {
    ReachedIsFull(p, policy, tids, run);
    ExecAppend(Init<T>(p, policy, tids), run, [e]);
  }

  /**
   In every run, an event that ends a pop without delivering an item is its look at the front cell
   of a ring with nothing to take, with a current cursor.
   */
  lemma EmptyAnswersAreTrue<T>(p: nat, policy: Policy, tids: set<nat>, run: seq<Event<T>>, e: Event<T>)
    requires p >= 2
    ensures
      var s, s' := Reached(p, policy, tids, run), Reached(p, policy, tids, run + [e]);
      e.tid in s.pcs && InPop(s.pcs[e.tid]) ==>
        && e.tid in s'.pcs && (InPop(s'.pcs[e.tid]) || s'.pcs[e.tid].Idle?)
        && (s'.pcs[e.tid].Idle? && s'.delivered == s.delivered ==> NothingToTake(s) && s.pcs[e.tid] == TakeCheck(Popper, s.deq))
  {
    var s := Reached(p, policy, tids, run);
    ReachedStep(p, policy, tids, run, e);
    if e.tid in s.pcs && InPop(s.pcs[e.tid]) {
      PopStep(s, e.tid, e.action);
    }
  }

  /**
   In every run, an event after which a push has given up without placing its item finds the queue
   stopped, or is its look at a ring without room under DropNew, with a current cursor.
   */
  lemma RefusalsAreTrue<T>(p: nat, policy: Policy, tids: set<nat>, run: seq<Event<T>>, e: Event<T>, item: T)
    requires p >= 2
    ensures
      var s, s' := Reached(p, policy, tids, run), Reached(p, policy, tids, run + [e]);
      e.tid in s.pcs && InPush(s.pcs[e.tid], item) ==>
        && e.tid in s'.pcs
        && (InPush(s'.pcs[e.tid], item)
            || (s'.pcs[e.tid].Idle? && s'.accepted == s.accepted + 1 && s.pcs[e.tid].PushPublish? && Published(s', e.tid, item, s.pcs[e.tid].pos))
            || (s'.pcs[e.tid].Idle? && s.stopped && s.pcs[e.tid].PushStart?)
            || (s'.pcs[e.tid].PushReject? && policy.DropNew? && NoRoom(s) && s.pcs[e.tid] == PushCheck(item, s.enq)))
  {
    var s := Reached(p, policy, tids, run);
    ReachedStep(p, policy, tids, run, e);
    if e.tid in s.pcs && InPush(s.pcs[e.tid], item) {
      PushStep(s, e.tid, e.action, item);
    }
  }

  // ---- Size ----------------------------------------------------------------

  lemma {:induction false} CursorsGrow<T>(s: State<T>, run: seq<Event<T>>, t: nat)
    requires Inv(s) && t in s.pcs && forall i :: 0 <= i < |run| ==> run[i].tid != t
    ensures
      var s' := Exec(s, run);
      Inv(s') && s.enq <= s'.enq && s.deq <= s'.deq && t in s'.pcs && s'.pcs[t] == s.pcs[t]
    decreases |run|
  {
    if run == [] {
    } else {
      StepKeepsInv(s, run[0].tid, run[0].action);
      OthersStay(s, run[0], t);
      CursorsGrow(Step(s, run[0].tid, run[0].action), run[1..], t);
    }
  }

  /**
   In every run, size() answers at most the items held when it was called, and at least those held
   when it returns less the pushes in between; alone it answers exactly the items held.
   */
  lemma SizeIsBetween<T>(p: nat, policy: Policy, tids: set<nat>, run: seq<Event<T>>, during: seq<Event<T>>, t: nat)
    requires p >= 2 && t in Reached(p, policy, tids, run).pcs && Reached(p, policy, tids, run).pcs[t].Idle?
    requires forall i :: 0 <= i < |during| ==> during[i].tid != t
    ensures
      var s := Reached(p, policy, tids, run);
      var s1 := Exec(Step(s, t, CallSize), during);
      var s2 := Step(s1, t, Advance);
      && t in s1.pcs && s2.pcs[t].Idle? && |s2.sizes| == |s1.sizes| + 1 && s2.sizes[..|s1.sizes|] == s1.sizes
      && var n := s2.sizes[|s1.sizes|];
         && n <= s.enq - s.deq
         && n >= (s1.enq - s1.deq) - (s1.enq - s.enq)
         && (during == [] ==> n == s.enq - s.deq)
  {
    var s := Reached(p, policy, tids, run);
    ReachedIsFull(p, policy, tids, run);
    SizeStarts(s, t);
    StepKeepsInv(s, t, CallSize);
    CursorsGrow(Step(s, t, CallSize), during, t);
    SizeEnds(Exec(Step(s, t, CallSize), during), t, s.enq);
  }

  lemma SizeStarts<T>(s: State<T>, t: nat)
    requires Shape(s) && t in s.pcs && s.pcs[t].Idle?
    ensures
      var s' := Step(s, t, CallSize);
      s'.enq == s.enq && s'.deq == s.deq && s'.sizes == s.sizes && t in s'.pcs && s'.pcs[t] == SizeCheck(s.enq)
  {
  }

  lemma SizeEnds<T>(s: State<T>, t: nat, seen: nat)
    requires Shape(s) && t in s.pcs && s.pcs[t] == SizeCheck(seen)
    ensures
      var s' := Step(s, t, Advance);
      && s'.pcs[t].Idle? && |s'.sizes| == |s.sizes| + 1 && s'.sizes[..|s.sizes|] == s.sizes
      && (s.deq <= seen ==> s'.sizes[|s.sizes|] == seen - s.deq) && (s.deq > seen ==> s'.sizes[|s.sizes|] == 0)
  {
  }
}
