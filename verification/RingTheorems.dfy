/**
 What the lock-free ring guarantees in every interleaving: exclusive cells,
 first-in first-out delivery, conservation of items and drop counts, exact full
 and empty verdicts, a bounded size, and why a ring of one cell breaks all this.
 */
module RingTheorems {
  import opened Counting
  import opened Numbers
  import opened Slots
  import opened RingProtocol

  // ---- Conservation --------------------------------------------------------

  ghost predicate Publishing<T>(pc: Pc<T>) {
    pc.PushWrite? || pc.PushPublish?
  }

  ghost predicate Popping<T>(pc: Pc<T>) {
    pc.TakeMove? || ((pc.TakeReset? || pc.TakeRelease?) && pc.who.Popper?)
  }

  /** The thread has evicted an item, or seen a full ring, and not yet counted it in `dropped_`. */
  ghost predicate Uncounted<T>(pc: Pc<T>) {
    pc.PushReject? || pc.EvictCount? || ((pc.TakeReset? || pc.TakeRelease?) && pc.who.Evictor?)
  }

  /** How many positions were taken by pops (`evicts == false`) or by evictions. */
  ghost function Takes(log: seq<(nat, bool)>, evicts: bool): nat
  {
    if log == [] then 0
    else Takes(log[..|log| - 1], evicts) + if log[|log| - 1].1 == evicts then 1 else 0
  }

  lemma {:induction false} TakesPartition(log: seq<(nat, bool)>)
    ensures Takes(log, true) + Takes(log, false) == |log|
  {
    if log == [] {
    } else {
      TakesPartition(log[..|log| - 1]);
    }
  }

  lemma TakesAppend(log: seq<(nat, bool)>, e: (nat, bool), evicts: bool)
    ensures Takes(log + [e], evicts) == Takes(log, evicts) + if e.1 == evicts then 1 else 0
  {
    assert (log + [e])[..|log|] == log;
  }

  ghost predicate Evicts<T>(pc: Pc<T>) {
    pc.EvictCount?
    || ((pc.TakeLoad? || pc.TakeCheck? || pc.TakeCas? || pc.TakeReset? || pc.TakeRelease?) && pc.who.Evictor?)
  }

  /** Only DropOldest evicts and only DropNew rejects. */
  ghost predicate PolicyOk<T>(s: State<T>) {
    && (s.policy.DropNew? ==> Takes(s.takeLog, true) == 0 && forall t :: t in s.pcs ==> !Evicts(s.pcs[t]))
    && (s.policy.DropOldest? ==> s.rejected == 0 && forall t :: t in s.pcs ==> !s.pcs[t].PushReject?)
  }

  ghost predicate Counts<T>(s: State<T>) {
    && s.accepted + CountIf(s.pcs, Publishing) == s.enq
    && |s.delivered| + CountIf(s.pcs, Popping) == Takes(s.takeLog, false)
    && s.dropped + CountIf(s.pcs, Uncounted) == s.rejected + Takes(s.takeLog, true)
  }

  /** What try_pop returned: each delivery is the item pushed at that position, and no position is delivered twice. */
  ghost predicate Delivered<T>(s: State<T>) {
    && (forall i :: 0 <= i < |s.delivered| ==> DeliveryOk(s, s.delivered[i]))
    && (forall i, j :: 0 <= i < j < |s.delivered| ==> s.delivered[i].0 != s.delivered[j].0)
    && (forall t, i :: t in s.pcs && Popping(s.pcs[t]) && 0 <= i < |s.delivered| ==> s.delivered[i].0 != s.pcs[t].pos)
  }

  ghost predicate DeliveryOk<T>(s: State<T>, d: (nat, Option<T>)) {
    d.0 < |s.takeLog| && d.0 < |s.pushLog| && !s.takeLog[d.0].1 && d.1 == Some(s.pushLog[d.0].1)
  }

  /** What one step adds to the counters, and what it changes in the stepping thread, balance. */
  lemma Balance<T>(s: State<T>, pc: Pc<T>, a: Action<T>)
    requires Shape(s)
    ensures
      var e := EffectOf(s, pc, a);
      && e.accepted + One(Publishing(e.pc)) == One(Publishing(pc)) + One(e.claims.Some?)
      && One(e.delivers.Some?) + One(Popping(e.pc)) == One(Popping(pc)) + One(e.takes == Some(false))
      && e.dropped + One(Uncounted(e.pc)) == One(Uncounted(pc)) + e.rejected + One(e.takes == Some(true))
  {
  }

  lemma CountsStep<T>(s: State<T>, t: nat, a: Action<T>)
    requires Shape(s) && Counts(s)
    ensures Counts(Step(s, t, a))
  {
    if t in s.pcs {
      var e := EffectOf(s, s.pcs[t], a);
      Balance(s, s.pcs[t], a);
      CountUpdate(s.pcs, t, e.pc, Publishing);
      CountUpdate(s.pcs, t, e.pc, Popping);
      CountUpdate(s.pcs, t, e.pc, Uncounted);
      if e.takes.Some? {
        TakesAppend(s.takeLog, (t, e.takes.value), true);
        TakesAppend(s.takeLog, (t, e.takes.value), false);
      }
    }
  }

  lemma PolicyLocal<T>(s: State<T>, pc: Pc<T>, a: Action<T>)
    requires Shape(s)
    ensures
      var e := EffectOf(s, pc, a);
      && (s.policy.DropNew? && !Evicts(pc) ==> !Evicts(e.pc) && e.takes != Some(true))
      && (s.policy.DropOldest? && !pc.PushReject? ==> !e.pc.PushReject? && e.rejected == 0)
  {
  }

  /** An effect that respects the policy keeps it respected. */
  lemma PolicyApply<T>(s: State<T>, t: nat, e: Effect<T>)
    requires Shape(s) && PolicyOk(s) && t in s.pcs
    requires s.policy.DropNew? ==> !Evicts(e.pc) && e.takes != Some(true)
    requires s.policy.DropOldest? ==> !e.pc.PushReject? && e.rejected == 0
    ensures PolicyOk(Apply(s, t, e))
  {
    if e.takes.Some? {
      TakesAppend(s.takeLog, (t, e.takes.value), true);
    }
  }

  lemma PolicyStep<T>(s: State<T>, t: nat, a: Action<T>)
    requires Shape(s) && PolicyOk(s)
    ensures PolicyOk(Step(s, t, a))
  {
    if t in s.pcs {
      PolicyLocal(s, s.pcs[t], a);
      PolicyApply(s, t, EffectOf(s, s.pcs[t], a));
    }
  }

  /** A pop delivers the position it holds and starts on the current front position. */
  lemma PopLocal<T>(s: State<T>, pc: Pc<T>, a: Action<T>)
    requires Shape(s)
    ensures
      var e := EffectOf(s, pc, a);
      && (Popping(e.pc) ==> if Popping(pc) then e.pc.pos == pc.pos else e.pc.pos == s.deq)
      && (e.delivers.Some? ==> pc.TakeRelease? && pc.who.Popper? && e.delivers.value == (pc.pos, pc.out) && !Popping(e.pc))
  {
  }

  lemma DeliveredStep<T>(s: State<T>, t: nat, a: Action<T>)
    requires Inv(s) && Delivered(s)
    ensures Delivered(Step(s, t, a))
  {
    var s' := Step(s, t, a);
    if t in s.pcs {
      assert ThreadOk(s, t);
      PopLocal(s, s.pcs[t], a);
      forall i | 0 <= i < |s.delivered|
        ensures DeliveryOk(s', s.delivered[i])
      {
        assert DeliveryOk(s, s.delivered[i]);
      }
      if EffectOf(s, s.pcs[t], a).delivers.Some? {
        forall u | u in s.pcs && u != t && Popping(s.pcs[u])
          ensures s.pcs[u].pos != s.pcs[t].pos
        {
          CellsDisjoint(s, t, u);
        }
      }
    }
  }

  ghost predicate DeliveredAt<T>(s: State<T>, n: nat) {
    exists i :: 0 <= i < |s.delivered| && s.delivered[i].0 == n
  }

  /** A position taken by a pop has been delivered, or its popper is still on its way out. */
  ghost predicate NoneLost<T>(s: State<T>) {
    forall n :: 0 <= n < |s.takeLog| && !s.takeLog[n].1 ==> DeliveredAt(s, n) || TakeOwner(s, n)
  }

  /** A taker keeps its position until it releases it, and a popper then delivers it. */
  lemma TakeLocal<T>(s: State<T>, pc: Pc<T>, a: Action<T>, n: nat)
    requires Shape(s) && TakesAt(pc, n)
    ensures
      var e := EffectOf(s, pc, a);
      TakesAt(e.pc, n) || (pc.TakeRelease? && (pc.who.Popper? ==> e.delivers == Some((n, pc.out))))
  {
  }

  lemma ClaimLocal<T>(s: State<T>, pc: Pc<T>, a: Action<T>)
    requires Shape(s)
    ensures EffectOf(s, pc, a).takes.Some? ==> TakesAt(EffectOf(s, pc, a).pc, s.deq)
  {
  }

  lemma NoneLostStep<T>(s: State<T>, t: nat, a: Action<T>)
    requires Inv(s) && NoneLost(s)
    ensures NoneLost(Step(s, t, a))
  {
    var s' := Step(s, t, a);
    if t in s.pcs {
      assert ThreadOk(s, t);
      var e := EffectOf(s, s.pcs[t], a);
      ClaimLocal(s, s.pcs[t], a);
      forall n | 0 <= n < |s'.takeLog| && !s'.takeLog[n].1
        ensures DeliveredAt(s', n) || TakeOwner(s', n)
      {
        if n < |s.takeLog| {
          assert DeliveredAt(s, n) || TakeOwner(s, n);
          if DeliveredAt(s, n) {
            var i :| 0 <= i < |s.delivered| && s.delivered[i].0 == n;
            assert s'.delivered[i].0 == n;
          } else if s.takeLog[n].0 == t {
            TakeLocal(s, s.pcs[t], a, n);
            if !TakesAt(e.pc, n) {
              assert s'.delivered[|s.delivered|].0 == n;
            }
          }
        }
      }
    }
  }

  ghost predicate SizesOk<T>(s: State<T>) {
    forall i :: 0 <= i < |s.sizes| ==> s.sizes[i] <= s.p
  }

  lemma SizesStep<T>(s: State<T>, t: nat, a: Action<T>)
    requires Inv(s) && SizesOk(s)
    ensures SizesOk(Step(s, t, a))
  {
    if t in s.pcs {
      assert ThreadOk(s, t);
    }
  }

  ghost predicate Full<T>(s: State<T>) {
    Inv(s) && Counts(s) && PolicyOk(s) && Delivered(s) && NoneLost(s) && SizesOk(s)
  }

  lemma {:induction false} ExecKeepsFull<T>(s: State<T>, run: seq<Event<T>>)
    requires Full(s)
    ensures Full(Exec(s, run))
    decreases |run|
  {
    if run == [] {
    } else {
      var e := run[0];
      StepKeepsInv(s, e.tid, e.action);
      CountsStep(s, e.tid, e.action);
      PolicyStep(s, e.tid, e.action);
      DeliveredStep(s, e.tid, e.action);
      NoneLostStep(s, e.tid, e.action);
      SizesStep(s, e.tid, e.action);
      ExecKeepsFull(Step(s, e.tid, e.action), run[1..]);
    }
  }

  /** The state after a run of any threads from the freshly constructed ring. */
  ghost function Reached<T>(p: nat, policy: Policy, tids: set<nat>, run: seq<Event<T>>): (s: State<T>)
    requires p > 0
    ensures Shape(s) && s.p == p && s.policy == policy
  {
    Exec(Init(p, policy, tids), run)
  }

  lemma ReachedIsFull<T>(p: nat, policy: Policy, tids: set<nat>, run: seq<Event<T>>)
    requires p >= 2
    ensures Full(Reached(p, policy, tids, run))
  {
    var s := Init<T>(p, policy, tids);
    InitInv<T>(p, policy, tids);
    CountZero(s.pcs, Publishing);
    CountZero(s.pcs, Popping);
    CountZero(s.pcs, Uncounted);
    ExecKeepsFull(s, run);
  }

  // ---- Main results --------------------------------------------------------

  /** The cell's sequence number is one of the turns of the position it currently serves. */
  ghost predicate LegalLap<T>(s: State<T>, i: nat)
    requires Shape(s) && i < s.p
  {
    exists n :: s.deq <= n < s.deq + s.p && Slot(n, s.p) == i && LegalTurn(s, n, s.cells[i].sequence)
  }

  ghost predicate LegalTurn<T>(s: State<T>, n: nat, turn: nat) {
    if n < s.enq then turn == n || turn == n + 1 else turn == n || turn + s.p == n + 1
  }

  /** In every run the cursors stay within one lap and every cell is on a legal turn. */
  lemma BoundsInEveryRun<T>(p: nat, policy: Policy, tids: set<nat>, run: seq<Event<T>>)
    requires p >= 2
    ensures
      var s := Reached(p, policy, tids, run);
      s.deq <= s.enq <= s.deq + p && forall i :: 0 <= i < p ==> LegalLap(s, i)
  {
    var s := Reached(p, policy, tids, run);
    ReachedIsFull(p, policy, tids, run);
    forall i | 0 <= i < p
      ensures LegalLap(s, i)
    {
      var n := SlotOnto(s.deq, i, p);
      assert CellOk(s, n);
      assert LegalTurn(s, n, s.cells[i].sequence);
    }
  }

  /** In every run no two threads are inside the payload of the same cell. */
  lemma ExclusiveCells<T>(p: nat, policy: Policy, tids: set<nat>, run: seq<Event<T>>, t: nat, u: nat)
    requires p >= 2 && t != u
    requires
      var s := Reached(p, policy, tids, run);
      t in s.pcs && u in s.pcs && !OwnsNothing(s.pcs[t]) && !OwnsNothing(s.pcs[u])
    ensures
      var s := Reached(p, policy, tids, run);
      Slot(s.pcs[t].pos, p) != Slot(s.pcs[u].pos, p)
  {
    ReachedIsFull(p, policy, tids, run);
    CellsDisjoint(Reached(p, policy, tids, run), t, u);
  }

  /** A compare-and-swap that is about to succeed still finds the cell it saw, and nobody else is in it. */
  lemma CasStillOwnsWhatItSaw<T>(p: nat, policy: Policy, tids: set<nat>, run: seq<Event<T>>, t: nat)
    requires p >= 2
    requires
      var s := Reached(p, policy, tids, run);
      t in s.pcs && ((s.pcs[t].PushCas? && s.pcs[t].pos == s.enq) || (s.pcs[t].TakeCas? && s.pcs[t].pos == s.deq))
    ensures
      var s := Reached(p, policy, tids, run);
      var pos := s.pcs[t].pos;
      && (s.pcs[t].PushCas? ==> CellAt(s, pos) == Cell(pos, Empty) && s.enq < s.deq + p)
      && (s.pcs[t].TakeCas? ==> pos < |s.pushLog| && CellAt(s, pos) == Cell(pos + 1, Holds(s.pushLog[pos].1)))
      && (forall u :: u in s.pcs && !OwnsNothing(s.pcs[u]) ==> Slot(s.pcs[u].pos, p) != Slot(pos, p))
  {
    var s := Reached(p, policy, tids, run);
    ReachedIsFull(p, policy, tids, run);
    if s.pcs[t].PushCas? {
      PushCasSeesFreeCell(s, t);
    } else {
      ClaimTake(s, t);
    }
    forall u | u in s.pcs && !OwnsNothing(s.pcs[u])
      ensures Slot(s.pcs[u].pos, p) != Slot(s.pcs[t].pos, p)
    {
      ReliedCellsDisjoint(s, u, t);
    }
  }

  /**
   Delivery over every run: what try_pop returned for position n is what was
   pushed at n, each position is delivered at most once, evicted positions never,
   and a popped position is delivered unless its popper is still on its way out.
   */
  lemma DeliveryInEveryRun<T>(p: nat, policy: Policy, tids: set<nat>, run: seq<Event<T>>)
    requires p >= 2
    ensures
      var s := Reached(p, policy, tids, run);
      && |s.pushLog| == s.enq && |s.takeLog| == s.deq <= s.enq
      && (forall i :: 0 <= i < |s.delivered| ==> DeliveryOk(s, s.delivered[i]))
      && (forall i, j :: 0 <= i < j < |s.delivered| ==> s.delivered[i].0 != s.delivered[j].0)
      && (forall n :: 0 <= n < s.deq && !s.takeLog[n].1 ==> DeliveredAt(s, n) || TakeOwner(s, n))
  {
    ReachedIsFull(p, policy, tids, run);
  }

  /**
   Conservation over every run: positions claimed by pushes are the pops, the
   evictions and what is still held, and `dropped_` counts exactly the
   rejections (DropNew) or the evictions (DropOldest), up to threads in flight.
   */
  lemma ConservationInEveryRun<T>(p: nat, policy: Policy, tids: set<nat>, run: seq<Event<T>>)
    requires p >= 2
    ensures
      var s := Reached(p, policy, tids, run);
      var popped, evicted := |s.delivered| + CountIf(s.pcs, Popping), Takes(s.takeLog, true);
      && s.deq <= s.enq
      && s.accepted + CountIf(s.pcs, Publishing) == popped + evicted + (s.enq - s.deq)
      && s.dropped + CountIf(s.pcs, Uncounted) == (if policy.DropNew? then s.rejected else evicted)
      && (policy.DropNew? ==> evicted == 0) && (policy.DropOldest? ==> s.rejected == 0)
  {
    ReachedIsFull(p, policy, tids, run);
    TakesPartition(Reached(p, policy, tids, run).takeLog);
  }

  /** When no thread is inside an operation, the books balance exactly and the cells hold the queue in order. */
  lemma QuiescentContents<T>(p: nat, policy: Policy, tids: set<nat>, run: seq<Event<T>>)
    requires p >= 2
    requires forall t :: t in Reached(p, policy, tids, run).pcs ==> Reached(p, policy, tids, run).pcs[t].Idle?
    ensures
      var s := Reached(p, policy, tids, run);
      && |s.pushLog| == s.enq && s.deq <= s.enq
      && s.accepted == |s.delivered| + (if policy.DropOldest? then s.dropped else 0) + (s.enq - s.deq)
      && (policy.DropNew? ==> s.dropped == s.rejected)
      && (forall n :: s.deq <= n < s.enq ==> CellAt(s, n) == Cell(n + 1, Holds(s.pushLog[n].1)))
      && (forall n :: s.enq <= n < s.deq + p ==> CellAt(s, n) == Cell(n, Empty))
  {
    var s := Reached(p, policy, tids, run);
    ConservationInEveryRun(p, policy, tids, run);
    ReachedIsFull(p, policy, tids, run);
    CountZero(s.pcs, Publishing);
    CountZero(s.pcs, Popping);
    CountZero(s.pcs, Uncounted);
    forall n | s.deq <= n < s.deq + p
      ensures CellAt(s, n) == if n < s.enq then Cell(n + 1, Holds(s.pushLog[n].1)) else Cell(n, Empty)
    {
      assert CellOk(s, n);
    }
  }

  /** No call of size() ever returned more than the number of cells. */
  lemma SizeNeverExceedsCells<T>(p: nat, policy: Policy, tids: set<nat>, run: seq<Event<T>>)
    requires p >= 2
    ensures forall i :: 0 <= i < |Reached(p, policy, tids, run).sizes| ==> Reached(p, policy, tids, run).sizes[i] <= p
  {
    ReachedIsFull(p, policy, tids, run);
  }

  /** A cell never falls behind a position that has already been taken. */
  lemma StaleCell<T>(s: State<T>, pos: nat)
    requires Inv(s) && pos < s.deq
    ensures CellAt(s, pos).sequence >= pos + 1
  {
    var n := SlotOnto(s.deq, Slot(pos, s.p), s.p);
    SlotLapBehind(pos, n, s.p);
    assert CellOk(s, n);
  }

  /**
   A push judges the ring full exactly when its cursor is current and either the
   ring holds a full lap or the taker of the blocking cell has not released it.
   */
  lemma FullVerdict<T>(s: State<T>, t: nat)
    requires Inv(s) && t in s.pcs && s.pcs[t].PushCheck?
    ensures
      var pos := s.pcs[t].pos;
      CellAt(s, pos).sequence < pos <==>
        pos == s.enq && (s.enq == s.deq + s.p || (pos >= s.p && TakeOwner(s, pos - s.p)))
  {
    var pos := s.pcs[t].pos;
    assert ThreadOk(s, t);
    if pos < s.deq {
      StaleCell(s, pos);
    } else if pos < s.deq + s.p {
      assert CellOk(s, pos);
      if pos >= s.p && TakeOwner(s, pos - s.p) {
        assert ThreadOk(s, s.takeLog[pos - s.p].0);
        SlotPeriod(pos - s.p, s.p);
      }
    } else {
      SlotPeriod(s.deq, s.p);
      assert CellOk(s, s.deq);
    }
  }

  /**
   A pop or an eviction judges the ring empty exactly when its cursor is current
   and either nothing is held or the push of the front cell is not yet published.
   */
  lemma EmptyVerdict<T>(s: State<T>, t: nat)
    requires Inv(s) && t in s.pcs && s.pcs[t].TakeCheck?
    ensures
      var pos := s.pcs[t].pos;
      CellAt(s, pos).sequence < pos + 1 <==> pos == s.deq && (s.deq == s.enq || PushOwner(s, s.deq))
  {
    var pos := s.pcs[t].pos;
    assert ThreadOk(s, t);
    if pos < s.deq {
      StaleCell(s, pos);
    } else {
      assert CellOk(s, pos);
      if PushOwner(s, s.deq) {
        assert ThreadOk(s, s.pushLog[s.deq].0);
      }
    }
  }

  /** The thread holds no cell, so it cannot delay anyone's verdict. */
  ghost predicate NoPeerInFlight<T>(s: State<T>) {
    forall u :: u in s.pcs ==> OwnsNothing(s.pcs[u])
  }

  /** With no peer inside a cell, both verdicts are exact in every run. */
  lemma VerdictsExactWithoutPeers<T>(p: nat, policy: Policy, tids: set<nat>, run: seq<Event<T>>, t: nat)
    requires p >= 2
    requires t in Reached(p, policy, tids, run).pcs && NoPeerInFlight(Reached(p, policy, tids, run))
    ensures
      var s := Reached(p, policy, tids, run);
      && (s.pcs[t].PushCheck? ==>
            (CellAt(s, s.pcs[t].pos).sequence < s.pcs[t].pos <==> s.pcs[t].pos == s.enq == s.deq + p))
      && (s.pcs[t].TakeCheck? ==>
            (CellAt(s, s.pcs[t].pos).sequence < s.pcs[t].pos + 1 <==> s.pcs[t].pos == s.deq == s.enq))
  {
    var s := Reached(p, policy, tids, run);
    ReachedIsFull(p, policy, tids, run);
    if s.pcs[t].PushCheck? {
      FullVerdict(s, t);
    } else if s.pcs[t].TakeCheck? {
      EmptyVerdict(s, t);
    }
  }

  // ---- A ring of one cell --------------------------------------------------

  /** A complete push by a thread that runs alone and finds room. */
  ghost function PushAlone<T>(t: nat, x: T): seq<Event<T>>
  {
    [Event(t, CallPush(x))] + Steps(t, 6)
  }

  /** `n` steps of one thread alone. */
  ghost function Steps<T>(t: nat, n: nat): (run: seq<Event<T>>)
    ensures |run| == n && forall i :: 0 <= i < n ==> run[i] == Event(t, Advance)
  {
    if n == 0 then [] else [Event(t, Advance)] + Steps(t, n - 1)
  }

  lemma {:induction false} ExecAppend<T>(s: State<T>, a: seq<Event<T>>, b: seq<Event<T>>)
    requires Shape(s)
    ensures Exec(s, a + b) == Exec(Exec(s, a), b)
    decreases |a|
  {
    if a == [] {
      assert a + b == b;
    } else {
      assert (a + b)[1..] == a[1..] + b;
      ExecAppend(Step(s, a[0].tid, a[0].action), a[1..], b);
    }
  }

  ghost predicate OneCell<T>(s: State<T>, n: nat) {
    && s.p == 1 == |s.cells| && !s.stopped && s.pcs == map[0 := Idle]
    && s.enq == s.cells[0].sequence == n && s.deq == 0 && s.delivered == []
  }

  /** On one cell "published at n" is the same number as "free for n + 1", so a push always succeeds. */
  lemma PushOnOneCell<T>(s: State<T>, n: nat, x: T)
    requires OneCell(s, n)
    ensures
      var s' := Exec(s, PushAlone(0, x));
      OneCell(s', n + 1) && s'.accepted == s.accepted + 1 && s'.cells == [Cell(n + 1, Holds(x))]
  {
    SlotOfOne(n);
    var run := PushAlone(0, x);
    var s1 := Step(s, 0, CallPush(x));
    assert run[1..] == Steps(0, 6);
    assert s1.pcs == map[0 := PushStart(x)];
    var s2 := Step(s1, 0, Advance);
    assert s2.pcs == map[0 := PushLoad(x)];
    var s3 := Step(s2, 0, Advance);
    assert s3.pcs == map[0 := PushCheck(x, n)];
    var s4 := Step(s3, 0, Advance);
    assert s4.pcs == map[0 := PushCas(x, n)];
    var s5 := Step(s4, 0, Advance);
    assert s5.pcs == map[0 := PushWrite(x, n)];
    var s6 := Step(s5, 0, Advance);
    assert s6.pcs == map[0 := PushPublish(x, n)];
    var s7 := Step(s6, 0, Advance);
    assert s7.pcs == map[0 := Idle];
    ExecStep(s1, 0, 6);
    ExecStep(s2, 0, 5);
    ExecStep(s3, 0, 4);
    ExecStep(s4, 0, 3);
    ExecStep(s5, 0, 2);
    ExecStep(s6, 0, 1);
  }

  lemma ExecStep<T>(s: State<T>, t: nat, n: nat)
    requires Shape(s) && n > 0
    ensures Exec(s, Steps(t, n)) == Exec(Step(s, t, Advance), Steps(t, n - 1))
  {
    assert Steps<T>(t, n)[1..] == Steps(t, n - 1);
  }

  /** A pop that finds the sequence ahead of its turn reloads and retries for ever. */
  lemma {:induction false} PopSpins<T>(s: State<T>, k: nat)
    requires s.p == 1 == |s.cells| && s.cells[0].sequence > s.deq + 1 && 0 in s.pcs
    requires s.pcs[0] == TakeLoad(Popper) || s.pcs[0] == TakeCheck(Popper, s.deq)
    ensures
      var s' := Exec(s, Steps(0, k));
      0 in s'.pcs && !s'.pcs[0].Idle? && s'.delivered == s.delivered
    decreases k
  {
    if k == 0 {
    } else {
      SlotOfOne(s.deq);
      ExecStep(s, 0, k);
      PopSpins(Step(s, 0, Advance), k - 1);
    }
  }

  /**
   A ring of one cell loses data: two pushes both succeed, the second overwrites
   the first, and a later try_pop never returns however many steps it takes.
   */
  lemma OneCellLosesItems<T>(policy: Policy, x: T, y: T, k: nat)
    ensures
      var s := Reached(1, policy, {0}, PushAlone(0, x) + PushAlone(0, y));
      s.accepted == 2 && s.enq == 2 && s.deq == 0 && s.cells == [Cell(2, Holds(y))]
    ensures
      var s := Reached(1, policy, {0}, PushAlone(0, x) + PushAlone(0, y) + ([Event(0, CallPop)] + Steps(0, k)));
      0 in s.pcs && !s.pcs[0].Idle? && s.delivered == []
  {
    var s0 := Init<T>(1, policy, {0});
    assert OneCell(s0, 0);
    PushOnOneCell(s0, 0, x);
    var s1 := Exec(s0, PushAlone(0, x));
    PushOnOneCell(s1, 1, y);
    ExecAppend(s0, PushAlone(0, x), PushAlone(0, y));
    var s2 := Exec(s1, PushAlone(0, y));
    ExecAppend(s0, PushAlone(0, x) + PushAlone(0, y), [Event(0, CallPop)] + Steps(0, k));
    var run := [Event(0, CallPop)] + Steps<T>(0, k);
    assert run[1..] == Steps(0, k);
    PopSpins(Step(s2, 0, CallPop), k);
  }

  ghost predicate NeverOverfull(p: nat)
    requires p > 0
  {
    forall policy, tids, run: seq<Event<int>> ::
      Reached(p, policy, tids, run).enq <= Reached(p, policy, tids, run).deq + p
  }

  /** The ring respects its bound in every run if and only if it has at least two cells. */
  lemma BoundNeedsTwoCells(p: nat)
    requires p > 0
    ensures NeverOverfull(p) <==> p >= 2
  {
    if p >= 2 {
      forall policy, tids, run: seq<Event<int>>
        ensures Reached(p, policy, tids, run).enq <= Reached(p, policy, tids, run).deq + p
      {
        ReachedIsFull(p, policy, tids, run);
      }
    } else {
      OneCellLosesItems(DropNew, 0, 1, 0);
      var s := Reached(1, DropNew, {0}, PushAlone(0, 0) + PushAlone(0, 1));
      assert s.enq > s.deq + 1;
    }
  }
}
