/**
 Overtaking in the lock-free ring: a thread that finds its position taken, at a sequence load
 or at a compare-and-swap, was overtaken, and its rounds of this kind are paid for by positions
 that other threads have claimed.  Rounds in which a push finds the ring full and nothing to
 evict are not of this kind; the module on lone threads is about those.
 */
module RingProgress {
  import opened Slots
  import opened RingProtocol
  import opened RingTheorems

  /** How many entries of a log of claims are by threads other than `t`. */
  ghost function Others<X>(log: seq<(nat, X)>, t: nat): nat
    decreases |log|
  {
    if log == [] then 0 else Others(log[..|log| - 1], t) + if log[|log| - 1].0 != t then 1 else 0
  }

  lemma OthersSnoc<X>(log: seq<(nat, X)>, e: (nat, X), t: nat)
    ensures Others(log + [e], t) == Others(log, t) + if e.0 != t then 1 else 0
  {
    assert (log + [e])[..|log|] == log;
  }

  /** Claims counted up to a position that another thread claimed fall short of all of them. */
  lemma {:induction false} OthersBefore<X>(log: seq<(nat, X)>, n: nat, t: nat)
    requires n <= |log|
    ensures Others(log[..n], t) <= Others(log, t)
    ensures n < |log| && log[n].0 != t ==> Others(log[..n], t) < Others(log, t)
    decreases |log|
  {
    if n == |log| {
      assert log[..n] == log;
    } else {
      var init := log[..|log| - 1];
      assert log[..n] == init[..n];
      OthersBefore(init, n, t);
      if n == |log| - 1 {
        assert init[..n] == init;
      }
    }
  }

  // ---- Being overtaken ------------------------------------------------------

  /** The push of this thread finds its position taken, at its sequence load or at its compare-and-swap. */
  ghost predicate PushOvertaken<T>(s: State<T>, pc: Pc<T>)
    requires Shape(s)
  {
    (pc.PushCheck? && CellAt(s, pc.pos).sequence > pc.pos) || (pc.PushCas? && s.enq != pc.pos)
  }

  /** The pop or eviction of this thread finds its position taken. */
  ghost predicate TakeOvertaken<T>(s: State<T>, pc: Pc<T>)
    requires Shape(s)
  {
    (pc.TakeCheck? && CellAt(s, pc.pos).sequence > pc.pos + 1) || (pc.TakeCas? && s.deq != pc.pos)
  }

  ghost predicate OvertakenNow<T>(s: State<T>, e: Event<T>, t: nat, push: bool)
    requires Shape(s)
  {
    e.tid == t && t in s.pcs && e.action.Advance? && if push then PushOvertaken(s, s.pcs[t]) else TakeOvertaken(s, s.pcs[t])
  }

  /** How often thread `t` is overtaken on one side of the ring in a run. */
  ghost function TimesOvertaken<T>(s: State<T>, run: seq<Event<T>>, t: nat, push: bool): nat
    requires Shape(s)
    decreases |run|
  {
    if run == [] then 0
    else (if OvertakenNow(s, run[0], t, push) then 1 else 0) + TimesOvertaken(Step(s, run[0].tid, run[0].action), run[1..], t, push)
  }

  // ---- Overtakings are paid for --------------------------------------------

  /** The thread holds a position it has loaded and not yet claimed. */
  ghost predicate Holding<T>(pc: Pc<T>, push: bool) {
    if push then pc.PushCheck? || pc.PushCas? else pc.TakeCheck? || pc.TakeCas?
  }

  /** Every position from the loaded one on was claimed by somebody else. */
  ghost predicate PassedBy<X>(log: seq<(nat, X)>, pos: nat, t: nat) {
    pos <= |log| && forall n :: pos <= n < |log| ==> log[n].0 != t
  }

  /** `k` overtakings are covered by the claims of others before the position the thread holds. */
  ghost predicate PaidFrom<X>(log: seq<(nat, X)>, holding: bool, pos: nat, t: nat, k: nat) {
    if holding then PassedBy(log, pos, t) && k <= Others(log[..pos], t) else k <= Others(log, t)
  }

  ghost function PosOf<T>(pc: Pc<T>): nat {
    if pc.PushCheck? || pc.PushCas? || pc.TakeCheck? || pc.TakeCas? then pc.pos else 0
  }

  ghost predicate Paid<T>(s: State<T>, t: nat, push: bool, k: nat) {
    t in s.pcs &&
    if push then PaidFrom(s.pushLog, Holding(s.pcs[t], true), PosOf(s.pcs[t]), t, k)
    else PaidFrom(s.takeLog, Holding(s.pcs[t], false), PosOf(s.pcs[t]), t, k)
  }

  lemma Released<X>(log: seq<(nat, X)>, holding: bool, pos: nat, t: nat, k: nat)
    requires PaidFrom(log, holding, pos, t, k)
    ensures k <= Others(log, t)
    ensures holding && pos < |log| ==> k < Others(log, t)
  {
    if holding {
      OthersBefore(log, pos, t);
    }
  }

  lemma Claimed<X>(log: seq<(nat, X)>, e: (nat, X), holding: bool, pos: nat, t: nat, k: nat)
    requires PaidFrom(log, holding, pos, t, k) && (e.0 != t || !holding)
    ensures PaidFrom(log + [e], holding, pos, t, k)
  {
    OthersSnoc(log, e, t);
    if holding {
      assert (log + [e])[..pos] == log[..pos];
    }
  }

  /** A sequence ahead of the loaded turn means the cursor has moved on. */
  lemma AheadMeansMoved<T>(s: State<T>, t: nat)
    requires Inv(s) && t in s.pcs
    ensures PushOvertaken(s, s.pcs[t]) ==> s.pcs[t].pos < s.enq
    ensures TakeOvertaken(s, s.pcs[t]) ==> s.pcs[t].pos < s.deq
  {
    assert ThreadOk(s, t);
    SlotPeriod(s.deq, s.p);
    assert CellOk(s, s.deq);
    assert s.enq < s.deq + s.p ==> CellOk(s, s.enq);
  }

  /** A step of another thread. */
  lemma OthersStepPaid<T>(s: State<T>, e: Event<T>, t: nat, push: bool, k: nat)
    requires Inv(s) && Paid(s, t, push, k) && e.tid != t
    ensures Paid(Step(s, e.tid, e.action), t, push, k)
  {
    if e.tid in s.pcs {
      var f := EffectOf(s, s.pcs[e.tid], e.action);
      var pc := s.pcs[t];
      if push && f.claims.Some? {
        Claimed(s.pushLog, (e.tid, f.claims.value), Holding(pc, true), PosOf(pc), t, k);
      }
      if !push && f.takes.Some? {
        Claimed(s.takeLog, (e.tid, f.takes.value), Holding(pc, false), PosOf(pc), t, k);
      }
    }
  }

  /** What a thread's own step does with the position it holds on one side. */
  ghost predicate Moves<T>(s: State<T>, pc: Pc<T>, f: Effect<T>, push: bool)
  {
    var cursor := if push then s.enq else s.deq;
    var claims := if push then f.claims.Some? else f.takes.Some?;
    if Holding(f.pc, push) then
      !claims && (PosOf(f.pc) == cursor || (Holding(pc, push) && PosOf(f.pc) == PosOf(pc)))
    else claims ==> Holding(pc, push)
  }

  lemma StepMoves<T>(s: State<T>, pc: Pc<T>, a: Action<T>, push: bool)
    requires Shape(s)
    ensures Moves(s, pc, EffectOf(s, pc, a), push)
    ensures a.Advance? && (if push then PushOvertaken(s, pc) else TakeOvertaken(s, pc)) ==>
      var f := EffectOf(s, pc, a);
      Holding(pc, push) && !Holding(f.pc, push) && f.claims.None? && f.takes.None?
  {
  }

  /** The log, the position and the payment of one side after the thread's own step. */
  lemma MovePaid<X>(log: seq<(nat, X)>, log': seq<(nat, X)>, holding: bool, pos: nat, holding': bool, pos': nat, t: nat, k: nat, overtaken: bool)
    requires PaidFrom(log, holding, pos, t, k)
    requires log' == log || (!holding' && |log'| == |log| + 1 && log'[..|log|] == log && log'[|log|].0 == t)
    requires holding' ==> !overtaken && (pos' == |log| || (holding && pos' == pos))
    requires overtaken ==> holding && pos < |log| && log' == log && !holding'
    ensures PaidFrom(log', holding', pos', t, if overtaken then k + 1 else k)
  {
    Released(log, holding, pos, t, k);
    if log' != log {
      assert log' == log + [log'[|log|]];
      OthersSnoc(log, log'[|log|], t);
    } else if holding' && pos' == |log| {
      assert log[..pos'] == log;
    }
  }

  lemma OwnStepPaid<T>(s: State<T>, e: Event<T>, t: nat, push: bool, k: nat)
    requires Inv(s) && Paid(s, t, push, k) && e.tid == t
    ensures Paid(Step(s, t, e.action), t, push, if OvertakenNow(s, e, t, push) then k + 1 else k)
  {
    var pc := s.pcs[t];
    var f := EffectOf(s, pc, e.action);
    var s' := Step(s, t, e.action);
    var overtaken := OvertakenNow(s, e, t, push);
    StepMoves(s, pc, e.action, push);
    AheadMeansMoved(s, t);
    if push {
      MovePaid(s.pushLog, s'.pushLog, Holding(pc, true), PosOf(pc), Holding(f.pc, true), PosOf(f.pc), t, k, overtaken);
    } else {
      MovePaid(s.takeLog, s'.takeLog, Holding(pc, false), PosOf(pc), Holding(f.pc, false), PosOf(f.pc), t, k, overtaken);
    }
  }

  lemma {:induction false} ExecPaid<T>(s: State<T>, run: seq<Event<T>>, t: nat, push: bool, k: nat)
    requires Inv(s) && Paid(s, t, push, k)
    ensures Inv(Exec(s, run)) && Paid(Exec(s, run), t, push, k + TimesOvertaken(s, run, t, push))
    decreases |run|
  {
    if run == [] {
    } else {
      var e := run[0];
      StepKeepsInv(s, e.tid, e.action);
      if e.tid == t {
        OwnStepPaid(s, e, t, push, k);
        ExecPaid(Step(s, e.tid, e.action), run[1..], t, push, if OvertakenNow(s, e, t, push) then k + 1 else k);
      } else {
        OthersStepPaid(s, e, t, push, k);
        ExecPaid(Step(s, e.tid, e.action), run[1..], t, push, k);
      }
    }
  }

  /**
   In every run a thread is overtaken at its pushes no more often than other threads have claimed
   positions to push, and at its pops and evictions no more often than others have claimed positions
   to take.
   */
  lemma OvertakingsArePaidFor<T>(p: nat, policy: Policy, tids: set<nat>, run: seq<Event<T>>, t: nat)
    requires p >= 2 && t in tids
    ensures
      var s := Reached(p, policy, tids, run);
      && TimesOvertaken(Init(p, policy, tids), run, t, true) <= Others(s.pushLog, t)
      && TimesOvertaken(Init(p, policy, tids), run, t, false) <= Others(s.takeLog, t)
  {
    var s := Init<T>(p, policy, tids);
    var s' := Reached(p, policy, tids, run);
    InitInv<T>(p, policy, tids);
    ExecPaid(s, run, t, true, 0);
    ExecPaid(s, run, t, false, 0);
    Released(s'.pushLog, Holding(s'.pcs[t], true), PosOf(s'.pcs[t]), t, TimesOvertaken(s, run, t, true));
    Released(s'.takeLog, Holding(s'.pcs[t], false), PosOf(s'.pcs[t]), t, TimesOvertaken(s, run, t, false));
  }

  /** The only thread of a ring is never overtaken. */
  lemma NeverOvertakenAlone<T>(p: nat, policy: Policy, run: seq<Event<T>>, t: nat)
    requires p >= 2
    ensures TimesOvertaken(Init<T>(p, policy, {t}), run, t, true) == 0 && TimesOvertaken(Init<T>(p, policy, {t}), run, t, false) == 0
  {
    OvertakingsArePaidFor(p, policy, {t}, run, t);
    var s := Init<T>(p, policy, {t});
    OwnLogs(s, run, t);
    NoOthers(Reached(p, policy, {t}, run).pushLog, t);
    NoOthers(Reached(p, policy, {t}, run).takeLog, t);
  }

  ghost predicate OwnOnly<X>(log: seq<(nat, X)>, t: nat) {
    forall n :: 0 <= n < |log| ==> log[n].0 == t
  }

  lemma {:induction false} NoOthers<X>(log: seq<(nat, X)>, t: nat)
    requires OwnOnly(log, t)
    ensures Others(log, t) == 0
    decreases |log|
  {
    if log == [] {
    } else {
      NoOthers(log[..|log| - 1], t);
    }
  }

  lemma {:induction false} OwnLogs<T>(s: State<T>, run: seq<Event<T>>, t: nat)
    requires Shape(s) && s.pcs.Keys == {t} && OwnOnly(s.pushLog, t) && OwnOnly(s.takeLog, t)
    ensures OwnOnly(Exec(s, run).pushLog, t) && OwnOnly(Exec(s, run).takeLog, t)
    decreases |run|
  {
    if run == [] {
    } else {
      OwnLogs(Step(s, run[0].tid, run[0].action), run[1..], t);
    }
  }
}
