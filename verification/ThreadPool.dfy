/**
 The worker pool as a state machine: a task queue, an outstanding counter and a stop
 flag under one mutex, workers that loop, and clients that enqueue, wait for the queue
 to drain, or stop the pool.

 Notifications are sent after the mutex is released, so each is a step of its own and
 any other thread may run in between. Tasks are numbered in the order they are accepted.
 */
module ThreadPool {
  import opened Counting

  datatype Pc =
    // workers
    | Ready | Waiting | Awake | Running(task: nat) | Done(task: nat) | Finishing | Exited
    // clients
    | Outside | Notifying | Draining | DrainAwake | Stopping

  datatype State = State(
    tasks: seq<nat>, outstanding: nat, stopped: bool, pcs: map<nat, Pc>,
    accepted: nat, started: seq<nat>, finished: set<nat>)   // history

  datatype Action = Proceed | Enqueue | WaitEmpty | StopPool | SpuriousWake

  /** A step of thread `tid`; `pick` is the worker notify_one prefers to wake. */
  datatype Event = Event(tid: nat, action: Action, pick: nat)

  /** What a step does to the shared state. */
  datatype Change = Nothing | Accept | Take | Finish(task: nat) | Settle | Stop | WakeOne | WakeAll | WakeDrainers

  datatype Effect = Effect(pc: Pc, change: Change)

  /** The worker's section at the top of its loop. */
  ghost function Check(s: State): Effect {
    if s.tasks != [] then Effect(Running(s.tasks[0]), Take)
    else if s.stopped then Effect(Exited, Nothing)
    else Effect(Waiting, Nothing)
  }

  ghost function CheckDrained(s: State): Effect {
    Effect(if s.outstanding == 0 then Outside else Draining, Nothing)
  }

  ghost function Woken(pc: Pc): Pc {
    match pc
    case Waiting => Awake
    case Draining => DrainAwake
    case _ => pc
  }

  ghost function EffectOf(s: State, pc: Pc, a: Action): Effect {
    match a
    case Proceed => (
      match pc
      case Ready => Check(s)
      case Awake => Check(s)
      case Running(k) => Effect(Done(k), Finish(k))
      case Done(_) => Effect(Finishing, Settle)
      case Finishing => Effect(Ready, WakeDrainers)
      case Notifying => Effect(Outside, WakeOne)
      case DrainAwake => CheckDrained(s)
      case Stopping => Effect(Outside, WakeAll)
      case _ => Effect(pc, Nothing))
    case Enqueue => if pc.Outside? && !s.stopped then Effect(Notifying, Accept) else Effect(pc, Nothing)
    case WaitEmpty => if pc.Outside? then CheckDrained(s) else Effect(pc, Nothing)
    case StopPool => if pc.Outside? then Effect(Stopping, Stop) else Effect(pc, Nothing)
    case SpuriousWake => Effect(Woken(pc), Nothing)
  }

  ghost function NotifyOne(pcs: map<nat, Pc>, pick: nat): map<nat, Pc> {
    if pick in pcs && pcs[pick].Waiting? then pcs[pick := Awake]
    else if exists u :: u in pcs && pcs[u].Waiting? then
      var u :| u in pcs && pcs[u].Waiting?;
      pcs[u := Awake]
    else pcs
  }

  ghost function NotifyAll(pcs: map<nat, Pc>, workers: bool): map<nat, Pc> {
    map u | u in pcs :: if pcs[u].Waiting? && !workers then Waiting else Woken(pcs[u])
  }

  /** Where the threads are after thread `t` has moved and sent its notification. */
  ghost function PcsAfter(pcs: map<nat, Pc>, t: nat, e: Effect, pick: nat): map<nat, Pc> {
    var pcs := pcs[t := e.pc];
    if e.change.WakeOne? then NotifyOne(pcs, pick)
    else if e.change.WakeAll? then NotifyAll(pcs, true)
    else if e.change.WakeDrainers? then NotifyAll(pcs, false)
    else pcs
  }

  ghost function TasksAfter(s: State, c: Change): seq<nat> {
    if c.Accept? then s.tasks + [s.accepted] else if c.Take? && s.tasks != [] then s.tasks[1..] else s.tasks
  }

  ghost function OutstandingAfter(s: State, c: Change): nat {
    if c.Accept? then s.outstanding + 1 else if c.Settle? && s.outstanding > 0 then s.outstanding - 1 else s.outstanding
  }

  ghost function Apply(s: State, t: nat, e: Effect, pick: nat): State {
    State(
      TasksAfter(s, e.change), OutstandingAfter(s, e.change), s.stopped || e.change.Stop?, PcsAfter(s.pcs, t, e, pick),
      if e.change.Accept? then s.accepted + 1 else s.accepted,
      if e.change.Take? && s.tasks != [] then s.started + [s.tasks[0]] else s.started,
      if e.change.Finish? then s.finished + {e.change.task} else s.finished)
  }

  ghost function Step(s: State, e: Event): State {
    if e.tid in s.pcs then Apply(s, e.tid, EffectOf(s, s.pcs[e.tid], e.action), e.pick) else s
  }

  ghost function Exec(s: State, run: seq<Event>): State
    decreases |run|
  {
    if run == [] then s else Exec(Step(s, run[0]), run[1..])
  }

  ghost function Init(workers: set<nat>, clients: set<nat>): State {
    State([], 0, false, map t | t in workers + clients :: if t in workers then Ready else Outside, 0, [], {})
  }

  // ---- The invariant -------------------------------------------------------

  datatype Kind = AtCheck | AtWait | AtTask | AtFinish | AtExit | AtNotify | AtDrain | AtStop | Elsewhere

  ghost function KindOf(pc: Pc): Kind {
    match pc
    case Ready => AtCheck
    case Awake => AtCheck
    case Waiting => AtWait
    case Running(_) => AtTask
    case Done(_) => AtTask
    case Finishing => AtFinish
    case Exited => AtExit
    case Notifying => AtNotify
    case Draining => AtDrain
    case Stopping => AtStop
    case _ => Elsewhere
  }

  ghost function Of(k: Kind): Pc -> bool { pc => KindOf(pc) == k }

  ghost function At(pcs: map<nat, Pc>, k: Kind): nat { CountIf(pcs, Of(k)) }

  /** How many threads are where. */
  datatype Counts = Counts(check: int, wait: int, task: int, finish: int, exit: int, notify: int, drain: int, stop: int)

  ghost function CountsOf(pcs: map<nat, Pc>): Counts {
    Counts(At(pcs, AtCheck), At(pcs, AtWait), At(pcs, AtTask), At(pcs, AtFinish),
           At(pcs, AtExit), At(pcs, AtNotify), At(pcs, AtDrain), At(pcs, AtStop))
  }

  ghost function Plus(c: Counts, k: Kind, d: int): Counts {
    match k
    case AtCheck => c.(check := c.check + d)
    case AtWait => c.(wait := c.wait + d)
    case AtTask => c.(task := c.task + d)
    case AtFinish => c.(finish := c.finish + d)
    case AtExit => c.(exit := c.exit + d)
    case AtNotify => c.(notify := c.notify + d)
    case AtDrain => c.(drain := c.drain + d)
    case AtStop => c.(stop := c.stop + d)
    case Elsewhere => c
  }

  ghost function Moved(c: Counts, from: Kind, to: Kind): Counts {
    Plus(Plus(c, from, -1), to, 1)
  }

  ghost function RunningTask(k: nat): Pc -> bool { pc => pc == Running(k) }

  /** The task numbers below `n`, in order. */
  ghost function Upto(n: nat): seq<nat> {
    seq(n, i => i)
  }

  /** Every accepted task is queued or started, in order. */
  ghost predicate LogOk(s: State) {
    s.started + s.tasks == Upto(s.accepted)
  }

  /** Task `k` is being run by one thread from its start until it is finished, and by none otherwise. */
  ghost predicate TaskOk(s: State, k: nat) {
    && (k in s.finished ==> k < |s.started|)
    && CountIf(s.pcs, RunningTask(k)) == if k < |s.started| && k !in s.finished then 1 else 0
  }

  ghost predicate TasksOk(s: State) {
    LogOk(s) && forall k :: TaskOk(s, k)
  }

  ghost predicate NonNegative(c: Counts) {
    && c.check >= 0 && c.wait >= 0 && c.task >= 0 && c.finish >= 0
    && c.exit >= 0 && c.notify >= 0 && c.drain >= 0 && c.stop >= 0
  }

  /** The counter, and who is still going to be woken. */
  ghost predicate Balance(queued: nat, outstanding: nat, stopped: bool, c: Counts) {
    && NonNegative(c)
    && outstanding == queued + c.task
    && (c.wait > 0 ==> queued <= c.check + c.notify)
    && (c.wait > 0 && stopped ==> c.stop > 0)
    && (c.drain > 0 && outstanding == 0 ==> c.finish > 0)
    && (c.exit > 0 ==> stopped && queued == 0)
  }

  ghost predicate Balanced(s: State) {
    Balance(|s.tasks|, s.outstanding, s.stopped, CountsOf(s.pcs))
  }

  ghost predicate Inv(s: State) {
    TasksOk(s) && Balanced(s)
  }

  lemma AtUpdate(pcs: map<nat, Pc>, t: nat, pc: Pc, k: Kind)
    requires t in pcs
    ensures At(pcs[t := pc], k) == At(pcs, k) - (if KindOf(pcs[t]) == k then 1 else 0) + (if KindOf(pc) == k then 1 else 0)
    ensures KindOf(pcs[t]) == k ==> At(pcs, k) > 0
  {
    CountUpdate(pcs, t, pc, Of(k));
    CountZero(pcs, Of(k));
    assert Of(k)(pcs[t]) <==> KindOf(pcs[t]) == k;
  }

  lemma Recount(pcs: map<nat, Pc>, t: nat, pc: Pc)
    requires t in pcs
    ensures CountsOf(pcs[t := pc]) == Moved(CountsOf(pcs), KindOf(pcs[t]), KindOf(pc))
    ensures NonNegative(Plus(CountsOf(pcs), KindOf(pcs[t]), -1))
  {
    AtUpdate(pcs, t, pc, AtCheck);
    AtUpdate(pcs, t, pc, AtWait);
    AtUpdate(pcs, t, pc, AtTask);
    AtUpdate(pcs, t, pc, AtFinish);
    AtUpdate(pcs, t, pc, AtExit);
    AtUpdate(pcs, t, pc, AtNotify);
    AtUpdate(pcs, t, pc, AtDrain);
    AtUpdate(pcs, t, pc, AtStop);
  }

  lemma SomebodyAt(pcs: map<nat, Pc>, t: nat)
    requires t in pcs
    ensures At(pcs, KindOf(pcs[t])) > 0
  {
    CountZero(pcs, Of(KindOf(pcs[t])));
    assert Of(KindOf(pcs[t]))(pcs[t]);
  }

  lemma NobodyAt(pcs: map<nat, Pc>, k: Kind)
    requires forall u :: u in pcs ==> KindOf(pcs[u]) != k
    ensures At(pcs, k) == 0
  {
    CountZero(pcs, Of(k));
  }

  /** notify_one moves one waiting worker, if there is any, to its check. */
  ghost function OneWoken(c: Counts): Counts {
    if c.wait > 0 then Moved(c, AtWait, AtCheck) else c
  }

  lemma WorkerWoken(pcs: map<nat, Pc>, u: nat)
    requires u in pcs && pcs[u].Waiting?
    ensures CountsOf(pcs[u := Awake]) == OneWoken(CountsOf(pcs))
  {
    Recount(pcs, u, Awake);
  }

  lemma NobodyWoken(pcs: map<nat, Pc>)
    requires At(pcs, AtWait) == 0
    ensures OneWoken(CountsOf(pcs)) == CountsOf(pcs)
  {
  }

  lemma NotifyOneCounts(pcs: map<nat, Pc>, pick: nat)
    ensures CountsOf(NotifyOne(pcs, pick)) == OneWoken(CountsOf(pcs))
  {
    if u :| u in pcs && pcs[u].Waiting? && NotifyOne(pcs, pick) == pcs[u := Awake] {
      WorkerWoken(pcs, u);
    } else {
      NobodyAt(pcs, AtWait);
      NobodyWoken(pcs);
    }
  }

  /** notify_all leaves no drainer waiting, and no worker when it is for workers too. */
  ghost function AllWoken(c: Counts, workers: bool): Counts {
    if workers then c.(drain := 0, check := c.check + c.wait, wait := 0) else c.(drain := 0)
  }

  lemma KeptByAll(pcs: map<nat, Pc>, pcs': map<nat, Pc>, workers: bool, k: Kind)
    requires pcs' == NotifyAll(pcs, workers)
    requires !k.AtDrain? && !k.Elsewhere? && (workers ==> !k.AtWait? && !k.AtCheck?)
    ensures At(pcs', k) == At(pcs, k)
  {
    assert forall u :: u in pcs ==> (Of(k)(pcs'[u]) <==> Of(k)(pcs[u]));
    assert Matching(pcs', Of(k)) == Matching(pcs, Of(k));
  }

  lemma DrainersWoken(pcs: map<nat, Pc>, workers: bool)
    ensures At(NotifyAll(pcs, workers), AtDrain) == 0
  {
    CountZero(NotifyAll(pcs, workers), Of(AtDrain));
  }

  lemma WorkersWoken(pcs: map<nat, Pc>)
    ensures At(NotifyAll(pcs, true), AtWait) == 0
    ensures At(NotifyAll(pcs, true), AtCheck) == At(pcs, AtCheck) + At(pcs, AtWait)
  {
    var pcs' := NotifyAll(pcs, true);
    CountZero(pcs', Of(AtWait));
    var a, b := Matching(pcs, Of(AtCheck)), Matching(pcs, Of(AtWait));
    assert Matching(pcs', Of(AtCheck)) == a + b;
    assert a !! b;
  }

  lemma NotifyAllCounts(pcs: map<nat, Pc>, pcs': map<nat, Pc>, workers: bool)
    requires pcs' == NotifyAll(pcs, workers)
    ensures CountsOf(pcs') == AllWoken(CountsOf(pcs), workers)
  {
    DrainersWoken(pcs, workers);
    KeptByAll(pcs, pcs', workers, AtTask);
    KeptByAll(pcs, pcs', workers, AtFinish);
    KeptByAll(pcs, pcs', workers, AtExit);
    KeptByAll(pcs, pcs', workers, AtNotify);
    KeptByAll(pcs, pcs', workers, AtStop);
    if workers {
      WorkersWoken(pcs);
    } else {
      KeptByAll(pcs, pcs', workers, AtWait);
      KeptByAll(pcs, pcs', workers, AtCheck);
    }
  }

  /** The counts after a step, from the counts before it. */
  ghost function CountsAfter(c: Counts, pc: Pc, e: Effect): Counts {
    var c := Moved(c, KindOf(pc), KindOf(e.pc));
    if e.change.WakeOne? then OneWoken(c)
    else if e.change.WakeAll? then AllWoken(c, true)
    else if e.change.WakeDrainers? then AllWoken(c, false)
    else c
  }

  lemma StepCounts(pcs: map<nat, Pc>, t: nat, e: Effect, pick: nat)
    requires t in pcs
    ensures CountsOf(PcsAfter(pcs, t, e, pick)) == CountsAfter(CountsOf(pcs), pcs[t], e)
    ensures NonNegative(Plus(CountsOf(pcs), KindOf(pcs[t]), -1))
  {
    var moved := pcs[t := e.pc];
    Recount(pcs, t, e.pc);
    if e.change.WakeOne? {
      NotifyOneCounts(moved, pick);
    } else if e.change.WakeAll? {
      NotifyAllCounts(moved, NotifyAll(moved, true), true);
    } else if e.change.WakeDrainers? {
      NotifyAllCounts(moved, NotifyAll(moved, false), false);
    }
  }

  /** The arithmetic of one step. */
  ghost predicate BalancedAfter(s: State, pc: Pc, a: Action, c: Counts) {
    var e := EffectOf(s, pc, a);
    Balance(|TasksAfter(s, e.change)|, OutstandingAfter(s, e.change), s.stopped || e.change.Stop?, CountsAfter(c, pc, e))
  }

  /** A worker at the top of its loop. */
  lemma CheckKeepsBalance(s: State, pc: Pc, c: Counts)
    requires Balance(|s.tasks|, s.outstanding, s.stopped, c) && NonNegative(Plus(c, KindOf(pc), -1))
    requires pc.Ready? || pc.Awake?
    ensures BalancedAfter(s, pc, Proceed, c)
  {
  }

  /** A worker around its task. */
  lemma WorkKeepsBalance(s: State, pc: Pc, c: Counts)
    requires Balance(|s.tasks|, s.outstanding, s.stopped, c) && NonNegative(Plus(c, KindOf(pc), -1))
    requires pc.Running? || pc.Done? || pc.Finishing?
    ensures BalancedAfter(s, pc, Proceed, c)
  {
  }

  /** A client about to notify, or woken in wait_empty. */
  lemma ClientKeepsBalance(s: State, pc: Pc, c: Counts)
    requires Balance(|s.tasks|, s.outstanding, s.stopped, c) && NonNegative(Plus(c, KindOf(pc), -1))
    requires pc.Notifying? || pc.Stopping? || pc.DrainAwake?
    ensures BalancedAfter(s, pc, Proceed, c)
  {
  }

  lemma ProceedKeepsBalance(s: State, pc: Pc, c: Counts)
    requires Balance(|s.tasks|, s.outstanding, s.stopped, c) && NonNegative(Plus(c, KindOf(pc), -1))
    ensures BalancedAfter(s, pc, Proceed, c)
  {
    match pc
    case Ready => CheckKeepsBalance(s, pc, c);
    case Awake => CheckKeepsBalance(s, pc, c);
    case Running(_) => WorkKeepsBalance(s, pc, c);
    case Done(_) => WorkKeepsBalance(s, pc, c);
    case Finishing => WorkKeepsBalance(s, pc, c);
    case Notifying => ClientKeepsBalance(s, pc, c);
    case Stopping => ClientKeepsBalance(s, pc, c);
    case DrainAwake => ClientKeepsBalance(s, pc, c);
    case _ => StayKeepsBalance(s, pc, Proceed, c);
  }

  lemma StayKeepsBalance(s: State, pc: Pc, a: Action, c: Counts)
    requires Balance(|s.tasks|, s.outstanding, s.stopped, c) && EffectOf(s, pc, a) == Effect(pc, Nothing)
    ensures BalancedAfter(s, pc, a, c)
  {
    assert Moved(c, KindOf(pc), KindOf(pc)) == c;
  }

  lemma CallKeepsBalance(s: State, pc: Pc, a: Action, c: Counts)
    requires Balance(|s.tasks|, s.outstanding, s.stopped, c) && NonNegative(Plus(c, KindOf(pc), -1)) && !a.Proceed?
    ensures BalancedAfter(s, pc, a, c)
  {
    if EffectOf(s, pc, a) == Effect(pc, Nothing) {
      StayKeepsBalance(s, pc, a, c);
    } else {
      assert pc.Outside? || pc.Waiting? || pc.Draining?;
    }
  }

  lemma BalanceKept(s: State, t: nat, a: Action, pick: nat)
    requires Balanced(s) && t in s.pcs
    ensures Balanced(Apply(s, t, EffectOf(s, s.pcs[t], a), pick))
  {
    StepCounts(s.pcs, t, EffectOf(s, s.pcs[t], a), pick);
    if a.Proceed? {
      ProceedKeepsBalance(s, s.pcs[t], CountsOf(s.pcs));
    } else {
      CallKeepsBalance(s, s.pcs[t], a, CountsOf(s.pcs));
    }
  }

  // ---- Tasks ---------------------------------------------------------------

  /** Notifications move no running thread. */
  lemma RunningKept(pcs: map<nat, Pc>, t: nat, e: Effect, pick: nat, k: nat)
    requires t in pcs
    ensures CountIf(PcsAfter(pcs, t, e, pick), RunningTask(k)) == CountIf(pcs[t := e.pc], RunningTask(k))
  {
    var moved, after, f := pcs[t := e.pc], PcsAfter(pcs, t, e, pick), RunningTask(k);
    assert after.Keys == moved.Keys;
    assert forall u :: u in moved ==> (f(after[u]) <==> f(moved[u]));
    assert Matching(after, f) == Matching(moved, f);
  }

  lemma LogKept(s: State, t: nat, e: Effect, pick: nat)
    requires LogOk(s)
    ensures LogOk(Apply(s, t, e, pick))
  {
    if e.change.Accept? {
      assert Upto(s.accepted + 1) == Upto(s.accepted) + [s.accepted];
    } else if e.change.Take? && s.tasks != [] {
      assert s.tasks == [s.tasks[0]] + s.tasks[1..];
    }
  }

  lemma FrontIsNext(s: State)
    requires LogOk(s) && s.tasks != []
    ensures s.tasks[0] == |s.started|
  {
    assert (s.started + s.tasks)[|s.started|] == s.tasks[0];
  }

  lemma TaskKept(s: State, t: nat, a: Action, pick: nat, k: nat)
    requires TasksOk(s) && t in s.pcs
    ensures TaskOk(Apply(s, t, EffectOf(s, s.pcs[t], a), pick), k)
  {
    var e := EffectOf(s, s.pcs[t], a);
    RunningKept(s.pcs, t, e, pick, k);
    CountUpdate(s.pcs, t, e.pc, RunningTask(k));
    CountZero(s.pcs, RunningTask(k));
    assert TaskOk(s, k);
    if s.tasks != [] {
      FrontIsNext(s);
    }
  }

  lemma StepKeepsInv(s: State, e: Event)
    requires Inv(s)
    ensures Inv(Step(s, e))
  {
    if e.tid in s.pcs {
      BalanceKept(s, e.tid, e.action, e.pick);
      LogKept(s, e.tid, EffectOf(s, s.pcs[e.tid], e.action), e.pick);
      forall k
        ensures TaskOk(Step(s, e), k)
      {
        TaskKept(s, e.tid, e.action, e.pick, k);
      }
    }
  }

  lemma {:induction false} ExecKeepsInv(s: State, run: seq<Event>)
    requires Inv(s)
    ensures Inv(Exec(s, run))
    decreases |run|
  {
    if run == [] {
    } else {
      StepKeepsInv(s, run[0]);
      ExecKeepsInv(Step(s, run[0]), run[1..]);
    }
  }

  lemma NobodyRuns(pcs: map<nat, Pc>, k: nat)
    requires At(pcs, AtTask) == 0
    ensures CountIf(pcs, RunningTask(k)) == 0
  {
    CountZero(pcs, Of(AtTask));
    CountZero(pcs, RunningTask(k));
    assert forall u :: u in pcs && RunningTask(k)(pcs[u]) ==> Of(AtTask)(pcs[u]);
  }

  lemma InitInv(workers: set<nat>, clients: set<nat>)
    ensures Inv(Init(workers, clients))
  {
    var s := Init(workers, clients);
    NobodyAt(s.pcs, AtWait);
    NobodyAt(s.pcs, AtTask);
    NobodyAt(s.pcs, AtExit);
    NobodyAt(s.pcs, AtDrain);
    forall k
      ensures TaskOk(s, k)
    {
      NobodyRuns(s.pcs, k);
    }
  }

  ghost function Reached(workers: set<nat>, clients: set<nat>, run: seq<Event>): State {
    Exec(Init(workers, clients), run)
  }

  lemma ReachedInv(workers: set<nat>, clients: set<nat>, run: seq<Event>)
    ensures Inv(Reached(workers, clients, run))
  {
    InitInv(workers, clients);
    ExecKeepsInv(Init(workers, clients), run);
  }

  // ---- Main results --------------------------------------------------------

  /**
   In every run tasks are started in the order they were accepted, each exactly once,
   each is run by one thread until it has finished, and `outstanding` is the number of
   tasks queued or in the hands of a worker.
   */
  lemma EachTaskOnce(workers: set<nat>, clients: set<nat>, run: seq<Event>, k: nat)
    ensures
      var s := Reached(workers, clients, run);
      && s.started + s.tasks == Upto(s.accepted)
      && (k in s.finished ==> k < |s.started|)
      && CountIf(s.pcs, RunningTask(k)) == (if k < |s.started| && k !in s.finished then 1 else 0)
      && s.outstanding == |s.tasks| + At(s.pcs, AtTask)
  {
    ReachedInv(workers, clients, run);
    assert TaskOk(Reached(workers, clients, run), k);
  }

  /** With nothing outstanding, every accepted task has finished. */
  lemma DrainedMeansFinished(s: State, k: nat)
    requires Inv(s) && s.outstanding == 0 && k < s.accepted
    ensures k in s.finished
  {
    NobodyRuns(s.pcs, k);
    assert TaskOk(s, k);
    assert |s.started| == s.accepted;
  }

  ghost predicate InWaitEmpty(s: State, e: Event) {
    e.tid in s.pcs && if s.pcs[e.tid].Outside? then e.action.WaitEmpty? else e.action.Proceed? && s.pcs[e.tid].DrainAwake?
  }

  lemma ReturnsWhenDrained(s: State, e: Event)
    requires InWaitEmpty(s, e) && Step(s, e).pcs[e.tid].Outside?
    ensures s.outstanding == 0
  {
  }

  /** wait_empty returns only when every task accepted so far has finished. */
  lemma WaitEmptyWaits(workers: set<nat>, clients: set<nat>, run: seq<Event>, e: Event, k: nat)
    requires
      var s := Reached(workers, clients, run);
      && InWaitEmpty(s, e)
      && Step(s, e).pcs[e.tid].Outside? && k < s.accepted
    ensures k in Reached(workers, clients, run).finished
  {
    ReachedInv(workers, clients, run);
    ReturnsWhenDrained(Reached(workers, clients, run), e);
    DrainedMeansFinished(Reached(workers, clients, run), k);
  }

  ghost predicate NobodyWorking(s: State) {
    forall u :: u in s.pcs ==> !s.pcs[u].Running? && !s.pcs[u].Done?
  }

  lemma OutstandingCounts(s: State)
    requires Balanced(s)
    ensures s.outstanding == |s.tasks| + At(s.pcs, AtTask)
  {
  }

  lemma NothingAtTask(s: State)
    requires NobodyWorking(s)
    ensures At(s.pcs, AtTask) == 0
  {
    NobodyAt(s.pcs, AtTask);
  }

  /**
   A worker leaves only when the pool is stopped and its queue is empty, and once all
   workers have left, every accepted task has finished.
   */
  lemma WorkersLeaveNothingBehind(workers: set<nat>, clients: set<nat>, run: seq<Event>, t: nat, k: nat)
    requires t in Reached(workers, clients, run).pcs && Reached(workers, clients, run).pcs[t].Exited?
    ensures Reached(workers, clients, run).stopped && Reached(workers, clients, run).tasks == []
    ensures
      var s := Reached(workers, clients, run);
      NobodyWorking(s) && k < s.accepted ==> k in s.finished
  {
    var s := Reached(workers, clients, run);
    ReachedInv(workers, clients, run);
    SomebodyAt(s.pcs, t);
    if NobodyWorking(s) && k < s.accepted {
      OutstandingCounts(s);
      NothingAtTask(s);
      DrainedMeansFinished(s, k);
    }
  }

  /** Who is still going to be woken, by where the threads are. */
  ghost predicate NobodyForgotten(s: State) {
    && (At(s.pcs, AtWait) > 0 ==> |s.tasks| <= At(s.pcs, AtCheck) + At(s.pcs, AtNotify))
    && (At(s.pcs, AtWait) > 0 && s.stopped ==> At(s.pcs, AtStop) > 0)
    && (At(s.pcs, AtDrain) > 0 && s.outstanding == 0 ==> At(s.pcs, AtFinish) > 0)
  }

  lemma ReachedForgetsNobody(workers: set<nat>, clients: set<nat>, run: seq<Event>)
    ensures NobodyForgotten(Reached(workers, clients, run))
  {
    ReachedInv(workers, clients, run);
  }

  lemma WaiterIsRemembered(s: State, t: nat)
    requires NobodyForgotten(s) && t in s.pcs
    ensures s.pcs[t].Waiting? ==> |s.tasks| <= At(s.pcs, AtCheck) + At(s.pcs, AtNotify)
    ensures s.pcs[t].Waiting? && s.stopped ==> At(s.pcs, AtStop) > 0
    ensures s.pcs[t].Draining? && s.outstanding == 0 ==> At(s.pcs, AtFinish) > 0
  {
    SomebodyAt(s.pcs, t);
  }

  /**
   No wakeup is lost: while a worker waits, every queued task has a worker about to
   check or a notification on its way; while the pool is stopped, a waiting worker
   has a broadcast on its way; a client waits for a drained queue only while tasks are
   outstanding or a broadcast is on its way.
   */
  lemma NoLostWakeup(workers: set<nat>, clients: set<nat>, run: seq<Event>, t: nat)
    requires t in Reached(workers, clients, run).pcs
    ensures
      var s := Reached(workers, clients, run);
      && (s.pcs[t].Waiting? ==> |s.tasks| <= At(s.pcs, AtCheck) + At(s.pcs, AtNotify))
      && (s.pcs[t].Waiting? && s.stopped ==> At(s.pcs, AtStop) > 0)
      && (s.pcs[t].Draining? && s.outstanding == 0 ==> At(s.pcs, AtFinish) > 0)
  {
    ReachedForgetsNobody(workers, clients, run);
    WaiterIsRemembered(Reached(workers, clients, run), t);
  }

  /** After stop nothing is accepted any more. */
  lemma {:induction false} NothingAcceptedAfterStop(s: State, run: seq<Event>)
    requires s.stopped
    ensures Exec(s, run).stopped && Exec(s, run).accepted == s.accepted
    decreases |run|
  {
    if run == [] {
    } else {
      NothingAcceptedAfterStop(Step(s, run[0]), run[1..]);
    }
  }

  // ---- What steps answer ---------------------------------------------------

  /** An enqueue by a client is accepted as one new task at the back if and only if the pool is not stopped. */
  lemma EnqueueAnswers(s: State, t: nat, pick: nat)
    requires t in s.pcs && s.pcs[t].Outside?
    ensures
      var s' := Step(s, Event(t, Enqueue, pick));
      if s.stopped then s'.tasks == s.tasks && s'.accepted == s.accepted && s'.outstanding == s.outstanding
      else
        && s'.tasks == s.tasks + [s.accepted] && s'.accepted == s.accepted + 1 && s'.outstanding == s.outstanding + 1
        && s'.pcs[t].Notifying?
  {
  }

  /** A worker at the top of its loop takes the front task if there is one, and otherwise leaves if and only if stopped. */
  lemma WorkerTakes(s: State, t: nat, pick: nat)
    requires t in s.pcs && (s.pcs[t].Ready? || s.pcs[t].Awake?)
    ensures
      var s' := Step(s, Event(t, Proceed, pick));
      if s.tasks != [] then
        s'.pcs[t] == Running(s.tasks[0]) && s'.tasks == s.tasks[1..] && s'.started == s.started + [s.tasks[0]]
      else s'.tasks == [] && s'.started == s.started && s'.pcs[t] == if s.stopped then Exited else Waiting
  {
  }

  /** wait_empty returns at once if and only if nothing is outstanding; a stop by a client stops the pool. */
  lemma ClientAnswers(s: State, t: nat, pick: nat)
    requires t in s.pcs && s.pcs[t].Outside?
    ensures Step(s, Event(t, WaitEmpty, pick)).pcs[t] == if s.outstanding == 0 then Outside else Draining
    ensures Step(s, Event(t, StopPool, pick)).stopped && Step(s, Event(t, StopPool, pick)).pcs[t].Stopping?
  {
  }

  /** A worker with a task runs it to its end, settles the account and comes back to the top of its loop. */
  lemma TaskRunsThrough(s: State, t: nat, pick: nat)
    requires t in s.pcs && s.pcs[t].Running? && s.outstanding > 0
    ensures
      var e := Event(t, Proceed, pick);
      var s1 := Step(s, e);
      var s2 := Step(s1, e);
      var s3 := Step(s2, e);
      && s1.finished == s.finished + {s.pcs[t].task} && s1.outstanding == s.outstanding
      && s2.outstanding == s.outstanding - 1 && s2.finished == s1.finished
      && t in s3.pcs && s3.pcs[t].Ready? && s3.outstanding == s2.outstanding
      && s3.tasks == s.tasks && s3.started == s.started
  {
  }

  /** A client that has accepted a task or stopped the pool sends its notification and is done; a woken drainer looks again. */
  lemma ClientsReturn(s: State, t: nat, pick: nat)
    requires t in s.pcs
    ensures
      var s' := Step(s, Event(t, Proceed, pick));
      && t in s'.pcs
      && (s.pcs[t].Notifying? || s.pcs[t].Stopping? ==> s'.pcs[t].Outside?)
      && (s.pcs[t].DrainAwake? ==> s'.pcs[t] == if s.outstanding == 0 then Outside else Draining)
  {
  }
}
