/**
 The blocking queue (policy Block) as a monitor: a deque under one mutex with the
 condition variables not_full_ and not_empty_.

 A thread is outside, blocked on a condition variable, or awake: woken and about
 to take the mutex again.  Each section executed under the mutex is one step.
 Wakeups may be spurious, timed waits may time out, notify_one may pick any
 blocked thread, and threads that were never blocked may take the mutex first.
 */
module BlockingQueue {
  import opened Counting
  import opened Numbers

  datatype Pc<+T> =
    | Outside
    | PushBlocked(item: T)
    | PushAwake(item: T, notified: bool)
    | PopBlocked(timed: bool)
    | PopAwake(timed: bool, expired: bool, notified: bool)

  datatype State<+T> = State(
    capacity: nat, buffer: seq<T>, stopped: bool, pcs: map<nat, Pc<T>>,
    accepted: seq<T>, delivered: seq<T>)   // history: items pushed and items popped, in order

  datatype Action<+T> =
    | Push(item: T)
    | TryPop
    | WaitPop(timed: bool)
    | Stop
    | Resume          // an awake thread takes the mutex and re-checks its condition
    | SpuriousWake
    | Timeout

  /** A step of thread `tid`; `pick` is the thread notify_one prefers to wake. */
  datatype Event<+T> = Event(tid: nat, action: Action<T>, pick: nat)

  /** What a section does: the thread's next program counter and the change to the queue. */
  datatype Effect<+T> = Effect(pc: Pc<T>, pushes: Option<T>, pops: bool, stops: bool)

  ghost function Goto<T>(pc: Pc<T>): Effect<T> {
    Effect(pc, None, false, false)
  }

  ghost function TryPush<T>(s: State<T>, item: T): Effect<T> {
    if s.stopped then Goto(Outside)
    else if |s.buffer| < s.capacity then Goto(Outside).(pushes := Some(item))
    else Goto(PushBlocked(item))
  }

  /** wait_pop takes an item if there is one, gives up when stopped or expired, and blocks otherwise. */
  ghost function TryWait<T>(s: State<T>, timed: bool, expired: bool): Effect<T> {
    if s.buffer != [] then Goto(Outside).(pops := true)
    else if s.stopped || expired then Goto(Outside)
    else Goto(PopBlocked(timed))
  }

  /** A blocked thread wakes up, by a notification or spuriously. */
  ghost function Woken<T>(pc: Pc<T>, notified: bool): Pc<T> {
    match pc
    case PushBlocked(item) => PushAwake(item, notified)
    case PopBlocked(timed) => PopAwake(timed, false, notified)
    case _ => pc
  }

  ghost function EffectOf<T>(s: State<T>, pc: Pc<T>, a: Action<T>): Effect<T> {
    match a
    case Push(item) => if pc.Outside? then TryPush(s, item) else Goto(pc)
    case TryPop => if pc.Outside? then Goto(pc).(pops := s.buffer != []) else Goto(pc)
    case WaitPop(timed) => if pc.Outside? then TryWait(s, timed, false) else Goto(pc)
    case Stop => Goto(pc).(stops := pc.Outside?)
    case Resume =>
      if pc.PushAwake? then TryPush(s, pc.item)
      else if pc.PopAwake? then TryWait(s, pc.timed, pc.expired)
      else Goto(pc)
    case SpuriousWake => Goto(Woken(pc, false))
    case Timeout => Goto(if pc.PopBlocked? && pc.timed then PopAwake(true, true, false) else pc)
  }

  ghost predicate ProducerBlocked<T>(pc: Pc<T>) { pc.PushBlocked? }
  ghost predicate ProducerNotified<T>(pc: Pc<T>) { pc.PushAwake? && pc.notified }
  ghost predicate ConsumerBlocked<T>(pc: Pc<T>) { pc.PopBlocked? }
  ghost predicate ConsumerNotified<T>(pc: Pc<T>) { pc.PopAwake? && pc.notified }

  /** notify_one wakes one of the blocked threads, if there is any. */
  ghost function NotifyOne<T>(pcs: map<nat, Pc<T>>, blocked: Pc<T> -> bool, pick: nat): map<nat, Pc<T>> {
    if pick in pcs && blocked(pcs[pick]) then pcs[pick := Woken(pcs[pick], true)]
    else if exists u :: u in pcs && blocked(pcs[u]) then
      var u :| u in pcs && blocked(pcs[u]);
      pcs[u := Woken(pcs[u], true)]
    else pcs
  }

  ghost function NotifyAll<T>(pcs: map<nat, Pc<T>>): map<nat, Pc<T>> {
    map u | u in pcs :: Woken(pcs[u], true)
  }

  ghost function Apply<T>(s: State<T>, t: nat, e: Effect<T>, pick: nat): State<T> {
    var pcs := s.pcs[t := e.pc];
    if e.pushes.Some? then
      s.(buffer := s.buffer + [e.pushes.value], accepted := s.accepted + [e.pushes.value],
         pcs := NotifyOne(pcs, ConsumerBlocked, pick))
    else if e.pops && s.buffer != [] then
      s.(buffer := s.buffer[1..], delivered := s.delivered + [s.buffer[0]],
         pcs := NotifyOne(pcs, ProducerBlocked, pick))
    else if e.stops then s.(stopped := true, pcs := NotifyAll(pcs))
    else s.(pcs := pcs)
  }

  ghost function Step<T>(s: State<T>, e: Event<T>): State<T> {
    if e.tid in s.pcs then Apply(s, e.tid, EffectOf(s, s.pcs[e.tid], e.action), e.pick) else s
  }

  ghost function Exec<T>(s: State<T>, run: seq<Event<T>>): State<T>
    decreases |run|
  {
    if run == [] then s else Exec(Step(s, run[0]), run[1..])
  }

  ghost function Init<T>(capacity: nat, tids: set<nat>): State<T> {
    State(capacity, [], false, map t | t in tids :: Outside, [], [])
  }

  // ---- The invariant -------------------------------------------------------

  /** The wakeup balance as arithmetic: blocked and notified producers and consumers, items and capacity. */
  ghost predicate Balanced(items: nat, capacity: nat, stopped: bool, pb: nat, pn: nat, cb: nat, cn: nat) {
    && items <= capacity
    && (cb > 0 ==> items <= cn)
    && (pb > 0 ==> capacity - items <= pn)
    && (stopped ==> pb == 0 && cb == 0)
  }

  ghost predicate Inv<T>(s: State<T>) {
    && s.accepted == s.delivered + s.buffer
    && Balanced(|s.buffer|, s.capacity, s.stopped,
                CountIf(s.pcs, ProducerBlocked), CountIf(s.pcs, ProducerNotified),
                CountIf(s.pcs, ConsumerBlocked), CountIf(s.pcs, ConsumerNotified))
  }

  /** Moving one thread from `x` to `y` moves the four counts by what each class loses and gains. */
  lemma Recount<T>(pcs: map<nat, Pc<T>>, t: nat, pc: Pc<T>)
    requires t in pcs
    ensures CountIf(pcs[t := pc], ProducerBlocked) == CountIf(pcs, ProducerBlocked) - One(pcs[t].PushBlocked?) + One(pc.PushBlocked?)
    ensures CountIf(pcs[t := pc], ProducerNotified) == CountIf(pcs, ProducerNotified) - One(ProducerNotified(pcs[t])) + One(ProducerNotified(pc))
    ensures CountIf(pcs[t := pc], ConsumerBlocked) == CountIf(pcs, ConsumerBlocked) - One(pcs[t].PopBlocked?) + One(pc.PopBlocked?)
    ensures CountIf(pcs[t := pc], ConsumerNotified) == CountIf(pcs, ConsumerNotified) - One(ConsumerNotified(pcs[t])) + One(ConsumerNotified(pc))
  {
    CountUpdate(pcs, t, pc, ProducerBlocked);
    CountUpdate(pcs, t, pc, ProducerNotified);
    CountUpdate(pcs, t, pc, ConsumerBlocked);
    CountUpdate(pcs, t, pc, ConsumerNotified);
  }

  /** Notifying not_empty_ turns one blocked consumer, if any, into a notified one and touches nobody else. */
  lemma NotifyConsumer<T>(pcs: map<nat, Pc<T>>, pick: nat)
    ensures
      var pcs' := NotifyOne(pcs, ConsumerBlocked, pick);
      var moved := One(CountIf(pcs, ConsumerBlocked) > 0);
      && CountIf(pcs', ProducerBlocked) == CountIf(pcs, ProducerBlocked)
      && CountIf(pcs', ProducerNotified) == CountIf(pcs, ProducerNotified)
      && CountIf(pcs', ConsumerBlocked) == CountIf(pcs, ConsumerBlocked) - moved
      && CountIf(pcs', ConsumerNotified) == CountIf(pcs, ConsumerNotified) + moved
  {
    CountZero(pcs, ConsumerBlocked);
    if u :| u in pcs && ConsumerBlocked(pcs[u]) && NotifyOne(pcs, ConsumerBlocked, pick) == pcs[u := Woken(pcs[u], true)] {
      Recount(pcs, u, Woken(pcs[u], true));
    }
  }

  lemma NotifyProducer<T>(pcs: map<nat, Pc<T>>, pick: nat)
    ensures
      var pcs' := NotifyOne(pcs, ProducerBlocked, pick);
      var moved := One(CountIf(pcs, ProducerBlocked) > 0);
      && CountIf(pcs', ProducerBlocked) == CountIf(pcs, ProducerBlocked) - moved
      && CountIf(pcs', ProducerNotified) == CountIf(pcs, ProducerNotified) + moved
      && CountIf(pcs', ConsumerBlocked) == CountIf(pcs, ConsumerBlocked)
      && CountIf(pcs', ConsumerNotified) == CountIf(pcs, ConsumerNotified)
  {
    CountZero(pcs, ProducerBlocked);
    if u :| u in pcs && ProducerBlocked(pcs[u]) && NotifyOne(pcs, ProducerBlocked, pick) == pcs[u := Woken(pcs[u], true)] {
      Recount(pcs, u, Woken(pcs[u], true));
    }
  }

  /** The arithmetic of one section: the thread moves, then a push or a pop notifies the other side. */
  lemma EffectKeepsBalance<T>(s: State<T>, pc: Pc<T>, a: Action<T>, pb: nat, pn: nat, cb: nat, cn: nat)
    requires Balanced(|s.buffer|, s.capacity, s.stopped, pb, pn, cb, cn)
    requires One(pc.PushBlocked?) <= pb && One(ProducerNotified(pc)) <= pn
    requires One(pc.PopBlocked?) <= cb && One(ConsumerNotified(pc)) <= cn
    ensures
      var e := EffectOf(s, pc, a);
      var pb', pn' := pb - One(pc.PushBlocked?) + One(e.pc.PushBlocked?), pn - One(ProducerNotified(pc)) + One(ProducerNotified(e.pc));
      var cb', cn' := cb - One(pc.PopBlocked?) + One(e.pc.PopBlocked?), cn - One(ConsumerNotified(pc)) + One(ConsumerNotified(e.pc));
      if e.pushes.Some? then
        Balanced(|s.buffer| + 1, s.capacity, s.stopped, pb', pn', cb' - One(cb' > 0), cn' + One(cb' > 0))
      else if e.pops then
        s.buffer != []
        && Balanced(|s.buffer| - 1, s.capacity, s.stopped, pb' - One(pb' > 0), pn' + One(pb' > 0), cb', cn')
      else
        e.stops || Balanced(|s.buffer|, s.capacity, s.stopped, pb', pn', cb', cn')
  {
  }

  lemma Members<T>(pcs: map<nat, Pc<T>>, t: nat)
    requires t in pcs
    ensures One(pcs[t].PushBlocked?) <= CountIf(pcs, ProducerBlocked) && One(ProducerNotified(pcs[t])) <= CountIf(pcs, ProducerNotified)
    ensures One(pcs[t].PopBlocked?) <= CountIf(pcs, ConsumerBlocked) && One(ConsumerNotified(pcs[t])) <= CountIf(pcs, ConsumerNotified)
  {
    CountZero(pcs, ProducerBlocked);
    CountZero(pcs, ProducerNotified);
    CountZero(pcs, ConsumerBlocked);
    CountZero(pcs, ConsumerNotified);
  }

  lemma NotifyAllUnblocks<T>(pcs: map<nat, Pc<T>>)
    ensures CountIf(NotifyAll(pcs), ProducerBlocked) == 0 && CountIf(NotifyAll(pcs), ConsumerBlocked) == 0
  {
    CountZero(NotifyAll(pcs), ProducerBlocked);
    CountZero(NotifyAll(pcs), ConsumerBlocked);
  }

  lemma ApplyKeepsInv<T>(s: State<T>, t: nat, a: Action<T>, pick: nat)
    requires Inv(s) && t in s.pcs
    ensures Inv(Apply(s, t, EffectOf(s, s.pcs[t], a), pick))
  {
    var e := EffectOf(s, s.pcs[t], a);
    var pcs := s.pcs[t := e.pc];
    Members(s.pcs, t);
    EffectKeepsBalance(s, s.pcs[t], a,
                       CountIf(s.pcs, ProducerBlocked), CountIf(s.pcs, ProducerNotified),
                       CountIf(s.pcs, ConsumerBlocked), CountIf(s.pcs, ConsumerNotified));
    Recount(s.pcs, t, e.pc);
    NotifyConsumer(pcs, pick);
    NotifyProducer(pcs, pick);
    NotifyAllUnblocks(pcs);
    LogsKept(s, t, e, pick);
  }

  /** Items leave in the order they arrived, and none is lost or duplicated. */
  lemma LogsKept<T>(s: State<T>, t: nat, e: Effect<T>, pick: nat)
    requires s.accepted == s.delivered + s.buffer
    ensures Apply(s, t, e, pick).accepted == Apply(s, t, e, pick).delivered + Apply(s, t, e, pick).buffer
  {
    if e.pushes.None? && e.pops && s.buffer != [] {
      assert s.buffer == [s.buffer[0]] + s.buffer[1..];
    }
  }

  lemma {:induction false} ExecKeepsInv<T>(s: State<T>, run: seq<Event<T>>)
    requires Inv(s)
    ensures Inv(Exec(s, run)) && Exec(s, run).capacity == s.capacity
    decreases |run|
  {
    if run == [] {
    } else {
      if run[0].tid in s.pcs {
        ApplyKeepsInv(s, run[0].tid, run[0].action, run[0].pick);
      }
      ExecKeepsInv(Step(s, run[0]), run[1..]);
    }
  }

  ghost function Reached<T>(capacity: nat, tids: set<nat>, run: seq<Event<T>>): State<T> {
    Exec(Init(capacity, tids), run)
  }

  lemma ReachedInv<T>(capacity: nat, tids: set<nat>, run: seq<Event<T>>)
    ensures Inv(Reached(capacity, tids, run)) && Reached(capacity, tids, run).capacity == capacity
  {
    var s := Init<T>(capacity, tids);
    CountZero(s.pcs, ProducerBlocked);
    CountZero(s.pcs, ConsumerBlocked);
    ExecKeepsInv(s, run);
  }

  // ---- Main results --------------------------------------------------------

  /**
   No wakeup is lost, in any run: while a consumer stays blocked there are at
   least as many notified consumers on their way as items, while a producer stays
   blocked at least as many notified producers as free places, not counting threads
   that woke up by themselves; the queue never exceeds its capacity, and after stop
   nobody is blocked.
   */
  lemma NoLostWakeup<T>(capacity: nat, tids: set<nat>, run: seq<Event<T>>)
    ensures
      var s := Reached(capacity, tids, run);
      && |s.buffer| <= capacity
      && (CountIf(s.pcs, ConsumerBlocked) > 0 ==> |s.buffer| <= CountIf(s.pcs, ConsumerNotified))
      && (CountIf(s.pcs, ProducerBlocked) > 0 ==> capacity - |s.buffer| <= CountIf(s.pcs, ProducerNotified))
      && (s.stopped ==> forall t :: t in s.pcs ==> !s.pcs[t].PushBlocked? && !s.pcs[t].PopBlocked?)
  {
    var s := Reached(capacity, tids, run);
    ReachedInv(capacity, tids, run);
    CountZero(s.pcs, ProducerBlocked);
    CountZero(s.pcs, ConsumerBlocked);
  }

  /** In every run items come out in the order they went in, each exactly once. */
  lemma FirstInFirstOut<T>(capacity: nat, tids: set<nat>, run: seq<Event<T>>)
    ensures
      var s := Reached(capacity, tids, run);
      s.accepted == s.delivered + s.buffer
  {
    ReachedInv(capacity, tids, run);
  }

  ghost predicate NobodyNotified<T>(s: State<T>) {
    forall t :: t in s.pcs ==> !ProducerNotified(s.pcs[t]) && !ConsumerNotified(s.pcs[t])
  }

  /**
   When no notified thread is on its way, a blocked consumer means an empty
   queue and a blocked producer a full one, so the two are never blocked together.
   */
  lemma BlockedForAReason<T>(capacity: nat, tids: set<nat>, run: seq<Event<T>>, t: nat, u: nat)
    requires capacity > 0
    requires NobodyNotified(Reached(capacity, tids, run))
    requires t in Reached(capacity, tids, run).pcs && u in Reached(capacity, tids, run).pcs
    ensures
      var s := Reached(capacity, tids, run);
      && (s.pcs[t].PopBlocked? ==> s.buffer == [])
      && (s.pcs[u].PushBlocked? ==> |s.buffer| == capacity)
      && !(s.pcs[t].PopBlocked? && s.pcs[u].PushBlocked?)
  {
    var s := Reached(capacity, tids, run);
    ReachedInv(capacity, tids, run);
    CountZero(s.pcs, ProducerBlocked);
    CountZero(s.pcs, ProducerNotified);
    CountZero(s.pcs, ConsumerBlocked);
    CountZero(s.pcs, ConsumerNotified);
  }

  /**
   An item beside a blocked consumer is never stranded: some other consumer was
   notified, and whichever awake consumer takes the mutex next leaves with the front item.
   */
  lemma StrandedItemIsTaken<T>(capacity: nat, tids: set<nat>, run: seq<Event<T>>, t: nat, pick: nat)
    requires
      var s := Reached(capacity, tids, run);
      t in s.pcs && s.pcs[t].PopBlocked? && s.buffer != []
    ensures
      var s := Reached(capacity, tids, run);
      exists u :: u in s.pcs && ConsumerNotified(s.pcs[u])
    ensures
      var s := Reached(capacity, tids, run);
      forall u :: u in s.pcs && s.pcs[u].PopAwake? ==>
        Step(s, Event(u, Resume, pick)).delivered == s.delivered + [s.buffer[0]]
  {
    var s := Reached(capacity, tids, run);
    ReachedInv(capacity, tids, run);
    CountZero(s.pcs, ConsumerBlocked);
    CountZero(s.pcs, ConsumerNotified);
  }

  // ---- What calls answer ---------------------------------------------------

  /** The step is a look of a push at the queue: a new call, or a woken thread with the mutex again. */
  ghost predicate PushTries<T>(pc: Pc<T>, a: Action<T>, item: T) {
    (pc.Outside? && a == Push(item)) || (pc.PushAwake? && pc.item == item && a.Resume?)
  }

  /** The step is a look of a pop at the queue; `gives up` when it does not wait for an item. */
  ghost predicate PopTries<T>(pc: Pc<T>, a: Action<T>, givesUp: bool) {
    || (pc.Outside? && a.TryPop? && givesUp)
    || (pc.Outside? && a.WaitPop? && !givesUp)
    || (pc.PopAwake? && a.Resume? && givesUp == pc.expired)
  }

  /** Before stop a push with room appends its own item and returns, without room it blocks; after stop it is refused. */
  lemma PushAnswers<T>(s: State<T>, e: Event<T>, item: T)
    requires e.tid in s.pcs && PushTries(s.pcs[e.tid], e.action, item)
    ensures
      var s' := Step(s, e);
      && s'.delivered == s.delivered && e.tid in s'.pcs
      && if s.stopped then s'.accepted == s.accepted && s'.buffer == s.buffer && s'.pcs[e.tid].Outside?
         else if |s.buffer| < s.capacity then
           s'.accepted == s.accepted + [item] && s'.buffer == s.buffer + [item] && s'.pcs[e.tid].Outside?
         else s'.accepted == s.accepted && s'.buffer == s.buffer && s'.pcs[e.tid] == PushBlocked(item)
  {
  }

  /** A pop takes the front item if there is one, stopped or not; otherwise it returns without one only if stopped or not waiting. */
  lemma PopAnswers<T>(s: State<T>, e: Event<T>, givesUp: bool)
    requires e.tid in s.pcs && PopTries(s.pcs[e.tid], e.action, givesUp)
    ensures
      var s' := Step(s, e);
      && s'.accepted == s.accepted && e.tid in s'.pcs
      && if s.buffer != [] then
           s'.delivered == s.delivered + [s.buffer[0]] && s'.buffer == s.buffer[1..] && s'.pcs[e.tid].Outside?
         else
           && s'.delivered == s.delivered && s'.buffer == []
           && if s.stopped || givesUp then s'.pcs[e.tid].Outside? else s'.pcs[e.tid].PopBlocked?
  {
  }

  /** Every other step leaves the items alone. */
  lemma OtherSteps<T>(s: State<T>, e: Event<T>)
    requires e.tid in s.pcs ==> !e.action.Push? && !e.action.TryPop? && !e.action.WaitPop? && !e.action.Resume?
    ensures
      var s' := Step(s, e);
      s'.accepted == s.accepted && s'.delivered == s.delivered && s'.buffer == s.buffer
  {
  }

  lemma StepAfterStop<T>(s: State<T>, e: Event<T>)
    requires s.stopped
    ensures Step(s, e).stopped && Step(s, e).accepted == s.accepted
  {
  }

  /** After stop nothing is accepted in any continuation. */
  lemma {:induction false} NothingAcceptedAfterStop<T>(s: State<T>, run: seq<Event<T>>)
    requires s.stopped
    ensures Exec(s, run).stopped && Exec(s, run).accepted == s.accepted
    decreases |run|
  {
    if run == [] {
    } else {
      StepAfterStop(s, run[0]);
      NothingAcceptedAfterStop(Step(s, run[0]), run[1..]);
    }
  }

  /** A call of stop stops the queue, and nothing else does. */
  lemma StopStops<T>(s: State<T>, e: Event<T>)
    requires e.tid in s.pcs
    ensures Step(s, e).stopped <==> s.stopped || (e.action.Stop? && s.pcs[e.tid].Outside?)
  {
  }

  /** A timed wait that runs out on an empty queue comes back without an item. */
  lemma TimeoutReturns<T>(s: State<T>, t: nat, pick: nat)
    requires t in s.pcs && s.pcs[t] == PopBlocked(true)
    ensures
      var s1 := Step(s, Event(t, Timeout, pick));
      var s2 := Step(s1, Event(t, Resume, pick));
      && t in s1.pcs && s1.pcs[t].PopAwake? && s1.buffer == s.buffer
      && t in s2.pcs && s2.pcs[t].Outside?
      && s2.delivered == if s.buffer == [] then s.delivered else s.delivered + [s.buffer[0]]
  {
  }
}
