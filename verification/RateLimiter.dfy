/**
 The reactor's per-IP connection rate limiter: one counting window per address,
 opened by the first connection after the previous window has run for a second,
 and periodically pruned.
 */
module RateLimiter {
  import opened BloomFilter
  import opened BloomSpec
  import opened Numbers

  const SECOND: nat := 1_000_000_000

  type Ip = nat

  datatype Window = Window(start: nat, count: nat)

  /** The window an address has, or the zero window a first access creates. */
  function WindowOf(windows: map<Ip, Window>, ip: Ip): Window
  {
    if ip in windows then windows[ip] else Window(0, 0)
  }

  predicate Expired(w: Window, now: nat) {
    now - w.start >= SECOND
  }

  /** Count one connection at `now`. */
  function Bump(w: Window, now: nat): Window
  {
    if Expired(w, now) then Window(now, 1) else Window(w.start, w.count + 1)
  }

  /** What is left after dropping the windows older than two seconds. */
  function Pruned(windows: map<Ip, Window>, now: nat): map<Ip, Window>
  {
    map ip | ip in windows && now - windows[ip].start <= 2 * SECOND :: windows[ip]
  }

  /** A sweep drops exactly the windows opened more than two thousand million nanoseconds ago. */
  lemma PrunedKeeps(windows: map<Ip, Window>, now: nat, ip: Ip)
    ensures ip in Pruned(windows, now) <==> ip in windows && now <= windows[ip].start + 2_000_000_000
    ensures ip in Pruned(windows, now) ==> Pruned(windows, now)[ip] == windows[ip]
  {
  }

  class Limiter {
    const rate: nat
    const blacklist: CountingBloomFilter<Ip>
    var windows: map<Ip, Window>
    var lastSweep: nat

    constructor (rate: nat, blacklist: CountingBloomFilter<Ip>)
      ensures this.rate == rate && this.blacklist == blacklist && windows == map[] && lastSweep == 0
    {
      this.rate, this.blacklist := rate, blacklist;
      windows, lastSweep := map[], 0;
    }

    method IpRateExceeded(ip: Ip, now: nat) returns (exceeded: bool)
      modifies this`windows
      ensures windows == old(windows)[ip := Bump(WindowOf(old(windows), ip), now)]
      ensures exceeded <==> windows[ip].count > rate
    {
      var w := WindowOf(windows, ip);
      if now - w.start >= SECOND {
        w := Window(now, 0);
      }
      w := w.(count := w.count + 1);
      windows := windows[ip := w];
      exceeded := w.count > rate;
    }

    /** At most every ten seconds, age the blacklist, collect the stale addresses and erase them. */
    method SweepIpRate(now: nat)
      requires blacklist.Valid()
      modifies this, blacklist.bytes
      ensures blacklist.Valid()
      ensures
        if rate == 0 || now - old(lastSweep) < 10 * SECOND then
          windows == old(windows) && lastSweep == old(lastSweep) && blacklist.Counters() == old(blacklist.Counters())
        else
          && windows == Pruned(old(windows), now) && lastSweep == now
          && blacklist.Counters() == DecayAll(old(blacklist.Counters()), 1)
    {
      if rate == 0 || now - lastSweep < 10 * SECOND {
        return;
      }
      lastSweep := now;
      blacklist.Decay(1);
      var left, stale := windows.Keys, {};
      while left != {}
        invariant left <= windows.Keys && stale !! left
        invariant forall ip :: ip in windows && ip !in left ==> (ip in stale <==> now - windows[ip].start > 2 * SECOND)
        invariant windows == old(windows) && lastSweep == now && blacklist.Valid()
        invariant blacklist.Counters() == DecayAll(old(blacklist.Counters()), 1)
        decreases left
      {
        var ip :| ip in left;
        left := left - {ip};
        if now - windows[ip].start > 2 * SECOND {
          stale := stale + {ip};
        }
      }
      windows := windows - stale;
    }
  }

  // ---- Runs of the limiter -------------------------------------------------

  datatype Call = Ask(ip: Ip, now: nat) | Prune(now: nat)

  /** An answer given to `ip` at `now`. */
  datatype Answer = Answer(ip: Ip, now: nat, within: bool)

  ghost predicate Ordered(run: seq<Call>) {
    forall i, j :: 0 <= i < j < |run| ==> run[i].now <= run[j].now
  }

  ghost function After(windows: map<Ip, Window>, c: Call): map<Ip, Window>
  {
    match c
    case Ask(ip, now) => windows[ip := Bump(WindowOf(windows, ip), now)]
    case Prune(now) => Pruned(windows, now)
  }

  ghost function AnswerTo(rate: nat, windows: map<Ip, Window>, c: Call): seq<Answer>
  {
    match c
    case Ask(ip, now) => [Answer(ip, now, Bump(WindowOf(windows, ip), now).count <= rate)]
    case Prune(_) => []
  }

  /** The answers a run gets, in order. */
  ghost function Answers(rate: nat, windows: map<Ip, Window>, run: seq<Call>): seq<Answer>
    decreases |run|
  {
    if run == [] then [] else AnswerTo(rate, windows, run[0]) + Answers(rate, After(windows, run[0]), run[1..])
  }

  // ---- Pruning changes no answer -------------------------------------------

  ghost function WithoutPrunes(run: seq<Call>): seq<Call>
    decreases |run|
  {
    if run == [] then []
    else if run[0].Prune? then WithoutPrunes(run[1..])
    else [run[0]] + WithoutPrunes(run[1..])
  }

  /** Two tables that no later call can tell apart. */
  ghost predicate Alike(a: map<Ip, Window>, b: map<Ip, Window>, now: nat) {
    forall ip: Ip ::
      WindowOf(a, ip) == WindowOf(b, ip) || (Expired(WindowOf(a, ip), now) && Expired(WindowOf(b, ip), now))
  }

  lemma PruneKeepsAlike(a: map<Ip, Window>, b: map<Ip, Window>, now: nat)
    requires Alike(a, b, now)
    ensures Alike(Pruned(a, now), b, now)
  {
    forall ip: Ip
      ensures WindowOf(Pruned(a, now), ip) == WindowOf(b, ip)
           || (Expired(WindowOf(Pruned(a, now), ip), now) && Expired(WindowOf(b, ip), now))
    {
      assert WindowOf(a, ip) == WindowOf(b, ip) || (Expired(WindowOf(a, ip), now) && Expired(WindowOf(b, ip), now));
    }
  }

  lemma AskKeepsAlike(a: map<Ip, Window>, b: map<Ip, Window>, ip: Ip, now: nat)
    requires Alike(a, b, now)
    ensures Bump(WindowOf(a, ip), now) == Bump(WindowOf(b, ip), now)
    ensures Alike(After(a, Ask(ip, now)), After(b, Ask(ip, now)), now)
  {
    assert WindowOf(a, ip) == WindowOf(b, ip) || (Expired(WindowOf(a, ip), now) && Expired(WindowOf(b, ip), now));
    var a', b' := After(a, Ask(ip, now)), After(b, Ask(ip, now));
    forall x: Ip
      ensures WindowOf(a', x) == WindowOf(b', x) || (Expired(WindowOf(a', x), now) && Expired(WindowOf(b', x), now))
    {
      assert x != ip ==> WindowOf(a', x) == WindowOf(a, x) && WindowOf(b', x) == WindowOf(b, x);
    }
  }

  lemma AlikeLater(a: map<Ip, Window>, b: map<Ip, Window>, now: nat, later: nat)
    requires Alike(a, b, now) && now <= later
    ensures Alike(a, b, later)
  {
    forall ip: Ip
      ensures WindowOf(a, ip) == WindowOf(b, ip) || (Expired(WindowOf(a, ip), later) && Expired(WindowOf(b, ip), later))
    {
      assert WindowOf(a, ip) == WindowOf(b, ip) || (Expired(WindowOf(a, ip), now) && Expired(WindowOf(b, ip), now));
    }
  }

  lemma {:induction false} AlikeAnswers(rate: nat, a: map<Ip, Window>, b: map<Ip, Window>, now: nat, run: seq<Call>)
    requires Alike(a, b, now) && Ordered(run) && (run != [] ==> now <= run[0].now)
    ensures Answers(rate, a, run) == Answers(rate, b, WithoutPrunes(run))
    decreases |run|
  {
    if run == [] {
    } else {
      var c := run[0];
      AlikeLater(a, b, now, c.now);
      match c {
        case Ask(ip, _) =>
          AskKeepsAlike(a, b, ip, c.now);
          AlikeAnswers(rate, After(a, c), After(b, c), c.now, run[1..]);
          assert WithoutPrunes(run)[0] == c && WithoutPrunes(run)[1..] == WithoutPrunes(run[1..]);
        case Prune(_) =>
          PruneKeepsAlike(a, b, c.now);
          AlikeAnswers(rate, After(a, c), b, c.now, run[1..]);
          assert Answers(rate, a, run) == Answers(rate, After(a, c), run[1..]);
      }
    }
  }

  /** For non-decreasing times, pruning at any moments never changes any later answer. */
  lemma PruningChangesNoAnswer(rate: nat, run: seq<Call>)
    requires Ordered(run)
    ensures Answers(rate, map[], run) == Answers(rate, map[], WithoutPrunes(run))
  {
    AlikeAnswers(rate, map[], map[], 0, run);
  }

  // ---- At most twice the rate in any second --------------------------------

  /** How many within-rate answers `ip` got at times in [from, from + SECOND). */
  ghost function Admitted(answers: seq<Answer>, ip: Ip, from: nat): nat
    decreases |answers|
  {
    if answers == [] then 0
    else
      (if answers[0].ip == ip && answers[0].within && from <= answers[0].now < from + SECOND then 1 else 0)
      + Admitted(answers[1..], ip, from)
  }

  /**
   The most within-rate answers an address with window `w` can still get in
   [from, from + SECOND): what its window has left, and the whole allowance of one
   more window if the current one opened before the interval.
   */
  ghost function Allowance(rate: nat, w: Window, from: nat): nat
  {
    if w.start >= from + SECOND then 0
    else if w.start >= from then rate - Min(w.count, rate)
    else if w.start + SECOND > from then 2 * rate - Min(w.count, rate)
    else if rate == 0 then 0
    else 2 * rate - 1
  }

  /** A run of connections only, none before `now`. */
  ghost predicate AsksFrom(run: seq<Call>, now: nat) {
    Ordered(run) && forall i :: 0 <= i < |run| ==> run[i].Ask? && now <= run[i].now
  }

  /** One answer never uses more than it takes from the allowance. */
  lemma AskSpendsAllowance(rate: nat, w: Window, now: nat, from: nat)
    requires w.start <= now
    ensures
      var w' := Bump(w, now);
      w'.start <= now
      && Allowance(rate, w', from) + (if w'.count <= rate && from <= now < from + SECOND then 1 else 0)
         <= Allowance(rate, w, from)
  {
  }

  lemma {:induction false} AdmittedWithinAllowance(
    rate: nat, windows: map<Ip, Window>, run: seq<Call>, ip: Ip, now: nat, from: nat)
    requires AsksFrom(run, now) && WindowOf(windows, ip).start <= now
    ensures Admitted(Answers(rate, windows, run), ip, from) <= Allowance(rate, WindowOf(windows, ip), from)
    decreases |run|
  {
    if run == [] {
    } else {
      var c := run[0];
      var windows' := After(windows, c);
      var rest := Answers(rate, windows', run[1..]);
      assert Answers(rate, windows, run)[1..] == rest;
      assert AsksFrom(run[1..], c.now);
      if c.ip == ip {
        AskSpendsAllowance(rate, WindowOf(windows, ip), c.now, from);
      }
      AdmittedWithinAllowance(rate, windows', run[1..], ip, c.now, from);
    }
  }

  lemma {:induction false} WithoutPrunesOrdered(run: seq<Call>)
    requires Ordered(run)
    ensures AsksFrom(WithoutPrunes(run), if run == [] then 0 else run[0].now)
    decreases |run|
  {
    if run == [] {
    } else {
      WithoutPrunesOrdered(run[1..]);
      var rest := WithoutPrunes(run[1..]);
      if !run[0].Prune? {
        forall i, j | 0 <= i < j < |WithoutPrunes(run)|
          ensures WithoutPrunes(run)[i].now <= WithoutPrunes(run)[j].now
        {
          assert WithoutPrunes(run)[j] == rest[j - 1];
          assert i > 0 ==> WithoutPrunes(run)[i] == rest[i - 1];
        }
      }
    }
  }

  /**
   For non-decreasing times and sweeps at any moments, no address gets more than
   twice the rate in any half-open second; more than one second after the clock's
   epoch it gets at most one less than twice the rate.
   */
  lemma AtMostTwiceTheRate(rate: nat, run: seq<Call>, ip: Ip, from: nat)
    requires Ordered(run)
    ensures Admitted(Answers(rate, map[], run), ip, from) <= 2 * rate
    ensures from >= SECOND && rate > 0 ==> Admitted(Answers(rate, map[], run), ip, from) <= 2 * rate - 1
  {
    PruningChangesNoAnswer(rate, run);
    WithoutPrunesOrdered(run);
    AdmittedWithinAllowance(rate, map[], WithoutPrunes(run), ip, 0, from);
  }

  // ---- The bound is reached ------------------------------------------------

  /** `n` connections of one address at one time, then `rest`. */
  ghost function Repeat(ip: Ip, now: nat, n: nat, rest: seq<Call>): seq<Call>
  {
    if n == 0 then rest else [Ask(ip, now)] + Repeat(ip, now, n - 1, rest)
  }

  /** The window of `ip` after `k` more connections in it. */
  ghost function Filled(windows: map<Ip, Window>, ip: Ip, k: nat): map<Ip, Window>
    requires ip in windows
  {
    windows[ip := windows[ip].(count := windows[ip].count + k)]
  }

  lemma FilledTwice(windows: map<Ip, Window>, ip: Ip, n: nat)
    requires ip in windows && n > 0
    ensures Filled(Filled(windows, ip, 1), ip, n - 1) == Filled(windows, ip, n)
  {
  }

  /** A connection inside an open window with room is admitted. */
  lemma AskAdmitted(rate: nat, windows: map<Ip, Window>, ip: Ip, now: nat, rest: seq<Call>, from: nat)
    requires ip in windows && !Expired(windows[ip], now) && windows[ip].count < rate && from <= now < from + SECOND
    ensures
      Admitted(Answers(rate, windows, [Ask(ip, now)] + rest), ip, from)
      == 1 + Admitted(Answers(rate, Filled(windows, ip, 1), rest), ip, from)
  {
    var run := [Ask(ip, now)] + rest;
    assert run[1..] == rest;
    assert Answers(rate, windows, run)[1..] == Answers(rate, After(windows, run[0]), rest);
  }

  /** Connections inside an open window with room for all of them are all admitted. */
  lemma {:induction false} RepeatAdmitted(rate: nat, windows: map<Ip, Window>, ip: Ip, now: nat, n: nat, rest: seq<Call>, from: nat)
    requires ip in windows && !Expired(windows[ip], now) && windows[ip].count + n <= rate
    requires from <= now < from + SECOND
    ensures
      Admitted(Answers(rate, windows, Repeat(ip, now, n, rest)), ip, from)
      == n + Admitted(Answers(rate, Filled(windows, ip, n), rest), ip, from)
    decreases n
  {
    if n == 0 {
      assert Filled(windows, ip, 0) == windows;
    } else {
      AskAdmitted(rate, windows, ip, now, Repeat(ip, now, n - 1, rest), from);
      RepeatAdmitted(rate, Filled(windows, ip, 1), ip, now, n - 1, rest, from);
      FilledTwice(windows, ip, n);
    }
  }

  /** One connection opens a window, fills it just before it ends, and fills the next one at once. */
  ghost function Burst(ip: Ip, rate: nat): seq<Call>
    requires rate > 0
  {
    [Ask(ip, SECOND)] + Repeat(ip, 2 * SECOND - 1, rate - 1, SecondBurst(ip, rate))
  }

  ghost function SecondBurst(ip: Ip, rate: nat): seq<Call>
    requires rate > 0
  {
    [Ask(ip, 2 * SECOND)] + Repeat(ip, 2 * SECOND, rate - 1, [])
  }

  /** A connection that finds its window expired opens the next one. */
  lemma AskOpens(rate: nat, windows: map<Ip, Window>, ip: Ip, now: nat, rest: seq<Call>, from: nat)
    requires Expired(WindowOf(windows, ip), now) && rate > 0
    ensures
      Admitted(Answers(rate, windows, [Ask(ip, now)] + rest), ip, from)
      == (if from <= now < from + SECOND then 1 else 0)
         + Admitted(Answers(rate, windows[ip := Window(now, 1)], rest), ip, from)
  {
    var run := [Ask(ip, now)] + rest;
    assert run[1..] == rest;
    assert Answers(rate, windows, run)[1..] == Answers(rate, After(windows, run[0]), rest);
  }

  ghost predicate NotBefore(run: seq<Call>, now: nat) {
    Ordered(run) && forall i :: 0 <= i < |run| ==> now <= run[i].now
  }

  lemma {:induction false} RepeatOrdered(ip: Ip, now: nat, n: nat, rest: seq<Call>)
    requires NotBefore(rest, now)
    ensures NotBefore(Repeat(ip, now, n, rest), now)
    decreases n
  {
    if n == 0 {
    } else {
      RepeatOrdered(ip, now, n - 1, rest);
    }
  }

  lemma BurstOrdered(ip: Ip, rate: nat)
    requires rate > 0
    ensures Ordered(Burst(ip, rate))
  {
    RepeatOrdered(ip, 2 * SECOND, rate - 1, []);
    RepeatOrdered(ip, 2 * SECOND - 1, rate - 1, SecondBurst(ip, rate));
  }

  /** For every positive rate some address is admitted one less than twice the rate within a second. */
  lemma BoundIsReached(ip: Ip, rate: nat)
    requires rate > 0
    ensures Ordered(Burst(ip, rate))
    ensures Admitted(Answers(rate, map[], Burst(ip, rate)), ip, SECOND + 1) == 2 * rate - 1
  {
    BurstOrdered(ip, rate);
    var from := SECOND + 1;
    var w1: map<Ip, Window> := map[][ip := Window(SECOND, 1)];
    AskOpens(rate, map[], ip, SECOND, Repeat(ip, 2 * SECOND - 1, rate - 1, SecondBurst(ip, rate)), from);
    RepeatAdmitted(rate, w1, ip, 2 * SECOND - 1, rate - 1, SecondBurst(ip, rate), from);
    var w2 := Filled(w1, ip, rate - 1);
    AskOpens(rate, w2, ip, 2 * SECOND, Repeat(ip, 2 * SECOND, rate - 1, []), from);
    RepeatAdmitted(rate, w2[ip := Window(2 * SECOND, 1)], ip, 2 * SECOND, rate - 1, [], from);
  }

  // ---- Nobody is refused without a reason ----------------------------------

  ghost function AfterAll(run: seq<Call>): map<Ip, Window>
    decreases |run|
  {
    if run == [] then map[] else After(AfterAll(run[..|run| - 1]), run[|run| - 1])
  }

  /** How many connections of `ip` the run has later than `t`. */
  ghost function AsksAfter(run: seq<Call>, ip: Ip, t: int): nat
    decreases |run|
  {
    if run == [] then 0
    else
      var c := run[|run| - 1];
      AsksAfter(run[..|run| - 1], ip, t) + One(c.Ask? && c.ip == ip && c.now > t)
  }

  lemma {:induction false} AsksMonotone(run: seq<Call>, ip: Ip, t: int, u: int)
    requires t <= u
    ensures AsksAfter(run, ip, u) <= AsksAfter(run, ip, t)
    decreases |run|
  {
    if run == [] {
    } else {
      AsksMonotone(run[..|run| - 1], ip, t, u);
    }
  }

  /** A window never counts a connection that did not happen, and opens at the last time at the latest. */
  ghost predicate CountsReal(run: seq<Call>, ip: Ip) {
    var w := WindowOf(AfterAll(run), ip);
    w.count <= AsksAfter(run, ip, w.start - 1) && w.start <= if run == [] then 0 else run[|run| - 1].now
  }

  lemma {:induction false} CountsAreReal(run: seq<Call>, ip: Ip)
    requires Ordered(run)
    ensures CountsReal(run, ip)
    decreases |run|
  {
    if run == [] {
    } else {
      var init, c := run[..|run| - 1], run[|run| - 1];
      var w := WindowOf(AfterAll(init), ip);
      CountsAreReal(init, ip);
      assert init != [] ==> init[|init| - 1].now <= c.now;
      AsksMonotone(init, ip, -1, w.start - 1);
    }
  }

  lemma {:induction false} AnswersLast(rate: nat, windows: map<Ip, Window>, a: seq<Call>, c: Call)
    ensures Answers(rate, windows, a + [c]) == Answers(rate, windows, a) + AnswerTo(rate, Folded(windows, a), c)
    decreases |a|
  {
    if a == [] {
      assert a + [c] == [c] && [c][1..] == [];
    } else {
      assert (a + [c])[1..] == a[1..] + [c];
      AnswersLast(rate, After(windows, a[0]), a[1..], c);
    }
  }

  ghost function Folded(windows: map<Ip, Window>, run: seq<Call>): map<Ip, Window>
    decreases |run|
  {
    if run == [] then windows else Folded(After(windows, run[0]), run[1..])
  }

  lemma {:induction false} FoldedLast(windows: map<Ip, Window>, run: seq<Call>)
    requires run != []
    ensures Folded(windows, run) == After(Folded(windows, run[..|run| - 1]), run[|run| - 1])
    decreases |run|
  {
    if |run| == 1 {
      assert run[..0] == [] && run[1..] == [];
    } else {
      var init := run[..|run| - 1];
      assert run[1..][..|run| - 2] == init[1..] && run[1..][|run| - 2] == run[|run| - 1] && init[0] == run[0];
      FoldedLast(After(windows, run[0]), run[1..]);
    }
  }

  lemma {:induction false} FoldedIs(run: seq<Call>)
    ensures Folded(map[], run) == AfterAll(run)
    decreases |run|
  {
    if run == [] {
    } else {
      FoldedLast(map[], run);
      FoldedIs(run[..|run| - 1]);
    }
  }

  /**
   For non-decreasing times and sweeps at any moments, a connection is refused only if the address
   has made more than the rate of connections, this one included, within less than a second.
   */
  lemma RefusedForAReason(rate: nat, run: seq<Call>, ip: Ip, now: nat)
    requires Ordered(run + [Ask(ip, now)])
    ensures
      var answers := Answers(rate, map[], run + [Ask(ip, now)]);
      && answers != []
      && var last := answers[|answers| - 1];
         last.ip == ip && last.now == now && (!last.within ==> AsksAfter(run + [Ask(ip, now)], ip, now - SECOND) > rate)
  {
    var all := run + [Ask(ip, now)];
    AnswersLast(rate, map[], run, Ask(ip, now));
    FoldedIs(run);
    assert forall i :: 0 <= i < |run| ==> run[i] == all[i];
    CountsAreReal(run, ip);
    assert all[..|all| - 1] == run;
    var w := WindowOf(AfterAll(run), ip);
    if !Expired(w, now) {
      AsksMonotone(run, ip, now - SECOND, w.start - 1);
    }
  }
}
