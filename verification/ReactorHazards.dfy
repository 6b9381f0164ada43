/**
 What goes wrong in runs with an event that is not harmless: a descriptor number reused with
 a hand-back in flight, and a hand-back dropped by a full outbox.
 */
module ReactorHazards {
  import opened Chunks
  import opened Counting
  import opened RequestScan
  import opened Reactor
  import opened ReactorRuns

  lemma {:induction false} ExecAppend(s: State, a: seq<Action>, b: seq<Action>)
    requires AllBounded(s)
    ensures Exec(s, a + b) == Exec(Exec(s, a), b)
    decreases |a|
  {
    if a == [] {
      assert a + b == b;
    } else {
      assert (a + b)[0] == a[0] && (a + b)[1..] == a[1..] + b;
      if Enabled(s, a[0]) {
        StepKeepsBounds(s, a[0]);
        ExecAppend(Step(s, a[0]), a[1..], b);
      } else {
        ExecAppend(s, a[1..], b);
      }
    }
  }

  /** An event that happens is the first step of the run. */
  lemma Unroll(s: State, a: Action, rest: seq<Action>)
    requires AllBounded(s) && Enabled(s, a)
    ensures AllBounded(Step(s, a)) && Exec(s, [a] + rest) == Exec(Step(s, a), rest)
    ensures Harmless(s, a) && HarmlessRun(Step(s, a), rest) ==> HarmlessRun(s, [a] + rest)
  {
    StepKeepsBounds(s, a);
    assert ([a] + rest)[1..] == rest;
  }

  // ---- A client that sends one message -------------------------------------

  function Drained(chunks: seq<string>): Io { Io(0, false, chunks, false) }

  /** A client connects and its message is read in one piece. */
  function Submit(fd: nat, m: string, rest: seq<Action>): seq<Action> {
    [Accept(fd)] + ([Arrive(fd, m)] + ([Readable(fd, Drained([m]))] + rest))
  }

  /** Its connection waits for the answer. */
  function Waiting(m: string): Conn {
    NewConn().(dispatched := true, requests := [m], arrived := m)
  }

  function Submitted(fd: nat, m: string): State {
    State(map[fd := Waiting(m)], [Task(fd, m)], [], [])
  }

  lemma ReadWhole(m: string)
    requires Single(m)
    ensures Concat([m]) == m && OnReads(Buffer("", 0), false, [m]) == (Buffer(m, |m|), true)
  {
    assert Concat([m]) == m + "" == m;
    assert "" + m == m && [m][1..] == [];
    assert OnRead(Buffer("", 0), m) == (Buffer(m, |m|), true);
  }

  lemma ReadableSubmits(m: string)
    requires Single(m) && |m| <= READ_SIZE
    ensures
      var c := NewConn().(inbox := m, arrived := m, edge := true);
      Reads(c, [m]) && OnReadable(c, Drained([m])) == Open(Waiting(m), Some(m))
  {
    ReadWhole(m);
    assert m[..|m|] == m && m[|m|..] == "";
  }

  function Connected(fd: nat): State {
    START.(conns := map[fd := NewConn()])
  }

  function Heard(fd: nat, m: string): State {
    START.(conns := map[fd := NewConn().(inbox := m, arrived := m, edge := true)])
  }

  lemma Connects(fd: nat)
    ensures AllBounded(Connected(fd)) && Step(START, Accept(fd)) == Connected(fd) && Harmless(START, Accept(fd))
  {
    assert Pending(START) == [];
    assert Step(START, Accept(fd)).conns == Connected(fd).conns;
  }

  lemma Hears(fd: nat, m: string)
    requires m != ""
    ensures AllBounded(Connected(fd)) && Step(Connected(fd), Arrive(fd, m)) == Heard(fd, m)
  {
    assert "" + m == m;
    assert Step(Connected(fd), Arrive(fd, m)).conns == Heard(fd, m).conns;
  }

  lemma Submits(fd: nat, m: string)
    requires Single(m) && |m| <= READ_SIZE
    ensures AllBounded(Heard(fd, m)) && Enabled(Heard(fd, m), Readable(fd, Drained([m])))
    ensures Step(Heard(fd, m), Readable(fd, Drained([m]))) == Submitted(fd, m)
  {
    ReadableSubmits(m);
    assert Step(Heard(fd, m), Readable(fd, Drained([m]))).conns == Submitted(fd, m).conns;
  }

  lemma SubmitRuns(fd: nat, m: string, rest: seq<Action>)
    requires Single(m) && |m| <= READ_SIZE
    ensures Exec(START, Submit(fd, m, rest)) == Exec(Submitted(fd, m), rest)
    ensures HarmlessRun(Submitted(fd, m), rest) ==> HarmlessRun(START, Submit(fd, m, rest))
  {
    var fetch := [Readable(fd, Drained([m]))] + rest;
    Connects(fd);
    Unroll(START, Accept(fd), [Arrive(fd, m)] + fetch);
    Hears(fd, m);
    Unroll(Connected(fd), Arrive(fd, m), fetch);
    Submits(fd, m);
    Unroll(Heard(fd, m), Readable(fd, Drained([m])), rest);
  }

  // ---- A number reused too early -------------------------------------------

  /** The client has gone and its request is still with a worker. */
  function Orphaned(fd: nat, m: string): State {
    State(map[], [Task(fd, m)], [], [Closed(Waiting(m), Dropped)])
  }

  /** Its answer waits in the outbox. */
  function Undeliverable(fd: nat, m: string, r: string): State {
    State(map[], [], [Handback(fd, true, r, m)], [Closed(Waiting(m), Dropped)])
  }

  lemma Leaves(fd: nat, m: string)
    ensures Step(Submitted(fd, m), Close(fd)) == Orphaned(fd, m)
  {
    assert Step(Submitted(fd, m), Close(fd)).conns == map[];
  }

  /** A client sends a message and goes away before the answer. */
  function GoneEarly(fd: nat, m: string, r: string): seq<Action> {
    Submit(fd, m, [Close(fd)] + ([WorkerDone(0, r, true)] + []))
  }

  lemma OrphanedAnswer(fd: nat, m: string, r: string)
    requires Single(m) && |m| <= READ_SIZE
    ensures HarmlessRun(START, GoneEarly(fd, m, r)) && Exec(START, GoneEarly(fd, m, r)) == Undeliverable(fd, m, r)
  {
    var done := WorkerDone(0, r, true);
    SubmitRuns(fd, m, [Close(fd)] + ([done] + []));
    Leaves(fd, m);
    Unroll(Submitted(fd, m), Close(fd), [done] + []);
    assert Step(Orphaned(fd, m), done) == Undeliverable(fd, m, r);
    Unroll(Orphaned(fd, m), done, []);
    assert HarmlessRun(Undeliverable(fd, m, r), []);
  }

  /** The next connection of that number receives the answer. */
  lemma Misdelivered(fd: nat, m: string, r: string)
    requires r != ""
    ensures
      var s := Step(Undeliverable(fd, m, r), Accept(fd));
      var io := Io(|r|, false, [], false);
      && AllBounded(s) && Enabled(s, DrainOutbox(io))
      && var s' := Step(s, DrainOutbox(io));
         fd in s'.conns && s'.conns[fd].requests == [] && s'.conns[fd].sent == r
  {
    assert Concat([]) == "";
    assert "" + r[0..|r|] == r;
  }

  /**
   A run of the program in which the number is reused too early: the next connection of that
   number is sent the whole answer to a request it never made.
   */
  lemma ReuseMisdelivers(fd: nat, m: string, r: string)
    requires Single(m) && |m| <= READ_SIZE && r != ""
    ensures HarmlessRun(START, GoneEarly(fd, m, r))
    ensures
      var s := Exec(START, GoneEarly(fd, m, r));
      Enabled(s, Accept(fd)) && !Harmless(s, Accept(fd))
    ensures
      var s := Exec(START, GoneEarly(fd, m, r) + ([Accept(fd)] + ([DrainOutbox(Io(|r|, false, [], false))] + [])));
      fd in s.conns && s.conns[fd].requests == [] && s.conns[fd].sent == r
  {
    var io := Io(|r|, false, [], false);
    OrphanedAnswer(fd, m, r);
    var s := Undeliverable(fd, m, r);
    ExecAppend(START, GoneEarly(fd, m, r), [Accept(fd)] + ([DrainOutbox(io)] + []));
    assert Pending(s) == [Task(fd, m)];
    assert Flight(s)[Task(fd, m)] == 1;
    Misdelivered(fd, m, r);
    Unroll(s, Accept(fd), [DrainOutbox(io)] + []);
    Unroll(Step(s, Accept(fd)), DrainOutbox(io), []);
  }

  // ---- Every early reuse can misserve --------------------------------------

  /** The client got an answer, or was closed for a failed handler, without ever having asked for anything. */
  ghost predicate Misserved(c: Conn, ended: Option<Ending>) {
    c.requests == [] && (c.answers != [] || ended == Some(HandlerFailed))
  }

  /** The client of descriptor `fd` is misserved, or one was that has been closed since there were `n` closed ones. */
  ghost predicate MisservedSince(s: State, fd: nat, n: nat) {
    || (fd in s.conns && Misserved(s.conns[fd], None))
    || (|s.closed| > n && Misserved(s.closed[|s.closed| - 1].conn, Some(s.closed[|s.closed| - 1].why)))
  }

  /** With the answer to somebody else's request at the head of the outbox. */
  lemma TakesWrongAnswer(s: State, fd: nat)
    requires AllBounded(s) && fd in s.conns && s.conns[fd] == NewConn() && s.outbox != [] && s.outbox[0].fd == fd
    ensures
      var io := Io(|s.outbox[0].response|, false, [], false);
      Enabled(s, DrainOutbox(io)) && MisservedSince(Step(s, DrainOutbox(io)), fd, |s.closed|)
  {
    assert Concat([]) == "";
    assert FindHit("", 0) == 0;
  }

  /** The program gets to the first hand-back for `fd` when the connections before it are closed. */
  lemma {:induction false} DrainsUpTo(s: State, fd: nat, j: nat) returns (run: seq<Action>)
    requires AllBounded(s) && fd in s.conns && s.conns[fd] == NewConn()
    requires j < |s.outbox| && s.outbox[j].fd == fd && forall k :: 0 <= k < j ==> s.outbox[k].fd != fd
    ensures forall a :: a in run ==> a.Close? || a.DrainOutbox?
    ensures MisservedSince(Exec(s, run), fd, |s.closed|)
    decreases j
  {
    if j == 0 {
      var drain := DrainOutbox(Io(|s.outbox[0].response|, false, [], false));
      run := [drain] + [];
      TakesWrongAnswer(s, fd);
      Unroll(s, drain, []);
    } else {
      var g, drain := s.outbox[0].fd, DrainOutbox(Io(0, false, [], false));
      var s1 := if g in s.conns then Step(s, Close(g)) else s;
      StepKeepsBoundsIf(s, g);
      var s2 := Step(s1, drain);
      StepKeepsBounds(s1, drain);
      var rest := DrainsUpTo(s2, fd, j - 1);
      run := [Close(g)] + ([drain] + rest);
      Unroll(s1, drain, rest);
      CloseFirst(s, g, [drain] + rest);
    }
  }

  lemma StepKeepsBoundsIf(s: State, g: nat)
    requires AllBounded(s)
    ensures g in s.conns ==> AllBounded(Step(s, Close(g)))
  {
  }

  lemma CloseFirst(s: State, g: nat, rest: seq<Action>)
    requires AllBounded(s)
    ensures
      var s1 := if g in s.conns then Step(s, Close(g)) else s;
      AllBounded(s1) && Exec(s, [Close(g)] + rest) == Exec(s1, rest)
  {
    assert ([Close(g)] + rest)[1..] == rest;
  }

  lemma {:induction false} FirstFor(outbox: seq<Handback>, fd: nat, i: nat) returns (j: nat)
    requires i < |outbox| && outbox[i].fd == fd
    ensures j <= i && outbox[j].fd == fd && forall k :: 0 <= k < j ==> outbox[k].fd != fd
    decreases i
  {
    if k :| 0 <= k < i && outbox[k].fd == fd {
      j := FirstFor(outbox, fd, k);
    } else {
      j := i;
    }
  }

  /** A request in flight is with a worker or in the outbox. */
  lemma WhereInFlight(s: State, fd: nat) returns (i: nat)
    requires !Quiet(s, fd)
    ensures i < |Pending(s)| && Pending(s)[i].fd == fd
  {
    var r :| Flight(s)[Task(fd, r)] != 0;
    assert Task(fd, r) in Pending(s);
    i :| 0 <= i < |Pending(s)| && Pending(s)[i] == Task(fd, r);
  }

  /**
   Whenever a number is reused with a request in flight under it, the program can go on to misserve
   the new client: workers answer, other clients leave, and the outbox is drained.
   */
  lemma EarlyReuseMisserves(s: State, fd: nat, r: string) returns (run: seq<Action>)
    requires Inv(s) && Enabled(s, Accept(fd)) && !Quiet(s, fd)
    ensures forall a :: a in run ==> a.Close? || a.DrainOutbox? || a.WorkerDone?
    ensures MisservedSince(Exec(s, [Accept(fd)] + run), fd, |s.closed|)
  {
    assert fd !in s.conns;
    var s1 := Step(s, Accept(fd));
    StepKeepsBounds(s, Accept(fd));
    var i := WhereInFlight(s, fd);
    if i < |s.tasks| {
      var done := WorkerDone(i, r, true);
      var s2 := Step(s1, done);
      StepKeepsBounds(s1, done);
      var j := FirstFor(s2.outbox, fd, |s1.outbox|);
      var rest := DrainsUpTo(s2, fd, j);
      run := [done] + rest;
      Unroll(s1, done, rest);
    } else {
      var j := FirstFor(s1.outbox, fd, i - |s.tasks|);
      run := DrainsUpTo(s1, fd, j);
    }
    Unroll(s, Accept(fd), run);
  }

  /** No continuation of harmless events, which reuse a number only when nothing is in flight, misserves anybody. */
  lemma HarmlessMisservesNobody(s: State, run: seq<Action>, fd: nat, i: nat)
    requires Inv(s) && HarmlessRun(s, run)
    ensures
      var s' := Exec(s, run);
      && (fd in s'.conns ==> !Misserved(s'.conns[fd], None))
      && (i < |s'.closed| ==> !Misserved(s'.closed[i].conn, Some(s'.closed[i].why)))
  {
    ExecKeepsInv(s, run);
    var s' := Exec(s, run);
    assert fd in s'.conns ==> ConnOk(s'.conns[fd]);
    assert i < |s'.closed| ==> ClosedOk(s'.closed[i]);
  }

  // ---- A hand-back dropped by the outbox -----------------------------------

  /** The table entry waits for an answer that is not in flight. */
  ghost predicate Stranded(s: State, fd: nat, c: Conn) {
    && AllBounded(s) && fd in s.conns && Quiet(s, fd)
    && s.conns[fd].dispatched && !s.conns[fd].writing
    && s.conns[fd].requests == c.requests && s.conns[fd].sent == c.sent
  }

  lemma OthersOutcomeStrands(s: State, g: nat, o: Outcome, fd: nat, c: Conn)
    requires Stranded(s, fd, c) && g != fd && Bounded(o.conn.buf)
    ensures Stranded(Applied(s, g, o), fd, c)
  {
    forall r
      ensures Flight(Applied(s, g, o))[Task(fd, r)] == 0
    {
      AppliedFlight(s, g, o, Task(fd, r));
    }
  }

  lemma DrainStrands(s: State, io: Io, fd: nat, c: Conn)
    requires Stranded(s, fd, c) && Enabled(s, DrainOutbox(io))
    ensures Stranded(Step(s, DrainOutbox(io)), fd, c)
  {
    var h, s0 := s.outbox[0], s.(outbox := s.outbox[1..]);
    OutboxPopped(s);
    assert Flight(s)[Task(h.fd, h.request)] > 0;
    assert Stranded(s0, fd, c);
    if h.fd in s.conns {
      OthersOutcomeStrands(s0, h.fd, OnHandback(s.conns[h.fd], h, io), fd, c);
    }
  }

  /** A readable event is ignored while the entry is dispatched. */
  lemma ReadableStrands(s: State, io: Io, fd: nat, c: Conn)
    requires Stranded(s, fd, c) && Enabled(s, Readable(fd, io))
    ensures Stranded(Step(s, Readable(fd, io)), fd, c)
  {
    assert Pending(Step(s, Readable(fd, io))) == Pending(s);
  }

  lemma RejectedStrands(s: State, i: nat, fd: nat, c: Conn)
    requires Stranded(s, fd, c) && i < |s.tasks|
    ensures Stranded(Step(s, WorkerRejected(i)), fd, c)
  {
    RejectedFlight(s, i);
    assert Flight(s)[s.tasks[i]] > 0;
  }

  /** Socket events change neither the flight nor what the entry was asked and sent. */
  lemma SocketStrands(s: State, a: Action, fd: nat, c: Conn)
    requires Stranded(s, fd, c) && Enabled(s, a) && (a.Accept? || a.Arrive? || a.SpuriousEdge?)
    ensures Stranded(Step(s, a), fd, c)
  {
    StepKeepsBounds(s, a);
    assert Pending(Step(s, a)) == Pending(s);
  }

  lemma StepStrands(s: State, a: Action, fd: nat, c: Conn)
    requires Stranded(s, fd, c) && Enabled(s, a) && a != Close(fd)
    ensures Stranded(Step(s, a), fd, c)
  {
    match a
    case Readable(g, io) =>
      if g != fd {
        OthersOutcomeStrands(s, g, OnReadable(s.conns[g], io), fd, c);
      } else {
        ReadableStrands(s, io, fd, c);
      }
    case Writable(g, io) => OthersOutcomeStrands(s, g, ContinueWrite(s.conns[g], io), fd, c);
    case Close(g) => OthersOutcomeStrands(s, g, Ended(s.conns[g], Dropped), fd, c);
    case DrainOutbox(io) => DrainStrands(s, io, fd, c);
    case WorkerDone(i, response, keepAlive) => WorkerKeepsFlight(s, i, response, keepAlive);
    case WorkerRejected(i) => RejectedStrands(s, i, fd, c);
    case _ => SocketStrands(s, a, fd, c);
  }

  /** In every continuation without a close of that number, nothing more is sent under it. */
  lemma {:induction false} StrandedForever(s: State, fd: nat, c: Conn, run: seq<Action>)
    requires Stranded(s, fd, c) && Close(fd) !in run
    ensures Stranded(Exec(s, run), fd, c)
    decreases |run|
  {
    if run == [] {
    } else if Enabled(s, run[0]) {
      StepStrands(s, run[0], fd, c);
      StrandedForever(Step(s, run[0]), fd, c, run[1..]);
    } else {
      StrandedForever(s, fd, c, run[1..]);
    }
  }

  lemma RejectedIsStranded(s: State, i: nat)
    requires Inv(s) && i < |s.tasks| && s.tasks[i].fd in s.conns
    ensures Stranded(Step(s, WorkerRejected(i)), s.tasks[i].fd, s.conns[s.tasks[i].fd])
  {
    var t := s.tasks[i];
    var s' := Step(s, WorkerRejected(i));
    StepKeepsBounds(s, WorkerRejected(i));
    RejectedFlight(s, i);
    assert FlightOk(s, t.fd);
    assert Flight(s)[t] > 0 && Flight(s)[t] == Out(s.conns[t.fd], t.request);
    forall r
      ensures Flight(s')[Task(t.fd, r)] == 0
    {
      assert Flight(s)[Task(t.fd, r)] == Out(s.conns[t.fd], r);
    }
  }

  /** Every dropped hand-back of a connection in the table strands it until its number is closed, whatever happens. */
  lemma EveryRejectionStrands(s: State, i: nat, run: seq<Action>)
    requires Inv(s) && i < |s.tasks| && s.tasks[i].fd in s.conns && Close(s.tasks[i].fd) !in run
    ensures Stranded(Exec(s, [WorkerRejected(i)] + run), s.tasks[i].fd, s.conns[s.tasks[i].fd])
  {
    RejectedIsStranded(s, i);
    Unroll(s, WorkerRejected(i), run);
    StrandedForever(Step(s, WorkerRejected(i)), s.tasks[i].fd, s.conns[s.tasks[i].fd], run);
  }

  /**
   A run of the program with a full outbox: the worker closes the client's descriptor, the table
   entry stays dispatched, and a second client accepted under the same number is never answered
   until the number is closed, whatever else happens.
   */
  lemma RejectionStrands(fd: nat, m: string, run: seq<Action>)
    requires Single(m) && |m| <= READ_SIZE && Close(fd) !in run
    ensures !Harmless(Submitted(fd, m), WorkerRejected(0))
    ensures
      var rejected := Exec(START, Submit(fd, m, [WorkerRejected(0)] + []));
      && fd in rejected.conns && rejected.conns[fd].gone && rejected.conns[fd].dispatched
      && Enabled(rejected, Accept(fd)) && Quiet(rejected, fd)
    ensures
      var s := Exec(START, Submit(fd, m, [WorkerRejected(0)] + ([Accept(fd)] + run)));
      fd in s.conns && s.conns[fd].dispatched && s.conns[fd].requests == [m] && s.conns[fd].sent == ""
  {
    var s3 := Submitted(fd, m);
    SubmitRuns(fd, m, [WorkerRejected(0)] + []);
    SubmitRuns(fd, m, [WorkerRejected(0)] + ([Accept(fd)] + run));
    Unroll(s3, WorkerRejected(0), []);
    Unroll(s3, WorkerRejected(0), [Accept(fd)] + run);
    var s4 := Step(s3, WorkerRejected(0));
    assert Pending(s4) == [];
    Unroll(s4, Accept(fd), run);
    var s5 := Step(s4, Accept(fd));
    assert Pending(s5) == [];
    StrandedForever(s5, fd, s5.conns[fd], run);
  }
}
