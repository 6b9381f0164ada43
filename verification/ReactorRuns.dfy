/**
 Runs of the reactor: which requests are in flight, what every event keeps, and what holds
 at every moment of every run.
 */
module ReactorRuns {
  import opened Chunks
  import opened Counting
  import opened RequestScan
  import opened Reactor

  // ---- Requests in flight --------------------------------------------------

  ghost function AsTasks(outbox: seq<Handback>): seq<Task> {
    seq(|outbox|, i requires 0 <= i < |outbox| => Task(outbox[i].fd, outbox[i].request))
  }

  /** Requests with a worker or in the outbox. */
  ghost function Pending(s: State): seq<Task> {
    s.tasks + AsTasks(s.outbox)
  }

  ghost function Flight(s: State): multiset<Task> {
    multiset(Pending(s))
  }

  /** Exactly the request a connection has out is in flight for its descriptor. */
  ghost predicate FlightOk(s: State, fd: nat) {
    fd in s.conns ==> forall r :: Flight(s)[Task(fd, r)] == Out(s.conns[fd], r)
  }

  ghost predicate AllClosedOk(closed: seq<Closed>) {
    forall i :: 0 <= i < |closed| ==> ClosedOk(closed[i])
  }

  ghost predicate Inv(s: State) {
    && AllBounded(s) && AllClosedOk(s.closed)
    && forall fd :: fd in s.conns ==> ConnOk(s.conns[fd]) && FlightOk(s, fd)
  }

  /** Nothing is in flight for this descriptor. */
  ghost predicate Quiet(s: State, fd: nat) {
    forall r :: Flight(s)[Task(fd, r)] == 0
  }

  lemma Removed(tasks: seq<Task>, i: nat)
    requires i < |tasks|
    ensures multiset(tasks) == multiset(tasks[..i] + tasks[i + 1..]) + multiset{tasks[i]}
  {
    assert tasks == tasks[..i] + [tasks[i]] + tasks[i + 1..];
  }

  lemma FlightParts(s: State)
    ensures Flight(s) == multiset(s.tasks) + multiset(AsTasks(s.outbox))
  {
  }

  lemma OutboxPopped(s: State)
    requires s.outbox != []
    ensures Flight(s) == Flight(s.(outbox := s.outbox[1..])) + multiset{Task(s.outbox[0].fd, s.outbox[0].request)}
  {
    var t, rest := Task(s.outbox[0].fd, s.outbox[0].request), AsTasks(s.outbox[1..]);
    FlightParts(s);
    FlightParts(s.(outbox := s.outbox[1..]));
    assert AsTasks(s.outbox) == [t] + rest;
  }

  lemma OutboxPushed(outbox: seq<Handback>, h: Handback)
    ensures AsTasks(outbox + [h]) == AsTasks(outbox) + [Task(h.fd, h.request)]
  {
  }

  /** A worker's answer moves a request from the workers to the outbox and nothing else. */
  lemma WorkerKeepsFlight(s: State, i: nat, response: string, keepAlive: bool)
    requires AllBounded(s) && i < |s.tasks|
    ensures Flight(Step(s, WorkerDone(i, response, keepAlive))) == Flight(s)
  {
    var t := s.tasks[i];
    var s' := Step(s, WorkerDone(i, response, keepAlive));
    Removed(s.tasks, i);
    OutboxPushed(s.outbox, Handback(t.fd, keepAlive, response, t.request));
    FlightParts(s);
    FlightParts(s');
  }

  lemma RejectedFlight(s: State, i: nat)
    requires i < |s.tasks|
    ensures Flight(s) == Flight(Rejected(s, i)) + multiset{s.tasks[i]}
  {
    Removed(s.tasks, i);
    FlightParts(s);
    FlightParts(Rejected(s, i));
  }

  /** Handing out a request puts exactly that request in flight. */
  lemma AppliedFlight(s: State, fd: nat, o: Outcome, t: Task)
    ensures Flight(Applied(s, fd, o))[t] == Flight(s)[t] + (if o.request.Some? && t == Task(fd, o.request.value) then 1 else 0)
  {
    FlightParts(s);
    FlightParts(Applied(s, fd, o));
  }

  // ---- What every event keeps ----------------------------------------------

  /** Changing one connection and the requests in flight for it leaves the others alone. */
  lemma OthersKept(s: State, s': State, fd: nat)
    requires Inv(s) && AllClosedOk(s'.closed)
    requires forall g :: g != fd && g in s'.conns ==> g in s.conns && s'.conns[g] == s.conns[g]
    requires forall t: Task :: t.fd != fd ==> Flight(s')[t] == Flight(s)[t]
    requires fd in s'.conns ==> Bounded(s'.conns[fd].buf) && ConnOk(s'.conns[fd]) && FlightOk(s', fd)
    ensures Inv(s')
  {
    forall g | g in s'.conns
      ensures ConnOk(s'.conns[g]) && FlightOk(s', g)
    {
      if g != fd {
        assert FlightOk(s, g);
      }
    }
  }

  lemma AppliedFlightOk(s: State, fd: nat, o: Outcome)
    requires OutcomeOk(o) && o.ended.None? && Quiet(s, fd)
    ensures FlightOk(Applied(s, fd, o), fd)
  {
    forall r
      ensures Flight(Applied(s, fd, o))[Task(fd, r)] == Out(o.conn, r)
    {
      AppliedFlight(s, fd, o, Task(fd, r));
    }
  }

  lemma AppliedClosedOk(s: State, fd: nat, o: Outcome)
    requires OutcomeOk(o) && AllClosedOk(s.closed)
    ensures AllClosedOk(Applied(s, fd, o).closed)
  {
  }

  /** An outcome applied where nothing was in flight for the descriptor, or that closes the connection. */
  lemma AppliedKeepsInv(s: State, s0: State, fd: nat, o: Outcome)
    requires Inv(s) && OutcomeOk(o) && Bounded(o.conn.buf)
    requires s0.conns == s.conns && s0.closed == s.closed && (o.ended.Some? || Quiet(s0, fd))
    requires forall t: Task :: t.fd != fd ==> Flight(s0)[t] == Flight(s)[t]
    ensures Inv(Applied(s0, fd, o))
  {
    var s' := Applied(s0, fd, o);
    AppliedClosedOk(s0, fd, o);
    if o.ended.None? {
      AppliedFlightOk(s0, fd, o);
    }
    forall t: Task | t.fd != fd
      ensures Flight(s')[t] == Flight(s)[t]
    {
      AppliedFlight(s0, fd, o, t);
    }
    OthersKept(s, s', fd);
  }

  lemma NewConnOk()
    ensures ConnOk(NewConn()) && forall r :: Out(NewConn(), r) == 0
  {
    assert Concat([]) == "" && Responses([]) == "";
    assert NoHit("");
  }

  lemma AcceptKeepsInv(s: State, fd: nat)
    requires Inv(s) && Enabled(s, Accept(fd))
    ensures Inv(Step(s, Accept(fd))) <==> Quiet(s, fd)
  {
    var s' := Step(s, Accept(fd));
    assert fd !in s.conns;
    assert Flight(s') == Flight(s);
    NewConnOk();
    if Quiet(s, fd) {
      OthersKept(s, s', fd);
    } else {
      assert fd in s'.conns;
      assert !FlightOk(s', fd);
    }
  }

  /** A change to one connection's socket that keeps it in order. */
  lemma SocketKeepsInv(s: State, fd: nat, c: Conn)
    requires Inv(s) && fd in s.conns && ConnOk(c) && Bounded(c.buf) && forall r :: Out(c, r) == Out(s.conns[fd], r)
    ensures Inv(s.(conns := s.conns[fd := c]))
  {
    assert FlightOk(s, fd);
    assert Flight(s.(conns := s.conns[fd := c])) == Flight(s);
    OthersKept(s, s.(conns := s.conns[fd := c]), fd);
  }

  lemma ArriveKeepsInv(s: State, fd: nat, bytes: string)
    requires Inv(s) && Enabled(s, Arrive(fd, bytes))
    ensures Inv(Step(s, Arrive(fd, bytes)))
  {
    var c := s.conns[fd];
    assert c.arrived + bytes == Concat(c.requests) + c.buf.data + (c.inbox + bytes);
    SocketKeepsInv(s, fd, Step(s, Arrive(fd, bytes)).conns[fd]);
  }

  lemma IdleIsQuiet(s: State, fd: nat)
    requires Inv(s) && fd in s.conns && !Awaiting(s.conns[fd])
    ensures Quiet(s, fd)
  {
    assert FlightOk(s, fd);
  }

  lemma ReadableKeepsInv(s: State, fd: nat, io: Io)
    requires Inv(s) && Enabled(s, Readable(fd, io))
    ensures Inv(Step(s, Readable(fd, io)))
  {
    var c := s.conns[fd];
    if c.dispatched {
      SocketKeepsInv(s, fd, c.(edge := false));
    } else {
      ReadableOk(c, io);
      IdleIsQuiet(s, fd);
      AppliedKeepsInv(s, s, fd, OnReadable(c, io));
    }
  }

  lemma WritableKeepsInv(s: State, fd: nat, io: Io)
    requires Inv(s) && Enabled(s, Writable(fd, io))
    ensures Inv(Step(s, Writable(fd, io)))
  {
    ContinueWriteOk(s.conns[fd], io);
    IdleIsQuiet(s, fd);
    AppliedKeepsInv(s, s, fd, ContinueWrite(s.conns[fd], io));
  }

  /** The hand-back at the head of the outbox belongs to the request its connection has out. */
  lemma HandbackMatches(s: State)
    requires Inv(s) && s.outbox != [] && s.outbox[0].fd in s.conns
    ensures
      var h := s.outbox[0];
      var c := s.conns[h.fd];
      Awaiting(c) && c.requests != [] && c.requests[|c.requests| - 1] == h.request
    ensures Quiet(s.(outbox := s.outbox[1..]), s.outbox[0].fd)
  {
    var h, s0 := s.outbox[0], s.(outbox := s.outbox[1..]);
    assert FlightOk(s, h.fd);
    OutboxPopped(s);
    assert Flight(s)[Task(h.fd, h.request)] == Out(s.conns[h.fd], h.request);
    forall r
      ensures Flight(s0)[Task(h.fd, r)] == 0
    {
      assert Flight(s)[Task(h.fd, r)] == Out(s.conns[h.fd], r);
    }
  }

  lemma DrainKeepsInv(s: State, io: Io)
    requires Inv(s) && Enabled(s, DrainOutbox(io))
    ensures Inv(Step(s, DrainOutbox(io)))
  {
    var h, s0 := s.outbox[0], s.(outbox := s.outbox[1..]);
    OutboxPopped(s);
    if h.fd in s.conns {
      HandbackMatches(s);
      HandbackOk(s.conns[h.fd], h, io);
      AppliedKeepsInv(s, s0, h.fd, OnHandback(s.conns[h.fd], h, io));
    } else {
      OthersKept(s, s0, h.fd);
    }
  }

  lemma RejectedKeepsInv(s: State, i: nat)
    requires Inv(s) && i < |s.tasks|
    ensures Inv(Step(s, WorkerRejected(i))) <==> s.tasks[i].fd !in s.conns
  {
    var fd := s.tasks[i].fd;
    RejectedFlight(s, i);
    if fd in s.conns {
      assert !ConnOk(Step(s, WorkerRejected(i)).conns[fd]);
    } else {
      OthersKept(s, Step(s, WorkerRejected(i)), fd);
    }
  }

  lemma CloseKeepsInv(s: State, fd: nat)
    requires Inv(s) && fd in s.conns
    ensures Inv(Step(s, Close(fd)))
  {
    DroppedOk(s.conns[fd]);
    AppliedKeepsInv(s, s, fd, Ended(s.conns[fd], Dropped));
  }

  /** No descriptor number is reused with a hand-back in flight, and no hand-back of a connection in the table is dropped. */
  ghost predicate Harmless(s: State, a: Action) {
    && (a.Accept? ==> Quiet(s, a.fd))
    && (a.WorkerRejected? && a.i < |s.tasks| ==> s.tasks[a.i].fd !in s.conns)
  }

  /** Every event keeps every connection in order if and only if it is harmless. */
  lemma StepKeepsInv(s: State, a: Action)
    requires Inv(s) && Enabled(s, a)
    ensures Inv(Step(s, a)) <==> Harmless(s, a)
  {
    match a
    case Accept(fd) => AcceptKeepsInv(s, fd);
    case Arrive(fd, bytes) => ArriveKeepsInv(s, fd, bytes);
    case SpuriousEdge(fd) => SocketKeepsInv(s, fd, s.conns[fd].(edge := true));
    case Readable(fd, io) => ReadableKeepsInv(s, fd, io);
    case Writable(fd, io) => WritableKeepsInv(s, fd, io);
    case WorkerDone(i, response, keepAlive) => {
      WorkerKeepsFlight(s, i, response, keepAlive);
      OthersKept(s, Step(s, a), s.tasks[i].fd);
    }
    case WorkerRejected(i) => RejectedKeepsInv(s, i);
    case DrainOutbox(io) => DrainKeepsInv(s, io);
    case Close(fd) => CloseKeepsInv(s, fd);
  }

  // ---- Runs ----------------------------------------------------------------

  /** Every event of the run that happens is harmless. */
  ghost predicate HarmlessRun(s: State, run: seq<Action>)
    requires AllBounded(s)
    decreases |run|
  {
    run == [] ||
    if Enabled(s, run[0]) then
      StepKeepsBounds(s, run[0]);
      Harmless(s, run[0]) && HarmlessRun(Step(s, run[0]), run[1..])
    else HarmlessRun(s, run[1..])
  }

  lemma {:induction false} ExecKeepsInv(s: State, run: seq<Action>)
    requires Inv(s) && HarmlessRun(s, run)
    ensures Inv(Exec(s, run))
    decreases |run|
  {
    if run == [] {
    } else if Enabled(s, run[0]) {
      StepKeepsInv(s, run[0]);
      ExecKeepsInv(Step(s, run[0]), run[1..]);
    } else {
      ExecKeepsInv(s, run[1..]);
    }
  }

  lemma ReachedInv(run: seq<Action>)
    requires HarmlessRun(START, run)
    ensures Inv(Exec(START, run))
  {
    ExecKeepsInv(START, run);
  }

  // ---- Main results --------------------------------------------------------

  /** How many of these requests came from this descriptor. */
  ghost function Mine(ts: seq<Task>, fd: nat): nat
    decreases |ts|
  {
    if ts == [] then 0 else (if ts[0].fd == fd then 1 else 0) + Mine(ts[1..], fd)
  }

  /** Counting by descriptor agrees with counting request by request. */
  lemma {:induction false} MineCounts(ts: seq<Task>, fd: nat, one: Option<string>)
    requires forall r :: multiset(ts)[Task(fd, r)] == if one == Some(r) then 1 else 0
    ensures Mine(ts, fd) == if one.Some? then 1 else 0
    decreases |ts|
  {
    if ts == [] {
      assert forall r :: multiset(ts)[Task(fd, r)] == 0;
    } else {
      var t, rest := ts[0], ts[1..];
      assert ts == [t] + rest;
      assert forall r :: multiset(ts)[Task(fd, r)] == multiset(rest)[Task(fd, r)] + if t == Task(fd, r) then 1 else 0;
      if t.fd == fd {
        assert multiset(ts)[Task(fd, t.request)] >= 1;
        MineCounts(rest, fd, None);
      } else {
        MineCounts(rest, fd, one);
      }
    }
  }

  /**
   At every moment of every harmless run a connection has at most one request in a worker, in
   the outbox or being written, and `dispatched` is true exactly then.
   */
  lemma OneRequestOut(run: seq<Action>, fd: nat)
    requires HarmlessRun(START, run)
    ensures
      var s := Exec(START, run);
      fd in s.conns ==>
        var c := s.conns[fd];
        Mine(Pending(s), fd) + (if c.writing then 1 else 0) == if c.dispatched then 1 else 0
  {
    var s := Exec(START, run);
    ReachedInv(run);
    if fd in s.conns {
      var c := s.conns[fd];
      assert FlightOk(s, fd) && ConnOk(c);
      MineCounts(Pending(s), fd, if Awaiting(c) then Some(c.requests[|c.requests| - 1]) else None);
    }
  }

  /**
   At every moment of every harmless run the bytes sent on an open connection are a prefix of the
   responses to its own requests, concatenated in request order, whatever the socket took at a time.
   */
  lemma ResponsesInOrder(run: seq<Action>, fd: nat)
    requires HarmlessRun(START, run)
    ensures
      fd in Exec(START, run).conns ==>
        var c := Exec(START, run).conns[fd];
        && c.sent <= Responses(c.answers)
        && (!c.writing ==> c.sent == Responses(c.answers))
        && |c.answers| <= |c.requests| <= |c.answers| + 1
        && forall i :: 0 <= i < |c.answers| ==> c.answers[i].request == c.requests[i]
  {
    ReachedInv(run);
  }

  /**
   The same for every connection that was closed: its client was sent a prefix of the responses to
   its own requests in request order, all of them when the connection ended after a response that
   was not keep-alive, in a drain, or with a failed handler, and none is missing a request.
   */
  lemma ClosedInOrder(run: seq<Action>, i: nat)
    requires HarmlessRun(START, run)
    ensures
      i < |Exec(START, run).closed| ==>
        var cl := Exec(START, run).closed[i];
        var c := cl.conn;
        && c.sent <= Responses(c.answers)
        && (cl.why.Finished? || cl.why.PeerGone? || cl.why.HandlerFailed? ==> c.sent == Responses(c.answers))
        && |c.answers| <= |c.requests| <= |c.answers| + 1
        && (cl.why.Finished? ==> !c.keepAlive && |c.answers| == |c.requests|)
        && (forall k :: 0 <= k < |c.answers| ==> c.answers[k].request == c.requests[k])
        && c.arrived == Concat(c.requests) + c.buf.data + c.inbox
  {
    ReachedInv(run);
    assert i < |Exec(START, run).closed| ==> ClosedOk(Exec(START, run).closed[i]);
  }

  /** What a connection was sent and asked only grows. */
  ghost predicate Grows(c: Conn, c': Conn) {
    c.sent <= c'.sent && c.requests <= c'.requests && c.answers <= c'.answers
  }

  lemma GrowsOnwards(c: Conn, d: Conn, e: Conn)
    requires Grows(c, d) && Grows(d, e)
    ensures Grows(c, e)
  {
  }

  lemma ReadableGrows(c: Conn, io: Io)
    requires Bounded(c.buf)
    ensures Grows(c, OnReadable(c, io).conn)
  {
  }

  lemma FinishGrows(c: Conn, io: Io)
    requires Bounded(c.buf)
    ensures Grows(c, Finish(c, io).conn)
  {
  }

  lemma WriteGrows(c: Conn, io: Io)
    requires Bounded(c.buf) && c.writeOff + io.accepted <= |c.writeBuf|
    ensures Grows(c, ContinueWrite(c, io).conn)
  {
    var w := Wrote(c, io.accepted);
    var done := w.(writing := false, writeBuf := "", writeOff := 0);
    FinishGrows(done, io);
    GrowsOnwards(c, done, Finish(done, io).conn);
  }

  lemma HandbackGrows(c: Conn, h: Handback, io: Io)
    requires Bounded(c.buf) && io.accepted <= |h.response|
    ensures Grows(c, OnHandback(c, h, io).conn)
  {
    var c' := Answering(c, h);
    WriteGrows(c', io);
    GrowsOnwards(c, c', ContinueWrite(c', io).conn);
  }

  /** The connection is still in the table, or it is the one recorded as closed now. */
  ghost predicate Remembered(s: State, s': State, fd: nat)
    requires fd in s.conns
  {
    && |s.closed| <= |s'.closed| <= |s.closed| + 1 && s'.closed[..|s.closed|] == s.closed
    && if fd in s'.conns then Grows(s.conns[fd], s'.conns[fd])
       else |s'.closed| == |s.closed| + 1 && Grows(s.conns[fd], s'.closed[|s.closed|].conn)
  }

  lemma AppliedRemembers(s: State, g: nat, o: Outcome, fd: nat)
    requires fd in s.conns && g in s.conns && Grows(s.conns[g], o.conn)
    ensures Remembered(s, Applied(s, g, o), fd)
  {
  }

  /** No connection is forgotten: an event keeps each in the table or records it as closed with all it was sent. */
  lemma StepForgetsNobody(s: State, a: Action, fd: nat)
    requires AllBounded(s) && Enabled(s, a) && fd in s.conns
    ensures Remembered(s, Step(s, a), fd)
  {
    match a
    case Readable(g, io) =>
      ReadableGrows(s.conns[g], io);
      AppliedRemembers(s, g, OnReadable(s.conns[g], io), fd);
    case Writable(g, io) =>
      WriteGrows(s.conns[g], io);
      AppliedRemembers(s, g, ContinueWrite(s.conns[g], io), fd);
    case DrainOutbox(io) =>
      var h := s.outbox[0];
      if h.fd in s.conns {
        HandbackGrows(s.conns[h.fd], h, io);
        AppliedRemembers(s.(outbox := s.outbox[1..]), h.fd, OnHandback(s.conns[h.fd], h, io), fd);
      }
    case Close(g) => AppliedRemembers(s, g, Ended(s.conns[g], Dropped), fd);
    case _ =>
  }

  /**
   No request gets stuck: between events a connection with nothing out has no complete
   request in its buffer, unread bytes have an edge pending, and every byte that arrived is
   in a request handed out, in the buffer, or unread, in order.
   */
  lemma NothingGetsStuck(run: seq<Action>, fd: nat)
    requires HarmlessRun(START, run)
    ensures
      fd in Exec(START, run).conns ==>
        var c := Exec(START, run).conns[fd];
        && (!c.dispatched ==> NoHit(c.buf.data) && (c.inbox != "" ==> c.edge))
        && c.arrived == Concat(c.requests) + c.buf.data + c.inbox
        && |c.buf.data| <= MAX_REQUEST
  {
    ReachedInv(run);
  }
}
