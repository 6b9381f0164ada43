/**
 When connections stay open and why they are closed: what follows a response that is out, what a
 readable event leaves, and the cause of every ending in every run.
 */
module ReactorEndings {
  import opened RequestScan
  import opened Reactor
  import opened ReactorRuns

  const LIMIT: nat := 65536

  /** Every byte the connection holds, read or not. */
  function Held(c: Conn): string { c.buf.data + c.inbox }

  /** The bytes hold a complete message and the task list has its first one, and the buffer the rest; or neither. */
  ghost predicate NextHandedOut(s: State, s': State, fd: nat, bytes: string)
    requires fd in s'.conns
  {
    var first := FindHit(bytes, 0);
    var c := s'.conns[fd];
    && c.inbox == ""
    && if first < |bytes| then
         c.dispatched && c.buf.data == bytes[first + 4..] && s'.tasks == s.tasks + [Task(fd, bytes[..first + 4])]
       else !c.dispatched && c.buf.data == bytes && s'.tasks == s.tasks
  }

  /** The connection is gone from the table and recorded last among the closed ones. */
  ghost predicate ClosedNow(s: State, s': State, fd: nat, why: Ending) {
    && fd !in s'.conns && s'.tasks == s.tasks
    && |s'.closed| == |s.closed| + 1 && s'.closed[..|s.closed|] == s.closed && s'.closed[|s.closed|].why == why
  }

  /**
   What follows a response that is out in full: the connection stays if and only if keep-alive was
   asked for, the peer has not closed, and the bytes it holds are within the limit; the next request
   is then the first complete message among them.
   */
  ghost predicate AfterResponse(s: State, s': State, fd: nat, keepAlive: bool, bytes: string, closed: bool) {
    && (fd in s'.conns <==> keepAlive && !closed && |bytes| <= LIMIT)
    && (fd in s'.conns ==> s'.closed == s.closed && !s'.conns[fd].writing && NextHandedOut(s, s', fd, bytes))
    && (fd !in s'.conns ==> ClosedNow(s, s', fd, if keepAlive then PeerGone else Finished))
  }

  /** What a write does: it fails, or leaves a rest parked, or the response is out. */
  ghost predicate AfterWrite(s: State, s': State, fd: nat, c: Conn, left: nat, keepAlive: bool, io: Io) {
    if left > 0 && io.failed then ClosedNow(s, s', fd, BrokenWrite)
    else if io.accepted < left then
      && fd in s'.conns && s'.conns[fd].writing && s'.conns[fd].dispatched == c.dispatched
      && s'.conns[fd].buf == c.buf && s'.conns[fd].inbox == c.inbox && s'.tasks == s.tasks && s'.closed == s.closed
    else AfterResponse(s, s', fd, keepAlive, Held(c), io.closed)
  }

  lemma FinishLeaves(s: State, fd: nat, c: Conn, io: Io)
    requires Bounded(c.buf) && Reads(c, io.chunks) && !c.writing
    ensures AfterResponse(s, Applied(s, fd, Finish(c, io)), fd, c.keepAlive, Held(c), io.closed)
  {
  }

  lemma WriteLeaves(s: State, fd: nat, c: Conn, io: Io)
    requires Bounded(c.buf) && c.writeOff + io.accepted <= |c.writeBuf| && Reads(c, io.chunks)
    ensures AfterWrite(s, Applied(s, fd, ContinueWrite(c, io)), fd, c, |c.writeBuf| - c.writeOff, c.keepAlive, io)
  {
    FinishLeaves(s, fd, Wrote(c, io.accepted).(writing := false, writeBuf := "", writeOff := 0), io);
  }

  /** A writable event. */
  lemma WritableLeaves(s: State, fd: nat, io: Io)
    requires AllBounded(s) && Enabled(s, Writable(fd, io))
    ensures
      var c := s.conns[fd];
      AfterWrite(s, Step(s, Writable(fd, io)), fd, c, |c.writeBuf| - c.writeOff, c.keepAlive, io)
  {
    WriteLeaves(s, fd, s.conns[fd], io);
  }

  /** A hand-back for a connection in the table: a failed handler closes it, a response is written. */
  lemma HandbackLeaves(s: State, io: Io)
    requires AllBounded(s) && Enabled(s, DrainOutbox(io)) && s.outbox[0].fd in s.conns
    ensures
      var h, s' := s.outbox[0], Step(s, DrainOutbox(io));
      && s'.outbox == s.outbox[1..]
      && if h.response == "" && !h.keepAlive then ClosedNow(s, s', h.fd, HandlerFailed)
         else AfterWrite(s, s', h.fd, s.conns[h.fd], |h.response|, h.keepAlive, io)
  {
    var h := s.outbox[0];
    WriteLeaves(s.(outbox := s.outbox[1..]), h.fd, Answering(s.conns[h.fd], h), io);
  }

  /**
   A readable event on an idle connection: it stays if and only if the peer has not closed and the
   bytes are within the limit, and then a request is handed out exactly if they hold a complete one.
   */
  lemma ReadableLeaves(s: State, fd: nat, io: Io)
    requires Inv(s) && Enabled(s, Readable(fd, io)) && !s.conns[fd].dispatched
    ensures
      var s', bytes := Step(s, Readable(fd, io)), Held(s.conns[fd]);
      && (fd in s'.conns <==> !io.closed && |bytes| <= LIMIT)
      && (fd !in s'.conns ==> ClosedNow(s, s', fd, PeerGone))
      && (fd in s'.conns ==>
            var c := s'.conns[fd];
            && c.inbox == "" && s'.closed == s.closed
            && (c.dispatched <==> FindHit(bytes, 0) < |bytes|)
            && if c.dispatched then
                 |s'.tasks| == |s.tasks| + 1 && s'.tasks[..|s.tasks|] == s.tasks && s'.tasks[|s.tasks|].fd == fd
                 && s'.tasks[|s.tasks|].request + c.buf.data == bytes
               else s'.tasks == s.tasks && c.buf.data == bytes)
  {
    var c := s.conns[fd];
    assert ConnOk(c);
    IncrementalScan(c.buf, io.chunks);
  }

  /** While a request is out, a readable event only clears its edge. */
  lemma ReadableWhileOut(s: State, fd: nat, io: Io)
    requires AllBounded(s) && Enabled(s, Readable(fd, io)) && s.conns[fd].dispatched
    ensures Step(s, Readable(fd, io)) == s.(conns := s.conns[fd := s.conns[fd].(edge := false)])
  {
  }

  /** A new socket under a number whose entry is still there finds the entry as it was. */
  lemma AcceptUnderOldEntry(s: State, fd: nat)
    requires AllBounded(s) && fd in s.conns && s.conns[fd].gone
    ensures
      var s', c := Step(s, Accept(fd)), s.conns[fd];
      && s'.conns == s.conns[fd := c.(gone := false, inbox := "", edge := false, armedForWrite := false)]
      && s'.tasks == s.tasks && s'.outbox == s.outbox && s'.closed == s.closed
  {
  }

  /** What the world outside does to the state: a new socket, bytes that arrive, and a worker's answer. */
  lemma OutsideEvents(s: State, fd: nat, bytes: string, i: nat, response: string, keepAlive: bool)
    requires AllBounded(s)
    ensures fd !in s.conns ==> Step(s, Accept(fd)) == s.(conns := s.conns[fd := NewConn()])
    ensures
      fd in s.conns && !s.conns[fd].gone ==>
        var c, c' := s.conns[fd], Step(s, Arrive(fd, bytes)).conns[fd];
        && Held(c') == Held(c) + bytes && c'.arrived == c.arrived + bytes && c'.buf == c.buf
        && (bytes != "" && !c.armedForWrite ==> c'.edge)
    ensures
      i < |s.tasks| ==>
        var s' := Step(s, WorkerDone(i, response, keepAlive));
        && s'.outbox == s.outbox + [Handback(s.tasks[i].fd, keepAlive, response, s.tasks[i].request)]
        && s'.conns == s.conns
  {
    if fd in s.conns && !s.conns[fd].gone {
      var c := s.conns[fd];
      assert c.buf.data + (c.inbox + bytes) == c.buf.data + c.inbox + bytes;
    }
  }

  // ---- Causes over whole runs ----------------------------------------------

  /** What the event `a` in state `s` says of a connection it closes. */
  ghost predicate Cause(s: State, a: Action, cl: Closed) {
    match cl.why
    case Finished => !cl.conn.keepAlive && (a.Writable? || a.DrainOutbox?)
    case BrokenWrite => (a.Writable? || a.DrainOutbox?) && a.io.failed
    case PeerGone => (a.Readable? || a.Writable? || a.DrainOutbox?) && (a.io.closed || |Held(cl.conn)| > LIMIT)
    case HandlerFailed => a.DrainOutbox? && s.outbox != [] && s.outbox[0].response == "" && !s.outbox[0].keepAlive
    case Dropped => a.Close?
  }

  /** An event closes at most one connection, for its cause. */
  ghost predicate ClosesFor(s: State, s': State, a: Action) {
    || s'.closed == s.closed
    || (|s'.closed| == |s.closed| + 1 && s'.closed[..|s.closed|] == s.closed && Cause(s, a, s'.closed[|s.closed|]))
  }

  lemma FinishCause(s: State, s0: State, a: Action, fd: nat, c: Conn)
    requires (a.Writable? || a.DrainOutbox?) && Bounded(c.buf) && Reads(c, a.io.chunks) && s0.closed == s.closed
    ensures ClosesFor(s, Applied(s0, fd, Finish(c, a.io)), a)
  {
  }

  lemma WriteCause(s: State, s0: State, a: Action, fd: nat, c: Conn)
    requires (a.Writable? || a.DrainOutbox?) && Bounded(c.buf) && Reads(c, a.io.chunks) && s0.closed == s.closed
    requires c.writeOff + a.io.accepted <= |c.writeBuf|
    ensures ClosesFor(s, Applied(s0, fd, ContinueWrite(c, a.io)), a)
  {
    FinishCause(s, s0, a, fd, Wrote(c, a.io.accepted).(writing := false, writeBuf := "", writeOff := 0));
  }

  lemma StepCause(s: State, a: Action)
    requires AllBounded(s) && Enabled(s, a)
    ensures ClosesFor(s, Step(s, a), a)
  {
    match a
    case Writable(fd, io) => WriteCause(s, s, a, fd, s.conns[fd]);
    case DrainOutbox(io) =>
      var h := s.outbox[0];
      if h.fd in s.conns {
        WriteCause(s, s.(outbox := s.outbox[1..]), a, h.fd, Answering(s.conns[h.fd], h));
      }
    case _ =>
  }

  /** The event at position `k` of the run happens, and is why `cl` was closed. */
  ghost predicate ClosedAt(s: State, run: seq<Action>, k: nat, cl: Closed)
    requires AllBounded(s) && k < |run|
  {
    Enabled(Exec(s, run[..k]), run[k]) && Cause(Exec(s, run[..k]), run[k], cl)
  }

  lemma {:induction false} FindCause(s: State, run: seq<Action>, i: nat) returns (k: nat)
    requires AllBounded(s) && |s.closed| <= i < |Exec(s, run).closed|
    ensures k < |run| && ClosedAt(s, run, k, Exec(s, run).closed[i])
    decreases |run|
  {
    var n := |run| - 1;
    var init := run[..n];
    LastEvent(s, run);
    if i < |Exec(s, init).closed| {
      k := FindCause(s, init, i);
      assert run[..k] == init[..k];
      if Enabled(Exec(s, init), run[n]) {
        StepCause(Exec(s, init), run[n]);
      }
    } else {
      k := n;
      if Enabled(Exec(s, init), run[n]) {
        StepCause(Exec(s, init), run[n]);
      }
    }
  }

  lemma {:induction false} LastEvent(s: State, run: seq<Action>)
    requires AllBounded(s)
    ensures run == [] ==> Exec(s, run) == s
    ensures
      run != [] ==>
        var s', a := Exec(s, run[..|run| - 1]), run[|run| - 1];
        Exec(s, run) == if Enabled(s', a) then Step(s', a) else s'
    decreases |run|
  {
    if run == [] {
    } else if |run| == 1 {
      assert run[..0] == [] && run[1..] == [];
    } else {
      var init := run[..|run| - 1];
      assert init[0] == run[0] && run[1..][..|run| - 2] == init[1..] && run[1..][|run| - 2] == run[|run| - 1];
      if Enabled(s, run[0]) {
        StepKeepsBounds(s, run[0]);
        LastEvent(Step(s, run[0]), run[1..]);
      } else {
        LastEvent(s, run[1..]);
      }
    }
  }

  /**
   In every run, every connection that was closed has its cause among the events: PeerGone a peer that
   closed or more bytes than the limit, BrokenWrite a failed write, HandlerFailed an empty hand-back
   without keep-alive, Finished a response without keep-alive, Dropped a close from outside.
   */
  lemma EveryEndingHasItsCause(run: seq<Action>, i: nat) returns (k: nat)
    requires i < |Exec(START, run).closed|
    ensures k < |run| && ClosedAt(START, run, k, Exec(START, run).closed[i])
  {
    k := FindCause(START, run, i);
  }

  // ---- Answers come from workers -------------------------------------------

  /** The answers workers have given in a run, with the request and descriptor of the task. */
  ghost function Given(s: State, run: seq<Action>): set<(Task, string)>
    requires AllBounded(s)
    decreases |run|
  {
    if run == [] then {}
    else
      var before, s', a := Given(s, run[..|run| - 1]), Exec(s, run[..|run| - 1]), run[|run| - 1];
      if Enabled(s', a) && a.WorkerDone? then before + {(s'.tasks[a.i], a.response)} else before
  }

  ghost predicate AnsweredFrom(c: Conn, fd: nat, given: set<(Task, string)>) {
    forall i :: 0 <= i < |c.answers| ==> (Task(fd, c.answers[i].request), c.answers[i].response) in given
  }

  ghost predicate SomeoneFrom(c: Conn, given: set<(Task, string)>) {
    exists fd :: AnsweredFrom(c, fd, given)
  }

  ghost predicate AllGiven(s: State, given: set<(Task, string)>) {
    && (forall i :: 0 <= i < |s.outbox| ==> (Task(s.outbox[i].fd, s.outbox[i].request), s.outbox[i].response) in given)
    && (forall fd :: fd in s.conns ==> AnsweredFrom(s.conns[fd], fd, given))
    && (forall i :: 0 <= i < |s.closed| ==> SomeoneFrom(s.closed[i].conn, given))
  }

  lemma AppliedGiven(s: State, fd: nat, o: Outcome, given: set<(Task, string)>)
    requires AllGiven(s, given) && AnsweredFrom(o.conn, fd, given)
    ensures AllGiven(Applied(s, fd, o), given)
  {
  }

  lemma FinishAnswers(c: Conn, io: Io)
    requires Bounded(c.buf)
    ensures Finish(c, io).conn.answers == c.answers
  {
  }

  lemma WriteAnswers(c: Conn, io: Io)
    requires Bounded(c.buf) && c.writeOff + io.accepted <= |c.writeBuf|
    ensures ContinueWrite(c, io).conn.answers == c.answers
  {
    FinishAnswers(Wrote(c, io.accepted).(writing := false, writeBuf := "", writeOff := 0), io);
  }

  lemma DrainGiven(s: State, io: Io, given: set<(Task, string)>)
    requires AllBounded(s) && Enabled(s, DrainOutbox(io)) && AllGiven(s, given)
    ensures AllGiven(Step(s, DrainOutbox(io)), given)
  {
    var h, s0 := s.outbox[0], s.(outbox := s.outbox[1..]);
    assert AllGiven(s0, given);
    if h.fd in s.conns {
      var c := s.conns[h.fd];
      WriteAnswers(Answering(c, h), io);
      AppliedGiven(s0, h.fd, OnHandback(c, h, io), given);
    }
  }

  lemma ReadAnswers(c: Conn, io: Io)
    requires Bounded(c.buf)
    ensures OnReadable(c, io).conn.answers == c.answers
  {
  }

  lemma SocketGiven(s: State, a: Action, given: set<(Task, string)>)
    requires AllBounded(s) && Enabled(s, a) && AllGiven(s, given)
    requires a.Accept? || a.Arrive? || a.SpuriousEdge? || a.WorkerRejected?
    ensures AllGiven(Step(s, a), given)
  {
    var s' := Step(s, a);
    assert s'.outbox == s.outbox && s'.closed == s.closed;
    forall fd | fd in s'.conns
      ensures AnsweredFrom(s'.conns[fd], fd, given)
    {
      assert fd in s.conns ==> AnsweredFrom(s.conns[fd], fd, given) && s'.conns[fd].answers == s.conns[fd].answers;
    }
  }

  lemma StepGiven(s: State, a: Action, given: set<(Task, string)>)
    requires AllBounded(s) && Enabled(s, a) && AllGiven(s, given)
    ensures AllGiven(Step(s, a), given + if a.WorkerDone? then {(s.tasks[a.i], a.response)} else {})
  {
    assert given + {} == given;
    match a
    case Readable(fd, io) => {
      ReadAnswers(s.conns[fd], io);
      AppliedGiven(s, fd, OnReadable(s.conns[fd], io), given);
    }
    case Writable(fd, io) => {
      WriteAnswers(s.conns[fd], io);
      AppliedGiven(s, fd, ContinueWrite(s.conns[fd], io), given);
    }
    case Close(fd) => AppliedGiven(s, fd, Ended(s.conns[fd], Dropped), given);
    case DrainOutbox(io) => DrainGiven(s, io, given);
    case WorkerDone(i, response, keepAlive) => DoneGiven(s, i, response, keepAlive, given);
    case _ => SocketGiven(s, a, given);
  }

  lemma MoreGiven(s: State, given: set<(Task, string)>, x: (Task, string))
    requires AllGiven(s, given)
    ensures AllGiven(s, given + {x})
  {
    forall fd | fd in s.conns
      ensures AnsweredFrom(s.conns[fd], fd, given + {x})
    {
      assert AnsweredFrom(s.conns[fd], fd, given);
    }
    forall i | 0 <= i < |s.closed|
      ensures SomeoneFrom(s.closed[i].conn, given + {x})
    {
      assert SomeoneFrom(s.closed[i].conn, given);
      var fd :| AnsweredFrom(s.closed[i].conn, fd, given);
      assert AnsweredFrom(s.closed[i].conn, fd, given + {x});
    }
  }

  lemma DoneGiven(s: State, i: nat, response: string, keepAlive: bool, given: set<(Task, string)>)
    requires AllBounded(s) && i < |s.tasks| && AllGiven(s, given)
    ensures AllGiven(Step(s, WorkerDone(i, response, keepAlive)), given + {(s.tasks[i], response)})
  {
    MoreGiven(s, given, (s.tasks[i], response));
    var s' := Step(s, WorkerDone(i, response, keepAlive));
    assert s'.conns == s.conns && s'.closed == s.closed;
  }

  lemma {:induction false} ExecGiven(s: State, run: seq<Action>)
    requires AllBounded(s) && AllGiven(s, {})
    ensures AllGiven(Exec(s, run), Given(s, run))
    decreases |run|
  {
    LastEvent(s, run);
    if run == [] {
    } else {
      var init, a := run[..|run| - 1], run[|run| - 1];
      ExecGiven(s, init);
      if Enabled(Exec(s, init), a) {
        StepGiven(Exec(s, init), a, Given(s, init));
        assert Given(s, init) + {} == Given(s, init);
      }
    }
  }

  /**
   In every run, every response a connection was given to write is one a worker answered to that
   very request under that very number.
   */
  lemma AnswersComeFromWorkers(run: seq<Action>, fd: nat, i: nat)
    ensures
      var s := Exec(START, run);
      fd in s.conns && i < |s.conns[fd].answers| ==>
        (Task(fd, s.conns[fd].answers[i].request), s.conns[fd].answers[i].response) in Given(START, run)
  {
    ExecGiven(START, run);
    var s := Exec(START, run);
    assert fd in s.conns ==> AnsweredFrom(s.conns[fd], fd, Given(START, run));
  }
}
