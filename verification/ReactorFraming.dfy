/**
 What the workers are given: in runs whose drains are framed, exactly the messages of the
 client's byte stream, one at a time and in order.
 */
module ReactorFraming {
  import opened Chunks
  import opened RequestScan
  import opened Reactor
  import opened ReactorRuns

  /** The complete messages of a stream, each ending with its terminator. */
  function Messages(b: string): seq<string>
    decreases |b|
  {
    var hit := FindHit(b, 0);
    if hit < |b| then [b[..hit + NEEDLE]] + Messages(b[hit + NEEDLE..]) else []
  }

  ghost predicate AllSingle(rs: seq<string>) {
    forall i :: 0 <= i < |rs| ==> Single(rs[i])
  }

  lemma FirstIsSingle(b: string)
    requires FindHit(b, 0) < |b|
    ensures Single(b[..FindHit(b, 0) + NEEDLE])
  {
    var first := FindHit(b, 0);
    var r := b[..first + NEEDLE];
    assert HitAt(r, first);
    forall i | 0 <= i < first
      ensures !HitAt(r, i)
    {
      assert !HitAt(b, i);
    }
    FoundFrom(r, first);
  }

  lemma MessageInFront(r: string, more: string)
    requires Single(r)
    ensures Messages(r + more) == [r] + Messages(more)
  {
    FirstStays(r, more);
    assert (r + more)[..|r|] == r && (r + more)[|r|..] == more;
  }

  lemma Regroup(rs: seq<string>, ms: seq<string>, rest: string)
    requires rs != []
    ensures rs + ms == [rs[0]] + (rs[1..] + ms)
    ensures Concat(rs) + rest == rs[0] + (Concat(rs[1..]) + rest)
  {
  }

  /** Single messages in front of a stream are its first messages. */
  lemma {:induction false} MessagesInFront(rs: seq<string>, rest: string)
    requires AllSingle(rs)
    ensures Messages(Concat(rs) + rest) == rs + Messages(rest)
    decreases |rs|
  {
    if rs == [] {
      assert Concat(rs) + rest == rest && rs + Messages(rest) == Messages(rest);
    } else {
      assert Single(rs[0]);
      MessageInFront(rs[0], Concat(rs[1..]) + rest);
      MessagesInFront(rs[1..], rest);
      Regroup(rs, Messages(rest), rest);
    }
  }

  lemma NoMessages(b: string)
    requires NoHit(b)
    ensures Messages(b) == []
  {
  }

  /** Every message of a stream is a single one. */
  lemma {:induction false} MessagesAreSingle(b: string)
    ensures AllSingle(Messages(b))
    decreases |b|
  {
    var hit := FindHit(b, 0);
    if hit == |b| {
    } else {
      FirstIsSingle(b);
      MessagesAreSingle(b[hit + NEEDLE..]);
    }
  }

  /** Requests are the first messages of the stream they came from exactly when each is a single message. */
  lemma FirstMessagesIff(rs: seq<string>, rest: string)
    ensures Messages(Concat(rs) + rest) == rs + Messages(rest) <==> AllSingle(rs)
  {
    if AllSingle(rs) {
      MessagesInFront(rs, rest);
    } else if Messages(Concat(rs) + rest) == rs + Messages(rest) {
      MessagesAreSingle(Concat(rs) + rest);
      forall i | 0 <= i < |rs|
        ensures Single(rs[i])
      {
        assert (rs + Messages(rest))[i] == rs[i];
      }
    }
  }

  // ---- Events --------------------------------------------------------------

  /** The reads of a readable event that is not ignored and does not close the connection are framed. */
  ghost predicate FramedEvent(s: State, a: Action)
    requires Enabled(s, a)
  {
    a.Readable? && !s.conns[a.fd].dispatched && Survives(s.conns[a.fd], a.io) ==>
      FramedReads(s.conns[a.fd].buf.data, a.io.chunks)
  }

  /** An outcome hands out at most one more request. */
  ghost predicate HandsOut(requests: seq<string>, o: Outcome) {
    o.conn.requests == if o.request.Some? then requests + [o.request.value] else requests
  }

  /** The request handed out, if any, is a single message. */
  ghost predicate SingleOut(o: Outcome) {
    o.request.Some? ==> Single(o.request.value)
  }

  lemma CheckBufferedSingle(c: Conn)
    requires Bounded(c.buf)
    ensures HandsOut(c.requests, CheckBuffered(c)) && SingleOut(CheckBuffered(c))
  {
    if FindHit(c.buf.data, 0) < |c.buf.data| {
      FirstIsSingle(c.buf.data);
    }
  }

  lemma FinishSingle(c: Conn, io: Io)
    requires Bounded(c.buf)
    ensures HandsOut(c.requests, Finish(c, io)) && SingleOut(Finish(c, io))
  {
    var c1 := c.(dispatched := false, armedForWrite := false);
    CheckBufferedSingle(c1.(buf := c.buf.(data := c.buf.data + Concat(io.chunks)), inbox := ""));
  }

  lemma ContinueWriteSingle(c: Conn, io: Io)
    requires Bounded(c.buf) && c.writeOff + io.accepted <= |c.writeBuf|
    ensures HandsOut(c.requests, ContinueWrite(c, io)) && SingleOut(ContinueWrite(c, io))
  {
    FinishSingle(Wrote(c, io.accepted).(writing := false, writeBuf := "", writeOff := 0), io);
  }

  /** A prefix that holds a terminator is a single message exactly when it ends with the first one. */
  lemma PrefixSingleIff(data: string, n: nat)
    requires FindHit(data, 0) < |data| && n <= |data|
    ensures Single(data[..n]) <==> n == FindHit(data, 0) + NEEDLE
  {
    FirstIsSingle(data);
    if Single(data[..n]) {
      assert data[..n] + data[n..] == data;
      FirstStays(data[..n], data[n..]);
    }
  }

  /** A readable event hands out a single message if and only if its reads are framed. */
  lemma ReadableSingleIff(c: Conn, io: Io)
    requires ConnOk(c) && !c.dispatched && Bounded(c.buf) && Reads(c, io.chunks)
    ensures HandsOut(c.requests, OnReadable(c, io))
    ensures SingleOut(OnReadable(c, io)) <==> (Survives(c, io) ==> FramedReads(c.buf.data, io.chunks))
  {
    FramedReadsIff(c.buf, io.chunks);
    var (b, got) := OnReads(c.buf, false, io.chunks);
    if Survives(c, io) && got {
      PrefixSingleIff(b.data, b.scanPos);
      assert Carved(b).0 == b.data[..b.scanPos];
    }
  }

  // ---- Runs ----------------------------------------------------------------

  /** Every request ever handed out, on open and on closed connections, is a single message. */
  ghost predicate SingleRequests(s: State) {
    && (forall fd :: fd in s.conns ==> AllSingle(s.conns[fd].requests))
    && (forall i :: 0 <= i < |s.closed| ==> AllSingle(s.closed[i].conn.requests))
  }

  lemma SingleSnoc(rs: seq<string>, o: Outcome)
    requires HandsOut(rs, o)
    ensures AllSingle(o.conn.requests) <==> AllSingle(rs) && SingleOut(o)
  {
    if AllSingle(o.conn.requests) {
      forall i | 0 <= i < |rs|
        ensures Single(rs[i])
      {
        assert o.conn.requests[i] == rs[i];
      }
      if o.request.Some? {
        assert o.conn.requests[|rs|] == o.request.value;
      }
    }
  }

  lemma AppliedSingle(s: State, fd: nat, o: Outcome)
    requires fd in s.conns && HandsOut(s.conns[fd].requests, o)
    ensures SingleRequests(Applied(s, fd, o)) <==> SingleRequests(s) && SingleOut(o)
  {
    var s' := Applied(s, fd, o);
    SingleSnoc(s.conns[fd].requests, o);
    if SingleRequests(s') {
      assert AllSingle(o.conn.requests) by {
        if o.ended.Some? {
          assert s'.closed[|s.closed|].conn == o.conn;
        } else {
          assert s'.conns[fd] == o.conn;
        }
      }
      forall g | g in s.conns
        ensures AllSingle(s.conns[g].requests)
      {
        assert g == fd || (g in s'.conns && s'.conns[g] == s.conns[g]);
      }
      forall i | 0 <= i < |s.closed|
        ensures AllSingle(s.closed[i].conn.requests)
      {
        assert s'.closed[i] == s.closed[i];
      }
    }
  }

  lemma SameRequests(s: State, s': State)
    requires s'.conns.Keys == s.conns.Keys && s'.closed == s.closed
    requires forall fd :: fd in s.conns ==> s'.conns[fd].requests == s.conns[fd].requests
    ensures SingleRequests(s') <==> SingleRequests(s)
  {
    if SingleRequests(s') {
      forall fd | fd in s.conns
        ensures AllSingle(s.conns[fd].requests)
      {
        assert fd in s'.conns;
      }
    }
  }

  lemma DrainSingle(s: State, io: Io)
    requires AllBounded(s) && Enabled(s, DrainOutbox(io))
    ensures SingleRequests(Step(s, DrainOutbox(io))) <==> SingleRequests(s)
  {
    var h, s0 := s.outbox[0], s.(outbox := s.outbox[1..]);
    SameRequests(s, s0);
    if h.fd in s.conns {
      var c := s.conns[h.fd];
      ContinueWriteSingle(Answering(c, h), io);
      AppliedSingle(s0, h.fd, OnHandback(c, h, io));
    }
  }

  lemma AcceptSingle(s: State, fd: nat)
    requires AllBounded(s) && Enabled(s, Accept(fd))
    ensures SingleRequests(Step(s, Accept(fd))) <==> SingleRequests(s)
  {
    var s' := Step(s, Accept(fd));
    if SingleRequests(s') {
      forall g | g in s.conns
        ensures AllSingle(s.conns[g].requests)
      {
        assert g in s'.conns;
      }
    }
  }

  lemma ReadableStepSingle(s: State, fd: nat, io: Io)
    requires Inv(s) && Enabled(s, Readable(fd, io))
    ensures SingleRequests(Step(s, Readable(fd, io))) <==> SingleRequests(s) && FramedEvent(s, Readable(fd, io))
  {
    if !s.conns[fd].dispatched {
      ReadableSingleIff(s.conns[fd], io);
    }
    AppliedSingle(s, fd, OnReadable(s.conns[fd], io));
  }

  lemma WritableStepSingle(s: State, fd: nat, io: Io)
    requires AllBounded(s) && Enabled(s, Writable(fd, io))
    ensures SingleRequests(Step(s, Writable(fd, io))) <==> SingleRequests(s)
  {
    ContinueWriteSingle(s.conns[fd], io);
    AppliedSingle(s, fd, ContinueWrite(s.conns[fd], io));
  }

  lemma OtherStepSingle(s: State, a: Action)
    requires AllBounded(s) && Enabled(s, a) && (a.Arrive? || a.SpuriousEdge? || a.WorkerDone? || a.WorkerRejected?)
    ensures SingleRequests(Step(s, a)) <==> SingleRequests(s)
  {
    SameRequests(s, Step(s, a));
  }

  lemma CloseStepSingle(s: State, fd: nat)
    requires AllBounded(s) && fd in s.conns
    ensures SingleRequests(Step(s, Close(fd))) <==> SingleRequests(s)
  {
    AppliedSingle(s, fd, Ended(s.conns[fd], Dropped));
  }

  /** An event leaves only single messages handed out if and only if it did so before and its reads are framed. */
  lemma StepSingleIff(s: State, a: Action)
    requires Inv(s) && Enabled(s, a)
    ensures SingleRequests(Step(s, a)) <==> SingleRequests(s) && FramedEvent(s, a)
  {
    match a
    case Readable(fd, io) => ReadableStepSingle(s, fd, io);
    case Writable(fd, io) => WritableStepSingle(s, fd, io);
    case DrainOutbox(io) => DrainSingle(s, io);
    case Close(fd) => CloseStepSingle(s, fd);
    case Accept(fd) => AcceptSingle(s, fd);
    case _ => OtherStepSingle(s, a);
  }

  /** Every readable event of the run has framed reads. */
  ghost predicate FramedRun(s: State, run: seq<Action>)
    requires AllBounded(s)
    decreases |run|
  {
    run == [] ||
    if Enabled(s, run[0]) then
      StepKeepsBounds(s, run[0]);
      FramedEvent(s, run[0]) && FramedRun(Step(s, run[0]), run[1..])
    else FramedRun(s, run[1..])
  }

  lemma {:induction false} ExecSingleIff(s: State, run: seq<Action>)
    requires Inv(s) && HarmlessRun(s, run)
    ensures SingleRequests(Exec(s, run)) <==> SingleRequests(s) && FramedRun(s, run)
    decreases |run|
  {
    if run == [] {
    } else if Enabled(s, run[0]) {
      StepKeepsInv(s, run[0]);
      StepSingleIff(s, run[0]);
      ExecSingleIff(Step(s, run[0]), run[1..]);
    } else {
      ExecSingleIff(s, run[1..]);
    }
  }

  /** The requests handed out are the first messages of what arrived. */
  ghost predicate FirstMessages(c: Conn) {
    Messages(c.arrived) == c.requests + Messages(c.buf.data + c.inbox)
  }

  lemma FirstMessagesOfConn(c: Conn)
    requires Conserved(c)
    ensures FirstMessages(c) <==> AllSingle(c.requests)
  {
    assert c.arrived == Concat(c.requests) + (c.buf.data + c.inbox);
    FirstMessagesIff(c.requests, c.buf.data + c.inbox);
  }

  /**
   In every harmless run, the requests handed to workers are exactly the first messages of what
   arrived on each connection, open or closed, if and only if the reads of every drain were framed.
   */
  lemma RequestsAreTheMessages(run: seq<Action>)
    requires HarmlessRun(START, run)
    ensures
      var s := Exec(START, run);
      (forall fd :: fd in s.conns ==> FirstMessages(s.conns[fd]))
      && (forall i :: 0 <= i < |s.closed| ==> FirstMessages(s.closed[i].conn))
      <==> FramedRun(START, run)
  {
    var s := Exec(START, run);
    ReachedInv(run);
    ExecSingleIff(START, run);
    forall fd | fd in s.conns
      ensures FirstMessages(s.conns[fd]) <==> AllSingle(s.conns[fd].requests)
    {
      FirstMessagesOfConn(s.conns[fd]);
    }
    forall i | 0 <= i < |s.closed|
      ensures FirstMessages(s.closed[i].conn) <==> AllSingle(s.closed[i].conn.requests)
    {
      assert ClosedOk(s.closed[i]);
      FirstMessagesOfConn(s.closed[i].conn);
    }
  }

  /** In a framed run an idle connection has handed out every message it has read. */
  lemma IdleHasHandedOutAll(run: seq<Action>, fd: nat)
    requires HarmlessRun(START, run) && FramedRun(START, run)
    ensures
      var s := Exec(START, run);
      fd in s.conns && !s.conns[fd].dispatched ==>
        Messages(Concat(s.conns[fd].requests) + s.conns[fd].buf.data) == s.conns[fd].requests
  {
    var s := Exec(START, run);
    ReachedInv(run);
    ExecSingleIff(START, run);
    if fd in s.conns && !s.conns[fd].dispatched {
      var c := s.conns[fd];
      MessagesInFront(c.requests, c.buf.data);
      NoMessages(c.buf.data);
    }
  }
}
