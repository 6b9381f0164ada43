/**
 The reactor's connection protocol: edge-triggered reads, hand-off of one request at a
 time to a worker pool, hand-back through an outbox, non-blocking writes that may park,
 and keep-alive connections with pipelined requests.

 The kernel, the workers and the clients are the environment: bytes arrive at any time, a
 readiness edge is raised when bytes arrive while the descriptor is armed for reading,
 reads return the unread bytes in pieces of any size, writes accept any number of bytes,
 workers answer in any order, and peers may go away. Connections are found by descriptor
 number only, as in the program. Connections that were closed are kept as history.
 */
module Reactor {
  import opened Chunks
  import opened Counting
  import opened RequestScan

  const MAX_REQUEST: nat := 64 * 1024
  const READ_SIZE: nat := 4096

  datatype Answer = Answer(request: string, response: string)

  datatype Conn = Conn(
    // the program's fields
    buf: Buffer, dispatched: bool, writeBuf: string, writeOff: nat, keepAlive: bool, writing: bool,
    // the socket: unread bytes, a readable edge not yet handled, armed for writing instead of
    // reading, and whether the descriptor was closed under the table entry
    inbox: string, edge: bool, armedForWrite: bool, gone: bool,
    // history: bytes that arrived, requests handed to workers, answers begun, bytes written
    arrived: string, requests: seq<string>, answers: seq<Answer>, sent: string)

  /** Why a connection was closed. */
  datatype Ending =
    | Finished       // the response is out and was not keep-alive
    | BrokenWrite    // a write failed
    | PeerGone       // a drain met the end of the stream, an error or the size limit
    | HandlerFailed  // the handler threw
    | Dropped        // a closed event or the idle sweep

  datatype Closed = Closed(conn: Conn, why: Ending)

  datatype Task = Task(fd: nat, request: string)

  /** What a worker hands back; `request` is history and plays no part in finding the connection. */
  datatype Handback = Handback(fd: nat, keepAlive: bool, response: string, request: string)

  datatype State = State(conns: map<nat, Conn>, tasks: seq<Task>, outbox: seq<Handback>, closed: seq<Closed>)

  /** What handling an event leaves: the connection, a request for the workers, and why it was closed if it was. */
  datatype Outcome = Outcome(conn: Conn, request: Option<string>, ended: Option<Ending>)

  /** How the socket behaves while an event is handled: bytes taken by writes, a failed write, reads, and a peer gone. */
  datatype Io = Io(accepted: nat, failed: bool, chunks: seq<string>, closed: bool)

  datatype Action =
    | Accept(fd: nat)
    | Arrive(fd: nat, bytes: string)
    | SpuriousEdge(fd: nat)
    | Readable(fd: nat, io: Io)
    | Writable(fd: nat, io: Io)
    | WorkerDone(i: nat, response: string, keepAlive: bool)
    | WorkerRejected(i: nat)   // the outbox was full: the hand-back is dropped and the worker closes the descriptor
    | DrainOutbox(io: Io)
    | Close(fd: nat)

  function NewConn(): Conn {
    Conn(Buffer("", 0), false, "", 0, false, false, "", false, false, false, "", [], [], "")
  }

  // ---- Handling events -----------------------------------------------------

  function Open(c: Conn, request: Option<string>): Outcome {
    Outcome(c, request, None)
  }

  function Ended(c: Conn, why: Ending): Outcome {
    Outcome(c, None, Some(why))
  }

  /** Carve the first request off the buffer; the rest stays for the next round. */
  function Carved(b: Buffer): (r: (string, Buffer))
    requires Bounded(b)
    ensures r.0 + r.1.data == b.data && Bounded(r.1)
  {
    var n := if b.scanPos == 0 then |b.data| else b.scanPos;
    (b.data[..n], Buffer(b.data[n..], 0))
  }

  function Dispatch(c: Conn): (o: Outcome)
    requires Bounded(c.buf)
    ensures Bounded(o.conn.buf)
  {
    var (request, rest) := Carved(c.buf);
    Open(c.(buf := rest, dispatched := true, requests := c.requests + [request]), Some(request))
  }

  /** A drain that would overflow the buffer, or meets the end of the stream, closes the connection. */
  function Survives(c: Conn, io: Io): bool {
    !io.closed && |c.buf.data + Concat(io.chunks)| <= MAX_REQUEST
  }

  /** A readable event: ignored while a request is out; otherwise drain, scan, and dispatch what is complete. */
  function OnReadable(c: Conn, io: Io): (o: Outcome)
    requires Bounded(c.buf)
    ensures Bounded(o.conn.buf)
  {
    var c := c.(edge := false);
    if c.dispatched then Open(c, None)
    else if !Survives(c, io) then Ended(c, PeerGone)
    else
      var (b, got) := OnReads(c.buf, false, io.chunks);
      var c := c.(buf := b, inbox := "");
      if got then Dispatch(c) else Open(c, None)
  }

  /** Look for a complete request among bytes already read. */
  function CheckBuffered(c: Conn): (o: Outcome)
    requires Bounded(c.buf)
    ensures Bounded(o.conn.buf)
  {
    var hit := FindHit(c.buf.data, 0);
    if hit < |c.buf.data| then Dispatch(c.(buf := Buffer(c.buf.data, hit + NEEDLE))) else Open(c, None)
  }

  /** A response is out: close, or arm for reading again, drain the socket and look for the next request. */
  function Finish(c: Conn, io: Io): (o: Outcome)
    requires Bounded(c.buf)
    ensures Bounded(o.conn.buf)
  {
    if !c.keepAlive then Ended(c, Finished)
    else
      var c := c.(dispatched := false, armedForWrite := false);
      if !Survives(c, io) then Ended(c, PeerGone)
      else CheckBuffered(c.(buf := c.buf.(data := c.buf.data + Concat(io.chunks)), inbox := ""))
  }

  /** The bytes the socket takes move from what is parked to what was sent. */
  function Wrote(c: Conn, n: nat): Conn
    requires c.writeOff + n <= |c.writeBuf|
  {
    c.(writeOff := c.writeOff + n, sent := c.sent + c.writeBuf[c.writeOff..c.writeOff + n])
  }

  /** Write what the socket takes; finish, park the rest, or close on an error. */
  function ContinueWrite(c: Conn, io: Io): (o: Outcome)
    requires Bounded(c.buf) && c.writeOff + io.accepted <= |c.writeBuf|
    ensures Bounded(o.conn.buf)
  {
    var broken := c.writeOff < |c.writeBuf| && io.failed;
    var c := Wrote(c, io.accepted);
    if broken then Ended(c.(writing := false), BrokenWrite)
    else if c.writeOff == |c.writeBuf| then Finish(c.(writing := false, writeBuf := "", writeOff := 0), io)
    else Open(c.(writing := true, armedForWrite := true), None)
  }

  /** The connection with a response to write. */
  function Answering(c: Conn, h: Handback): Conn {
    c.(writeBuf := h.response, writeOff := 0, keepAlive := h.keepAlive,
       answers := c.answers + [Answer(h.request, h.response)])
  }

  /** A hand-back for this connection: a failed handler closes it, anything else is written. */
  function OnHandback(c: Conn, h: Handback, io: Io): (o: Outcome)
    requires Bounded(c.buf) && io.accepted <= |h.response|
    ensures Bounded(o.conn.buf)
  {
    if h.response == "" && !h.keepAlive then Ended(c, HandlerFailed) else ContinueWrite(Answering(c, h), io)
  }

  // ---- Steps and runs ------------------------------------------------------

  /** The reads of a drain return the unread bytes in non-empty pieces that fit the read buffer. */
  ghost predicate Reads(c: Conn, chunks: seq<string>) {
    Concat(chunks) == c.inbox && NonEmpty(chunks) && forall i :: 0 <= i < |chunks| ==> |chunks[i]| <= READ_SIZE
  }

  function Applied(s: State, fd: nat, o: Outcome): State {
    s.(conns := if o.ended.None? then s.conns[fd := o.conn] else s.conns - {fd},
       closed := if o.ended.None? then s.closed else s.closed + [Closed(o.conn, o.ended.value)],
       tasks := if o.request.Some? then s.tasks + [Task(fd, o.request.value)] else s.tasks)
  }

  /** The scan position of every buffer lies within it. */
  ghost predicate AllBounded(s: State) {
    forall fd :: fd in s.conns ==> Bounded(s.conns[fd].buf)
  }

  ghost predicate Enabled(s: State, a: Action) {
    match a
    case Accept(fd) => fd in s.conns ==> s.conns[fd].gone
    case Arrive(fd, _) => fd in s.conns && !s.conns[fd].gone
    case SpuriousEdge(fd) => fd in s.conns && !s.conns[fd].gone
    case Readable(fd, io) => fd in s.conns && s.conns[fd].edge && Reads(s.conns[fd], io.chunks)
    case Writable(fd, io) =>
      && fd in s.conns && s.conns[fd].writing && !s.conns[fd].gone && Reads(s.conns[fd], io.chunks)
      && s.conns[fd].writeOff + io.accepted <= |s.conns[fd].writeBuf|
    case WorkerDone(i, _, _) => i < |s.tasks|
    case WorkerRejected(i) => i < |s.tasks|
    case DrainOutbox(io) =>
      && s.outbox != []
      && (s.outbox[0].fd in s.conns ==>
            && Reads(s.conns[s.outbox[0].fd], io.chunks) && io.accepted <= |s.outbox[0].response|
            && (s.conns[s.outbox[0].fd].gone ==> io.accepted == 0 && io.failed && io.closed))
    case Close(fd) => fd in s.conns
  }

  /** A new socket with number `fd`; a table entry that is still there stays as it is. */
  function Admitted(s: State, fd: nat): State {
    if fd in s.conns then
      s.(conns := s.conns[fd := s.conns[fd].(gone := false, inbox := "", edge := false, armedForWrite := false)])
    else s.(conns := s.conns[fd := NewConn()])
  }

  /** The worker whose hand-back is dropped closes the descriptor itself; the table entry stays. */
  function Rejected(s: State, i: nat): State
    requires i < |s.tasks|
  {
    var fd := s.tasks[i].fd;
    var s := s.(tasks := s.tasks[..i] + s.tasks[i + 1..]);
    if fd in s.conns then s.(conns := s.conns[fd := s.conns[fd].(gone := true, inbox := "", edge := false)]) else s
  }

  ghost function Step(s: State, a: Action): State
    requires AllBounded(s) && Enabled(s, a)
  {
    match a
    case Accept(fd) => Admitted(s, fd)
    case Arrive(fd, bytes) =>
      var c := s.conns[fd];
      var c := c.(inbox := c.inbox + bytes, arrived := c.arrived + bytes);
      s.(conns := s.conns[fd := c.(edge := c.edge || (bytes != "" && !c.armedForWrite))])
    case SpuriousEdge(fd) => s.(conns := s.conns[fd := s.conns[fd].(edge := true)])
    case Readable(fd, io) => Applied(s, fd, OnReadable(s.conns[fd], io))
    case Writable(fd, io) => Applied(s, fd, ContinueWrite(s.conns[fd], io))
    case WorkerDone(i, response, keepAlive) =>
      s.(tasks := s.tasks[..i] + s.tasks[i + 1..],
         outbox := s.outbox + [Handback(s.tasks[i].fd, keepAlive, response, s.tasks[i].request)])
    case WorkerRejected(i) => Rejected(s, i)
    case DrainOutbox(io) =>
      var h := s.outbox[0];
      var s := s.(outbox := s.outbox[1..]);
      if h.fd in s.conns then Applied(s, h.fd, OnHandback(s.conns[h.fd], h, io)) else s
    case Close(fd) => Applied(s, fd, Ended(s.conns[fd], Dropped))
  }

  lemma StepKeepsBounds(s: State, a: Action)
    requires AllBounded(s) && Enabled(s, a)
    ensures AllBounded(Step(s, a))
  {
  }

  /** A run of the machine; actions that cannot happen are skipped. */
  ghost function Exec(s: State, run: seq<Action>): (s': State)
    requires AllBounded(s)
    ensures AllBounded(s')
    decreases |run|
  {
    if run == [] then s
    else if Enabled(s, run[0]) then
      StepKeepsBounds(s, run[0]);
      Exec(Step(s, run[0]), run[1..])
    else Exec(s, run[1..])
  }

  const START := State(map[], [], [], [])

  // ---- The invariant of one connection -------------------------------------

  function Responses(answers: seq<Answer>): string
    decreases |answers|
  {
    if answers == [] then "" else Responses(answers[..|answers| - 1]) + answers[|answers| - 1].response
  }

  /** The request is with a worker or in the outbox. */
  predicate Awaiting(c: Conn) { c.dispatched && !c.writing }

  /** Bytes that arrived are the requests handed out, in order, then the buffer, then what is unread. */
  ghost predicate Conserved(c: Conn) {
    c.arrived == Concat(c.requests) + c.buf.data + c.inbox
  }

  ghost predicate ReadOk(c: Conn) {
    && |c.buf.data| <= MAX_REQUEST && Conserved(c) && !c.gone
    && (c.dispatched ==> c.buf.scanPos == 0)
    && (!c.dispatched ==> Unfinished(c.buf) && (c.inbox != "" ==> c.edge))
  }

  /** Bytes written and the parked rest are the responses begun, in order. */
  ghost predicate SentOk(c: Conn) {
    c.writeOff <= |c.writeBuf| && c.sent + c.writeBuf[c.writeOff..] == Responses(c.answers)
  }

  ghost predicate WriteOk(c: Conn) {
    && SentOk(c)
    && (c.writing ==> c.dispatched && c.writeOff < |c.writeBuf|)
    && (!c.writing ==> c.writeBuf == "" && c.writeOff == 0)
    && c.writing == c.armedForWrite
  }

  /** Requests are answered in order, all but `out` of them. */
  ghost predicate Answered(c: Conn, out: nat) {
    && |c.requests| == |c.answers| + out
    && forall i :: 0 <= i < |c.answers| ==> c.answers[i].request == c.requests[i]
  }

  ghost predicate ConnOk(c: Conn) {
    ReadOk(c) && WriteOk(c) && Answered(c, if Awaiting(c) then 1 else 0)
  }

  /** What is known of a connection that was closed: what its client was sent, and what it had asked for. */
  ghost predicate ClosedOk(cl: Closed) {
    var c := cl.conn;
    && Conserved(c) && SentOk(c)
    && (cl.why.Finished? ==> !c.keepAlive && Answered(c, 0) && c.sent == Responses(c.answers))
    && (cl.why.PeerGone? ==> Answered(c, 0) && c.sent == Responses(c.answers))
    && (cl.why.BrokenWrite? ==> Answered(c, 0))
    && (cl.why.HandlerFailed? ==> Answered(c, 1) && c.sent == Responses(c.answers))
    && (cl.why.Dropped? ==> Answered(c, if Awaiting(c) then 1 else 0))
  }

  /** How many copies of `request` this connection has out. */
  ghost function Out(c: Conn, request: string): nat {
    if Awaiting(c) && c.requests != [] && c.requests[|c.requests| - 1] == request then 1 else 0
  }

  /** The outcome of an event on a connection with nothing out: nothing else out but what is dispatched now. */
  ghost predicate OutcomeOk(o: Outcome) {
    if o.ended.Some? then o.request.None? && ClosedOk(Closed(o.conn, o.ended.value))
    else ConnOk(o.conn) && forall r :: Out(o.conn, r) == if o.request == Some(r) then 1 else 0
  }

  // ---- Events keep the connection in order ---------------------------------

  /** Between requests: nothing out, nothing parked, every byte accounted for. */
  ghost predicate BetweenRequests(c: Conn) {
    && !c.dispatched && !c.gone && !c.writing && !c.armedForWrite && c.writeBuf == "" && c.writeOff == 0
    && c.sent == Responses(c.answers) && Answered(c, 0)
    && |c.buf.data| <= MAX_REQUEST && Conserved(c) && Bounded(c.buf)
  }

  lemma DispatchOk(c: Conn)
    requires BetweenRequests(c)
    ensures OutcomeOk(Dispatch(c))
  {
    var (request, rest) := Carved(c.buf);
    ConcatSnoc(c.requests, request);
    assert Concat(c.requests) + c.buf.data == Concat(c.requests + [request]) + rest.data;
    assert c.sent + c.writeBuf[c.writeOff..] == c.sent;
  }

  /** A drained connection without a complete request waits for the next edge. */
  lemma IdleOk(c: Conn)
    requires BetweenRequests(c) && Unfinished(c.buf) && c.inbox == ""
    ensures OutcomeOk(Open(c, None))
  {
    assert c.sent + c.writeBuf[c.writeOff..] == c.sent;
  }

  lemma IdleIsBetweenRequests(c: Conn)
    requires ConnOk(c) && !c.dispatched
    ensures BetweenRequests(c)
  {
    assert c.sent + c.writeBuf[c.writeOff..] == c.sent;
  }

  /** A drain that ends the connection leaves a client with all the answers it was owed. */
  lemma PeerGoneOk(c: Conn)
    requires BetweenRequests(c)
    ensures OutcomeOk(Ended(c, PeerGone))
  {
    assert c.sent + c.writeBuf[c.writeOff..] == c.sent;
  }

  /** A drain moves the unread bytes to the buffer and finds out whether a request is complete. */
  lemma DrainedOk(c: Conn, io: Io)
    requires BetweenRequests(c) && Unfinished(c.buf) && Reads(c, io.chunks) && Survives(c, io)
    ensures
      var (b, got) := OnReads(c.buf, false, io.chunks);
      BetweenRequests(c.(edge := false, buf := b, inbox := "")) && (got || Unfinished(b))
  {
    IncrementalScan(c.buf, io.chunks);
    var b := OnReads(c.buf, false, io.chunks).0;
    assert c.arrived == Concat(c.requests) + b.data + "";
  }

  lemma ReadableOk(c: Conn, io: Io)
    requires ConnOk(c) && !c.dispatched && Reads(c, io.chunks)
    ensures OutcomeOk(OnReadable(c, io))
  {
    IdleIsBetweenRequests(c);
    if Survives(c, io) {
      DrainedOk(c, io);
      var (b, got) := OnReads(c.buf, false, io.chunks);
      var c' := c.(edge := false, buf := b, inbox := "");
      if got {
        DispatchOk(c');
      } else {
        IdleOk(c');
      }
    } else {
      PeerGoneOk(c.(edge := false));
    }
  }

  lemma CheckBufferedOk(c: Conn)
    requires BetweenRequests(c) && c.buf.scanPos == 0 && c.inbox == ""
    ensures OutcomeOk(CheckBuffered(c))
  {
    var hit := FindHit(c.buf.data, 0);
    if hit < |c.buf.data| {
      DispatchOk(c.(buf := Buffer(c.buf.data, hit + NEEDLE)));
    } else {
      IdleOk(c);
    }
  }

  /** A connection whose response is out and that has nothing parked. */
  lemma FinishOk(c: Conn, io: Io)
    requires c.dispatched && ReadOk(c) && Reads(c, io.chunks)
    requires !c.writing && c.writeBuf == "" && c.writeOff == 0 && c.sent == Responses(c.answers) && Answered(c, 0)
    ensures OutcomeOk(Finish(c, io))
  {
    assert c.sent + c.writeBuf[c.writeOff..] == c.sent;
    if c.keepAlive {
      var c1 := c.(dispatched := false, armedForWrite := false);
      if Survives(c1, io) {
        var c2 := c1.(buf := c.buf.(data := c.buf.data + Concat(io.chunks)), inbox := "");
        assert c2.arrived == Concat(c.requests) + c2.buf.data + "";
        CheckBufferedOk(c2);
      } else {
        PeerGoneOk(c1);
      }
    }
  }

  /** Writing more moves bytes from the parked rest to what was sent. */
  lemma WroteKeepsSent(c: Conn, n: nat)
    requires SentOk(c) && c.writeOff + n <= |c.writeBuf|
    ensures SentOk(Wrote(c, n))
    ensures c.writeOff + n == |c.writeBuf| ==> Wrote(c, n).sent == Responses(c.answers)
  {
    var off := c.writeOff + n;
    assert c.writeBuf[c.writeOff..] == c.writeBuf[c.writeOff..off] + c.writeBuf[off..];
    assert Wrote(c, n).sent + c.writeBuf[off..] == c.sent + c.writeBuf[c.writeOff..];
  }

  /** A connection with an answer for its last request, some of it possibly sent. */
  lemma ContinueWriteOk(c: Conn, io: Io)
    requires c.dispatched && ReadOk(c) && Reads(c, io.chunks) && c.writeOff + io.accepted <= |c.writeBuf|
    requires SentOk(c) && Answered(c, 0)
    ensures OutcomeOk(ContinueWrite(c, io))
  {
    var w := Wrote(c, io.accepted);
    WroteKeepsSent(c, io.accepted);
    if !(c.writeOff < |c.writeBuf| && io.failed) && w.writeOff == |w.writeBuf| {
      FinishOk(w.(writing := false, writeBuf := "", writeOff := 0), io);
    }
  }

  lemma HandbackOk(c: Conn, h: Handback, io: Io)
    requires ConnOk(c) && Awaiting(c) && c.requests[|c.requests| - 1] == h.request
    requires Reads(c, io.chunks) && io.accepted <= |h.response|
    ensures OutcomeOk(OnHandback(c, h, io))
  {
    assert c.sent + c.writeBuf[c.writeOff..] == c.sent;
    var c' := Answering(c, h);
    assert c'.answers[..|c'.answers| - 1] == c.answers;
    assert c'.writeBuf[c'.writeOff..] == h.response;
    ContinueWriteOk(c', io);
  }

  lemma DroppedOk(c: Conn)
    requires ConnOk(c)
    ensures OutcomeOk(Ended(c, Dropped))
  {
  }

  // ---- What a dispatch takes -----------------------------------------------

  /** A request found among buffered bytes is exactly the first one. */
  lemma BufferedTakesFirst(c: Conn)
    requires Bounded(c.buf) && !NoHit(c.buf.data)
    ensures
      var first := FindHit(c.buf.data, 0);
      var o := CheckBuffered(c);
      && HitAt(c.buf.data, first) && NoHitBefore(c.buf.data, 0, first)
      && o.request == Some(c.buf.data[..first + NEEDLE])
      && o.ended.None? && o.conn.buf.data == c.buf.data[first + NEEDLE..]
  {
  }

  /** A readable event hands out exactly the first request if and only if its drain was framed. */
  lemma ReadableTakesFirst(c: Conn, before: seq<string>, chunk: string, after: seq<string>)
    requires ConnOk(c) && !c.dispatched && NonEmpty(after)
    requires NoHit(c.buf.data + Concat(before)) && !NoHit(c.buf.data + Concat(before) + chunk)
    requires |c.buf.data + Concat(before + [chunk] + after)| <= MAX_REQUEST
    ensures
      var all := c.buf.data + Concat(before) + chunk + Concat(after);
      var first := FindHit(all, 0);
      var o := OnReadable(c, Io(0, false, before + [chunk] + after, false));
      o.request.Some? && HitAt(all, first)
      && (o.request == Some(all[..first + NEEDLE]) <==> Framed(all, first, after))
  {
    FramingIff(c.buf, before, chunk, after);
    var all := c.buf.data + Concat(before) + chunk + Concat(after);
    var r := OnReads(c.buf, false, before + [chunk] + after).0;
    assert Carved(r).0 == all[..r.scanPos];
  }
}
