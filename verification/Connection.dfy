/**
 A connection object and the loops that update it in place: reading to exhaustion, the
 delimiter scan, carving a request, and writing until the socket takes no more. Each
 method is tied to the step of the reactor protocol it carries out.
 */
module Connection {
  import opened Chunks
  import opened Counting
  import opened RequestScan
  import opened Reactor

  /** What one non-blocking write returns. */
  datatype WriteResult = Took(n: nat) | WouldBlock | Interrupted | Failed

  /** How many of `remaining` bytes a series of writes takes, and whether it ends in a hard error. */
  function Accepted(remaining: nat, writes: seq<WriteResult>): (r: (nat, bool))
    ensures r.0 <= remaining
    decreases |writes|
  {
    if remaining == 0 || writes == [] then (0, false)
    else
      match writes[0]
      case Took(n) =>
        if n == 0 then (0, true)
        else
          var w := if n < remaining then n else remaining;
          var (more, failed) := Accepted(remaining - w, writes[1..]);
          (w + more, failed)
      case WouldBlock => (0, false)
      case Interrupted => Accepted(remaining, writes[1..])
      case Failed => (0, true)
  }

  /** Writes go on after bytes taken and after interruptions, and stop at anything else. */
  ghost predicate GoesOn(w: WriteResult) {
    (w.Took? && w.n > 0) || w.Interrupted?
  }

  /** The bytes offered before the first write that stops. */
  ghost function Offered(writes: seq<WriteResult>): nat
    decreases |writes|
  {
    if writes == [] || !GoesOn(writes[0]) then 0
    else (if writes[0].Took? then writes[0].n else 0) + Offered(writes[1..])
  }

  /** The first write that stops the series. */
  ghost function Stopper(writes: seq<WriteResult>): Option<WriteResult>
    decreases |writes|
  {
    if writes == [] then None else if GoesOn(writes[0]) then Stopper(writes[1..]) else Some(writes[0])
  }

  /**
   A series of writes takes what is offered before the first write that stops it, up to what remains,
   and fails if and only if bytes remain then and the socket was not just full.
   */
  lemma {:induction false} AcceptedIs(remaining: nat, writes: seq<WriteResult>)
    ensures
      var (n, failed) := Accepted(remaining, writes);
      && n == (if Offered(writes) < remaining then Offered(writes) else remaining)
      && (failed <==> n < remaining && Stopper(writes).Some? && !Stopper(writes).value.WouldBlock?)
    decreases |writes|
  {
    if remaining == 0 || writes == [] {
    } else if GoesOn(writes[0]) {
      var w := if writes[0].Interrupted? then 0 else if writes[0].n < remaining then writes[0].n else remaining;
      AcceptedIs(remaining - w, writes[1..]);
    } else {
    }
  }

  lemma NextChunk(data: string, chunks: seq<string>, i: nat)
    requires i < |chunks|
    ensures chunks[i..] != [] && chunks[i..][0] == chunks[i] && chunks[i..][1..] == chunks[i + 1..]
    ensures data + Concat(chunks[i..]) == data + chunks[i] + Concat(chunks[i + 1..])
  {
  }

  /** Finishing a response depends on the reads that follow, not on how the writes went. */
  lemma FinishReadsOnly(c: Conn, io: Io)
    requires Bounded(c.buf)
    ensures Finish(c, io) == Finish(c, Io(0, false, io.chunks, io.closed))
  {
  }

  class Connection {
    var data: string
    var scanPos: nat
    var dispatched: bool
    var writeBuf: string
    var writeOff: nat
    var keepAlive: bool
    var writing: bool
    var armedForWrite: bool
    // the socket and the history, as in the protocol
    ghost var inbox: string
    ghost var edge: bool
    ghost var arrived: string
    ghost var requests: seq<string>
    ghost var answers: seq<Answer>
    ghost var sent: string

    ghost function View(): Conn
      reads this
    {
      Conn(Buffer(data, scanPos), dispatched, writeBuf, writeOff, keepAlive, writing,
           inbox, edge, armedForWrite, false, arrived, requests, answers, sent)
    }

    /**
     The event ended as the protocol prescribes: the connection it leaves, or what its client had
     asked and was sent when it was closed, and the request handed to the workers.
     */
    ghost predicate Follows(o: Outcome, ended: Option<Ending>, request: Option<string>)
      reads this
    {
      && ended == o.ended && request == o.request && (ended.None? ==> View() == o.conn)
      && (arrived, requests, answers, sent) == (o.conn.arrived, o.conn.requests, o.conn.answers, o.conn.sent)
    }

    constructor ()
      ensures View() == NewConn()
    {
      data, scanPos, dispatched := "", 0, false;
      writeBuf, writeOff, keepAlive, writing, armedForWrite := "", 0, false, false, false;
      inbox, edge, arrived, requests, answers, sent := "", false, "", [], [], "";
    }

    /** Carve the first request off the buffer for a worker. */
    method DispatchToWorker() returns (request: string)
      requires scanPos <= |data|
      modifies this
      ensures Follows(Dispatch(old(View())), None, Some(request))
    {
      var n := scanPos;
      if n == 0 {
        n := |data|;
      }
      request := data[..n];
      data := data[n..];
      scanPos := 0;
      dispatched := true;
      requests := requests + [request];
    }

    /** Scan the bytes that arrived after the first `was`, and the overlap before them. */
    method ScanNew(was: nat, ghost before: string, ghost chunk: string) returns (found: bool)
      requires data == before + chunk && scanPos <= |before| == was
      modifies this`scanPos
      ensures (Buffer(data, scanPos), found) == OnRead(Buffer(before, old(scanPos)), chunk)
    {
      var from := if was >= NEEDLE - 1 then was - (NEEDLE - 1) else 0;
      if from < scanPos {
        from := scanPos;
      }
      var hit := Search(data, from);
      found := hit < |data|;
      scanPos := if found then hit + NEEDLE else if |data| >= NEEDLE - 1 then |data| - (NEEDLE - 1) else 0;
    }

    /** Drain the socket, scanning each piece as it arrives. */
    method ReadAll(io: Io) returns (open: bool, got: bool)
      requires scanPos <= |data| <= MAX_REQUEST
      modifies this`data, this`scanPos
      ensures open == Survives(old(View()), io)
      ensures open ==> (Buffer(data, scanPos), got) == OnReads(Buffer(old(data), old(scanPos)), false, io.chunks)
    {
      got := false;
      var i := 0;
      while i < |io.chunks|
        invariant i <= |io.chunks| && scanPos <= |data| <= MAX_REQUEST
        invariant data + Concat(io.chunks[i..]) == old(data) + Concat(io.chunks)
        invariant OnReads(Buffer(data, scanPos), got, io.chunks[i..]) == OnReads(Buffer(old(data), old(scanPos)), false, io.chunks)
      {
        var was, chunk := |data|, io.chunks[i];
        ghost var before := data;
        NextChunk(data, io.chunks, i);
        data := data + chunk;
        if |data| > MAX_REQUEST {
          return false, got;
        }
        var found := ScanNew(was, before, chunk);
        got := got || found;
        i := i + 1;
      }
      return !io.closed, got;
    }

    /** A readable event: ignored while a request is out; otherwise drain, and dispatch if a request is complete. */
    method HandleReadable(io: Io) returns (ended: Option<Ending>, request: Option<string>)
      requires scanPos <= |data| <= MAX_REQUEST
      modifies this
      ensures Follows(OnReadable(old(View()), io), ended, request)
    {
      edge := false;
      if dispatched {
        return None, None;
      }
      var open, got := ReadAll(io);
      if !open {
        return Some(PeerGone), None;
      }
      inbox := "";
      ended, request := None, None;
      if got {
        var r := DispatchToWorker();
        request := Some(r);
      }
    }

    /** Pull in whatever the socket holds, without scanning. */
    method DrainIntoBuffer(io: Io) returns (open: bool)
      requires |data| <= MAX_REQUEST
      modifies this`data, this`inbox
      ensures open == Survives(old(View()), io)
      ensures open ==> data == old(data) + Concat(io.chunks) && inbox == ""
    {
      var i := 0;
      while i < |io.chunks|
        invariant i <= |io.chunks| && |data| <= MAX_REQUEST && inbox == old(inbox)
        invariant data + Concat(io.chunks[i..]) == old(data) + Concat(io.chunks)
      {
        NextChunk(data, io.chunks, i);
        data := data + io.chunks[i];
        if |data| > MAX_REQUEST {
          return false;
        }
        i := i + 1;
      }
      if io.closed {
        return false;
      }
      inbox := "";
      return true;
    }

    /** Dispatch a complete request that is already buffered. */
    method CheckBufferedRequest() returns (request: Option<string>)
      requires scanPos <= |data|
      modifies this
      ensures Follows(CheckBuffered(old(View())), None, request)
    {
      request := None;
      var hit := Search(data, 0);
      if hit < |data| {
        scanPos := hit + NEEDLE;
        var r := DispatchToWorker();
        request := Some(r);
      }
    }

    /** The response is out: close, or get ready for the next request. */
    method FinishResponse(io: Io) returns (ended: Option<Ending>, request: Option<string>)
      requires scanPos <= |data| <= MAX_REQUEST
      modifies this
      ensures Follows(Finish(old(View()), io), ended, request)
    {
      if !keepAlive {
        return Some(Finished), None;
      }
      dispatched, armedForWrite := false, false;
      var open := DrainIntoBuffer(io);
      if !open {
        return Some(PeerGone), None;
      }
      ended := None;
      assert View() == old(View()).(dispatched := false, armedForWrite := false, buf := Buffer(data, scanPos), inbox := "");
      request := CheckBufferedRequest();
    }

    /** Write until everything is out, the socket is full, or it fails; `wire` is what the socket took. */
    method TryWrite(writes: seq<WriteResult>) returns (ok: bool, total: nat, wire: string)
      requires writeOff <= |writeBuf|
      ensures
        var (n, failed) := Accepted(|writeBuf| - writeOff, writes);
        ok == !failed && total == writeOff + n && wire == writeBuf[writeOff..total]
    {
      total, wire := writeOff, "";
      var i := 0;
      while total < |writeBuf| && i < |writes|
        invariant i <= |writes| && writeOff <= total <= |writeBuf| && wire == writeBuf[writeOff..total]
        invariant
          var (n, failed) := Accepted(|writeBuf| - writeOff, writes);
          var (m, f) := Accepted(|writeBuf| - total, writes[i..]);
          n == total - writeOff + m && failed == f
      {
        assert writes[i..][1..] == writes[i + 1..];
        var w := writes[i];
        if w.Took? && w.n > 0 {
          var n := if w.n < |writeBuf| - total then w.n else |writeBuf| - total;
          wire := wire + writeBuf[total..total + n];
          total := total + n;
        } else if w.WouldBlock? {
          return true, total, wire;
        } else if !w.Interrupted? {
          return false, total, wire;
        }
        i := i + 1;
      }
      return true, total, wire;
    }

    /** Send what the socket takes; false on a hard error. What it took before the error counts as sent. */
    method WriteMore(writes: seq<WriteResult>) returns (ok: bool)
      requires writeOff <= |writeBuf|
      modifies this`writeOff, this`sent
      ensures
        var (n, failed) := Accepted(|writeBuf| - old(writeOff), writes);
        && ok == !(old(writeOff) < |writeBuf| && failed)
        && writeOff == old(writeOff) + n && sent == old(sent) + writeBuf[old(writeOff)..writeOff]
    {
      if writeOff == |writeBuf| {
        return true;
      }
      var total, wire;
      ok, total, wire := TryWrite(writes);
      writeOff := total;
      sent := sent + wire;
    }

    /** Everything is out: clear the write state and finish. */
    method Complete(io: Io) returns (ended: Option<Ending>, request: Option<string>)
      requires scanPos <= |data| <= MAX_REQUEST
      modifies this
      ensures Follows(Finish(old(View()).(writing := false, writeBuf := "", writeOff := 0), io), ended, request)
    {
      writing := false;
      writeBuf, writeOff := "", 0;
      assert View() == old(View()).(writing := false, writeBuf := "", writeOff := 0);
      ended, request := FinishResponse(io);
    }

    /** Send more of the parked response; finish it, park the rest, or give up on an error. */
    method Continue(writes: seq<WriteResult>, chunks: seq<string>, closed: bool)
      returns (ended: Option<Ending>, request: Option<string>)
      requires writeOff <= |writeBuf| && scanPos <= |data| <= MAX_REQUEST
      modifies this
      ensures
        var (n, failed) := Accepted(|old(writeBuf)| - old(writeOff), writes);
        Follows(ContinueWrite(old(View()), Io(n, failed, chunks, closed)), ended, request)
    {
      ghost var (n, failed) := Accepted(|writeBuf| - writeOff, writes);
      var ok := WriteMore(writes);
      assert View() == Wrote(old(View()), n);
      if !ok {
        writing := false;
        return Some(BrokenWrite), None;
      }
      if writeOff >= |writeBuf| {
        FinishReadsOnly(View().(writing := false, writeBuf := "", writeOff := 0), Io(n, failed, chunks, closed));
        ended, request := Complete(Io(0, false, chunks, closed));
        return;
      }
      writing := true;
      armedForWrite := true;
      return None, None;
    }

    /** A hand-back from the outbox: close after a failed handler, otherwise start writing. */
    method HandleHandback(h: Handback, writes: seq<WriteResult>, chunks: seq<string>, closed: bool)
      returns (ended: Option<Ending>, request: Option<string>)
      requires scanPos <= |data| <= MAX_REQUEST
      modifies this
      ensures
        var (n, failed) := Accepted(|h.response|, writes);
        Follows(OnHandback(old(View()), h, Io(n, failed, chunks, closed)), ended, request)
    {
      if h.response == "" && !h.keepAlive {
        return Some(HandlerFailed), None;
      }
      writeBuf, writeOff, keepAlive := h.response, 0, h.keepAlive;
      answers := answers + [Answer(h.request, h.response)];
      assert View() == Answering(old(View()), h);
      ended, request := Continue(writes, chunks, closed);
    }
  }
}
