/**
 Finding the end of a request in the read buffer: the incremental scan that looks only
 at newly arrived bytes and a three-byte overlap, against a search of the whole buffer.
 */
module RequestScan {
  import opened Chunks
  import opened Numbers
  import opened Text

  const NEEDLE: nat := 4   // length of CR LF CR LF

  /** A terminator starts at `i`. */
  predicate HitAt(b: string, i: nat) {
    i + NEEDLE <= |b| && b[i] == '\r' && b[i + 1] == '\n' && b[i + 2] == '\r' && b[i + 3] == '\n'
  }

  ghost predicate NoHitBefore(b: string, from: nat, to: nat) {
    forall i :: from <= i < to ==> !HitAt(b, i)
  }

  ghost predicate NoHit(b: string) {
    NoHitBefore(b, 0, |b|)
  }

  /** Where the first terminator at or after `from` starts, or `|b|`. */
  function FindHit(b: string, from: nat): (i: nat)
    requires from <= |b|
    ensures from <= i <= |b| && NoHitBefore(b, from, i) && (i < |b| ==> HitAt(b, i))
    decreases |b| - from
  {
    if from == |b| || HitAt(b, from) then from else FindHit(b, from + 1)
  }

  lemma HitIsOccurrence(b: string, i: nat)
    ensures HitAt(b, i) <==> OccursAt(b, END_OF_HEAD, i)
  {
    if i + NEEDLE <= |b| {
      var w := b[i..i + NEEDLE];
      assert w[0] == b[i] && w[1] == b[i + 1] && w[2] == b[i + 2] && w[3] == b[i + 3];
    }
  }

  /** The scan finds what `std::string::find` finds. */
  lemma FindHitIsFind(b: string)
    ensures FindHit(b, 0) == Find(b, END_OF_HEAD)
  {
    var hit := FindHit(b, 0);
    if hit < |b| {
      forall i | 0 <= i < hit
        ensures !OccursAt(b, END_OF_HEAD, i)
      {
        HitIsOccurrence(b, i);
      }
      HitIsOccurrence(b, hit);
      FindUnique(b, END_OF_HEAD, hit);
    } else {
      HitIsOccurrence(b, Find(b, END_OF_HEAD));
    }
  }

  /** A single message: its first terminator ends it. */
  predicate Single(r: string) {
    |r| >= NEEDLE && FindHit(r, 0) == |r| - NEEDLE
  }

  /** The scanning loop. */
  method Search(b: string, from: nat) returns (i: nat)
    requires from <= |b|
    ensures i == FindHit(b, from)
  {
    i := from;
    while i + NEEDLE <= |b| && !(b[i] == '\r' && b[i + 1] == '\n' && b[i + 2] == '\r' && b[i + 3] == '\n')
      invariant from <= i <= |b| && FindHit(b, from) == FindHit(b, i)
    {
      i := i + 1;
    }
    if i + NEEDLE > |b| {
      NoneLeft(b, i);
      i := |b|;
    }
  }

  lemma {:induction false} NoneLeft(b: string, i: nat)
    requires i <= |b| < i + NEEDLE
    ensures FindHit(b, i) == |b|
    decreases |b| - i
  {
    if i == |b| {
    } else {
      NoneLeft(b, i + 1);
    }
  }

  /** The read buffer: its bytes and where the next scan resumes. */
  datatype Buffer = Buffer(data: string, scanPos: nat)

  /** The scan position lies within the buffer. */
  predicate Bounded(b: Buffer) {
    b.scanPos <= |b.data|
  }

  /** The size less the overlap. */
  function Overlap(n: nat): nat {
    if n >= NEEDLE - 1 then n - (NEEDLE - 1) else 0
  }

  /** One read: append, scan from the overlap or the scan position, and move the scan position. */
  function OnRead(b: Buffer, chunk: string): (r: (Buffer, bool))
    requires Bounded(b)
    ensures Bounded(r.0) && r.0.data == b.data + chunk
  {
    var data := b.data + chunk;
    var hit := FindHit(data, Max(Overlap(|b.data|), b.scanPos));
    if hit < |data| then (Buffer(data, hit + NEEDLE), true) else (Buffer(data, Overlap(|data|)), false)
  }

  /** All the reads of one drain, in order; whether any of them found a terminator. */
  function OnReads(b: Buffer, got: bool, chunks: seq<string>): (r: (Buffer, bool))
    requires Bounded(b)
    ensures Bounded(r.0)
    decreases |chunks|
  {
    if chunks == [] then (b, got)
    else
      var (b', hit) := OnRead(b, chunks[0]);
      OnReads(b', got || hit, chunks[1..])
  }

  /** What holds between drains while no request is complete. */
  ghost predicate Unfinished(b: Buffer) {
    NoHit(b.data) && b.scanPos <= Overlap(|b.data|)
  }

  // ---- One read ------------------------------------------------------------

  /** A terminator that was not there before ends among the new bytes. */
  lemma NewHits(before: string, chunk: string, i: nat)
    requires NoHit(before) && HitAt(before + chunk, i)
    ensures i >= Overlap(|before|)
  {
    if i + NEEDLE <= |before| {
      assert HitAt(before, i);
    }
  }

  lemma HitsStay(before: string, chunk: string, i: nat)
    requires HitAt(before, i)
    ensures HitAt(before + chunk, i)
  {
  }

  /** The first read to complete a request finds the terminator a search of the whole buffer would find. */
  lemma ReadFindsFirst(b: Buffer, chunk: string)
    requires Unfinished(b)
    ensures
      var (b', hit) := OnRead(b, chunk);
      var first := FindHit(b'.data, 0);
      && (hit <==> !NoHit(b'.data))
      && (if hit then first < |b'.data| && b'.scanPos == first + NEEDLE else Unfinished(b'))
  {
    var data := b.data + chunk;
    var from := Max(Overlap(|b.data|), b.scanPos);
    forall i | 0 <= i < from
      ensures !HitAt(data, i)
    {
      if HitAt(data, i) {
        NewHits(b.data, chunk, i);
      }
    }
    FoundFrom(data, from);
  }

  lemma {:induction false} FoundFrom(data: string, from: nat)
    requires from <= |data| && NoHitBefore(data, 0, from)
    ensures FindHit(data, 0) == FindHit(data, from)
  {
    var a, b := FindHit(data, 0), FindHit(data, from);
    assert HitAt(data, a) || a == |data|;
    assert HitAt(data, b) || b == |data|;
  }

  // ---- A whole drain -------------------------------------------------------

  /** The bytes of a drain are appended in order, and a terminator once found is not forgotten. */
  lemma {:induction false} ReadsAppend(b: Buffer, got: bool, chunks: seq<string>)
    requires Bounded(b)
    ensures OnReads(b, got, chunks).0.data == b.data + Concat(chunks)
    ensures got ==> OnReads(b, got, chunks).1
    decreases |chunks|
  {
    if chunks == [] {
      assert b.data + "" == b.data;
    } else {
      var (b', hit) := OnRead(b, chunks[0]);
      ReadsAppend(b', got || hit, chunks[1..]);
      assert b.data + (chunks[0] + Concat(chunks[1..])) == (b.data + chunks[0]) + Concat(chunks[1..]);
    }
  }

  /** Reading in two goes is reading in one. */
  lemma {:induction false} ReadsInTwo(b: Buffer, got: bool, xs: seq<string>, ys: seq<string>)
    requires Bounded(b)
    ensures
      var (b', got') := OnReads(b, got, xs);
      OnReads(b, got, xs + ys) == OnReads(b', got', ys)
    decreases |xs|
  {
    if xs == [] {
      assert xs + ys == ys;
    } else {
      assert (xs + ys)[1..] == xs[1..] + ys;
      var (b', hit) := OnRead(b, xs[0]);
      ReadsInTwo(b', got || hit, xs[1..], ys);
    }
  }

  /**
   For every way of cutting the stream into reads, the incremental scan knows after each
   read whether the buffer holds a terminator, exactly as a search of the whole buffer would.
   */
  lemma {:induction false} IncrementalScan(b: Buffer, chunks: seq<string>)
    requires Unfinished(b)
    ensures
      var (b', got) := OnReads(b, false, chunks);
      && b'.data == b.data + Concat(chunks)
      && (got <==> !NoHit(b'.data))
      && (!got ==> Unfinished(b'))
    decreases |chunks|
  {
    ReadsAppend(b, false, chunks);
    if chunks == [] {
    } else {
      var (b', hit) := OnRead(b, chunks[0]);
      ReadFindsFirst(b, chunks[0]);
      if hit {
        ReadsAppend(b', true, chunks[1..]);
        HitsStay(b'.data, Concat(chunks[1..]), FindHit(b'.data, 0));
      } else {
        IncrementalScan(b', chunks[1..]);
      }
    }
  }

  /**
   Up to the first hit of a drain the scan finds the terminator in the same read and at the
   same offset as a search from the start of the buffer.
   */
  lemma SameReadSameOffset(b: Buffer, before: seq<string>, chunk: string)
    requires Unfinished(b) && NoHit(b.data + Concat(before))
    ensures !OnReads(b, false, before).1
    ensures
      var (b', got) := OnReads(b, false, before + [chunk]);
      && b'.data == b.data + Concat(before) + chunk
      && (got <==> !NoHit(b'.data))
      && (got ==> FindHit(b'.data, 0) < |b'.data| && b'.scanPos == FindHit(b'.data, 0) + NEEDLE)
  {
    IncrementalScan(b, before);
    ReadsInTwo(b, false, before, [chunk]);
    ReadFindsFirst(OnReads(b, false, before).0, chunk);
    assert [chunk][1..] == [];
  }

  // ---- What is dispatched after the drain ----------------------------------

  /** A read after the hit leaves the scan position at the end of the first request only by coincidence. */
  lemma LaterRead(b: Buffer, chunk: string, first: nat)
    requires Bounded(b) && HitAt(b.data, first) && chunk != ""
    requires OnRead(b, chunk).0.scanPos == first + NEEDLE
    ensures !OnRead(b, chunk).1 && |b.data + chunk| == first + 7
  {
    assert Overlap(|b.data|) > first;
  }

  lemma {:induction false} FirstStays(data: string, more: string)
    requires FindHit(data, 0) < |data|
    ensures FindHit(data + more, 0) == FindHit(data, 0)
  {
    var i, j := FindHit(data, 0), FindHit(data + more, 0);
    HitsStay(data, more, i);
    if j < i {
      assert HitAt(data, j);
    }
  }

  ghost predicate NonEmpty(chunks: seq<string>) {
    forall i :: 0 <= i < |chunks| ==> chunks[i] != ""
  }

  /** The terminator overlaps another one, and the two reads after the hit bring one and two bytes. */
  ghost predicate Overlapping(data: string, first: nat, after: seq<string>) {
    |after| == 2 && |after[0]| == 1 && |after[1]| == 2 && HitAt(data, first + 2)
  }

  /**
   The condition under which a drain leaves the scan position just after the first request:
   the read that found its terminator was the last one, or exactly three bytes followed it
   and no overlapping terminator was found among them.
   */
  ghost predicate Framed(data: string, first: nat, after: seq<string>) {
    after == [] || (|data| == first + 7 && !Overlapping(data, first, after))
  }

  /** With three bytes after the first terminator, a last read that looks past its third byte finds nothing. */
  lemma NoLateHit(b: Buffer, chunk: string, first: nat)
    requires Bounded(b) && HitAt(b.data, first) && |b.data + chunk| == first + 7
    requires Max(Overlap(|b.data|), b.scanPos) >= first + 3
    ensures OnRead(b, chunk).0.scanPos == first + NEEDLE
  {
    HitsStay(b.data, chunk, first);
  }

  /** The read right after the hit, when it does not bring four bytes yet. */
  lemma ReadAfterHit(b: Buffer, chunk: string, first: nat)
    requires HitAt(b.data, first) && b.scanPos == first + NEEDLE && |b.data + chunk| < first + 8
    ensures OnRead(b, chunk) == (Buffer(b.data + chunk, |b.data + chunk| - 3), false)
  {
  }

  /** Two reads of one and two bytes after the hit. */
  lemma TwoReads(b: Buffer, c0: string, c1: string, first: nat)
    requires HitAt(b.data, first) && b.scanPos == first + NEEDLE && c0 != "" && c1 != ""
    requires |b.data + c0 + c1| == first + 7
    ensures
      OnRead(OnRead(b, c0).0, c1).0.scanPos == first + NEEDLE
      <==> !(|c0| == 1 && |c1| == 2 && HitAt(b.data + c0 + c1, first + 2))
  {
    ReadAfterHit(b, c0, first);
    var b' := OnRead(b, c0).0;
    HitsStay(b.data, c0, first);
    if |b'.data| == first + 6 {
      NoLateHit(b', c1, first);
    }
  }

  lemma ThreeReads(b: Buffer, c0: string, c1: string, c2: string, first: nat)
    requires HitAt(b.data, first) && b.scanPos == first + NEEDLE && c0 != "" && c1 != "" && c2 != ""
    requires |b.data + c0 + c1 + c2| == first + 7
    ensures OnRead(OnRead(OnRead(b, c0).0, c1).0, c2).0.scanPos == first + NEEDLE
  {
    HitsStay(b.data, c0, first);
    HitsStay(b.data + c0, c1, first);
    NoLateHit(OnRead(OnRead(b, c0).0, c1).0, c2, first);
  }

  /** The reads after the hit: where the scan position ends up. */
  lemma ReadsAfterHit(b: Buffer, after: seq<string>, first: nat)
    requires HitAt(b.data, first) && b.scanPos == first + NEEDLE && NonEmpty(after)
    ensures OnReads(b, true, after).0.scanPos > 0
    ensures OnReads(b, true, after).0.scanPos == first + NEEDLE <==> Framed(b.data + Concat(after), first, after)
  {
    ReadsAppend(b, true, after);
    if after != [] {
      var init, last := after[..|after| - 1], after[|after| - 1];
      assert after == init + [last];
      var b' := OnReads(b, true, init).0;
      ReadsInTwo(b, true, init, [last]);
      assert OnReads(b, true, after) == OnReads(b', true, [last]) == (OnRead(b', last).0, true);
      ReadsAppend(b, true, init);
      HitsStay(b.data, Concat(init), first);
      if |b.data + Concat(after)| == first + 7 {
        ThreeBytesAfterHit(b, after, first);
      } else if OnRead(b', last).0.scanPos == first + NEEDLE {
        LaterRead(b', last, first);
      }
    }
  }

  lemma UnrollTwo(b: Buffer, c0: string, c1: string)
    requires Bounded(b)
    ensures OnReads(b, true, [c0, c1]).0 == OnRead(OnRead(b, c0).0, c1).0 && Concat([c0, c1]) == c0 + c1
  {
    assert [c0, c1][1..] == [c1] && [c1][1..] == [];
    assert OnReads(OnRead(b, c0).0, true, [c1]) == (OnRead(OnRead(b, c0).0, c1).0, true);
    assert Concat([c1]) == c1 + "" == c1;
  }

  lemma UnrollThree(b: Buffer, c0: string, c1: string, c2: string)
    requires Bounded(b)
    ensures OnReads(b, true, [c0, c1, c2]).0 == OnRead(OnRead(OnRead(b, c0).0, c1).0, c2).0
    ensures Concat([c0, c1, c2]) == c0 + c1 + c2
  {
    assert [c0, c1, c2][1..] == [c1, c2];
    UnrollTwo(OnRead(b, c0).0, c1, c2);
  }

  lemma {:induction false} ManyReads(chunks: seq<string>)
    requires NonEmpty(chunks)
    ensures |chunks| <= |Concat(chunks)|
    decreases |chunks|
  {
    if chunks == [] {
    } else {
      ManyReads(chunks[1..]);
    }
  }

  ghost predicate ThreeBytesLeft(b: Buffer, after: seq<string>, first: nat) {
    && HitAt(b.data, first) && b.scanPos == first + NEEDLE && NonEmpty(after)
    && |b.data + Concat(after)| == first + 7
  }

  ghost predicate EndsFramed(b: Buffer, after: seq<string>, first: nat)
    requires Bounded(b)
  {
    OnReads(b, true, after).0.scanPos == first + NEEDLE <==> !Overlapping(b.data + Concat(after), first, after)
  }

  lemma OneLater(b: Buffer, c0: string, first: nat)
    requires ThreeBytesLeft(b, [c0], first)
    ensures EndsFramed(b, [c0], first)
  {
    assert Concat([c0]) == c0 + "" == c0;
    assert [c0][1..] == [];
    NoLateHit(b, c0, first);
  }

  lemma TwoLater(b: Buffer, c0: string, c1: string, first: nat)
    requires ThreeBytesLeft(b, [c0, c1], first)
    ensures EndsFramed(b, [c0, c1], first)
  {
    assert [c0, c1][0] != "" && [c0, c1][1] != "";
    UnrollTwo(b, c0, c1);
    assert b.data + (c0 + c1) == b.data + c0 + c1;
    TwoReads(b, c0, c1, first);
  }

  lemma ThreeLater(b: Buffer, c0: string, c1: string, c2: string, first: nat)
    requires ThreeBytesLeft(b, [c0, c1, c2], first)
    ensures EndsFramed(b, [c0, c1, c2], first)
  {
    assert [c0, c1, c2][0] != "" && [c0, c1, c2][1] != "" && [c0, c1, c2][2] != "";
    UnrollThree(b, c0, c1, c2);
    ThreeReads(b, c0, c1, c2, first);
  }

  lemma ThreeBytesAfterHit(b: Buffer, after: seq<string>, first: nat)
    requires ThreeBytesLeft(b, after, first) && after != []
    ensures EndsFramed(b, after, first)
  {
    ManyReads(after);
    if |after| == 1 {
      assert after == [after[0]];
      OneLater(b, after[0], first);
    } else if |after| == 2 {
      assert after == [after[0], after[1]];
      TwoLater(b, after[0], after[1], first);
    } else {
      assert after == [after[0], after[1], after[2]];
      ThreeLater(b, after[0], after[1], after[2], first);
    }
  }

  /**
   Dispatch takes exactly the first request if and only if the drain was framed. The other
   drains cut the first request short or join it with bytes of the next.
   */
  lemma FramingIff(b: Buffer, before: seq<string>, chunk: string, after: seq<string>)
    requires Unfinished(b) && NoHit(b.data + Concat(before)) && !NoHit(b.data + Concat(before) + chunk) && NonEmpty(after)
    ensures
      var (r, got) := OnReads(b, false, before + [chunk] + after);
      var first := FindHit(r.data, 0);
      && r.data == b.data + Concat(before) + chunk + Concat(after)
      && got && HitAt(r.data, first) && r.scanPos > 0
      && (r.scanPos == first + NEEDLE <==> Framed(r.data, first, after))
  {
    SameReadSameOffset(b, before, chunk);
    var b1 := OnReads(b, false, before + [chunk]).0;
    ReadsInTwo(b, false, before + [chunk], after);
    ReadsAppend(b1, true, after);
    FirstStays(b1.data, Concat(after));
    HitsStay(b1.data, Concat(after), FindHit(b1.data, 0));
    ReadsAfterHit(b1, after, FindHit(b1.data, 0));
  }

  // ---- The condition on the reads themselves -------------------------------

  /** How many reads come before the one that completes a request; all of them if none does. */
  function Completing(data: string, chunks: seq<string>): (k: nat)
    ensures k <= |chunks|
    decreases |chunks|
  {
    if chunks == [] || FindHit(data + chunks[0], 0) < |data + chunks[0]| then 0
    else 1 + Completing(data + chunks[0], chunks[1..])
  }

  /** No read completes a request, or the reads after the one that does leave the drain framed. */
  ghost predicate FramedReads(data: string, chunks: seq<string>) {
    var k, all := Completing(data, chunks), data + Concat(chunks);
    k < |chunks| ==> Framed(all, FindHit(all, 0), chunks[k + 1..])
  }

  lemma {:induction false} CompletingSplits(data: string, chunks: seq<string>)
    requires NoHit(data)
    ensures
      var k := Completing(data, chunks);
      if k == |chunks| then NoHit(data + Concat(chunks))
      else NoHit(data + Concat(chunks[..k])) && !NoHit(data + Concat(chunks[..k]) + chunks[k])
    decreases |chunks|
  {
    if chunks == [] {
      assert data + "" == data;
    } else {
      var next := data + chunks[0];
      if FindHit(next, 0) < |next| {
        assert chunks[..0] == [] && data + "" == data;
      } else {
        var k := Completing(next, chunks[1..]);
        CompletingSplits(next, chunks[1..]);
        assert data + Concat(chunks) == next + Concat(chunks[1..]);
        assert chunks[..k + 1][0] == chunks[0] && chunks[..k + 1][1..] == chunks[1..][..k];
        assert data + Concat(chunks[..k + 1]) == next + Concat(chunks[1..][..k]);
      }
    }
  }

  lemma ConcatAround(before: seq<string>, chunk: string, after: seq<string>)
    ensures Concat(before + [chunk] + after) == Concat(before) + chunk + Concat(after)
  {
    ConcatInTwo(before + [chunk], after);
    ConcatSnoc(before, chunk);
  }

  /** A drain completes a request if and only if one of its reads does, and ends just after it if and only if its reads are framed. */
  lemma FramedReadsIff(b: Buffer, chunks: seq<string>)
    requires Unfinished(b) && NonEmpty(chunks)
    ensures
      var (r, got) := OnReads(b, false, chunks);
      var first := FindHit(r.data, 0);
      && (got <==> Completing(b.data, chunks) < |chunks|)
      && (got ==> HitAt(r.data, first) && r.scanPos > 0 && (r.scanPos == first + NEEDLE <==> FramedReads(b.data, chunks)))
  {
    var k := Completing(b.data, chunks);
    CompletingSplits(b.data, chunks);
    IncrementalScan(b, chunks);
    if k < |chunks| {
      var before, chunk, after := chunks[..k], chunks[k], chunks[k + 1..];
      assert chunks == before + [chunk] + after;
      ConcatAround(before, chunk, after);
      FramingIff(b, before, chunk, after);
    }
  }

  /** Two reads in one drain that cut the first request inside its terminator. */
  lemma TruncatedRequest()
    ensures
      var (r, got) := OnReads(Buffer("", 0), false, ["A\r\n\r\n", "B"]);
      got && r.data[..r.scanPos] == "A\r\n"
  {
    var b := Buffer("", 0);
    var hit := "A\r\n\r\n";
    assert HitAt(hit, 1);
    assert "" + hit == hit;
    FoundFrom(hit, 1);
    var b1 := OnRead(b, hit).0;
    assert b1 == Buffer(hit, 5);
    ReadAfterHit(b1, "B", 1);
    assert hit + "B" == "A\r\n\r\nB";
    assert [hit, "B"][1..] == ["B"] && ["B"][1..] == [];
  }
}
