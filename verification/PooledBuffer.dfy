/**
 The growable read buffer of a connection.  Its block is replaced by a larger one
 when it is full; the cost of all copying stays below the capacity reached.
 */
module PooledBuffer {
  import opened Chunks
  import opened Numbers

  const DEFAULT_CAPACITY: nat := 4096

  class PooledBuffer {
    var data: array<char>
    var cap: nat
    var len: nat
    var scanPos: nat
    ghost var base: nat    // the capacity growth starts from
    ghost var peak: nat    // the largest length ever reached
    ghost var copied: nat  // bytes copied by growth so far

    ghost predicate Valid()
      reads this
    {
      cap == data.Length && len <= cap
    }

    /** What the buffer holds. */
    ghost function Contents(): string
      requires Valid()
      reads this, data
    {
      data[..len]
    }

    /** The amortised cost of growth and the bound on the capacity. */
    ghost predicate Amortised()
      reads this
    {
      && base > 0 && len <= peak
      && (cap == 0 ==> copied == 0 && base == DEFAULT_CAPACITY)
      && (cap > 0 ==> copied + base <= cap < 2 * Max(base, peak))
    }

    /** `granted` says whether the pool had a block of that size. */
    constructor (initialCap: nat, granted: bool)
      ensures Valid() && Amortised() && fresh(data)
      ensures Contents() == "" && cap == (if granted then initialCap else 0) && scanPos == 0
      ensures base == (if cap == 0 then DEFAULT_CAPACITY else cap) && peak == 0 && copied == 0
    {
      var size := if granted then initialCap else 0;
      data := new char[size];
      cap, len, scanPos := size, 0, 0;
      base := if size == 0 then DEFAULT_CAPACITY else size;
      peak, copied := 0, 0;
    }

    /** Move to a block of at least `need` bytes, keeping the contents; without one the old block stays. */
    method Reserve(need: nat, granted: bool)
      requires Valid()
      modifies this`data, this`cap, this`copied
      ensures Valid() && Contents() == old(Contents())
      ensures cap == if granted then Max(old(cap), need) else old(cap)
      ensures if need <= old(cap) || !granted then data == old(data) && copied == old(copied)
              else fresh(data) && copied == old(copied) + len
    {
      if need <= cap {
        return;
      }
      if !granted {
        return;
      }
      var fresher := new char[need];
      for i := 0 to len
        modifies fresher
        invariant fresher[..i] == data[..i]
      {
        fresher[i] := data[i];
      }
      copied := copied + len;
      data := fresher;
      cap := need;
    }

    /** Append bytes, doubling the capacity until they fit; refused when they do not fit and no block is granted. */
    method Append(src: string, granted: bool) returns (ok: bool)
      requires Valid()
      modifies this, data
      ensures Valid() && (ok <==> granted || old(len) + |src| <= old(cap))
      ensures data == old(data) || fresh(data)
      ensures Contents() == if ok then old(Contents()) + src else old(Contents())
      ensures !ok ==> cap == old(cap) && copied == old(copied)
      ensures scanPos == old(scanPos) && base == old(base)
      ensures peak == Max(old(peak), len)
      ensures old(Amortised()) ==> Amortised()
    {
      var n := |src|;
      if len + n > cap {
        var start := if cap == 0 then DEFAULT_CAPACITY else cap;
        var newcap := start;
        while newcap < len + n
          invariant newcap == start || 2 * start <= newcap < 2 * (len + n)
          decreases len + n - newcap
        {
          newcap := newcap * 2;
        }
        Reserve(newcap, granted);
        if len + n > cap {
          peak := Max(peak, len);
          return false;
        }
      }
      Write(src);
      peak := Max(peak, len);
      return true;
    }

    /** Copy bytes that fit behind the contents. */
    method Write(src: string)
      requires Valid() && len + |src| <= cap
      modifies this`len, data
      ensures Valid() && len == old(len) + |src|
      ensures Contents() == old(Contents()) + src
    {
      for i := 0 to |src|
        modifies data
        invariant data[..len] == old(data[..len])
        invariant data[len..len + i] == src[..i]
      {
        data[len + i] := src[i];
      }
      assert src[..|src|] == src;
      assert data[..len + |src|] == data[..len] + data[len..len + |src|] == old(Contents()) + src;
      len := len + |src|;
    }

    /** Discard the first `n` bytes and move the rest to the front. */
    method DropFront(n: nat)
      requires Valid() && n <= len
      modifies this`len, data
      ensures Valid() && Contents() == old(Contents())[n..]
      ensures old(Amortised()) ==> Amortised()
    {
      var leftover := len - n;
      for i := 0 to leftover
        invariant forall j :: 0 <= j < i ==> data[j] == old(data[n + j])
        invariant forall j :: i <= j < data.Length ==> data[j] == old(data[j])
      {
        data[i] := data[n + i];
      }
      len := leftover;
    }

    method ResetForReuse()
      requires Valid()
      modifies this`len, this`scanPos
      ensures Valid() && Contents() == "" && scanPos == 0
      ensures old(Amortised()) ==> Amortised()
    {
      len, scanPos := 0, 0;
    }
  }

  /**
   Any sequence of appends to a new buffer: it holds exactly their concatenation,
   everything ever copied plus the initial capacity fits in the final capacity, and
   that is less than twice the larger of the initial capacity and the length.
   */
  method AppendAll(initialCap: nat, chunks: seq<string>) returns (b: PooledBuffer)
    ensures b.Valid() && b.Contents() == Concat(chunks)
    ensures b.cap > 0 ==>
      b.copied + b.base <= b.cap < 2 * Max(b.base, |Concat(chunks)|)
    ensures b.base == if initialCap == 0 then DEFAULT_CAPACITY else initialCap
  {
    b := new PooledBuffer(initialCap, true);
    for i := 0 to |chunks|
      invariant b.Valid() && b.Amortised() && fresh(b) && fresh(b.data)
      invariant b.Contents() == Concat(chunks[..i]) && b.peak == b.len
      invariant b.base == if initialCap == 0 then DEFAULT_CAPACITY else initialCap
    {
      assert chunks[..i + 1] == chunks[..i] + [chunks[i]];
      ConcatSnoc(chunks[..i], chunks[i]);
      var ok := b.Append(chunks[i], true);
    }
    assert chunks[..|chunks|] == chunks;
  }
}
