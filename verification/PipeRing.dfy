/**
 The pipe of pipe.c: a ring of PIPESIZE bytes with two 32-bit counters that wrap around.

 pipewrite and piperead give up the lock whenever they sleep, so each method below is one
 stretch of such a call that runs under the lock; any interleaving of readers and writers
 is a sequence of these. The ghost fields record everything ever stored and handed out.
 */
module PipeRing {

  const PIPESIZE := 512
  const UINT := 0x1_0000_0000

  datatype WriteResult = Wrote | Failed | Blocked(next: nat)
  datatype ReadResult = Got(bytes: seq<int>) | Killed | Waits

  /** A wrapped counter picks the same slot as the true count, because 512 divides 2^32. */
  lemma WrapKeepsSlot(k: nat)
    ensures (k % UINT) % PIPESIZE == k % PIPESIZE
  {
    assert k == (k / UINT) * UINT + k % UINT;
    assert UINT == 8388608 * PIPESIZE;
    assert k == ((k / UINT) * 8388608) * PIPESIZE + k % UINT;
    ModStep((k / UINT) * 8388608, k % UINT);
  }

  lemma ModStep(a: nat, b: nat)
    ensures (a * PIPESIZE + b) % PIPESIZE == b % PIPESIZE
  {
  }

  lemma WrapEqual(a: nat, b: nat)
    requires b <= a <= b + PIPESIZE
    ensures (a % UINT == b % UINT) <==> a == b
    ensures (a % UINT == (b % UINT + PIPESIZE) % UINT) <==> a == b + PIPESIZE
  {
  }

  lemma SlotsDiffer(k: nat, n: nat)
    requires k < n < k + PIPESIZE
    ensures k % PIPESIZE != n % PIPESIZE
  {
  }

  lemma WrapNext(k: nat)
    ensures (k % UINT + 1) % UINT == (k + 1) % UINT
  {
  }

  class Pipe {
    const data: array<int>
    var nread: nat
    var nwrite: nat
    var readopen: bool
    var writeopen: bool
    ghost var read: seq<int>
    ghost var written: seq<int>

    /** What is in the ring: the bytes stored and not yet handed out. */
    ghost function Ring(): seq<int>
      requires |read| <= |written|
      reads this
    {
      written[|read|..]
    }

    ghost predicate Valid()
      reads this, data
    {
      && data.Length == PIPESIZE
      && nread == |read| % UINT && nwrite == |written| % UINT
      && read <= written && |written| <= |read| + PIPESIZE
      && forall k :: |read| <= k < |written| ==> data[k % PIPESIZE] == written[k]
    }

    constructor ()
      ensures Valid() && fresh(data) && readopen && writeopen && read == [] && written == []
    {
      data := new int[PIPESIZE];
      nread, nwrite, readopen, writeopen := 0, 0, true, true;
      read, written := [], [];
    }

    /** The count the code can see: at most PIPESIZE, through any number of wrap-arounds. */
    lemma Distance()
      requires Valid()
      ensures (nwrite - nread) % UINT == |Ring()| <= PIPESIZE
      ensures read + Ring() == written
    {
    }

    method Store(b: int)
      requires Valid() && |Ring()| < PIPESIZE
      modifies data, `nwrite, `written
      ensures Valid() && written == old(written) + [b]
    {
      ghost var n := |written|;
      WrapKeepsSlot(n);
      WrapNext(n);
      forall k | |read| <= k < n ensures k % PIPESIZE != n % PIPESIZE { SlotsDiffer(k, n); }
      data[nwrite % PIPESIZE] := b;
      nwrite := (nwrite + 1) % UINT;
      written := written + [b];
    }

    method Fetch() returns (b: int)
      requires Valid() && Ring() != []
      modifies `nread, `read
      ensures Valid() && b == old(Ring())[0] && read == old(read) + [b]
    {
      WrapKeepsSlot(|read|);
      WrapNext(|read|);
      b := data[nread % PIPESIZE];
      nread := (nread + 1) % UINT;
      read := read + [b];
    }

    // pipewrite from byte i on, until it returns or sleeps
    method WriteSome(src: seq<int>, i: nat, killed: bool) returns (r: WriteResult)
      requires Valid() && i <= |src|
      modifies data, `nwrite, `written
      ensures Valid()
      ensures r.Wrote? ==> written == old(written) + src[i..]
      ensures r.Blocked? ==> i <= r.next < |src| && written == old(written) + src[i..r.next]
      ensures r.Failed? ==> exists j :: i <= j < |src| && written == old(written) + src[i..j]
      ensures !r.Wrote? ==> |Ring()| == PIPESIZE
      ensures r.Failed? ==> !readopen || killed
      ensures r.Blocked? ==> readopen && !killed
    {
      var j := i;
      while j < |src|
        invariant i <= j <= |src| && Valid()
        invariant written == old(written) + src[i..j]
      {
        WrapEqual(|written|, |read|);
        if nwrite == (nread + PIPESIZE) % UINT {
          if !readopen || killed { return Failed; }
          return Blocked(j);
        }
        Store(src[j]);
        j := j + 1;
      }
      return Wrote;
    }

    // piperead, until it returns or sleeps
    method ReadSome(n: int, killed: bool) returns (r: ReadResult)
      requires Valid()
      modifies `nread, `read
      ensures Valid()
      ensures !r.Got? ==> read == old(read) && Ring() == [] && writeopen
      ensures r.Killed? <==> old(Ring()) == [] && writeopen && killed
      ensures r.Waits? <==> old(Ring()) == [] && writeopen && !killed
      ensures r.Got? ==> read == old(read) + r.bytes
      ensures r.Got? ==> |r.bytes| == if n <= 0 then 0 else if n <= |old(Ring())| then n else |old(Ring())|
      ensures r.Got? && n > 0 && r.bytes == [] ==> old(Ring()) == [] && !writeopen
    {
      WrapEqual(|written|, |read|);
      if nread == nwrite && writeopen {
        if killed { return Killed; }
        return Waits;
      }
      var bytes := [];
      var i := 0;
      while i < n
        invariant 0 <= i && (n > 0 ==> i <= n) && (n <= 0 ==> i == 0)
        invariant Valid() && |bytes| == i <= |old(Ring())|
        invariant read == old(read) + bytes
        decreases n - i
      {
        WrapEqual(|written|, |read|);
        if nread == nwrite { break; }
        var b := Fetch();
        bytes := bytes + [b];
        i := i + 1;
      }
      return Got(bytes);
    }

    /** A reader that reads until it gets nothing. Once the write end is closed it never waits: it
        gets every byte left, in order, and then the end of the stream. */
    method Drain(n: int, killed: bool) returns (bytes: seq<int>)
      requires Valid() && !writeopen && n > 0
      modifies `nread, `read
      ensures Valid() && bytes == old(Ring()) && read == old(read) + bytes == written
    {
      bytes := [];
      while true
        invariant Valid() && read == old(read) + bytes
        decreases |written| - |read|
      {
        var r := ReadSome(n, killed);
        if r.bytes == [] {
          break;
        }
        bytes := bytes + r.bytes;
      }
      assert read == written;
    }

    // pipeclose; true when both ends are closed and the pipe is freed
    method Close(writable: bool) returns (freed: bool)
      requires Valid()
      modifies `readopen, `writeopen
      ensures Valid() && readopen == (old(readopen) && writable) && writeopen == (old(writeopen) && !writable)
      ensures freed <==> !readopen && !writeopen
    {
      if writable { writeopen := false; } else { readopen := false; }
      freed := !readopen && !writeopen;
    }
  }
}
