/**
 Pipes (pipe.c): a ring buffer of PIPESIZE bytes behind two 32-bit counters that wrap,
 written and read by any number of processes that block.

 A burst is what a process does between taking the pipe's lock and giving it up, by
 returning or by sleeping.  The class proves what a burst does to the buffer; the state
 machine below runs bursts in every order.
 */
module Pipe {
  import opened Common

  const PIPESIZE: nat := 512
  const WORD: nat := 0x1_0000_0000   // uint arithmetic is modulo WORD

  newtype byte = b: int | 0 <= b < 256

  datatype WriteEnd = WriteDone | WriteFailed | WriteBlocked
  datatype ReadEnd = ReadDone(bytes: seq<byte>) | ReadFailed | ReadBlocked

  // What a burst does, on the bytes in the pipe.

  /** How many bytes a burst of pipewrite puts in. */
  function Accepted(buf: seq<byte>, addr: seq<byte>, i: nat): (k: nat)
    requires |buf| <= PIPESIZE && i <= |addr|
    ensures i + k <= |addr| && |buf| + k <= PIPESIZE
  {
    Min(|addr| - i, PIPESIZE - |buf|)
  }

  function WriteResult(buf: seq<byte>, addr: seq<byte>, i: nat, readopen: bool, killed: bool): (r: WriteEnd)
    requires |buf| <= PIPESIZE && i <= |addr|
  {
    if i + Accepted(buf, addr, i) == |addr| then WriteDone
    else if !readopen || killed then WriteFailed
    else WriteBlocked
  }

  function ReadResult(buf: seq<byte>, n: nat, writeopen: bool, killed: bool): (r: ReadEnd) {
    if buf == [] && writeopen then (if killed then ReadFailed else ReadBlocked)
    else ReadDone(buf[..Min(n, |buf|)])
  }

  // The counters.

  /** Distance between two counters that wrap. */
  function Distance(nread: nat, nwrite: nat): (d: nat)
    requires nread < WORD && nwrite < WORD
    ensures d < WORD && (nread + d) % WORD == nwrite
  {
    if nwrite >= nread then nwrite - nread else nwrite + WORD - nread
  }

  /** PIPESIZE divides 2^32, so a slot number does not notice the wrap. */
  lemma SlotIgnoresWrap(x: nat)
    requires x < 2 * WORD
    ensures x % WORD % PIPESIZE == x % PIPESIZE
  {
    assert x == x % WORD || x == x % WORD + WORD;
    assert WORD == PIPESIZE * 0x80_0000;
  }

  /** The slot of the i-th byte from the read counter. */
  function Slot(nread: nat, i: nat): (k: nat)
    ensures k < PIPESIZE
  {
    (nread + i) % PIPESIZE
  }

  lemma SlotsDiffer(nread: nat, i: nat, j: nat)
    requires i < j < i + PIPESIZE
    ensures Slot(nread, i) != Slot(nread, j)
  {
    var a, b := (nread + i) / PIPESIZE, (nread + j) / PIPESIZE;
    assert nread + i == PIPESIZE * a + Slot(nread, i);
    assert nread + j == PIPESIZE * b + Slot(nread, j);
    assert b > a ==> PIPESIZE * b >= PIPESIZE * a + PIPESIZE;
  }

  /** k bytes of the ring from the read counter on. */
  ghost function Window(d: seq<byte>, nread: nat, k: nat): (s: seq<byte>)
    requires |d| == PIPESIZE
    ensures |s| == k
  {
    seq(k, i requires 0 <= i < k => d[Slot(nread, i)])
  }

  lemma PutWindow(d: seq<byte>, nread: nat, k: nat, c: byte)
    requires |d| == PIPESIZE && k < PIPESIZE
    ensures Window(d[Slot(nread, k) := c], nread, k + 1) == Window(d, nread, k) + [c]
  {
    forall i | 0 <= i < k ensures Slot(nread, i) != Slot(nread, k) {
      SlotsDiffer(nread, i, k);
    }
  }

  lemma GetWindow(d: seq<byte>, nread: nat, k: nat)
    requires |d| == PIPESIZE && 1 <= k <= PIPESIZE && nread < WORD
    ensures [d[nread % PIPESIZE]] + Window(d, (nread + 1) % WORD, k - 1) == Window(d, nread, k)
  {
    var next := (nread + 1) % WORD;
    var s, t := Window(d, nread, k), Window(d, next, k - 1);
    forall i | 0 <= i < k - 1 ensures t[i] == s[i + 1] {
      NextSlot(nread, i);
    }
    assert Slot(nread, 0) == nread % PIPESIZE;
    assert ([d[nread % PIPESIZE]] + t)[0] == s[0];
  }

  lemma NextSlot(nread: nat, i: nat)
    requires nread < WORD && i < PIPESIZE
    ensures Slot((nread + 1) % WORD, i) == Slot(nread, i + 1)
  {
    if nread + 1 == WORD {
      SlotIgnoresWrap(WORD + i);
    }
  }

  class PipeBuffer {
    const data: array<byte>
    var nread: nat
    var nwrite: nat
    var readopen: bool
    var writeopen: bool

    constructor ()
      ensures Valid() && Contents() == [] && readopen && writeopen && fresh(data)
    {
      data := new byte[PIPESIZE](_ => 0);
      nread, nwrite, readopen, writeopen := 0, 0, true, true;
    }

    ghost predicate Valid()
      reads this
    {
      data.Length == PIPESIZE && nread < WORD && nwrite < WORD && Distance(nread, nwrite) <= PIPESIZE
    }

    /** The bytes written and not yet read, oldest first. */
    ghost function Contents(): (s: seq<byte>)
      requires Valid()
      reads this, data
      ensures |s| == Distance(nread, nwrite) <= PIPESIZE
    {
      Window(data[..], nread, Distance(nread, nwrite))
    }

    /** p->data[p->nwrite++ % PIPESIZE] = c */
    method Put(c: byte)
      requires Valid() && |Contents()| < PIPESIZE
      modifies this`nwrite, data
      ensures Valid() && Contents() == old(Contents()) + [c]
    {
      hide Window, Slot;
      PutWindow(data[..], nread, Distance(nread, nwrite), c);
      SlotIs(nread, nwrite);
      ghost var d := data[..];
      data[nwrite % PIPESIZE] := c;
      assert data[..] == d[nwrite % PIPESIZE := c];
      nwrite := (nwrite + 1) % WORD;
    }

    /** p->data[p->nread++ % PIPESIZE] */
    method Get() returns (c: byte)
      requires Valid() && Contents() != []
      modifies this`nread
      ensures Valid() && [c] + Contents() == old(Contents())
    {
      hide Window, Slot;
      GetWindow(data[..], nread, Distance(nread, nwrite));
      c := data[nread % PIPESIZE];
      nread := (nread + 1) % WORD;
    }

    /** A burst of pipewrite, from the i-th byte of addr on. */
    method WriteBurst(addr: seq<byte>, i: nat, killed: bool) returns (i': nat, r: WriteEnd)
      requires Valid() && i <= |addr|
      modifies this`nwrite, data
      ensures Valid() && i' == i + Accepted(old(Contents()), addr, i)
      ensures Contents() == old(Contents()) + addr[i..i']
      ensures r == WriteResult(old(Contents()), addr, i, readopen, killed)
      ensures i <= i' <= |addr| && (i' == |addr| || |Contents()| == PIPESIZE)
      ensures r.WriteDone? <==> i' == |addr|
      ensures r.WriteFailed? <==> i' < |addr| && (!readopen || killed)
    {
      ghost var s := Contents();
      i' := i;
      while i' < |addr|
        invariant Valid() && i <= i' <= |addr| && Contents() == s + addr[i..i']
      {
        if nwrite == (nread + PIPESIZE) % WORD {
          assert Distance(nread, nwrite) == PIPESIZE;
          if !readopen || killed {
            return i', WriteFailed;
          }
          return i', WriteBlocked;
        }
        Put(addr[i']);
        i' := i' + 1;
      }
      return i', WriteDone;
    }

    /** A burst of piperead. */
    method ReadBurst(n: nat, killed: bool) returns (r: ReadEnd)
      requires Valid()
      modifies this`nread
      ensures Valid() && r == ReadResult(old(Contents()), n, writeopen, killed)
      ensures r.ReadDone? ==> r.bytes + Contents() == old(Contents())
      ensures !r.ReadDone? ==> Contents() == old(Contents())
      ensures r.ReadDone? ==> |r.bytes| <= n && (|r.bytes| == n || Contents() == [])
      ensures r.ReadDone? <==> old(Contents()) != [] || !writeopen
      ensures r.ReadFailed? <==> old(Contents()) == [] && writeopen && killed
    {
      hide Window, Slot;
      if nread == nwrite && writeopen {
        return if killed then ReadFailed else ReadBlocked;
      }
      ghost var s := Contents();
      var out: seq<byte>, i := [], 0;
      while i < n
        invariant Valid() && i == |out| <= n && out + Contents() == s
      {
        if nread == nwrite {
          break;
        }
        var c := Get();
        out, i := out + [c], i + 1;
      }
      assert Contents() == [] || |out| == n;
      PrefixOf(out, Contents(), s, n);
      return ReadDone(out);
    }
  }

  lemma PrefixOf(out: seq<byte>, rest: seq<byte>, s: seq<byte>, n: nat)
    requires out + rest == s && |out| <= n && (rest == [] || |out| == n)
    ensures out == s[..Min(n, |s|)]
  {
    assert s[..|out|] == out;
  }

  lemma SlotIs(nread: nat, nwrite: nat)
    requires nread < WORD && nwrite < WORD
    ensures Slot(nread, Distance(nread, nwrite)) == nwrite % PIPESIZE
  {
    SlotIgnoresWrap(nread + Distance(nread, nwrite));
  }
}
