/**
 The pipe of kernel/pipe.c: a ring of PIPESIZE bytes between two 32-bit counters
 that are never reduced.  pipewrite and piperead give up the lock where they
 sleep, so a method here is what happens between two such places.
 */
module Pipe {
  import opened Common

  const PIPESIZE: nat := 512

  // Bytes accepted so far, and how many of them have been read; between them is the ring.
  ghost predicate Ring(data: seq<Byte>, nread: nat, nwrite: nat, accepted: seq<Byte>, taken: nat) {
    && |data| == PIPESIZE && nwrite == |accepted| % UINT && nread == taken % UINT
    && taken <= |accepted| <= taken + PIPESIZE
    && forall p :: taken <= p < |accepted| ==> data[p % PIPESIZE] == accepted[p]
  }

  lemma Full(data: seq<Byte>, nread: nat, nwrite: nat, accepted: seq<Byte>, taken: nat)
    requires Ring(data, nread, nwrite, accepted, taken)
    ensures nwrite == (nread + PIPESIZE) % UINT <==> |accepted| == taken + PIPESIZE
    ensures nread == nwrite <==> |accepted| == taken
  {
  }

  // Storing a byte where there is room overwrites none that is still to be read.
  lemma Store(data: seq<Byte>, nread: nat, nwrite: nat, accepted: seq<Byte>, taken: nat, ch: Byte)
    requires Ring(data, nread, nwrite, accepted, taken) && |accepted| < taken + PIPESIZE
    ensures Ring(data[nwrite % PIPESIZE := ch], nread, (nwrite + 1) % UINT, accepted + [ch], taken)
  {
    Wrapped(|accepted|);
    var data' := data[nwrite % PIPESIZE := ch];
    forall p | taken <= p < |accepted| + 1 ensures data'[p % PIPESIZE] == (accepted + [ch])[p] {
      if p < |accepted| {
        PlacesDiffer(p, |accepted|);
      }
    }
  }

  lemma Wrapped(n: nat)
    ensures n % UINT % PIPESIZE == n % PIPESIZE && (n % UINT + 1) % UINT == (n + 1) % UINT
  {
  }

  lemma PlacesDiffer(p: nat, n: nat)
    requires p < n < p + PIPESIZE
    ensures p % PIPESIZE != n % PIPESIZE
  {
  }

  lemma Fetch(data: seq<Byte>, nread: nat, nwrite: nat, accepted: seq<Byte>, taken: nat)
    requires Ring(data, nread, nwrite, accepted, taken) && taken < |accepted|
    ensures data[nread % PIPESIZE] == accepted[taken] && Ring(data, (nread + 1) % UINT, nwrite, accepted, taken + 1)
  {
    Wrapped(taken);
    assert data[taken % PIPESIZE] == accepted[taken];
  }

  function Least(a: int, b: int, c: int): int {
    if a <= b && a <= c then a else if b <= c then b else c
  }

  // Why pipewrite stopped: all written, the other end closed or the process killed, or the ring is full.
  datatype Stop = Done | Broken | MustSleep
  // What piperead does first: sleeps, gives up because it was killed, or reads.
  datatype Start = Sleeps | Killed | Reads

  class Buffer {
    var data: seq<Byte>
    var nread: nat
    var nwrite: nat
    var readopen: bool
    var writeopen: bool
    var readers: bool              // somebody sleeps on nread
    var writers: bool              // somebody sleeps on nwrite
    ghost var accepted: seq<Byte>
    ghost var got: seq<Byte>       // bytes handed to readers

    ghost predicate Valid()
      reads this
    {
      Ring(data, nread, nwrite, accepted, |got|) && got == accepted[..|got|]
    }

    // Nobody sleeps who could go on.
    ghost predicate WritersRested()
      reads this
    {
      writers ==> readopen && |accepted| == |got| + PIPESIZE
    }

    ghost predicate ReadersRested()
      reads this
    {
      readers ==> writeopen && got == accepted
    }

    constructor ()
      ensures Valid() && accepted == [] && got == [] && readopen && writeopen && WritersRested() && ReadersRested()
    {
      data := seq(PIPESIZE, _ => 0);
      nread, nwrite, readopen, writeopen, readers, writers := 0, 0, true, true, false, false;
      accepted, got := [], [];
    }

    /**
     What every run of the methods below keeps: readers have a prefix of what was
     accepted, at most 512 bytes behind.
     */
    lemma Prefix()
      requires Valid()
      ensures got <= accepted && |accepted| - |got| <= PIPESIZE
    {
    }

    /**
     pipewrite of n bytes from byte i on, until it is done, must sleep or breaks
     off.  Of the bytes copyin can fetch the first |src|, and the process is
     found killed after `patience` more turns.  A reader is left asleep over
     unread bytes exactly when one slept, the read end is open, and the kill is
     found after the first byte and before the n-th, before the ring is full
     and before copyin fails.
     */
    method Write(src: seq<Byte>, n: nat, i: nat, patience: nat) returns (i': nat, stop: Stop)
      requires Valid() && i <= |src| <= n
      modifies this`data, this`nwrite, this`readers, this`writers, this`accepted
      ensures Valid() && i <= i' <= |src| && accepted == old(accepted) + src[i..i']
      ensures i' == i + if readopen then Least(|src| - i, patience, PIPESIZE - (|old(accepted)| - |got|)) else 0
      ensures stop.Broken? <==> i' < n && (!readopen || i' - i == patience)
      ensures stop.MustSleep? <==> i' < n && readopen && i' - i != patience && |accepted| == |got| + PIPESIZE
      ensures old(WritersRested()) ==> WritersRested()
      ensures old(ReadersRested()) ==>
        (ReadersRested() <==>
          !(old(readers) && readopen && 0 < patience < n - i && patience <= |src| - i && patience <= PIPESIZE))
    {
      hide Ring;
      i' := i;
      Within(data, nread, nwrite, accepted, |got|);
      while i' < n
        invariant i <= i' <= |src| && i' - i <= patience && Valid() && accepted == old(accepted) + src[i..i']
        invariant readers == old(readers) && writers == old(writers) && |got| <= |accepted|
        invariant i' > i ==> readopen
      {
        if !readopen || i' - i == patience {
          Within(data, nread, nwrite, accepted, |got|);
          return i', Broken;
        }
        Full(data, nread, nwrite, accepted, |got|);
        Within(data, nread, nwrite, accepted, |got|);
        if nwrite == (nread + PIPESIZE) % UINT {
          readers := false;
          writers := true;
          return i', MustSleep;
        }
        if i' == |src| {
          break;
        }
        Store(data, nread, nwrite, accepted, |got|, src[i']);
        assert src[i..i' + 1] == src[i..i'] + [src[i']];
        data := data[nwrite % PIPESIZE := src[i']];
        nwrite := (nwrite + 1) % UINT;
        accepted := accepted + [src[i']];
        i' := i' + 1;
      }
      Within(data, nread, nwrite, accepted, |got|);
      readers := false;
      return i', Done;
    }

    /** The loop at the head of piperead: sleep only when there is nothing to read and a writer may come. */
    method StartRead(killed: bool) returns (r: Start)
      requires Valid()
      modifies this`readers
      ensures Valid() && (r.Reads? <==> got != accepted || !writeopen) && (r.Sleeps? ==> !killed)
        && (r.Killed? ==> killed)
      ensures readers == (old(readers) || r.Sleeps?)
      ensures old(ReadersRested()) ==> ReadersRested()
      ensures old(WritersRested()) ==> WritersRested()
    {
      Full(data, nread, nwrite, accepted, |got|);
      assert |got| == |accepted| ==> accepted[..|got|] == accepted;
      if nread == nwrite && writeopen {
        if killed {
          return Killed;
        }
        readers := true;
        return Sleeps;
      }
      return Reads;
    }

    /**
     piperead of n bytes once it need not wait: the next bytes that were
     accepted, and sleeping writers are woken.  copyout can store the first
     `copies`; a byte it cannot store is gone from the pipe all the same, so
     that one byte is lost exactly when `copies` is less than both n and what
     there is to read.
     */
    method Read(n: nat, copies: nat) returns (out: seq<Byte>)
      requires Valid()
      modifies this`nread, this`writers, this`got
      ensures Valid() && |got| == |old(got)| + Least(n, |accepted| - |old(got)|, copies + 1)
      ensures out == got[|old(got)|..][..Least(n, |accepted| - |old(got)|, copies)]
      ensures got == old(got) + out <==> copies >= n || copies >= |accepted| - |old(got)|
      ensures WritersRested() && (old(ReadersRested()) ==> ReadersRested())
    {
      hide Ring;
      out := [];
      var i := 0;
      Within(data, nread, nwrite, accepted, |got|);
      while i < n
        invariant i == |out| <= n && i <= copies && Valid() && got == old(got) + out && |got| <= |accepted|
      {
        Full(data, nread, nwrite, accepted, |got|);
        Within(data, nread, nwrite, accepted, |got|);
        if nread == nwrite {
          break;
        }
        Fetch(data, nread, nwrite, accepted, |got|);
        var ch := data[nread % PIPESIZE];
        assert accepted[..|got| + 1] == accepted[..|got|] + [ch];
        nread := (nread + 1) % UINT;
        got := got + [ch];
        if i == copies {
          break;
        }
        out := out + [ch];
        i := i + 1;
      }
      writers := false;
      assert |got| == |accepted| ==> accepted[..|got|] == accepted;
    }

    /** pipeclose of one end, which wakes the other; true when both are closed and the page goes back. */
    method Close(writable: bool) returns (freed: bool)
      requires Valid()
      modifies this`readopen, this`writeopen, this`readers, this`writers
      ensures Valid() && readopen == (old(readopen) && writable) && writeopen == (old(writeopen) && !writable)
      ensures freed <==> !readopen && !writeopen
      ensures old(ReadersRested()) ==> ReadersRested()
      ensures old(WritersRested()) ==> WritersRested()
    {
      if writable {
        writeopen := false;
        readers := false;
      } else {
        readopen := false;
        writers := false;
      }
      freed := !readopen && !writeopen;
    }
  }

  /** Such a case: a reader sleeps, and a writer of two bytes is killed after the first. */
  method ReaderLeftAsleep() returns (pi: Buffer)
    ensures fresh(pi) && pi.Valid() && !pi.ReadersRested()
    ensures pi.readers && pi.accepted == [1] && pi.got == []
  {
    pi := new Buffer();
    var start := pi.StartRead(false);
    var i, stop := pi.Write([1, 2], 2, 0, 1);
    assert [1, 2][0..1] == [1];
  }

  lemma Within(data: seq<Byte>, nread: nat, nwrite: nat, accepted: seq<Byte>, taken: nat)
    requires Ring(data, nread, nwrite, accepted, taken)
    ensures |data| == PIPESIZE && taken <= |accepted| <= taken + PIPESIZE
  {
  }
}
