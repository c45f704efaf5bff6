/** Pipes of xv6/pipe.c. A method is what one process does while it holds p->lock, from acquire (or
    the return of sleep) to release (or the call of sleep); any order of such methods, by any number
    of readers and writers, is a run. */
module Pipe {
  import opened Blocks

  const PIPESIZE := 512

  /** How a process leaves the lock: the call returns, sleeps, or returns -1. */
  datatype Outcome = Done | Sleeps | Failed

  /** p->nwrite - p->nread, as the 32-bit counters give it. */
  function Held(nread: uint, nwrite: uint): (n: nat) {
    (nwrite - nread) % UINT_LIMIT
  }

  function Plus1(n: uint): uint { (n + 1) % UINT_LIMIT }

  /** The bytes in the ring, oldest first. */
  ghost function Ring(data: seq<byte>, nread: uint, n: nat): (r: seq<byte>)
    requires |data| == PIPESIZE
    ensures |r| == n
  {
    seq(n, i requires 0 <= i < n => data[(nread + i) % PIPESIZE])
  }

  /** Storing a byte at nwrite % PIPESIZE appends it, also when a counter wraps around. */
  lemma PutAppends(data: seq<byte>, nread: uint, nwrite: uint, b: byte)
    requires |data| == PIPESIZE && Held(nread, nwrite) < PIPESIZE
    ensures Held(nread, Plus1(nwrite)) == Held(nread, nwrite) + 1
    ensures Ring(data[nwrite % PIPESIZE := b], nread, Held(nread, nwrite) + 1)
            == Ring(data, nread, Held(nread, nwrite)) + [b]
  {
    var n := Held(nread, nwrite);
    var data' := data[nwrite % PIPESIZE := b];
    assert (nread + n) % PIPESIZE == nwrite % PIPESIZE by {
      assert nread + n == nwrite || nread + n == nwrite + UINT_LIMIT;
    }
    forall i | 0 <= i < n ensures Ring(data', nread, n + 1)[i] == Ring(data, nread, n)[i] {
      assert (nread + i) % PIPESIZE != (nread + n) % PIPESIZE by {
        ModDiffers(nread + i, nread + n);
      }
    }
  }

  lemma ModDiffers(a: nat, b: nat)
    requires a < b < a + PIPESIZE
    ensures a % PIPESIZE != b % PIPESIZE
  {
  }

  /** The ring size divides 2^32, so wrapping around moves no byte. */
  lemma SameSlot(nread: uint, i: nat)
    requires i > 0
    ensures (Plus1(nread) + (i - 1)) % PIPESIZE == (nread + i) % PIPESIZE
  {
    assert Plus1(nread) == nread + 1 || Plus1(nread) == nread + 1 - UINT_LIMIT;
  }

  /** Advancing nread takes the oldest byte. */
  lemma GetTakesFirst(data: seq<byte>, nread: uint, nwrite: uint)
    requires |data| == PIPESIZE && 0 < Held(nread, nwrite) <= PIPESIZE
    ensures Held(Plus1(nread), nwrite) == Held(nread, nwrite) - 1
    ensures var n := Held(nread, nwrite);
            Ring(data, nread, n) == [data[nread % PIPESIZE]] + Ring(data, Plus1(nread), n - 1)
  {
    OneFewer(nread, nwrite);
    hide Held, Plus1;
    var n := Held(nread, nwrite);
    var whole, parts := Ring(data, nread, n), [data[nread % PIPESIZE]] + Ring(data, Plus1(nread), n - 1);
    forall i | 0 <= i < n ensures whole[i] == parts[i] {
      if i > 0 {
        SameSlot(nread, i);
      }
    }
  }

  lemma OneFewer(nread: uint, nwrite: uint)
    requires 0 < Held(nread, nwrite)
    ensures Held(Plus1(nread), nwrite) == Held(nread, nwrite) - 1
  {
    assert Plus1(nread) == nread + 1 || Plus1(nread) == nread + 1 - UINT_LIMIT;
  }

  class Pipe {
    const data: array<byte>
    var nread: uint
    var nwrite: uint
    var readopen: bool
    var writeopen: bool
    /** Processes sleeping on &p->nread and on &p->nwrite. */
    ghost var readers: set<nat>
    ghost var writers: set<nat>
    /** All bytes that writers have put in, and all that readers have taken out. */
    ghost var accepted: seq<byte>
    ghost var delivered: seq<byte>

    /** FIRST IN, FIRST OUT: what was delivered, followed by what is in the ring, is what was
        accepted; the ring never holds more than PIPESIZE bytes. */
    ghost predicate Valid()
      reads this, data
    {
      && data.Length == PIPESIZE && Held(nread, nwrite) <= PIPESIZE
      && accepted == delivered + Ring(data[..], nread, Held(nread, nwrite))
    }

    /** PROGRESS: a sleeping reader means an empty ring that can still be written to, a sleeping
        writer a full ring that can still be read. */
    ghost predicate Progress()
      reads this
    {
      && (readers != {} ==> nread == nwrite && writeopen && readopen)
      && (writers != {} ==> Held(nread, nwrite) == PIPESIZE && readopen && writeopen)
    }

    /** pipealloc. */
    constructor ()
      ensures Valid() && Progress() && fresh(data) && readopen && writeopen && accepted == [] && delivered == []
      ensures readers == {} && writers == {}
    {
      data := new byte[PIPESIZE](_ => 0);
      nread, nwrite, readopen, writeopen := 0, 0, true, true;
      readers, writers, accepted, delivered := {}, {}, [], [];
    }

    /** Readers and writers are never both asleep. */
    lemma NotBothAsleep()
      requires Valid() && Progress()
      ensures readers == {} || writers == {}
    {
    }

    /** p->data[p->nwrite++ % PIPESIZE] = b */
    method PutByte(b: byte)
      requires Valid() && Held(nread, nwrite) < PIPESIZE
      modifies this`nwrite, this`accepted, data
      ensures Valid() && accepted == old(accepted) + [b] && Held(nread, nwrite) == old(Held(nread, nwrite)) + 1
    {
      PutAppends(data[..], nread, nwrite, b);
      ghost var n := Held(nread, nwrite);
      data[nwrite % PIPESIZE] := b;
      assert data[..] == old(data[..])[nwrite % PIPESIZE := b];
      nwrite := Plus1(nwrite);
      accepted := accepted + [b];
      assert accepted == delivered + (Ring(old(data[..]), nread, n) + [b]);
    }

    /** p->data[p->nread++ % PIPESIZE] */
    method GetByte() returns (b: byte)
      requires Valid() && nread != nwrite
      modifies this`nread, this`delivered
      ensures Valid() && delivered == old(delivered) + [b] && Held(nread, nwrite) == old(Held(nread, nwrite)) - 1
    {
      GetTakesFirst(data[..], nread, nwrite);
      b := data[nread % PIPESIZE];
      nread := Plus1(nread);
      delivered := delivered + [b];
    }

    /** pipewrite of addr by process w, with the bytes before i already written: write until done,
        asleep on a full ring, or -1 on a full ring without readers or when killed. Progress is
        kept, except exactly when a killed writer leaves bytes behind for sleeping readers. */
    method WriteSegment(w: nat, addr: seq<byte>, i: nat, killed: bool) returns (j: nat, out: Outcome)
      requires Valid() && writeopen && i <= |addr|
      modifies this, data
      ensures Valid() && i <= j <= |addr| && accepted == old(accepted) + addr[i..j] && delivered == old(delivered)
      ensures readopen == old(readopen) && writeopen == old(writeopen)
      ensures out.Done? <==> j == |addr|
      ensures !out.Done? ==> Held(nread, nwrite) == PIPESIZE
      ensures out.Failed? <==> j < |addr| && (!readopen || killed)
      ensures !out.Failed? ==> readers == {}
      ensures writers == if out.Sleeps? then old(writers) + {w} else old(writers)
      ensures old(Progress()) ==> (Progress() <==> !(out.Failed? && j > i && old(readers) != {}))
      ensures old(Progress()) && !killed ==> Progress()
    {
      j := i;
      out := Done;
      while j < |addr|
        invariant i <= j <= |addr| && Valid()
        invariant accepted == old(accepted) + addr[i..j] && delivered == old(delivered)
        invariant readers == old(readers) && writers == old(writers) && readopen == old(readopen)
                  && writeopen == old(writeopen)
        invariant nread == old(nread) && Held(nread, nwrite) == old(Held(nread, nwrite)) + (j - i)
      {
        if nwrite == (nread + PIPESIZE) % UINT_LIMIT {
          if !readopen || killed {
            out := Failed;
            return;
          }
          readers := {};
          writers := writers + {w};
          out := Sleeps;
          return;
        }
        PutByte(addr[j]);
        j := j + 1;
      }
      readers := {};
    }

    /** piperead of up to n bytes by process r: asleep on an empty ring that can still be written to
        (-1 when killed); otherwise what there is, up to n bytes, oldest first. */
    method ReadSegment(r: nat, n: nat, killed: bool) returns (got: seq<byte>, out: Outcome)
      requires Valid() && readopen
      modifies this`nread, this`delivered, this`readers, this`writers
      ensures Valid() && accepted == old(accepted) && delivered == old(delivered) + got
      ensures out.Done? ==> |got| == (if old(Held(nread, nwrite)) < n then old(Held(nread, nwrite)) else n)
                            && writers == {}
      ensures !out.Done? <==> old(nread == nwrite) && writeopen
      ensures !out.Done? ==> got == [] && writers == old(writers)
      ensures out.Failed? <==> old(nread == nwrite) && writeopen && killed
      ensures readers == if out.Sleeps? then old(readers) + {r} else old(readers)
      ensures old(Progress()) ==> Progress()
    {
      got := [];
      if nread == nwrite && writeopen {
        if killed {
          return [], Failed;
        }
        readers := readers + {r};
        return [], Sleeps;
      }
      while |got| < n && nread != nwrite
        invariant Valid() && accepted == old(accepted) && delivered == old(delivered) + got && |got| <= n
        invariant readers == old(readers) && writers == old(writers)
        invariant Held(nread, nwrite) == old(Held(nread, nwrite)) - |got|
      {
        var b := GetByte();
        got := got + [b];
      }
      writers := {};
      out := Done;
    }

    /** pipeclose: the last user of one end drops it, so nobody sleeps in a call on that end. */
    method Close(writable: bool) returns (freed: bool)
      requires Valid() && (if writable then writeopen && writers == {} else readopen && readers == {})
      modifies this`readopen, this`writeopen, this`readers, this`writers
      ensures Valid() && accepted == old(accepted) && delivered == old(delivered)
      ensures readopen == (old(readopen) && writable) && writeopen == (old(writeopen) && !writable)
      ensures freed <==> !readopen && !writeopen
      ensures old(Progress()) ==> Progress()
    {
      if writable {
        writeopen := false;
        readers := {};
      } else {
        readopen := false;
        writers := {};
      }
      freed := !readopen && !writeopen;
    }
  }
}
