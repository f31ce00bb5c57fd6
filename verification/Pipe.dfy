/** pipe.c: a bounded FIFO between processes, on counters that wrap at 32 bits.  Each method is one
    section under the pipe's lock, from acquiring it (or waking up) to sleeping or returning; any
    interleaving of processes is a sequence of such sections. */
module Pipe {
  import opened Arith
  import opened Blocks

  const PIPESIZE := 512

  type Pid = nat

  /** How a section ends: the call returned, or the process went to sleep. */
  datatype Outcome = Returned(value: int) | Slept

  // ---------------------------------------------------------------- wrapping counters

  function Wrap(n: nat): Word { n % 0x1_0000_0000 }

  function Slot(c: nat): nat { c % PIPESIZE }

  /** The tests for full and empty on wrapped counters are exact while at most PIPESIZE bytes are held. */
  lemma WrappedTests(r: nat, w: nat)
    requires r <= w <= r + PIPESIZE
    ensures Wrap(w) == (Wrap(r) + PIPESIZE) % 0x1_0000_0000 <==> w == r + PIPESIZE
    ensures Wrap(w) == Wrap(r) <==> w == r
    ensures (Wrap(w) - Wrap(r)) % 0x1_0000_0000 == w - r
  {
    var q, d := r / 0x1_0000_0000, r % 0x1_0000_0000;
    assert r == 0x1_0000_0000 * q + d;
    assert w == 0x1_0000_0000 * q + d + (w - r);
  }

  /** A wrapped counter picks the same slot as an unbounded one. */
  lemma WrappedSlot(n: nat)
    ensures Slot(Wrap(n)) == Slot(n) < PIPESIZE
    ensures Wrap(n + 1) == (Wrap(n) + 1) % 0x1_0000_0000
  {
    var q, d := n / 0x1_0000_0000, n % 0x1_0000_0000;
    assert n == PIPESIZE * (8388608 * q) + d;
  }

  /** Bytes less than PIPESIZE apart have different slots. */
  lemma OtherSlot(a: nat, b: nat)
    requires a < b < a + PIPESIZE
    ensures Slot(a) != Slot(b)
  {
  }

  class Pipe {
    var data: array<Byte>
    var nread: Word
    var nwrite: Word
    var readopen: bool
    var writeopen: bool
    var sleepingReaders: set<Pid>      // asleep on &p->nread
    var sleepingWriters: set<Pid>      // asleep on &p->nwrite
    var killed: set<Pid>
    ghost var accepted: seq<Byte>      // every byte ever written
    ghost var delivered: seq<Byte>     // every byte ever read

    /** Bytes read are a prefix of bytes accepted; what lies between is in the ring. */
    ghost predicate Fifo()
      reads this, data
    {
      && data.Length == PIPESIZE
      && |delivered| <= |accepted| <= |delivered| + PIPESIZE
      && delivered == accepted[..|delivered|]
      && nwrite == Wrap(|accepted|) && nread == Wrap(|delivered|)
      && (forall k :: |delivered| <= k < |accepted| ==> data[Slot(k)] == accepted[k])
    }

    /** A writer sleeps only while the pipe is full, and a reader only while the read end is open. */
    ghost predicate Valid()
      reads this, data
    {
      && Fifo()
      && (sleepingWriters != {} ==> |accepted| == |delivered| + PIPESIZE && readopen)
      && (sleepingReaders != {} ==> readopen)
    }

    /** A reader sleeps only while the pipe is empty and can still be written. */
    ghost predicate NoLostReader()
      reads this
    {
      sleepingReaders != {} ==> |accepted| == |delivered| && writeopen
    }

    constructor ()
      ensures Valid() && NoLostReader() && readopen && writeopen && fresh(data)
      ensures accepted == [] && delivered == [] && sleepingReaders == {} && sleepingWriters == {} && killed == {}
    {
      data := new Byte[PIPESIZE](_ => 0);
      nread, nwrite := 0, 0;
      readopen, writeopen := true, true;
      sleepingReaders, sleepingWriters, killed := {}, {}, {};
      accepted, delivered := [], [];
    }

    /** Store one byte; the pipe is not full. */
    method Put(b: Byte)
      requires Fifo() && |accepted| < |delivered| + PIPESIZE
      modifies this`nwrite, this`accepted, data
      ensures Fifo() && accepted == old(accepted) + [b]
    {
      hide Wrap, Slot;
      ghost var n := |accepted|;
      WrappedSlot(n);
      data[Slot(nwrite)] := b;
      nwrite := (nwrite + 1) % 0x1_0000_0000;
      accepted := accepted + [b];
      forall k | |delivered| <= k < |accepted|
        ensures Slot(k) < PIPESIZE && data[Slot(k)] == accepted[k]
      {
        WrappedSlot(k);
        if k < n {
          OtherSlot(k, n);
        }
      }
    }

    /** Fetch one byte; the pipe is not empty. */
    method Get() returns (b: Byte)
      requires Fifo() && |delivered| < |accepted|
      modifies this`nread, this`delivered
      ensures Fifo() && delivered == old(delivered) + [b] && b == accepted[|old(delivered)|]
    {
      hide Wrap, Slot;
      WrappedSlot(|delivered|);
      b := data[Slot(nread)];
      nread := (nread + 1) % 0x1_0000_0000;
      delivered := delivered + [b];
    }

    /** pipewrite by pid of addr, from byte i on: until all is written, or the pipe is full. */
    method Write(pid: Pid, addr: seq<Byte>, i: nat) returns (r: Outcome, j: nat)
      requires Valid() && i <= |addr| && pid !in sleepingReaders && pid !in sleepingWriters
      modifies this`nwrite, this`accepted, this`sleepingReaders, this`sleepingWriters, data
      ensures Valid() && delivered == old(delivered)
      ensures i <= j <= |addr| && accepted == old(accepted) + addr[i..j]
      ensures j < |addr| ==> |accepted| == |delivered| + PIPESIZE
      ensures r.Slept? <==> j < |addr| && readopen && pid !in killed
      ensures r.Slept? ==> sleepingWriters == old(sleepingWriters) + {pid}
      ensures r.Returned? ==> sleepingWriters == old(sleepingWriters) && r.value == if j == |addr| then |addr| else -1
      ensures r == Returned(-1) && j < |addr| ==> sleepingReaders == old(sleepingReaders)
      ensures r != Returned(-1) ==> sleepingReaders == {}
      // The early return wakes nobody.  A sleeping reader, whose pipe was empty, is lost exactly if a killed
      // writer has more to write than the pipe holds.
      ensures old(NoLostReader()) ==>
                (NoLostReader() <==> !(pid in killed && old(sleepingReaders) != {} && |addr| - i > PIPESIZE))
      ensures old(NoLostReader()) && pid !in killed ==> NoLostReader()
    {
      hide Wrap, Slot;
      j := i;
      while j < |addr|
        invariant i <= j <= |addr| && Fifo() && delivered == old(delivered)
        invariant accepted == old(accepted) + addr[i..j]
        invariant sleepingReaders == old(sleepingReaders) && sleepingWriters == old(sleepingWriters)
        invariant |accepted| == |delivered| + PIPESIZE || sleepingWriters == {}
      {
        WrappedTests(|delivered|, |accepted|);
        if nwrite == (nread + PIPESIZE) % 0x1_0000_0000 {
          if !readopen || pid in killed {
            return Returned(-1), j;
          }
          sleepingReaders := {};
          sleepingWriters := sleepingWriters + {pid};
          return Slept, j;
        }
        Put(addr[j]);
        j := j + 1;
      }
      sleepingReaders := {};
      return Returned(|addr|), j;
    }

    /** piperead by pid of up to n bytes. */
    method Read(pid: Pid, n: nat) returns (r: Outcome, buf: seq<Byte>)
      requires Valid() && readopen && pid !in sleepingReaders && pid !in sleepingWriters
      modifies this`nread, this`delivered, this`sleepingReaders, this`sleepingWriters
      ensures Valid() && accepted == old(accepted)
      ensures delivered == old(delivered) + buf
      ensures r.Slept? <==> |accepted| == |old(delivered)| && writeopen && pid !in killed
      ensures r == Returned(-1) <==> |accepted| == |old(delivered)| && writeopen && pid in killed
      ensures r.Returned? && r.value != -1 ==>
                r.value == |buf| == Min(n, |accepted| - |old(delivered)|) && sleepingWriters == {}
      ensures r.Slept? ==> sleepingReaders == old(sleepingReaders) + {pid} && buf == []
      ensures r.Returned? ==> sleepingReaders == old(sleepingReaders)
      ensures r.Slept? || r == Returned(-1) ==> sleepingWriters == old(sleepingWriters)
      ensures old(NoLostReader()) ==> NoLostReader()
    {
      hide Wrap, Slot;
      buf := [];
      WrappedTests(|delivered|, |accepted|);
      if nread == nwrite && writeopen {
        if pid in killed {
          return Returned(-1), buf;
        }
        sleepingReaders := sleepingReaders + {pid};
        return Slept, buf;
      }
      var i := 0;
      while i < n
        invariant 0 <= i <= n && Fifo() && i == |buf|
        invariant i <= |accepted| - |old(delivered)|
        invariant delivered == old(delivered) + buf
        invariant sleepingReaders == old(sleepingReaders)
      {
        WrappedTests(|delivered|, |accepted|);
        if nread == nwrite {
          break;
        }
        var b := Get();
        buf := buf + [b];
        i := i + 1;
      }
      sleepingWriters := {};
      return Returned(i), buf;
    }

    /** The last descriptor of one end is closed; no process can then be asleep inside that end. */
    method Close(writable: bool)
      requires Valid() && (if writable then sleepingWriters == {} else sleepingReaders == {})
      modifies this`readopen, this`writeopen, this`sleepingReaders, this`sleepingWriters
      ensures Valid() && (old(NoLostReader()) ==> NoLostReader())
      ensures writeopen == (old(writeopen) && !writable) && readopen == (old(readopen) && writable)
      ensures sleepingReaders == (if writable then {} else old(sleepingReaders))
      ensures sleepingWriters == (if writable then old(sleepingWriters) else {})
    {
      if writable {
        writeopen := false;
        sleepingReaders := {};
      } else {
        readopen := false;
        sleepingWriters := {};
      }
    }

    /** kill marks a process and wakes it. */
    method Kill(pid: Pid)
      requires Valid()
      modifies this`killed, this`sleepingReaders, this`sleepingWriters
      ensures Valid() && (old(NoLostReader()) ==> NoLostReader())
      ensures killed == old(killed) + {pid}
      ensures sleepingReaders == old(sleepingReaders) - {pid} && sleepingWriters == old(sleepingWriters) - {pid}
    {
      killed := killed + {pid};
      sleepingReaders := sleepingReaders - {pid};
      sleepingWriters := sleepingWriters - {pid};
    }
  }

  /** The lost wakeup: a killed writer fills the pipe and returns while the reader sleeps on. */
  method LostWakeup(addr: seq<Byte>) returns (p: Pipe)
    requires |addr| > PIPESIZE
    ensures fresh(p) && p.Valid()
    ensures 1 in p.sleepingReaders && |p.accepted| == |p.delivered| + PIPESIZE
  {
    p := new Pipe();
    var r, buf := p.Read(1, 1);
    p.Kill(2);
    var w, j := p.Write(2, addr, 0);
  }
}
