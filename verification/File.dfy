/** file.c: writing through an open file, a few blocks per transaction. */
module File {
  import opened Arith
  import opened Params
  import opened Wrappers
  import opened Blocks
  import opened Bitmap
  import opened Inodes
  import opened BlockMap
  import opened FileContent
  import opened FileSystem
  import opened LogMachine
  import opened Log
  import opened Journal

  const CHUNK := (MAXOPBLOCKS - 1 - 1 - 2) / 2 * 512

  /** A crash after k steps leaves the file system with the first m bytes of data written, for some m: nothing, all
      of them, or whole chunks. */
  ghost predicate LeavesPrefix(j: Journal, es: seq<Event>, k: nat, s0: Snap, i: nat, off: nat, data: seq<Byte>)
    requires GoodImage(j.layout, j.image)
  {
    exists s: Snap, m: nat ::
      && m <= |data| && (m == |data| || m % 1536 == 0) && WriteDone(j.sb, s0, s, i, off, data[..m])
      && Leaves(j.layout, j.image, es, k, s.fs.disk)
  }

  /** An open inode file. */
  class File {
    const jrn: Journal
    const inum: nat
    const writable: bool
    var off: Word

    constructor (jrn: Journal, inum: nat, writable: bool)
      requires jrn.Valid() && inum < jrn.sb.ninodes && NoHole(jrn.fs.View(), inum)
      ensures Valid() && this.jrn == jrn && this.inum == inum && this.writable == writable && off == 0
    {
      this.jrn := jrn;
      this.inum := inum;
      this.writable := writable;
      off := 0;
    }

    ghost predicate Valid()
      reads jrn.log, jrn.log.block, jrn.fs
    {
      jrn.Valid() && inum < jrn.sb.ninodes && NoHole(jrn.fs.View(), inum)
    }

    /** One transaction of filewrite: at most CHUNK bytes at the file's offset.  None: panic.  tx is what it logs. */
    method WriteChunk(src: seq<Byte>) returns (w: Option<int>, ghost tx: set<nat>)
      requires Valid() && |src| <= CHUNK
      modifies this`off, jrn.log, jrn.log.block, jrn.fs
      ensures old(jrn.log.trace) <= jrn.log.trace && jrn.log.block == old(jrn.log.block)
      ensures CrashLeaves(jrn.layout, jrn.image, jrn.log.trace, |old(jrn.log.trace)|, old(jrn.fs.disk),
                          if w.Some? then jrn.fs.disk else old(jrn.fs.disk))
      ensures w.Some? ==> Valid() && |tx| <= ChunkLimit(jrn.sb)
      ensures w.Some? ==>
                (w.value != -1 <==> old(off) <= old(jrn.fs.inodes)[inum].size && old(off) + |src| <= MAXFILE * BSIZE)
      ensures w == Some(-1) ==>
                off == old(off) && jrn.fs.View() == old(jrn.fs.View()) && jrn.fs.owner == old(jrn.fs.owner)
      ensures w.Some? && w.value != -1 ==>
                && w.value == |src| && off == old(off) + |src|
                && WriteDone(jrn.sb, old(jrn.fs.Now()), jrn.fs.Now(), inum, old(off), src)
      ensures w.None? && ChunkLimit(jrn.sb) + 1 < jrn.layout.size ==> Full(jrn.sb, jrn.fs.disk)
    {
      hide AllSettled, WriteDone, NoHole, CrashLeaves, NoNewHole;
      SizeInRange(jrn.sb, jrn.fs.Now(), inum);
      ghost var s := jrn.fs.Now();
      w := jrn.Write(inum, src, off);      // begin_op, writei, end_op
      tx := jrn.fs.logged;
      if w.Some? && w.value != -1 {
        WriteDoneSettled(jrn.sb, s, jrn.fs.Now(), inum, off, src);
        off := off + w.value;
      }
    }

    /** i bytes of data are written; from step a of the log on, a crash leaves a prefix of them. */
    ghost predicate Progress(data: seq<Byte>, i: nat, s0: Snap, off0: nat, a: nat)
      reads this, jrn.log, jrn.log.block, jrn.fs
    {
      && Valid() && i <= |data| && (i == |data| || i % 1536 == 0) && off == off0 + i && a <= |jrn.log.trace|
      && WriteDone(jrn.sb, s0, jrn.fs.Now(), inum, off0, data[..i])
      && PrefixFrom(jrn, jrn.log.trace, a, s0, inum, off0, data)
    }

    /** One pass of filewrite's loop. */
    method WriteNext(data: seq<Byte>, i: nat, ghost s0: Snap, ghost off0: nat, ghost a: nat)
      returns (w: Option<int>, ghost tx: set<nat>)
      requires Progress(data, i, s0, off0, a) && i < |data|
      modifies this`off, jrn.log, jrn.log.block, jrn.fs
      ensures jrn.log.block == old(jrn.log.block)
      ensures w.Some? ==> |tx| <= ChunkLimit(jrn.sb)
      ensures PrefixFrom(jrn, jrn.log.trace, a, s0, inum, off0, data)
      ensures w.Some? ==>
                var n1 := Min(CHUNK, |data| - i);
                && (w.value != -1 <==> old(off) <= old(jrn.fs.inodes)[inum].size && old(off) + n1 <= MAXFILE * BSIZE)
                && (w.value == -1 ==> Progress(data, i, s0, off0, a))
                && (w.value != -1 ==> w.value == n1 && Progress(data, i + n1, s0, off0, a))
      ensures w.None? && ChunkLimit(jrn.sb) + 1 < jrn.layout.size ==> Full(jrn.sb, jrn.fs.disk)
    {
      hide AllSettled, WriteDone, NoHole, NoNewHole, LeavesPrefix, CrashLeaves, AtRest, Safe, PrefixFrom, Reaches;
      var n1 := Min(CHUNK, |data| - i);
      ghost var s, es := jrn.fs.Now(), jrn.log.trace;
      w, tx := WriteChunk(data[i..i + n1]);
      ghost var s' := if w.Some? && w.value != -1 then jrn.fs.Now() else s;
      ghost var i' := if w.Some? && w.value != -1 then i + n1 else i;
      ChunkStep(i, |data|);
      if w.Some? && w.value != -1 {
        assert data[..i] + data[i..i + n1] == data[..i + n1];
        WriteDoneTrans(jrn.sb, s0, s, s', inum, off0, data[..i], data[i..i + n1]);
      } else if w.Some? {
        SameWriteDone(jrn.sb, s0, s, jrn.fs.Now(), inum, off0, data[..i]);
      }
      PrefixMore(jrn, es, jrn.log.trace, a, s0, s, s', inum, off0, data, i, i');
    }

    /** Write n bytes of addr at the file's offset.  None: panic.  txs lists what each transaction logged. */
    method FileWrite(addr: seq<Byte>, n: int) returns (r: Option<int>, ghost txs: seq<set<nat>>)
      requires Valid() && n <= |addr|
      modifies this`off, jrn.log, jrn.log.block, jrn.fs
      ensures forall t :: 0 <= t < |txs| ==> |txs[t]| <= ChunkLimit(jrn.sb)
      ensures r.Some? ==> Valid()
      ensures r.None? && ChunkLimit(jrn.sb) + 1 < jrn.layout.size ==> Full(jrn.sb, jrn.fs.disk)
      ensures PrefixFrom(jrn, jrn.log.trace, |old(jrn.log.trace)|, old(jrn.fs.Now()), inum, old(off), addr[..Max(n, 0)])
      ensures !writable || n < 0 ==> r == Some(-1) && off == old(off) && jrn.fs.Now() == old(jrn.fs.Now())
      ensures r.Some? && writable && n > 0 ==>
                (r.value == n <==> old(off) <= old(jrn.fs.inodes)[inum].size && old(off) + n <= MAXFILE * BSIZE)
      ensures r.Some? && writable && 0 <= n == r.value ==>
                off == old(off) + n && WriteDone(jrn.sb, old(jrn.fs.Now()), jrn.fs.Now(), inum, old(off), addr[..n])
      ensures r.Some? && writable && n >= 0 && r.value != n ==>
                r.value == -1 &&
                exists i :: 0 <= i < n && i % 1536 == 0 && off == old(off) + i
                            && (if old(off) > old(jrn.fs.inodes)[inum].size then i == 0
                                else old(off) + Min(i + 1536, n) > MAXFILE * BSIZE)
                            && WriteDone(jrn.sb, old(jrn.fs.Now()), jrn.fs.Now(), inum, old(off), addr[..i])
    {
      hide AllSettled, WriteDone, NoHole, NoNewHole, AtRest, Safe, PrefixFrom, Reaches;
      txs := [];
      ghost var s0, off0, a := jrn.fs.Now(), off, |jrn.log.trace|;
      var data := addr[..Max(n, 0)];
      SizeInRange(jrn.sb, s0, inum);
      NothingWritten(jrn.sb, s0, s0, inum, off0);
      PrefixStart(jrn, s0, inum, off0, data);
      if !writable {
        return Some(-1), txs;
      }
      assert data[..0] == [];
      var i := 0;
      while i < n
        invariant 0 <= i <= Max(n, 0) && Progress(data, i, s0, off0, a) && (i == 0 ==> jrn.fs.Now() == s0)
        invariant i > 0 ==> off0 <= s0.fs.inodes[inum].size && off0 + i <= MAXFILE * BSIZE
        invariant jrn.log.block == old(jrn.log.block)
        invariant forall t :: 0 <= t < |txs| ==> |txs[t]| <= ChunkLimit(jrn.sb)
      {
        WriteDoneSize(jrn.sb, s0, jrn.fs.Now(), inum, off0, data[..i]);
        var w, tx := WriteNext(data, i, s0, off0, a);
        if w.None? {
          return None, txs;
        }
        txs := txs + [tx];
        if w.value < 0 {
          assert data[..i] == addr[..i];
          return Some(-1), txs;
        }
        i := i + w.value;
      }
      assert n >= 0 ==> data[..i] == addr[..i] == addr[..n];
      return Some(if i == n then n else -1), txs;
    }
  }

  lemma ChunkStep(i: nat, n: nat)
    requires i % 1536 == 0 && i < n
    ensures i + Min(CHUNK, n - i) == n || (i + Min(CHUNK, n - i)) % 1536 == 0
  {
  }

  lemma SameWriteDone(sb: Super, s0: Snap, s: Snap, s': Snap, i: nat, off: nat, src: seq<Byte>)
    requires WriteDone(sb, s0, s, i, off, src) && s'.fs == s.fs && s'.owner == s.owner
    ensures WriteDone(sb, s0, s', i, off, src)
  {
    hide Settled, Core, Written, NoNewHole;
  }

  /** From the a-th step on, a crash leaves a prefix of data written. */
  ghost predicate PrefixFrom(j: Journal, es: seq<Event>, a: nat, s0: Snap, i: nat, off: nat, data: seq<Byte>)
    requires GoodImage(j.layout, j.image)
  {
    forall k :: a <= k <= |es| ==> LeavesPrefix(j, es, k, s0, i, off, data)
  }

  lemma PrefixStart(j: Journal, s0: Snap, i: nat, off: nat, data: seq<Byte>)
    requires j.Valid() && s0 == j.fs.Now() && WriteDone(j.sb, s0, s0, i, off, [])
    ensures PrefixFrom(j, j.log.trace, |j.log.trace|, s0, i, off, data)
  {
    hide WriteDone, AllSettled, Safe, Leaves, SpecRun, Fresh;
    LeavesDurable(j.layout, j.image, j.log.trace, j.log.View(), |j.log.trace|);
    assert data[..0] == [];
  }

  /** One more chunk: the old crash points, and those of the chunk. */
  lemma PrefixMore(j: Journal, es: seq<Event>, es': seq<Event>, a: nat, s0: Snap, s: Snap, s': Snap, i: nat, off: nat,
                   data: seq<Byte>, m: nat, m': nat)
    requires GoodImage(j.layout, j.image) && a <= |es| && es <= es'
    requires PrefixFrom(j, es, a, s0, i, off, data)
    requires CrashLeaves(j.layout, j.image, es', |es|, s.fs.disk, s'.fs.disk)
    requires m <= |data| && m' <= |data| && m % 1536 == 0 && (m' == |data| || m' % 1536 == 0)
    requires WriteDone(j.sb, s0, s, i, off, data[..m]) && WriteDone(j.sb, s0, s', i, off, data[..m'])
    ensures PrefixFrom(j, es', a, s0, i, off, data)
  {
    hide WriteDone, Leaves;
    forall k | a <= k <= |es'|
      ensures LeavesPrefix(j, es', k, s0, i, off, data)
    {
      if k < |es| {
        assert LeavesPrefix(j, es, k, s0, i, off, data);
        var s1: Snap, m1: nat :|
          && m1 <= |data| && (m1 == |data| || m1 % 1536 == 0) && WriteDone(j.sb, s0, s1, i, off, data[..m1])
          && Leaves(j.layout, j.image, es, k, s1.fs.disk);
        LeavesMore(j.layout, j.image, es, es', k, s1.fs.disk);
      }
    }
  }

  lemma SizeInRange(sb: Super, s: Snap, i: nat)
    requires AllSettled(sb, s) && i < sb.ninodes
    ensures i < |s.fs.inodes| && s.fs.inodes[i].size <= MAXFILE * BSIZE
  {
    hide Addr, Owns, FreeMap;
    assert Settled(sb, s.fs, i);
  }

  lemma WriteDoneSize(sb: Super, s0: Snap, s: Snap, i: nat, off: nat, src: seq<Byte>)
    requires WriteDone(sb, s0, s, i, off, src)
    ensures i < |s0.fs.inodes| && i < |s.fs.inodes|
    ensures s.fs.inodes[i].size == Max(s0.fs.inodes[i].size, if |src| == 0 then 0 else off + |src|)
  {
    hide Addr, Owns, FreeMap, Written, Settled;
  }
}
