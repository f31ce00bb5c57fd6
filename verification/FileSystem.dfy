/** fs.c: block allocation, bmap, readi, writei and itrunc, updating blocks and inodes in place. */
module FileSystem {
  import opened Arith
  import opened Params
  import opened Wrappers
  import opened Blocks
  import opened Bitmap
  import opened Inodes
  import opened BlockMap
  import opened BlockRange
  import opened LogWrites
  import opened FileContent
  import opened Truncate

  class FileSystem {
    const sb: Super
    var disk: seq<Block>
    var inodes: seq<Inode>
    ghost var owner: map<nat, Slot>
    ghost var logged: set<nat>     // blocks passed to log_write in the current transaction
    var writes: seq<Logged>        // the calls of log_write, with what the buffers held

    /** A file system mounted from a consistent image. */
    constructor (sb: Super, disk: seq<Block>, inodes: seq<Inode>, ghost owner: map<nat, Slot>)
      requires AllSettled(sb, Snap(Fs(disk, inodes), owner, {}))
      ensures Valid() && this.sb == sb && Now() == Snap(Fs(disk, inodes), owner, {}) && writes == []
    {
      this.sb := sb;
      this.disk := disk;
      this.inodes := inodes;
      this.owner := owner;
      logged := {};
      writes := [];
    }

    ghost function View(): Fs
      reads this
    {
      Fs(disk, inodes)
    }

    ghost function Now(): Snap
      reads this
    {
      Snap(View(), owner, logged)
    }

    ghost function Held(): Cache
      reads this
    {
      Cache(disk, writes, logged)
    }

    ghost predicate Valid()
      reads this
    {
      AllSettled(sb, Now())
    }

    /** Hand block b, as its buffer now is, to the log. */
    method LogWrite(b: nat)
      requires b < |disk|
      modifies this`logged, this`writes
      ensures logged == old(logged) + {b} && writes == old(writes) + [Logged(b, disk[b])]
    {
      logged := logged + {b};
      writes := writes + [Logged(b, disk[b])];
    }

    /** Store data in the buffer of block b and hand it to the log. */
    method StoreLogged(b: nat, data: Block)
      requires sb.inodestart <= b < |disk|
      modifies this`disk, this`logged, this`writes
      ensures disk == old(disk)[b := data] && logged == old(logged) + {b}
      ensures Journaled(sb.inodestart, old(Held()), Held())
    {
      hide Journaled;
      JournaledOne(sb.inodestart, Held(), b, data);
      disk := disk[b := data];
      LogWrite(b);
    }

    /** balloc's inner loop: the first clear bit in the bitmap block that starts with block b's bit. */
    method FirstClear(b: nat) returns (bi: nat)
      requires Core(sb, View(), owner) && b < sb.size && b % BPB == 0 && UsedUpTo(sb, disk, b)
      ensures bi <= BPB && UsedUpTo(sb, disk, b + bi)
      ensures bi < BPB && b + bi < sb.size ==> !Used(sb, disk, b + bi)
    {
      hide Bit, Owns, FreeMap, Used, UsedUpTo;
      BitmapInRange(sb);
      var bp := disk[sb.BitmapBlock(b)];
      bi := 0;
      while bi < BPB && b + bi < sb.size
        invariant 0 <= bi <= BPB && UsedUpTo(sb, disk, b + bi)
      {
        BitPlace(sb, disk, b, bi);
        if !Bit(bp[bi / 8], bi % 8) {
          return;
        }
        UsedNext(sb, disk, b + bi);
        bi := bi + 1;
      }
    }

    /** Set the bit of a free block, and zero the block. */
    method Claim(b: nat, bi: nat)
      requires Core(sb, View(), owner) && b % BPB == 0 && bi < BPB && b + bi < sb.size && !Used(sb, disk, b + bi)
      modifies this`disk, this`logged, this`writes
      ensures sb.nmeta <= b + bi && b + bi !in owner
      ensures disk == Mark(sb, old(disk), b + bi, true)[b + bi := ZeroBlock()]
      ensures logged == old(logged) + {sb.BitmapBlock(b + bi), b + bi}
      ensures Journaled(sb.inodestart, old(Held()), Held())
    {
      hide Bit, Owns, FreeMap, ZeroBlock, PutByteBit, Used, Mark, Journaled;
      ghost var h := Held();
      BitmapInRange(sb);
      NotUsed(sb, View(), owner, b + bi);
      BitPlace(sb, disk, b, bi);
      var bp := disk[sb.BitmapBlock(b)];
      StoreLogged(sb.BitmapBlock(b), bp[bi / 8 := PutByteBit(bp[bi / 8], bi % 8, true)]);
      ghost var h1 := Held();
      StoreLogged(b + bi, ZeroBlock());   // bzero
      JournaledTrans(sb.inodestart, h, h1, Held());
    }

    /** Find the first free block, mark it, zero it.  None: panic, out of blocks. */
    method Balloc() returns (r: Option<Word>)
      requires Core(sb, View(), owner)
      modifies this`disk, this`logged, this`writes
      ensures r.Some? ==>
                && sb.nmeta <= r.value < sb.size && r.value !in owner && UsedUpTo(sb, old(disk), r.value)
                && disk == Mark(sb, old(disk), r.value, true)[r.value := ZeroBlock()]
                && logged == old(logged) + {sb.BitmapBlock(r.value), r.value}
      ensures r.None? ==>
                disk == old(disk) && logged == old(logged) && Full(sb, disk)
      ensures Journaled(sb.inodestart, old(Held()), Held())
    {
      hide Owns, FreeMap, ZeroBlock, Used, Mark, Journaled, UsedUpTo, Full;
      JournaledSame(sb.inodestart, Held());
      UsedStart(sb, disk);
      var b := 0;
      while b < sb.size
        invariant disk == old(disk) && logged == old(logged) && writes == old(writes)
        invariant b % BPB == 0 && UsedUpTo(sb, disk, b)
      {
        var bi := FirstClear(b);
        if bi < BPB && b + bi < sb.size {
          Claim(b, bi);
          return Some(b + bi);
        }
        UsedAll(sb, disk, b + bi);
        b := b + BPB;
      }
      UsedAll(sb, disk, b);
      return None;
    }

    /** Clear b's bit; true: panic, freeing a free block. */
    method Bfree(b: nat) returns (panicked: bool)
      requires sb.Valid() && |disk| == sb.size && b < sb.size
      modifies this`disk, this`logged, this`writes
      ensures panicked <==> !Used(sb, old(disk), b)
      ensures panicked ==> disk == old(disk) && logged == old(logged)
      ensures !panicked ==> disk == Mark(sb, old(disk), b, false) && logged == old(logged) + {sb.BitmapBlock(b)}
      ensures Journaled(sb.inodestart, old(Held()), Held())
    {
      hide Bit, PutByteBit, Journaled, Used, Mark;
      JournaledSame(sb.inodestart, Held());
      BitmapInRange(sb);
      BitHere(sb, disk, b, false);
      var bb := sb.BitmapBlock(b);
      var bi := b % BPB;
      if !Bit(disk[bb][bi / 8], bi % 8) {
        return true;
      }
      StoreLogged(bb, disk[bb][bi / 8 := PutByteBit(disk[bb][bi / 8], bi % 8, false)]);
      return false;
    }

    /** The block in slot k of the inode itself, allocating it if there is none. */
    method InodeSlot(i: nat, k: nat) returns (r: Option<Word>, ghost bm: set<nat>)
      requires Core(sb, View(), owner) && i < sb.ninodes && k <= NDIRECT
      modifies this`disk, this`inodes, this`owner, this`logged, this`writes
      ensures SlotDone(sb, old(Now()), Now(), i, k, r, {}, bm, Missing(old(View()), i, k))
      ensures r.Some? ==> Shape(sb, View()) && AddrPut(sb, old(View()), View(), i, k, r.value)
      ensures Journaled(sb.inodestart, old(Held()), Held())
    {
      hide Owns, FreeMap, Mark, ZeroBlock, Addr, Used, Journaled, SlotDone, AddrPut;
      JournaledSame(sb.inodestart, Held());
      ghost var s := Now();
      InodeThere(sb, s, i, k);
      bm := {};
      var addr := inodes[i].addrs[k];
      if addr == 0 {
        var nb := Balloc();
        if nb.None? {
          SlotNone(sb, s, i, k, {});
          return None, {};
        }
        addr := nb.value;
        inodes := inodes[i := inodes[i].(addrs := inodes[i].addrs[k := addr])];
        InodeGiven(sb, s, addr, i, k);
        owner := owner[addr := Slot(i, k)];
        bm := {sb.BitmapBlock(addr)};
      }
      return Some(addr), bm;
    }

    /** The block listed at slot k of the indirect block, allocating it if there is none. */
    method ListedSlot(i: nat, k: nat) returns (r: Option<Word>, ghost bm: set<nat>)
      requires Core(sb, View(), owner) && i < sb.ninodes && NDIRECT < k < SLOTS && Missing(View(), i, NDIRECT) == 0
      modifies this`disk, this`owner, this`logged, this`writes
      ensures SlotDone(sb, old(Now()), Now(), i, k, r, IndirectOf(View(), i), bm, Missing(old(View()), i, k))
      ensures Journaled(sb.inodestart, old(Held()), Held())
    {
      hide Owns, FreeMap, Mark, ZeroBlock, GetWord, SetWord, Used, Addr, Missing, SlotDone, IndirectOf, Journaled;
      ghost var s, h := Now(), Held();
      JournaledSame(sb.inodestart, h);
      IndirectInRange(sb, View(), owner, i);
      bm := {};
      var ind := inodes[i].addrs[NDIRECT];
      var a := GetWord(disk[ind], k - 13);
      ListedAddr(sb, s, i, k);
      if a == 0 {
        var nb := Balloc();
        if nb.None? {
          SlotNone(sb, s, i, k, IndirectOf(s.fs, i));
          return None, {};
        }
        a := nb.value;
        ListedGiven(sb, s, a, i, k);
        ghost var h1 := Held();
        StoreLogged(ind, SetWord(disk[ind], k - 13, a));
        JournaledTrans(sb.inodestart, h, h1, Held());
        owner := owner[a := Slot(i, k)];
        bm := {sb.BitmapBlock(a)};
      }
      return Some(a), bm;
    }

    /** The disk address of the bn-th block of inode i, allocated if there is none.  None: panic. */
    method Bmap(i: nat, bn: nat) returns (r: Option<Word>, ghost bm: set<nat>)
      requires Core(sb, View(), owner) && i < sb.ninodes
      modifies this`disk, this`inodes, this`owner, this`logged, this`writes
      ensures bn >= MAXFILE ==> r.None? && Now() == old(Now())
      ensures bn < MAXFILE ==>
                && SlotDone(sb, old(Now()), Now(), i, DataSlot(bn), r, Via(View(), i, bn), bm,
                            Needed(old(View()), i, bn))
                && (r.None? <==> |FreeBlocks(sb, old(disk))| < Needed(old(View()), i, bn))
      ensures Journaled(sb.inodestart, old(Held()), Held())
    {
      hide Owns, FreeMap, SlotDone, AddrPut, Missing, Journaled;
      JournaledSame(sb.inodestart, Held());
      ghost var s := Now();
      bm := {};
      if bn < NDIRECT {
        r, bm := InodeSlot(i, bn);
        SlotExact(sb, s, Now(), i, bn, r, {}, bm, Missing(s.fs, i, bn));
      } else if bn - NDIRECT < NINDIRECT {
        r, bm := BmapIndirect(i, bn - NDIRECT);
        SlotExact(sb, s, Now(), i, bn + 1, r, IndirectOf(View(), i), bm, Needed(s.fs, i, bn));
      } else {
        r := None;
      }
    }

    method BmapIndirect(i: nat, n: nat) returns (r: Option<Word>, ghost bm: set<nat>)
      requires Core(sb, View(), owner) && i < sb.ninodes && n < NINDIRECT
      modifies this`disk, this`inodes, this`owner, this`logged, this`writes
      ensures SlotDone(sb, old(Now()), Now(), i, n + 13, r, IndirectOf(View(), i), bm,
                       Missing(old(View()), i, n + 13) + Missing(old(View()), i, NDIRECT))
      ensures Journaled(sb.inodestart, old(Held()), Held())
    {
      hide Owns, FreeMap, SlotDone, AddrPut, Missing, IndirectOf, Journaled;
      ghost var s, h := Now(), Held();
      ghost var bm1, bm2;
      r, bm1 := InodeSlot(i, NDIRECT);
      bm := bm1;
      ghost var s1 := Now();
      if r.None? {
        NoIndirectBlock(sb, s, s1, i, n + 13, bm1);
        return;
      }
      GotIndirectBlock(sb, s, s1, i, n + 13, r, bm1);
      ghost var r1, h1 := r, Held();
      r, bm2 := ListedSlot(i, n + 13);
      JournaledTrans(sb.inodestart, h, h1, Held());
      bm := bm1 + bm2;
      BothSlots(sb, s, s1, Now(), i, n + 13, r1, r, bm1, bm2);
    }

    /** readi's loop: the len bytes at off, block by block.  False: panic. */
    method ReadBlocks(i: nat, off: nat, len: nat) returns (ok: bool, dst: seq<Byte>)
      requires Core(sb, View(), owner) && i < sb.ninodes && off + len <= MAXFILE * BSIZE
      modifies this`disk, this`inodes, this`owner, this`logged, this`writes
      ensures EndBlock(off, len) <= MAXFILE
      ensures ok ==> Filling(sb, old(Now()), Now(), i, off, len) && dst == FileBytes(old(View()), i, off, len)
      ensures !ok ==> Full(sb, disk) && Short(sb, old(Now()), Lacking(old(View()), i, off / BSIZE, EndBlock(off, len)))
      ensures Journaled(sb.inodestart, old(Held()), Held())
    {
      hide Owns, FreeMap, Addr, SlotDone, FileBytes, Filling, Journaled, Lacking, PassAt, EndBlock;
      ghost var s0, h := Now(), Held();
      JournaledSame(sb.inodestart, h);
      EndInFile(off, len);
      FillingStart(sb, s0, i, off);
      PassStart(off, len);
      dst := [];
      var tot := 0;
      while tot < len
        invariant 0 <= tot <= len && PassAt(off, len, tot)
        invariant Filling(sb, s0, Now(), i, off, tot)
        invariant dst == FileBytes(s0.fs, i, off, tot)
        invariant Journaled(sb.inodestart, h, Held())
      {
        var bn := (off + tot) / BSIZE;
        var m := Min(len - tot, BSIZE - (off + tot) % BSIZE);
        ghost var s, h1 := Now(), Held();
        PassNext(off, len, tot, m);
        FillingCore(sb, s0, s, i, off, tot);
        var a, bm := Bmap(i, bn);
        JournaledTrans(sb.inodestart, h, h1, Held());
        if a.None? {
          FillingNone(sb, s0, s, Now(), i, off, len, tot, m, bm);
          return false, [];
        }
        FillingStep(sb, s0, s, Now(), i, off, len, tot, m, a.value, bm);
        var o := (off + tot) % BSIZE;
        dst := dst + disk[a.value][o..o + m];
        tot := tot + m;
      }
      return true, dst;
    }

    /** Read n bytes at off from inode i; Some(-1) if off is past the end or off + n overflows.  A block that
        was never allocated is allocated, and reads as zeros.  None: panic, out of blocks. */
    method ReadI(i: nat, off: Word, n: Word) returns (r: Option<int>, dst: seq<Byte>)
      requires Valid() && i < sb.ninodes
      modifies this`disk, this`inodes, this`owner, this`logged, this`writes
      ensures old(inodes)[i].size <= MAXFILE * BSIZE
      ensures off > old(inodes)[i].size || off + n >= 0x1_0000_0000 ==>
                r == Some(-1) && dst == [] && Now() == old(Now())
      ensures off <= old(inodes)[i].size && off + n < 0x1_0000_0000 ==>
                var len := Min(n, old(inodes)[i].size - off);
                && EndBlock(off, len) <= MAXFILE
                && (r.None? <==> |FreeBlocks(sb, old(disk))| < Lacking(old(View()), i, off / BSIZE, EndBlock(off, len)))
                && (r.None? ==> Full(sb, disk))
                && (r.Some? ==> r.value == len && dst == Content(old(View()), i)[off..off + len])
                && (r.Some? ==> ReadDone(sb, old(Now()), Now(), i, off, len))
      ensures Journaled(sb.inodestart, old(Held()), Held())
    {
      hide Owns, FreeMap, Addr, FileBytes, OnDisk, Filling, Journaled, ReadDone, Lacking, EndBlock, Add32, Full,
        FreeBlocks;
      dst := [];
      assert Settled(sb, View(), i);
      ghost var s0, h := Now(), Held();
      JournaledSame(sb.inodestart, h);
      Add32Wraps(off, n);
      if off > inodes[i].size || Add32(off, n) < off {
        return Some(-1), [];
      }
      var len: int := n;
      if off + len > inodes[i].size {
        len := inodes[i].size - off;
      }
      FreeCount(sb, s0.fs, s0.owner);
      var ok;
      ok, dst := ReadBlocks(i, off, len);
      if !ok {
        return None, [];
      }
      FillingExact(sb, s0, Now(), i, off, len);
      ContentSlice(s0.fs, i, off, len);
      return Some(len), dst;
    }

    /** One pass of writei's loop: store part, which lies within one block, at off.  False: panic. */
    method WritePart(i: nat, off: nat, part: seq<Byte>) returns (ok: bool, ghost bm: set<nat>)
      requires Core(sb, View(), owner) && i < sb.ninodes && off < MAXFILE * BSIZE && off % BSIZE + |part| <= BSIZE
      modifies this`disk, this`inodes, this`owner, this`logged, this`writes
      ensures ok ==> PartDone(sb, old(Now()), Now(), i, off, part, bm)
      ensures !ok ==> Full(sb, disk) && Short(sb, old(Now()), Needed(old(View()), i, off / BSIZE))
      ensures Journaled(sb.inodestart, old(Held()), Held())
    {
      hide Owns, FreeMap, Addr, SlotDone, Overlay, PartDone, Missing, IndirectOf, Journaled;
      ghost var s, h := Now(), Held();
      var a;
      a, bm := Bmap(i, off / BSIZE);
      if a.None? {
        NoneWhenFull(sb, s, Now(), i, DataSlot(off / BSIZE), Via(View(), i, off / BSIZE), bm,
                     Needed(s.fs, i, off / BSIZE));
        return false, {};
      }
      ghost var s1, h1 := Now(), Held();
      SlotInRange(sb, s, s1, i, off / BSIZE, a.value, bm);
      StoreLogged(a.value, Overlay(disk[a.value], off % BSIZE, part));
      JournaledTrans(sb.inodestart, h, h1, Held());
      PartStored(sb, s, s1, Now(), i, off, part, a.value, bm);
      return true, bm;
    }

    /** writei's loop: store src at off, block by block.  False: panic. */
    method WriteBlocks(i: nat, src: seq<Byte>, off: nat) returns (ok: bool, ghost acc: Acc)
      requires Valid() && i < sb.ninodes && off <= inodes[i].size && off + |src| <= MAXFILE * BSIZE
      modifies this`disk, this`inodes, this`owner, this`logged, this`writes
      ensures EndBlock(off, |src|) <= MAXFILE
      ensures ok ==> Writing(sb, old(Now()), Now(), i, off, src, |src|, acc)
      ensures !ok ==> Full(sb, disk)
      ensures !ok ==> Short(sb, old(Now()), Lacking(old(View()), i, off / BSIZE, EndBlock(off, |src|)))
      ensures Journaled(sb.inodestart, old(Held()), Held())
    {
      hide Owns, FreeMap, Addr, Writing, PartDone, Settled, Journaled, Lacking, Needed, EndBlock;
      ghost var s0, h := Now(), Held();
      JournaledSame(sb.inodestart, h);
      EndInFile(off, |src|);
      acc := Acc({}, {});
      WritingStart(sb, s0, i, off, src);
      var tot := 0;
      while tot < |src|
        invariant 0 <= tot <= |src|
        invariant Writing(sb, s0, Now(), i, off, src, tot, acc)
        invariant Journaled(sb.inodestart, h, Held())
      {
        var m := Min(|src| - tot, BSIZE - (off + tot) % BSIZE);
        ghost var s, h1 := Now(), Held();
        WritingCore(sb, s0, s, i, off, src, tot, acc);
        var done, bm := WritePart(i, off + tot, src[tot..tot + m]);
        JournaledTrans(sb.inodestart, h, h1, Held());
        if !done {
          WritingNone(sb, s0, s, i, off, src, tot, acc);
          return false, acc;
        }
        WritingStep(sb, s0, s, Now(), i, off, src, tot, m, acc, bm);
        acc := NextAcc(Addr(View(), i, DataSlot((off + tot) / BSIZE)), bm, acc);
        tot := tot + m;
      }
      return true, acc;
    }

    /** Write src at off in inode i.  None: panic, out of blocks.  Some(-1): refused. */
    method WriteI(i: nat, src: seq<Byte>, off: Word) returns (r: Option<int>)
      requires Valid() && i < sb.ninodes && |src| < 0x1_0000_0000
      modifies this
      ensures r != Some(-1) <==> off <= old(inodes)[i].size && off + |src| <= MAXFILE * BSIZE
      ensures r == Some(-1) ==> Now() == old(Now())
      ensures off <= old(inodes)[i].size && off + |src| <= MAXFILE * BSIZE ==>
                && EndBlock(off, |src|) <= MAXFILE
                && (r.None? <==>
                      |FreeBlocks(sb, old(disk))| < Lacking(old(View()), i, off / BSIZE, EndBlock(off, |src|)))
      ensures r.None? ==> Full(sb, disk)
      ensures r.Some? && r.value != -1 ==>
                && r.value == |src| && WriteDoneBut(sb, old(Now()), Now(), i, off, src)
                && (WriteDone(sb, old(Now()), Now(), i, off, src) <==>
                      Lengthens(old(inodes)[i].size, off, |src|)
                      || InodeWhole(old(View()), i, off / BSIZE, EndBlock(off, |src|)))
      ensures r.Some? && r.value != -1 ==>
                Shape(sb, View()) && |FreeBlocks(sb, disk)| ==
                |FreeBlocks(sb, old(disk))| - Lacking(old(View()), i, off / BSIZE, EndBlock(off, |src|))
      ensures r.Some? && r.value != -1 && |src| <= 1536 && old(logged) == {} && NoHole(old(View()), i) ==>
                |logged| <= ChunkLimit(sb)
      ensures Journaled(sb.inodestart, old(Held()), Held())
    {
      hide Owns, FreeMap, Addr, Writing, WriteDone, WriteDoneBut, Settled, Journaled, InodeWhole, Lacking, NoHole,
        EndBlock, Add32, Full, FreeBlocks;
      var n := |src|;
      ghost var s0, h := Now(), Held();
      JournaledSame(sb.inodestart, h);
      Add32Wraps(off, n);
      if off > inodes[i].size || Add32(off, n) < off {
        return Some(-1);
      }
      if Add32(off, n) > MAXFILE * BSIZE {
        return Some(-1);
      }
      FreeCount(sb, s0.fs, s0.owner);
      EndInFile(off, n);
      var ok, acc := WriteBlocks(i, src, off);
      if !ok {
        return None;
      }
      ghost var s := Now();
      WritingCore(sb, s0, s, i, off, src, n, acc);
      WritingEnough(sb, s0, s, i, off, src, acc);
      if n > 0 && off + n > inodes[i].size {
        inodes := inodes[i := inodes[i].(size := off + n)];
        ghost var h1 := Held();
        IupdateInode(i);
        JournaledTrans(sb.inodestart, h, h1, Held());
        BeyondDone(sb, s0, s, i, off, src, acc, logged);
      } else {
        InsideDone(sb, s0, s, i, off, src, acc);
      }
      WritingCount(sb, s0, s, Now(), i, off, src, acc);
      if s0.logged == {} && n <= 1536 && NoHole(s0.fs, i) {
        TransactionBound(sb, s0, s, i, off, src, acc, logged);
      }
      return Some(n);
    }

    /** Copy the in-memory inode to its place on disk. */
    method IupdateInode(i: nat)
      requires Shape(sb, View()) && i < sb.ninodes
      modifies this`disk, this`logged, this`writes
      ensures View() == Iupdate(sb, old(View()), i) && logged == old(logged) + {sb.InodeBlock(i)}
      ensures Journaled(sb.inodestart, old(Held()), Held())
    {
      hide InodeWords, SetWord, Journaled;
      var ib := sb.InodeBlock(i);
      var ws := InodeWords(inodes[i]);
      var dip := disk[ib];
      var k := 0;
      while k < 16
        invariant 0 <= k <= 16 && dip == PutWords(disk[ib], 16 * (i % 8), ws, k)
      {
        dip := SetWord(dip, 16 * (i % 8) + k, ws[k]);
        k := k + 1;
      }
      StoreLogged(ib, dip);
    }

    /** Discard the contents of inode i.  It never frees a free block. */
    method Itrunc(i: nat)
      requires Valid() && i < sb.ninodes
      modifies this
      ensures Truncated(sb, old(Now()), Now(), i)
      ensures Journaled(sb.inodestart, old(Held()), Held())
      ensures logged <= old(logged) + Bitmaps(sb) + {sb.InodeBlock(i)}
    {
      hide Owns, FreeMap, Addr, Truncating, Emptied, Truncated, Used, Mark, Settled, Journaled;
      ghost var s0, h := Now(), Held();
      JournaledSame(sb.inodestart, h);
      TruncatingStart(sb, s0, i);
      var k := 0;
      while k < NDIRECT
        invariant 0 <= k <= NDIRECT && Shape(sb, View())
        invariant Truncating(sb, s0, View(), owner, i, k)
        invariant Journaled(sb.inodestart, h, Held()) && logged <= s0.logged + Bitmaps(sb)
      {
        TruncatingStep(sb, s0, View(), owner, i, k);
        TruncatingShape(sb, s0, View(), owner, i, k);
        if inodes[i].addrs[k] != 0 {
          var b := inodes[i].addrs[k];
          ghost var h1 := Held();
          var p := Bfree(b);
          assert !p;
          JournaledTrans(sb.inodestart, h, h1, Held());
          BitmapsHold(sb, b);
          inodes := inodes[i := inodes[i].(addrs := inodes[i].addrs[k := 0])];
          owner := owner - {b};
        }
        k := k + 1;
      }
      if inodes[i].addrs[NDIRECT] != 0 {
        ghost var h1 := Held();
        FreeIndirect(s0, i);
        JournaledTrans(sb.inodestart, h, h1, Held());
      } else {
        NoIndirectEmptied(sb, s0, View(), owner, i);
      }
      EmptiedShape(sb, s0, View(), owner, i);
      ghost var fs := View();
      inodes := inodes[i := inodes[i].(size := 0)];
      ghost var h1 := Held();
      IupdateInode(i);
      JournaledTrans(sb.inodestart, h, h1, Held());
      EmptiedTruncated(sb, s0, fs, owner, i, logged);
    }

    method FreeIndirect(ghost s0: Snap, i: nat)
      requires Truncating(sb, s0, View(), owner, i, NDIRECT) && i < sb.ninodes && Shape(sb, View())
      requires inodes[i].addrs[NDIRECT] != 0
      modifies this`disk, this`inodes, this`owner, this`logged, this`writes
      ensures Emptied(sb, s0, View(), owner, i)
      ensures Journaled(sb.inodestart, old(Held()), Held()) && logged <= old(logged) + Bitmaps(sb)
    {
      hide Owns, FreeMap, Addr, Truncating, Emptied, Used, Mark, Kept, GetWord, Listed, Journaled;
      ghost var fs, own, h := View(), owner, Held();
      JournaledSame(sb.inodestart, h);
      var ind := inodes[i].addrs[NDIRECT];
      ListedStart(sb, s0, fs, owner, i);
      var bp := disk[ind];
      var j := 0;
      while j < NINDIRECT
        invariant 0 <= j <= NINDIRECT && Shape(sb, View()) && inodes == fs.inodes && disk[ind] == bp && owner == own
        invariant Owns(sb, View(), owner) && FreeMap(sb, View(), owner - Listed(owner, i, j)) && Kept(sb, fs, View(), i)
        invariant Journaled(sb.inodestart, h, Held()) && logged <= old(logged) + Bitmaps(sb)
      {
        TruncListed(sb, View(), owner, i, j);
        ListedEntry(sb, View(), owner, i, j);
        if GetWord(bp, j) != 0 {
          ghost var fs1, h1 := View(), Held();
          var p := Bfree(GetWord(bp, j));
          assert !p;
          JournaledTrans(sb.inodestart, h, h1, Held());
          BitmapsHold(sb, GetWord(bp, j));
          MarkElsewhere(sb, fs1.disk, GetWord(bp, j), ind);
          KeptTrans(sb, fs, fs1, View(), i);
        }
        j := j + 1;
      }
      IndirectEmptied(sb, s0, fs, owner, View(), i);
      ghost var h1 := Held();
      var p := Bfree(ind);
      assert !p;
      JournaledTrans(sb.inodestart, h, h1, Held());
      BitmapsHold(sb, ind);
      owner := owner - (Listed(owner, i, NINDIRECT) + {ind});
      inodes := inodes[i := inodes[i].(addrs := inodes[i].addrs[NDIRECT := 0])];
    }
  }
}
