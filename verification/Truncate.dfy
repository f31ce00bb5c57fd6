/** fs.c: what itrunc's freeing of blocks does to ownership and to the bytes of files. */
module Truncate {
  import opened Blocks
  import opened Bitmap
  import opened Inodes
  import opened BlockMap
  import opened FileContent

  /** bfree on b: clear its bit. */
  lemma FreeOne(sb: Super, fs: Fs, owner: map<nat, Slot>, b: nat)
    requires Shape(sb, fs) && FreeMap(sb, fs, owner) && sb.nmeta <= b < sb.size
    ensures var fs' := fs.(disk := Mark(sb, fs.disk, b, false));
            Shape(sb, fs') && FreeMap(sb, fs', owner - {b})
  {
    hide Bit, Mark, PutBit;
    var fs' := fs.(disk := Mark(sb, fs.disk, b, false));
    forall c | 0 <= c < sb.size
      ensures Used(sb, fs'.disk, c) <==> c < sb.nmeta || c in owner - {b}
    {
      MarkUsed(sb, fs.disk, b, false, c);
    }
  }

  /** Clearing a bit changes no address and no byte of any file. */
  lemma FreeSame(sb: Super, fs: Fs, owner: map<nat, Slot>, b: nat)
    requires Shape(sb, fs) && Owns(sb, fs, owner) && sb.nmeta <= b < sb.size
    ensures var fs' := fs.(disk := Mark(sb, fs.disk, b, false));
            AddrSame(sb, fs, fs') && BytesSame(sb, fs, fs') && InodeBlocksSame(sb, fs, fs')
  {
    hide GetWord, PutByteBit;
    var fs' := fs.(disk := Mark(sb, fs.disk, b, false));
    assert forall c :: sb.nmeta <= c < sb.size ==> fs'.disk[c] == fs.disk[c];
    hide Mark;
    forall j, l | 0 <= j < sb.ninodes && 0 <= l < SLOTS
      ensures Addr(fs', j, l) == Addr(fs, j, l)
    {
      assert Addr(fs, j, NDIRECT) != 0 ==> Addr(fs, j, NDIRECT) in owner;
    }
    hide Addr;
    forall j, off | 0 <= j < sb.ninodes && 0 <= off < MAXFILE * BSIZE
      ensures ByteAt(fs', j, off) == ByteAt(fs, j, off)
    {
      assert Addr(fs', j, DataSlot(off / BSIZE)) == Addr(fs, j, DataSlot(off / BSIZE));
    }
  }

  /** The file system with slot k of inode i emptied; emptying the indirect slot empties all it lists. */
  function Drop(sb: Super, fs: Fs, i: nat, k: nat): Fs
    requires Shape(sb, fs) && i < sb.ninodes && k <= NDIRECT
  {
    fs.(inodes := fs.inodes[i := fs.inodes[i].(addrs := fs.inodes[i].addrs[k := 0])])
  }

  predicate Dropped(i: nat, k: nat, j: nat, l: nat)
  {
    j == i && (l == k || (k == NDIRECT && l > NDIRECT))
  }

  lemma DropAddr(sb: Super, fs: Fs, i: nat, k: nat, j: nat, l: nat)
    requires Shape(sb, fs) && i < sb.ninodes && k <= NDIRECT && j < sb.ninodes && l < SLOTS
    ensures Addr(Drop(sb, fs, i, k), j, l) == if Dropped(i, k, j, l) then 0 else Addr(fs, j, l)
  {
    hide GetWord;
  }

  /** Forgetting the dropped slots leaves every other owner in place. */
  lemma DropOwns(sb: Super, fs: Fs, owner: map<nat, Slot>, i: nat, k: nat, freed: set<nat>)
    requires Shape(sb, fs) && Owns(sb, fs, owner) && i < sb.ninodes && k <= NDIRECT
    requires forall b :: b in owner ==> (b in freed <==> Dropped(i, k, owner[b].inum, owner[b].k))
    ensures Owns(sb, Drop(sb, fs, i, k), owner - freed)
  {
    var fs' := Drop(sb, fs, i, k);
    forall j, l | 0 <= j < sb.ninodes && 0 <= l < SLOTS
      ensures Addr(fs', j, l) == if Dropped(i, k, j, l) then 0 else Addr(fs, j, l)
    {
      DropAddr(sb, fs, i, k, j, l);
    }
    hide Addr, Drop;
  }

  /** Other files keep their bytes. */
  lemma DropBytes(sb: Super, fs: Fs, i: nat, k: nat, j: nat, off: nat)
    requires Shape(sb, fs) && i < sb.ninodes && k <= NDIRECT
    requires j < sb.ninodes && j != i && off < MAXFILE * BSIZE
    ensures ByteAt(Drop(sb, fs, i, k), j, off) == ByteAt(fs, j, off)
  {
    DropAddr(sb, fs, i, k, j, DataSlot(off / BSIZE));
    hide Addr;
  }

  // ---------------------------------------------------------------- what truncating inode i leaves alone

  /** Other inodes, their addresses and bytes, and the blocks below the bitmap, are as they were. */
  ghost predicate Kept(sb: Super, fs: Fs, fs': Fs, i: nat)
  {
    && Shape(sb, fs) && Shape(sb, fs') && i < sb.ninodes && InodeBlocksSame(sb, fs, fs')
    && (forall j :: 0 <= j < sb.ninodes && j != i ==> fs'.inodes[j] == fs.inodes[j])
    && fs'.inodes[i].kind == fs.inodes[i].kind && fs'.inodes[i].links == fs.inodes[i].links
    && (forall j, k :: 0 <= j < sb.ninodes && j != i && 0 <= k < SLOTS ==> Addr(fs', j, k) == Addr(fs, j, k))
    && (forall j, off :: 0 <= j < sb.ninodes && j != i && 0 <= off < MAXFILE * BSIZE ==>
          ByteAt(fs', j, off) == ByteAt(fs, j, off))
  }

  lemma KeptTrans(sb: Super, fs: Fs, fs1: Fs, fs2: Fs, i: nat)
    requires Kept(sb, fs, fs1, i) && Kept(sb, fs1, fs2, i)
    ensures Kept(sb, fs, fs2, i)
  {
    hide Addr, ByteAt;
  }

  lemma FreeKept(sb: Super, fs: Fs, owner: map<nat, Slot>, b: nat, i: nat)
    requires Shape(sb, fs) && Owns(sb, fs, owner) && sb.nmeta <= b < sb.size && i < sb.ninodes
    ensures Kept(sb, fs, fs.(disk := Mark(sb, fs.disk, b, false)), i)
    ensures Owns(sb, fs.(disk := Mark(sb, fs.disk, b, false)), owner)
  {
    hide Owns, Addr, ByteAt, Mark;
    FreeSame(sb, fs, owner, b);
    SameOwns(sb, fs, owner, fs.(disk := Mark(sb, fs.disk, b, false)));
  }

  lemma DropKept(sb: Super, fs: Fs, i: nat, k: nat)
    requires Shape(sb, fs) && i < sb.ninodes && k <= NDIRECT
    ensures Kept(sb, fs, Drop(sb, fs, i, k), i)
  {
    hide Addr, ByteAt;
    var fs' := Drop(sb, fs, i, k);
    forall j, l | 0 <= j < sb.ninodes && j != i && 0 <= l < SLOTS ensures Addr(fs', j, l) == Addr(fs, j, l) {
      DropAddr(sb, fs, i, k, j, l);
    }
    forall j, off | 0 <= j < sb.ninodes && j != i && 0 <= off < MAXFILE * BSIZE
      ensures ByteAt(fs', j, off) == ByteAt(fs, j, off)
    {
      DropBytes(sb, fs, i, k, j, off);
    }
  }

  /** One pass over a direct slot that holds block b. */
  lemma TruncDirect(sb: Super, fs: Fs, owner: map<nat, Slot>, i: nat, k: nat)
    requires Core(sb, fs, owner) && i < sb.ninodes && k < NDIRECT && Addr(fs, i, k) != 0
    ensures var b := Addr(fs, i, k);
            && b in owner && owner[b] == Slot(i, k) && sb.nmeta <= b < sb.size && Used(sb, fs.disk, b)
            && var fs' := Drop(sb, fs.(disk := Mark(sb, fs.disk, b, false)), i, k);
               Core(sb, fs', owner - {b as nat}) && Kept(sb, fs, fs', i)
  {
    hide Addr, ByteAt, Mark, Used, Drop;
    var b := Addr(fs, i, k);
    var fs1 := fs.(disk := Mark(sb, fs.disk, b, false));
    FreeOne(sb, fs, owner, b);
    FreeKept(sb, fs, owner, b, i);
    DropOwns(sb, fs1, owner, i, k, {b as nat});
    DropKept(sb, fs1, i, k);
    DropFreeMap(sb, fs1, owner - {b as nat}, i, k);
    KeptTrans(sb, fs, fs1, Drop(sb, fs1, i, k), i);
  }

  lemma DropFreeMap(sb: Super, fs: Fs, owner: map<nat, Slot>, i: nat, k: nat)
    requires Shape(sb, fs) && FreeMap(sb, fs, owner) && i < sb.ninodes && k <= NDIRECT
    ensures Shape(sb, Drop(sb, fs, i, k)) && FreeMap(sb, Drop(sb, fs, i, k), owner)
  {
    hide Used;
  }

  /** The blocks listed in the first t entries of i's indirect block. */
  ghost function Listed(owner: map<nat, Slot>, i: nat, t: nat): set<nat>
  {
    set b | b in owner && owner[b].inum == i && NDIRECT < owner[b].k < 13 + t
  }

  /** One pass over entry t of the indirect block, whose bits for earlier entries are already clear. */
  lemma TruncListed(sb: Super, fs: Fs, owner: map<nat, Slot>, i: nat, t: nat)
    requires Shape(sb, fs) && Owns(sb, fs, owner) && FreeMap(sb, fs, owner - Listed(owner, i, t))
    requires i < sb.ninodes && t < NINDIRECT
    ensures Addr(fs, i, 13 + t) == 0 ==> Listed(owner, i, t + 1) == Listed(owner, i, t)
    ensures Addr(fs, i, 13 + t) != 0 ==>
              var b := Addr(fs, i, 13 + t);
              && sb.nmeta <= b < sb.size && Used(sb, fs.disk, b)
              && var fs' := fs.(disk := Mark(sb, fs.disk, b, false));
                 && Shape(sb, fs') && Owns(sb, fs', owner) && FreeMap(sb, fs', owner - Listed(owner, i, t + 1))
                 && Kept(sb, fs, fs', i)
  {
    hide Addr, Used, Mark, Kept;
    var b := Addr(fs, i, 13 + t);
    if b == 0 {
      assert forall c :: c in owner ==> owner[c] != Slot(i, 13 + t);
    } else {
      assert b in owner && owner[b] == Slot(i, 13 + t);
      assert Listed(owner, i, t + 1) == Listed(owner, i, t) + {b as nat};
      FreeOne(sb, fs, owner - Listed(owner, i, t), b);
      assert owner - Listed(owner, i, t) - {b as nat} == owner - Listed(owner, i, t + 1);
      FreeKept(sb, fs, owner, b, i);
    }
  }

  /** Freeing the indirect block itself, after everything listed in it. */
  lemma TruncIndirect(sb: Super, fs: Fs, owner: map<nat, Slot>, i: nat)
    requires Shape(sb, fs) && Owns(sb, fs, owner) && FreeMap(sb, fs, owner - Listed(owner, i, NINDIRECT))
    requires i < sb.ninodes && Addr(fs, i, NDIRECT) != 0
    ensures var b := Addr(fs, i, NDIRECT);
            && sb.nmeta <= b < sb.size && Used(sb, fs.disk, b)
            && var fs' := Drop(sb, fs.(disk := Mark(sb, fs.disk, b, false)), i, NDIRECT);
               Core(sb, fs', owner - (Listed(owner, i, NINDIRECT) + {b as nat})) && Kept(sb, fs, fs', i)
  {
    hide Addr, Used, Mark, Kept, Drop;
    var b := Addr(fs, i, NDIRECT);
    assert b in owner && owner[b] == Slot(i, NDIRECT);
    var fs1 := fs.(disk := Mark(sb, fs.disk, b, false));
    var freed := Listed(owner, i, NINDIRECT) + {b as nat};
    FreeOne(sb, fs, owner - Listed(owner, i, NINDIRECT), b);
    assert owner - Listed(owner, i, NINDIRECT) - {b as nat} == owner - freed;
    FreeKept(sb, fs, owner, b, i);
    DropOwns(sb, fs1, owner, i, NDIRECT, freed);
    DropKept(sb, fs1, i, NDIRECT);
    DropFreeMap(sb, fs1, owner - freed, i, NDIRECT);
    KeptTrans(sb, fs, fs1, Drop(sb, fs1, i, NDIRECT), i);
  }

  // ---------------------------------------------------------------- the two phases of itrunc

  ghost function Early(owner: map<nat, Slot>, i: nat, t: nat): set<nat>
  {
    set b | b in owner && owner[b].inum == i && owner[b].k < t
  }

  /** The blocks of inode i. */
  ghost function Mine(owner: map<nat, Slot>, i: nat): set<nat>
  {
    set b | b in owner && owner[b].inum == i
  }

  /** The first t direct slots of inode i are empty and their blocks free. */
  ghost predicate Truncating(sb: Super, s0: Snap, fs: Fs, owner: map<nat, Slot>, i: nat, t: nat)
  {
    && Core(sb, fs, owner) && Kept(sb, s0.fs, fs, i) && t <= NDIRECT
    && owner == s0.owner - Early(s0.owner, i, t)
  }

  /** Where a block's owner says it is, there it is. */
  lemma SlotOf(sb: Super, fs: Fs, owner: map<nat, Slot>, b: nat)
    requires Shape(sb, fs) && Owns(sb, fs, owner) && b in owner
    ensures owner[b].k <= NDIRECT ==> fs.inodes[owner[b].inum].addrs[owner[b].k] == b
    ensures owner[b].k > NDIRECT ==> fs.inodes[owner[b].inum].addrs[NDIRECT] != 0
    ensures b != 0
  {
  }

  /** Slot t of inode i holds b, or nothing. */
  lemma EarlyStep(sb: Super, fs: Fs, owner0: map<nat, Slot>, owner: map<nat, Slot>, i: nat, t: nat)
    requires Shape(sb, fs) && Owns(sb, fs, owner) && owner == owner0 - Early(owner0, i, t)
    requires i < sb.ninodes && t < NDIRECT
    ensures var b := fs.inodes[i].addrs[t];
            Early(owner0, i, t + 1) == if b == 0 then Early(owner0, i, t) else Early(owner0, i, t) + {b as nat}
  {
    hide FreeMap;
    var b := fs.inodes[i].addrs[t];
    assert b == Addr(fs, i, t);
    forall c | c in owner0
      ensures owner0[c] == Slot(i, t) <==> b != 0 && c == b
    {
      if c in owner {
        SlotOf(sb, fs, owner, c);
      }
    }
  }

  lemma TruncatingStep(sb: Super, s0: Snap, fs: Fs, owner: map<nat, Slot>, i: nat, t: nat)
    requires Truncating(sb, s0, fs, owner, i, t) && t < NDIRECT
    ensures fs.inodes[i].addrs[t] == 0 ==> Truncating(sb, s0, fs, owner, i, t + 1)
    ensures fs.inodes[i].addrs[t] != 0 ==>
              var b := fs.inodes[i].addrs[t];
              && sb.nmeta <= b < sb.size && Used(sb, fs.disk, b)
              && Truncating(sb, s0, Drop(sb, fs.(disk := Mark(sb, fs.disk, b, false)), i, t), owner - {b as nat}, i,
                            t + 1)
  {
    hide Owns, FreeMap, Mark, Used, ByteAt, GetWord, Early, Drop;
    var b := fs.inodes[i].addrs[t];
    assert b == Addr(fs, i, t);
    EarlyStep(sb, fs, s0.owner, owner, i, t);
    if b != 0 {
      TruncDirect(sb, fs, owner, i, t);
      KeptTrans(sb, s0.fs, fs, Drop(sb, fs.(disk := Mark(sb, fs.disk, b, false)), i, t), i);
      assert owner - {b as nat} == s0.owner - Early(s0.owner, i, t + 1);
    }
  }

  /** All slots of inode i are empty and its blocks free. */
  ghost predicate Emptied(sb: Super, s0: Snap, fs: Fs, owner: map<nat, Slot>, i: nat)
  {
    && Core(sb, fs, owner) && Kept(sb, s0.fs, fs, i)
    && owner == s0.owner - Mine(s0.owner, i)
  }

  /** Nothing is listed when there is no indirect block. */
  lemma NoIndirectEmptied(sb: Super, s0: Snap, fs: Fs, owner: map<nat, Slot>, i: nat)
    requires Truncating(sb, s0, fs, owner, i, NDIRECT) && fs.inodes[i].addrs[NDIRECT] == 0
    ensures Emptied(sb, s0, fs, owner, i)
  {
    hide Kept, FreeMap, GetWord, Owns;
    forall b | b in s0.owner && s0.owner[b].inum == i
      ensures b in Early(s0.owner, i, NDIRECT)
    {
      if b in owner {
        SlotOf(sb, fs, owner, b);
      }
    }
    assert Early(s0.owner, i, NDIRECT) == Mine(s0.owner, i);
  }

  lemma IndirectEmptied(sb: Super, s0: Snap, fs: Fs, owner: map<nat, Slot>, fs1: Fs, i: nat)
    requires Truncating(sb, s0, fs, owner, i, NDIRECT) && Shape(sb, fs1) && fs1.inodes == fs.inodes
    requires Owns(sb, fs1, owner) && FreeMap(sb, fs1, owner - Listed(owner, i, NINDIRECT)) && Kept(sb, fs, fs1, i)
    requires fs1.inodes[i].addrs[NDIRECT] != 0
    ensures var b := fs1.inodes[i].addrs[NDIRECT];
            && sb.nmeta <= b < sb.size && Used(sb, fs1.disk, b)
            && Emptied(sb, s0, Drop(sb, fs1.(disk := Mark(sb, fs1.disk, b, false)), i, NDIRECT),
                       owner - (Listed(owner, i, NINDIRECT) + {b as nat}), i)
  {
    hide FreeMap, Mark, Used, ByteAt, GetWord, Drop, Listed, Mine, Early;
    var b := fs1.inodes[i].addrs[NDIRECT];
    assert b == Addr(fs1, i, NDIRECT) && b in owner && owner[b] == Slot(i, NDIRECT);
    TruncIndirect(sb, fs1, owner, i);
    var fs' := Drop(sb, fs1.(disk := Mark(sb, fs1.disk, b, false)), i, NDIRECT);
    KeptTrans(sb, s0.fs, fs, fs1, i);
    KeptTrans(sb, s0.fs, fs1, fs', i);
    MineSplit(sb, fs1, s0.owner, owner, i, b);
  }

  lemma MineSplit(sb: Super, fs: Fs, owner0: map<nat, Slot>, owner: map<nat, Slot>, i: nat, ind: nat)
    requires Shape(sb, fs) && Owns(sb, fs, owner) && owner == owner0 - Early(owner0, i, NDIRECT)
    requires ind in owner && owner[ind] == Slot(i, NDIRECT)
    ensures owner - (Listed(owner, i, NINDIRECT) + {ind}) == owner0 - Mine(owner0, i)
  {
    hide Addr;
    forall b | b in owner0
      ensures b in Mine(owner0, i) <==> b in Early(owner0, i, NDIRECT) + Listed(owner, i, NINDIRECT) + {ind}
    {
      if b !in Early(owner0, i, NDIRECT) {
        assert b in owner && owner[b] == owner0[b];
        assert owner[b] == Slot(i, NDIRECT) ==> b == ind;
      }
    }
  }

  /** What itrunc leaves: inode i is empty, exactly its blocks were freed, nothing else changed. */
  ghost predicate Truncated(sb: Super, s0: Snap, s: Snap, i: nat)
  {
    && AllSettled(sb, s) && Shape(sb, s0.fs) && i < sb.ninodes && NoNewHole(sb, s0.fs, s.fs)
    && s.owner == s0.owner - Mine(s0.owner, i)
    && s.fs.inodes[i].size == 0
    && s.fs.inodes[i].kind == s0.fs.inodes[i].kind && s.fs.inodes[i].links == s0.fs.inodes[i].links
    && (forall k :: 0 <= k < SLOTS ==> Addr(s.fs, i, k) == 0)
    && (forall j :: 0 <= j < sb.ninodes && j != i ==> s.fs.inodes[j] == s0.fs.inodes[j])
    && (forall j, off :: 0 <= j < sb.ninodes && j != i && 0 <= off < MAXFILE * BSIZE ==>
          ByteAt(s.fs, j, off) == ByteAt(s0.fs, j, off))
  }

  lemma EmptySettled(sb: Super, s0: Snap, fs: Fs, owner: map<nat, Slot>, i: nat, j: nat)
    requires AllSettled(sb, s0) && Emptied(sb, s0, fs, owner, i) && j < sb.ninodes
    requires AddrSame(sb, fs, Grow(sb, fs, i, 0))
    ensures Settled(sb, Grow(sb, fs, i, 0), j)
  {
    hide Addr, ByteAt, GetWord, InodeWords, PutWords, Owns, FreeMap;
    assert Settled(sb, s0.fs, j);
    if j != i {
      assert sb.InodeBlock(j) < sb.bmapstart;
      assert OnDisk(sb, fs, j);
    }
    GrowOnDisk(sb, fs, i, 0, j);
  }

  lemma EmptyNoHole(sb: Super, s0: Snap, fs: Fs, owner: map<nat, Slot>, i: nat)
    requires Shape(sb, s0.fs) && Emptied(sb, s0, fs, owner, i) && i < sb.ninodes && AddrSame(sb, fs, Grow(sb, fs, i, 0))
    ensures NoNewHole(sb, s0.fs, Grow(sb, fs, i, 0))
  {
    hide Addr, ByteAt, GetWord, InodeWords, PutWords, Owns, FreeMap;
  }

  lemma NoSlots(sb: Super, fs: Fs, owner: map<nat, Slot>, i: nat)
    requires Shape(sb, fs) && Owns(sb, fs, owner) && i < sb.ninodes
    requires forall b :: b in owner ==> owner[b].inum != i
    ensures forall k :: 0 <= k < SLOTS ==> Addr(fs, i, k) == 0
  {
    hide Addr;
  }

  lemma EmptiedTruncated(sb: Super, s0: Snap, fs: Fs, owner: map<nat, Slot>, i: nat, logged: set<nat>)
    requires AllSettled(sb, s0) && Emptied(sb, s0, fs, owner, i)
    ensures Truncated(sb, s0, Snap(Grow(sb, fs, i, 0), owner, logged), i)
  {
    hide Addr, ByteAt, FreeMap, Owns, Settled, PutWords, NoNewHole;
    GrowKeeps(sb, fs, owner, i, 0);
    forall j | 0 <= j < sb.ninodes ensures Settled(sb, Grow(sb, fs, i, 0), j) {
      EmptySettled(sb, s0, fs, owner, i, j);
    }
    NoSlots(sb, Grow(sb, fs, i, 0), owner, i);
    EmptyNoHole(sb, s0, fs, owner, i);
  }

  // ---------------------------------------------------------------- facts the methods use

  lemma TruncatingStart(sb: Super, s0: Snap, i: nat)
    requires AllSettled(sb, s0) && i < sb.ninodes
    ensures Truncating(sb, s0, s0.fs, s0.owner, i, 0)
  {
    hide Owns, FreeMap, Addr, ByteAt;
    assert s0.owner - Early(s0.owner, i, 0) == s0.owner;
  }

  lemma TruncatingShape(sb: Super, s0: Snap, fs: Fs, owner: map<nat, Slot>, i: nat, t: nat)
    requires Truncating(sb, s0, fs, owner, i, t)
    ensures Shape(sb, fs)
  {
  }

  lemma EmptiedShape(sb: Super, s0: Snap, fs: Fs, owner: map<nat, Slot>, i: nat)
    requires Emptied(sb, s0, fs, owner, i)
    ensures Shape(sb, fs)
  {
  }

  lemma ListedStart(sb: Super, s0: Snap, fs: Fs, owner: map<nat, Slot>, i: nat)
    requires Truncating(sb, s0, fs, owner, i, NDIRECT) && fs.inodes[i].addrs[NDIRECT] != 0
    ensures Owns(sb, fs, owner) && FreeMap(sb, fs, owner - Listed(owner, i, 0)) && Kept(sb, fs, fs, i)
    ensures sb.nmeta <= fs.inodes[i].addrs[NDIRECT] < sb.size
  {
    hide FreeMap, ByteAt, GetWord;
    assert owner - Listed(owner, i, 0) == owner;
    assert Addr(fs, i, NDIRECT) == fs.inodes[i].addrs[NDIRECT];
  }

  lemma ListedEntry(sb: Super, fs: Fs, owner: map<nat, Slot>, i: nat, j: nat)
    requires Shape(sb, fs) && Owns(sb, fs, owner) && i < sb.ninodes && j < NINDIRECT
    requires 0 != fs.inodes[i].addrs[NDIRECT] < sb.size
    ensures Addr(fs, i, 13 + j) == GetWord(fs.disk[fs.inodes[i].addrs[NDIRECT]], j)
  {
  }

  lemma MarkElsewhere(sb: Super, disk: seq<Block>, b: nat, c: nat)
    requires sb.Valid() && |disk| == sb.size && b < sb.size && sb.nmeta <= c < sb.size
    ensures Mark(sb, disk, b, false)[c] == disk[c]
  {
    hide PutByteBit;
  }
}
