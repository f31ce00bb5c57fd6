/** fs.c: what bmap does to the map from file blocks to disk blocks, as facts about values. */
module BlockMap {
  import opened Counting
  import opened Wrappers
  import opened Blocks
  import opened Bitmap
  import opened Inodes

  /** The blocks whose bit is clear. */
  function FreeBlocks(sb: Super, disk: seq<Block>): set<nat>
    requires sb.Valid() && |disk| == sb.size
  {
    BitmapInRange(sb);
    set b | 0 <= b < sb.size && !Used(sb, disk, b)
  }

  /** Every block below the file's size is allocated. */
  predicate NoHole(fs: Fs, i: nat)
    requires i < |fs.inodes|
  {
    && fs.inodes[i].size <= MAXFILE * BSIZE
    && (forall bn :: 0 <= bn < MAXFILE && bn * BSIZE < fs.inodes[i].size ==> Addr(fs, i, DataSlot(bn)) != 0)
  }

  /** What holds of every inode between operations. */
  predicate Settled(sb: Super, fs: Fs, i: nat)
    requires Shape(sb, fs) && i < sb.ninodes
  {
    OnDisk(sb, fs, i) && fs.inodes[i].size <= MAXFILE * BSIZE
  }

  /** A file without holes in fs has none in fs'. */
  ghost predicate NoNewHole(sb: Super, fs: Fs, fs': Fs)
  {
    && Shape(sb, fs) && Shape(sb, fs')
    && forall j :: 0 <= j < sb.ninodes && NoHole(fs, j) ==> NoHole(fs', j)
  }

  /** fs' differs from fs by new blocks given to inode i: no address is lost, no byte changes. */
  ghost predicate Grown(sb: Super, fs: Fs, fs': Fs, i: nat)
  {
    && Shape(sb, fs) && Shape(sb, fs') && i < sb.ninodes
    && (forall j :: 0 <= j < sb.ninodes && j != i ==> fs'.inodes[j] == fs.inodes[j])
    && fs'.inodes[i] == fs.inodes[i].(addrs := fs'.inodes[i].addrs)
    && (forall j, k :: 0 <= j < sb.ninodes && 0 <= k < SLOTS && Addr(fs, j, k) != 0 ==>
          Addr(fs', j, k) == Addr(fs, j, k))
    && InodeBlocksSame(sb, fs, fs')
  }

  /** Every slot keeps its address, except perhaps slot k of inode i and the indirect slot on the way to it. */
  ghost predicate OthersSame(sb: Super, fs: Fs, fs': Fs, i: nat, k: nat)
    requires Shape(sb, fs) && Shape(sb, fs')
  {
    forall j, l :: 0 <= j < sb.ninodes && 0 <= l < SLOTS && !(j == i && (l == k || (l == NDIRECT < k))) ==>
      Addr(fs', j, l) == Addr(fs, j, l)
  }

  /** fs' is fs with block a in slot k of inode i, newly allocated (and zero) or there before. */
  ghost predicate Mapped(sb: Super, fs: Fs, fs': Fs, owner: map<nat, Slot>, i: nat, k: nat, a: nat)
  {
    && Core(sb, fs', owner) && Grown(sb, fs, fs', i) && BytesSame(sb, fs, fs') && OthersSame(sb, fs, fs', i, k)
    && k < SLOTS && a == Addr(fs', i, k) != 0
  }

  /** How many blocks slot k of inode i lacks. */
  function Missing(fs: Fs, i: nat, k: nat): (n: nat)
    ensures n <= 1
  {
    if i < |fs.inodes| && k < SLOTS && Addr(fs, i, k) == 0 then 1 else 0
  }

  /** The whole state: the file system, who owns which block, and the blocks logged so far. */
  datatype Snap = Snap(fs: Fs, owner: map<nat, Slot>, logged: set<nat>)

  /** The indirect block of inode i, if there is one. */
  function IndirectOf(fs: Fs, i: nat): set<nat>
  {
    if i < |fs.inodes| && fs.inodes[i].addrs[NDIRECT] != 0 then {fs.inodes[i].addrs[NDIRECT] as nat} else {}
  }

  /** There are fewer than n free blocks. */
  predicate Short(sb: Super, s: Snap, n: nat) { sb.size < sb.nmeta + |s.owner| + n }

  /** The slot of the inode itself on the way to slot k. */
  function Head(k: nat): nat { if k <= NDIRECT then k else NDIRECT }

  /** What looking up slot k of inode i, allocating where needed, leads to.  r is the block, or None for a
      panic, when fewer than the `missing` blocks are free; it logs r, the blocks in `via`, and the bitmap
      blocks bm, at most `missing` of them. */
  ghost predicate SlotDone(sb: Super, s: Snap, s': Snap, i: nat, k: nat, r: Option<Word>,
                           via: set<nat>, bm: set<nat>, missing: nat)
  {
    && (r.None? ==> Missing(s.fs, i, k) == 1 && Full(sb, s'.fs.disk) && Short(sb, s, missing))
    && (r.Some? ==> Mapped(sb, s.fs, s'.fs, s'.owner, i, k, r.value) && |s'.owner| == |s.owner| + missing)
    && (r.Some? && Missing(s.fs, i, Head(k)) == 0 ==> s'.fs.inodes == s.fs.inodes)
    && (r.Some? ==> s'.logged <= s.logged + bm + {r.value as nat} + via && |bm| <= missing && BitmapOnly(sb, bm))
    && (Missing(s.fs, i, k) == 0 ==> s' == s)
  }

  /** fs' holds fs's bytes, except that file i holds src at [off, off + |src|). */
  ghost predicate Written(sb: Super, fs: Fs, fs': Fs, i: nat, off: nat, src: seq<Byte>)
  {
    && Shape(sb, fs) && Shape(sb, fs')
    && forall j, k :: 0 <= j < sb.ninodes && 0 <= k < MAXFILE * BSIZE ==>
         ByteAt(fs', j, k) == if j == i && off <= k < off + |src| then src[k - off] else ByteAt(fs, j, k)
  }

  lemma GrownTrans(sb: Super, fs: Fs, fs1: Fs, fs2: Fs, i: nat)
    requires Grown(sb, fs, fs1, i) && Grown(sb, fs1, fs2, i)
    ensures Grown(sb, fs, fs2, i)
  {
    hide Addr;
  }

  lemma WrittenTrans(sb: Super, fs: Fs, fs1: Fs, fs2: Fs, i: nat, off: nat, a: seq<Byte>, b: seq<Byte>)
    requires Written(sb, fs, fs1, i, off, a) && Written(sb, fs1, fs2, i, off + |a|, b)
    ensures Written(sb, fs, fs2, i, off, a + b)
  {
    hide ByteAt;
  }

  lemma GrownOf(sb: Super, fs: Fs, fs': Fs, i: nat, k: nat, b: nat)
    requires Shape(sb, fs) && Shape(sb, fs') && i < sb.ninodes && k < SLOTS
    requires AddrPut(sb, fs, fs', i, k, b) && Addr(fs, i, k) == 0
    requires InodeBlocksSame(sb, fs, fs')
    requires forall j :: 0 <= j < sb.ninodes && j != i ==> fs'.inodes[j] == fs.inodes[j]
    requires fs'.inodes[i] == fs.inodes[i].(addrs := fs'.inodes[i].addrs)
    ensures Grown(sb, fs, fs', i) && OthersSame(sb, fs, fs', i, k)
  {
    hide Addr;
  }

  /** The bit of block b + bi, seen from the bitmap block that starts at b. */
  lemma BitPlace(sb: Super, disk: seq<Block>, b: nat, bi: nat)
    requires b % BPB == 0 && bi < BPB && sb.BitmapBlock(b) < |disk|
    ensures sb.BitmapBlock(b + bi) == sb.BitmapBlock(b)
    ensures var bp := disk[sb.BitmapBlock(b)];
            && (Used(sb, disk, b + bi) <==> Bit(bp[bi / 8], bi % 8))
            && Mark(sb, disk, b + bi, true) ==
               disk[sb.BitmapBlock(b) := bp[bi / 8 := PutByteBit(bp[bi / 8], bi % 8, true)]]
  {
    hide Bit, PutByteBit;
    BitIndex(b, bi);
  }

  /** The bit of block b, as bfree finds it. */
  lemma BitHere(sb: Super, disk: seq<Block>, b: nat, v: bool)
    requires sb.BitmapBlock(b) < |disk|
    ensures var bb, bi := sb.BitmapBlock(b), b % BPB;
            && (Used(sb, disk, b) <==> Bit(disk[bb][bi / 8], bi % 8))
            && Mark(sb, disk, b, v) == disk[bb := disk[bb][bi / 8 := PutByteBit(disk[bb][bi / 8], bi % 8, v)]]
  {
    hide Bit, PutByteBit;
    BitIndex(b - b % BPB, b % BPB);
  }

  lemma BitIndex(b: nat, bi: nat)
    requires b % BPB == 0 && bi < BPB
    ensures (b + bi) / BPB == b / BPB && (b + bi) % BPB == bi && (b + bi) % 8 == bi % 8
  {
    ByBlock(b / BPB, bi);
    ByEight(512 * (b / BPB), bi);
  }

  lemma ByBlock(q: nat, r: nat)
    requires r < BPB
    ensures (BPB * q + r) / BPB == q && (BPB * q + r) % BPB == r
  {
  }

  lemma ByEight(q: nat, r: nat)
    ensures (8 * q + r) % 8 == r % 8
  {
  }

  lemma GiveInodeMapped(sb: Super, fs: Fs, owner: map<nat, Slot>, b: Word, i: nat, k: nat)
    requires Core(sb, fs, owner)
    requires sb.nmeta <= b < sb.size && b !in owner && i < sb.ninodes && k <= NDIRECT && Missing(fs, i, k) == 1
    ensures var fs' := GiveInode(sb, fs, b, i, k);
            Mapped(sb, fs, fs', owner[b := Slot(i, k)], i, k, b) && AddrPut(sb, fs, fs', i, k, b)
  {
    hide Owns, FreeMap, Mark, ZeroBlock, GetWord, ByteAt;
    GiveInodeKeeps(sb, fs, owner, b, i, k);
    GrownOf(sb, fs, GiveInode(sb, fs, b, i, k), i, k, b);
  }

  /** A block that was free is a new key. */
  lemma OneMoreOwner(owner: map<nat, Slot>, b: nat, s: Slot)
    requires b !in owner
    ensures |owner[b := s]| == |owner| + 1
  {
    assert owner[b := s].Keys == owner.Keys + {b};
  }

  lemma NotUsed(sb: Super, fs: Fs, owner: map<nat, Slot>, b: nat)
    requires Core(sb, fs, owner) && b < sb.size && sb.BitmapBlock(b) < sb.size && !Used(sb, fs.disk, b)
    ensures sb.nmeta <= b && b !in owner
  {
    hide Used, Addr;
  }

  /** The free blocks, counted. */
  lemma FreeCount(sb: Super, fs: Fs, owner: map<nat, Slot>)
    requires Core(sb, fs, owner)
    ensures |owner| + |FreeBlocks(sb, fs.disk)| == sb.size - sb.nmeta
    ensures Full(sb, fs.disk) ==> |owner| == sb.size - sb.nmeta
  {
    hide Addr, Used;
    BitmapInRange(sb);
    assert owner.Keys + FreeBlocks(sb, fs.disk) == Range(sb.nmeta, sb.size);
    assert owner.Keys !! FreeBlocks(sb, fs.disk);
    assert Full(sb, fs.disk) ==> FreeBlocks(sb, fs.disk) == {};
  }

  lemma GiveIndirectMapped(sb: Super, fs: Fs, owner: map<nat, Slot>, b: Word, i: nat, k: nat)
    requires Core(sb, fs, owner)
    requires sb.nmeta <= b < sb.size && b !in owner && i < sb.ninodes && NDIRECT < k < SLOTS && Missing(fs, i, k) == 1
    requires fs.inodes[i].addrs[NDIRECT] != 0
    ensures fs.inodes[i].addrs[NDIRECT] < sb.size
    ensures Mapped(sb, fs, GiveIndirect(sb, fs, b, i, k), owner[b := Slot(i, k)], i, k, b)
  {
    hide Owns, FreeMap, Mark, ZeroBlock, GetWord, ByteAt;
    GiveIndirectKeeps(sb, fs, owner, b, i, k);
    GrownOf(sb, fs, GiveIndirect(sb, fs, b, i, k), i, k, b);
  }

  /** The state after a block was given to slot k of the inode itself. */
  function GivenSnap(sb: Super, s: Snap, b: Word, i: nat, k: nat): Snap
    requires Shape(sb, s.fs) && b < sb.size && i < sb.ninodes && k <= NDIRECT
  {
    Snap(GiveInode(sb, s.fs, b, i, k), s.owner[b := Slot(i, k)], s.logged + {sb.BitmapBlock(b), b as nat})
  }

  lemma InodeGiven(sb: Super, s: Snap, b: Word, i: nat, k: nat)
    requires Core(sb, s.fs, s.owner)
    requires sb.nmeta <= b < sb.size && b !in s.owner && i < sb.ninodes && k <= NDIRECT && Missing(s.fs, i, k) == 1
    ensures var s' := GivenSnap(sb, s, b, i, k);
            && SlotDone(sb, s, s', i, k, Some(b), {}, {sb.BitmapBlock(b)}, Missing(s.fs, i, k))
            && Shape(sb, s'.fs) && AddrPut(sb, s.fs, s'.fs, i, k, b)
  {
    hide Mapped, Owns, FreeMap, Addr, Mark, ZeroBlock, AddrPut;
    GiveInodeMapped(sb, s.fs, s.owner, b, i, k);
    OneMoreOwner(s.owner, b, Slot(i, k));
    OneBitmap(sb, b);
  }

  lemma InodeThere(sb: Super, s: Snap, i: nat, k: nat)
    requires Core(sb, s.fs, s.owner) && i < sb.ninodes && k <= NDIRECT
    ensures Addr(s.fs, i, k) == s.fs.inodes[i].addrs[k]
    ensures Missing(s.fs, i, k) == 0 ==>
              && SlotDone(sb, s, s, i, k, Some(Addr(s.fs, i, k)), {}, {}, Missing(s.fs, i, k))
              && AddrPut(sb, s.fs, s.fs, i, k, Addr(s.fs, i, k))
  {
    hide Owns, FreeMap, Mapped, AddrPut;
    if Missing(s.fs, i, k) == 0 {
      AlreadyMapped(sb, s.fs, s.owner, i, k);
    }
  }

  /** The state after a block was given to slot k of the indirect block. */
  function ListedSnap(sb: Super, s: Snap, b: Word, i: nat, k: nat): Snap
    requires Shape(sb, s.fs) && b < sb.size && i < sb.ninodes && NDIRECT < k < SLOTS
    requires s.fs.inodes[i].addrs[NDIRECT] < sb.size
  {
    Snap(GiveIndirect(sb, s.fs, b, i, k), s.owner[b := Slot(i, k)],
         s.logged + {sb.BitmapBlock(b), b as nat} + {s.fs.inodes[i].addrs[NDIRECT] as nat})
  }

  lemma ListedGiven(sb: Super, s: Snap, b: Word, i: nat, k: nat)
    requires Core(sb, s.fs, s.owner)
    requires sb.nmeta <= b < sb.size && b !in s.owner && i < sb.ninodes && NDIRECT < k < SLOTS
             && Missing(s.fs, i, k) == 1
    requires s.fs.inodes[i].addrs[NDIRECT] != 0
    ensures s.fs.inodes[i].addrs[NDIRECT] < sb.size
    ensures var s' := ListedSnap(sb, s, b, i, k);
            SlotDone(sb, s, s', i, k, Some(b), IndirectOf(s'.fs, i), {sb.BitmapBlock(b)}, 1)
  {
    hide Mapped, Owns, FreeMap, Addr, Mark, SetWord, ZeroBlock;
    GiveIndirectMapped(sb, s.fs, s.owner, b, i, k);
    OneMoreOwner(s.owner, b, Slot(i, k));
    OneBitmap(sb, b);
  }

  lemma ListedAddr(sb: Super, s: Snap, i: nat, k: nat)
    requires Core(sb, s.fs, s.owner) && i < sb.ninodes && NDIRECT < k < SLOTS && Missing(s.fs, i, NDIRECT) == 0
    requires s.fs.inodes[i].addrs[NDIRECT] < sb.size
    ensures var a := GetWord(s.fs.disk[s.fs.inodes[i].addrs[NDIRECT]], k - 13);
            && Missing(s.fs, i, k) == (if a == 0 then 1 else 0)
            && (a != 0 ==> SlotDone(sb, s, s, i, k, Some(a), IndirectOf(s.fs, i), {}, 0))
  {
    hide Owns, FreeMap, GetWord;
    if Addr(s.fs, i, k) != 0 {
      AlreadyMapped(sb, s.fs, s.owner, i, k);
    }
  }

  lemma SlotNone(sb: Super, s: Snap, i: nat, k: nat, via: set<nat>)
    requires Full(sb, s.fs.disk)
    requires Core(sb, s.fs, s.owner) && i < sb.ninodes && k < SLOTS && Missing(s.fs, i, k) == 1
    ensures SlotDone(sb, s, s, i, k, None, via, {}, 1)
  {
    hide Addr, Owns, FreeMap;
    FreeCount(sb, s.fs, s.owner);
  }

  /** A lookup fails exactly if fewer blocks are free than it needs. */
  lemma SlotExact(sb: Super, s: Snap, s': Snap, i: nat, k: nat, r: Option<Word>, via: set<nat>, bm: set<nat>,
                  missing: nat)
    requires Core(sb, s.fs, s.owner) && SlotDone(sb, s, s', i, k, r, via, bm, missing)
    ensures r.None? <==> |FreeBlocks(sb, s.fs.disk)| < missing
  {
    hide Owns, FreeMap, Addr, OthersSame, BytesSame, Grown, FreeBlocks;
    FreeCount(sb, s.fs, s.owner);
    if r.Some? {
      FreeCount(sb, s'.fs, s'.owner);
    }
  }

  lemma NoneWhenFull(sb: Super, s: Snap, s': Snap, i: nat, k: nat, via: set<nat>, bm: set<nat>, missing: nat)
    requires SlotDone(sb, s, s', i, k, None, via, bm, missing)
    ensures Full(sb, s'.fs.disk) && Short(sb, s, missing)
  {
  }

  lemma AlreadyMapped(sb: Super, fs: Fs, owner: map<nat, Slot>, i: nat, k: nat)
    requires Core(sb, fs, owner) && i < sb.ninodes && k < SLOTS && Addr(fs, i, k) != 0
    ensures Mapped(sb, fs, fs, owner, i, k, Addr(fs, i, k))
    ensures AddrPut(sb, fs, fs, i, k, Addr(fs, i, k))
  {
    hide Owns, FreeMap, Addr;
  }

  lemma NoIndirectBlock(sb: Super, s: Snap, s1: Snap, i: nat, k: nat, bm: set<nat>)
    requires Core(sb, s.fs, s.owner) && i < sb.ninodes && NDIRECT < k < SLOTS
    requires SlotDone(sb, s, s1, i, NDIRECT, None, {}, bm, Missing(s.fs, i, NDIRECT))
    ensures SlotDone(sb, s, s1, i, k, None, IndirectOf(s1.fs, i), bm, Missing(s.fs, i, k) + Missing(s.fs, i, NDIRECT))
  {
    hide Owns, FreeMap;
  }

  lemma GotIndirectBlock(sb: Super, s: Snap, s1: Snap, i: nat, k: nat, r: Option<Word>, bm: set<nat>)
    requires Core(sb, s.fs, s.owner) && i < sb.ninodes && NDIRECT < k < SLOTS && r.Some?
    requires SlotDone(sb, s, s1, i, NDIRECT, r, {}, bm, Missing(s.fs, i, NDIRECT))
    requires Shape(sb, s1.fs) && AddrPut(sb, s.fs, s1.fs, i, NDIRECT, r.value)
    ensures Core(sb, s1.fs, s1.owner) && Missing(s1.fs, i, NDIRECT) == 0 && Missing(s1.fs, i, k) == Missing(s.fs, i, k)
    ensures IndirectOf(s1.fs, i) == {r.value as nat}
  {
    hide Addr, Owns, FreeMap, Grown, BytesSame, OthersSame, BitmapOnly, IndirectOf;
    IndirectAddr(s1.fs, i);
    assert Addr(s1.fs, i, k) == Addr(s.fs, i, k);
  }

  lemma IndirectAddr(fs: Fs, i: nat)
    requires i < |fs.inodes|
    ensures IndirectOf(fs, i) == if Addr(fs, i, NDIRECT) != 0 then {Addr(fs, i, NDIRECT) as nat} else {}
  {
  }

  lemma BothSlots(sb: Super, s: Snap, s1: Snap, s2: Snap, i: nat, k: nat,
                  r1: Option<Word>, r: Option<Word>, bm1: set<nat>, bm2: set<nat>)
    requires Core(sb, s.fs, s.owner) && i < sb.ninodes && NDIRECT < k < SLOTS && r1.Some?
    requires SlotDone(sb, s, s1, i, NDIRECT, r1, {}, bm1, Missing(s.fs, i, NDIRECT))
    requires SlotDone(sb, s1, s2, i, k, r, IndirectOf(s2.fs, i), bm2, Missing(s1.fs, i, k))
    requires Missing(s1.fs, i, k) == Missing(s.fs, i, k) && Missing(s1.fs, i, NDIRECT) == 0
    requires IndirectOf(s1.fs, i) == {r1.value as nat}
    ensures SlotDone(sb, s, s2, i, k, r, IndirectOf(s2.fs, i), bm1 + bm2,
                     Missing(s.fs, i, k) + Missing(s.fs, i, NDIRECT))
  {
    hide Grown, BytesSame, Owns, FreeMap, Addr, Missing, OthersSame, BitmapOnly;
    NoIndirect(s.fs, i, k);
    if r.Some? {
      MappedTrans(sb, s.fs, s1.fs, s2.fs, s2.owner, i, k, r.value);
      hide Mapped;
      BothLogged(sb, s.logged, s1.logged, s2.logged, bm1, bm2, r1.value, r.value);
    }
  }

  lemma BothLogged(sb: Super, l: set<nat>, l1: set<nat>, l2: set<nat>, bm1: set<nat>, bm2: set<nat>, a: nat, b: nat)
    requires l1 <= l + bm1 + {a} + {} && l2 <= l1 + bm2 + {b} + {a} && BitmapOnly(sb, bm1) && BitmapOnly(sb, bm2)
    ensures l2 <= l + (bm1 + bm2) + {b} + {a} && BitmapOnly(sb, bm1 + bm2) && |bm1 + bm2| <= |bm1| + |bm2|
  {
  }

  lemma MappedTrans(sb: Super, fs: Fs, fs1: Fs, fs2: Fs, owner: map<nat, Slot>, i: nat, k: nat, a: nat)
    requires Grown(sb, fs, fs1, i) && BytesSame(sb, fs, fs1) && Mapped(sb, fs1, fs2, owner, i, k, a)
    requires OthersSame(sb, fs, fs1, i, NDIRECT) && NDIRECT < k
    requires Missing(fs1, i, NDIRECT) == 0
    ensures Mapped(sb, fs, fs2, owner, i, k, a)
    ensures IndirectOf(fs2, i) == IndirectOf(fs1, i)
  {
    GrownAddr(sb, fs1, fs2, i, NDIRECT);
    assert fs2.inodes[i].addrs[NDIRECT] == Addr(fs2, i, NDIRECT);
    assert fs1.inodes[i].addrs[NDIRECT] == Addr(fs1, i, NDIRECT);
    hide Addr, Owns, FreeMap;
    GrownTrans(sb, fs, fs1, fs2, i);
    SameTrans(sb, fs, fs1, fs2);
  }

  lemma NoIndirect(fs: Fs, i: nat, k: nat)
    requires i < |fs.inodes| && NDIRECT < k < SLOTS
    ensures Missing(fs, i, NDIRECT) <= Missing(fs, i, k)
  {
  }

  lemma GrownAddr(sb: Super, fs: Fs, fs': Fs, i: nat, k: nat)
    requires Grown(sb, fs, fs', i) && k < SLOTS
    ensures Addr(fs, i, k) != 0 ==> Addr(fs', i, k) == Addr(fs, i, k)
  {
    hide Addr;
  }

  lemma BitmapInRange(sb: Super)
    requires sb.Valid()
    ensures forall c :: 0 <= c < sb.size ==> sb.bmapstart <= sb.BitmapBlock(c) < sb.nmeta
  {
  }

  lemma IndirectInRange(sb: Super, fs: Fs, owner: map<nat, Slot>, i: nat)
    requires Core(sb, fs, owner) && i < sb.ninodes
    ensures Missing(fs, i, NDIRECT) == 0 ==> sb.nmeta <= fs.inodes[i].addrs[NDIRECT] < sb.size
    ensures Missing(fs, i, NDIRECT) == 0 ==> fs.inodes[i].addrs[NDIRECT] != 0
  {
    assert Addr(fs, i, NDIRECT) == fs.inodes[i].addrs[NDIRECT];
  }

  lemma SameTrans(sb: Super, fs: Fs, fs1: Fs, fs2: Fs)
    requires Shape(sb, fs) && Shape(sb, fs1) && Shape(sb, fs2)
    requires BytesSame(sb, fs, fs1) && BytesSame(sb, fs1, fs2)
    ensures BytesSame(sb, fs, fs2)
  {
    hide ByteAt;
  }

  /** How many blocks mapping block bn of file i must allocate. */
  function Needed(fs: Fs, i: nat, bn: nat): nat
    requires bn < MAXFILE
  {
    Missing(fs, i, DataSlot(bn)) + (if bn < NDIRECT then 0 else Missing(fs, i, NDIRECT))
  }

  /** The block beside the data block itself that mapping block bn may log. */
  function Via(fs: Fs, i: nat, bn: nat): set<nat>
  {
    if bn < NDIRECT then {} else IndirectOf(fs, i)
  }

  /** What holds between operations. */
  ghost predicate AllSettled(sb: Super, s: Snap)
  {
    Core(sb, s.fs, s.owner) && forall i :: 0 <= i < sb.ninodes ==> Settled(sb, s.fs, i)
  }
}
