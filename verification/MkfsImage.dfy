/** mkfs.c: building an image file by file, with blocks handed out by a counter and the free map written last. */
module MkfsImage {
  import opened Arith
  import opened Wrappers
  import opened Counting
  import opened Blocks
  import opened Bitmap
  import opened Inodes
  import opened BlockMap
  import opened BlockRange
  import opened FileContent
  import opened Mkfs

  /** What mkfs comes to: it works; a file exceeds MAXFILE blocks, or the blocks used exceed one bitmap block (its
      assertions fail); or blocks beyond the end of the disk are handed out, which it does not notice. */
  datatype Result = Done | TooLong | TooMany | Beyond

  /** The disks differ in bitmap blocks only. */
  predicate Follows(sb: Super, d: seq<Block>, d': seq<Block>)
  {
    |d| == |d'| == sb.size && forall b :: 0 <= b < sb.size && b !in Bitmaps(sb) ==> d[b] == d'[b]
  }

  /** The disk being built, against the file system it is to hold; block numbers below `next` are taken. */
  ghost predicate Tracks(sb: Super, disk: seq<Block>, next: nat, s: Snap)
  {
    && Core(sb, s.fs, s.owner) && Follows(sb, disk, s.fs.disk)
    && sb.nmeta <= next <= sb.size && s.owner.Keys == Range(sb.nmeta, next)
    && (forall b :: 0 <= b < sb.size && (b < sb.inodestart || next <= b) ==> disk[b] == ZeroBlock())
    && (forall b :: b in Bitmaps(sb) ==> b < sb.nmeta && disk[b] == ZeroBlock())
  }

  /** Marking a block that is zero on disk touches the free map only. */
  lemma GiveFollows(sb: Super, disk: seq<Block>, d: seq<Block>, b: nat)
    requires sb.Valid() && Follows(sb, disk, d) && b < sb.size && disk[b] == ZeroBlock()
    ensures sb.BitmapBlock(b) < |d| && Follows(sb, disk, Mark(sb, d, b, true)[b := ZeroBlock()])
  {
    hide ZeroBlock, PutByteBit, Bitmaps;
    BitmapInRange(sb);
    BitmapsHold(sb, b);
  }

  lemma PutFollows(sb: Super, disk: seq<Block>, d: seq<Block>, x: nat, k: nat, w: Word)
    requires Follows(sb, disk, d) && x < sb.size && x !in Bitmaps(sb) && k < WORDS_PER_BLOCK
    ensures Follows(sb, disk[x := SetWord(disk[x], k, w)], d[x := SetWord(d[x], k, w)])
  {
    hide SetWord, Bitmaps;
  }

  /** Block `next` goes to slot k of the inode: nothing on disk changes yet. */
  lemma TracksInode(sb: Super, disk: seq<Block>, next: Word, s: Snap, i: nat, k: nat)
    requires Tracks(sb, disk, next, s) && next < sb.size && i < sb.ninodes && k <= NDIRECT && Missing(s.fs, i, k) == 1
    ensures Tracks(sb, disk, next + 1, GivenSnap(sb, s, next, i, k))
    ensures SlotDone(sb, s, GivenSnap(sb, s, next, i, k), i, k, Some(next), {}, {sb.BitmapBlock(next)},
                     Missing(s.fs, i, k))
    ensures AddrPut(sb, s.fs, GivenSnap(sb, s, next, i, k).fs, i, k, next)
  {
    hide Owns, FreeMap, Addr, ZeroBlock, Mark, AddrPut, Follows, SlotDone;
    assert next !in s.owner;
    InodeGiven(sb, s, next, i, k);
    SlotCore(sb, s, GivenSnap(sb, s, next, i, k), i, k, Some(next), {}, {sb.BitmapBlock(next)}, 1);
    GiveFollows(sb, disk, s.fs.disk, next);
  }

  lemma SlotCore(sb: Super, s: Snap, s': Snap, i: nat, k: nat, r: Option<Word>, via: set<nat>, bm: set<nat>,
                 missing: nat)
    requires SlotDone(sb, s, s', i, k, r, via, bm, missing) && r.Some?
    ensures Core(sb, s'.fs, s'.owner) && k < SLOTS && i < sb.ninodes && r.value == Addr(s'.fs, i, k) != 0
  {
    hide Owns, FreeMap, Addr, OthersSame, BytesSame;
  }

  /** Block `next` goes to slot k, listed in the indirect block, which is rewritten. */
  lemma TracksListed(sb: Super, disk: seq<Block>, next: Word, s: Snap, i: nat, k: nat)
    requires Tracks(sb, disk, next, s) && next < sb.size && i < sb.ninodes && NDIRECT < k < SLOTS
    requires Missing(s.fs, i, k) == 1 && Missing(s.fs, i, NDIRECT) == 0
    ensures var ind := s.fs.inodes[i].addrs[NDIRECT];
            && 0 != ind < next && disk[ind] == s.fs.disk[ind]
            && Tracks(sb, disk[ind := SetWord(disk[ind], k - 13, next)], next + 1, ListedSnap(sb, s, next, i, k))
            && SlotDone(sb, s, ListedSnap(sb, s, next, i, k), i, k, Some(next),
                        IndirectOf(ListedSnap(sb, s, next, i, k).fs, i), {sb.BitmapBlock(next)}, 1)
  {
    hide Owns, FreeMap, Addr, ZeroBlock, Mark, SetWord, Follows, SlotDone, IndirectOf;
    IndirectTracked(sb, disk, next, s, i);
    TracksCore(sb, disk, next, s);
    ListedGiven(sb, s, next, i, k);
    GiveFollows(sb, disk, s.fs.disk, next);
    PutFollows(sb, disk, Mark(sb, s.fs.disk, next, true)[next := ZeroBlock()], s.fs.inodes[i].addrs[NDIRECT], k - 13,
               next);
    SlotCore(sb, s, ListedSnap(sb, s, next, i, k), i, k, Some(next), IndirectOf(ListedSnap(sb, s, next, i, k).fs, i),
             {sb.BitmapBlock(next)}, 1);
  }

  lemma IndirectTracked(sb: Super, disk: seq<Block>, next: nat, s: Snap, i: nat)
    requires Tracks(sb, disk, next, s) && i < sb.ninodes && Missing(s.fs, i, NDIRECT) == 0
    ensures var ind := s.fs.inodes[i].addrs[NDIRECT];
            sb.nmeta <= ind < next <= |disk| && disk[ind] == s.fs.disk[ind] && ind != 0
  {
    hide FreeMap;
    assert Addr(s.fs, i, NDIRECT) == s.fs.inodes[i].addrs[NDIRECT];
  }

  lemma PartCore(sb: Super, s: Snap, s': Snap, i: nat, off: nat, part: seq<Byte>, bm: set<nat>)
    requires PartDone(sb, s, s', i, off, part, bm)
    ensures Core(sb, s'.fs, s'.owner)
  {
  }

  /** Storing into a block that is taken. */
  lemma TracksStore(sb: Super, disk: seq<Block>, next: nat, s: Snap, s': Snap, x: nat, data: Block)
    requires Tracks(sb, disk, next, s) && sb.nmeta <= x < next && Core(sb, s'.fs, s'.owner) && s'.owner == s.owner
    requires s'.fs.disk == s.fs.disk[x := data]
    ensures Tracks(sb, disk[x := data], next, s')
  {
    hide Owns, FreeMap, ZeroBlock;
  }

  lemma StoreWhere(sb: Super, disk: seq<Block>, next: nat, s: Snap, s1: Snap, i: nat, bn: nat, x: Word, bm: set<nat>)
    requires Tracks(sb, disk, next, s1) && bn < MAXFILE
    requires SlotDone(sb, s, s1, i, DataSlot(bn), Some(x), Via(s1.fs, i, bn), bm, Needed(s.fs, i, bn))
    ensures sb.nmeta <= x < next <= |disk| == |s1.fs.disk| && disk[x] == s1.fs.disk[x]
  {
    hide FreeMap, Addr, OthersSame, BytesSame, ZeroBlock;
  }

  lemma TracksCore(sb: Super, disk: seq<Block>, next: nat, s: Snap)
    requires Tracks(sb, disk, next, s)
    ensures Core(sb, s.fs, s.owner) && |disk| == sb.size
  {
  }

  lemma TracksCount(sb: Super, disk: seq<Block>, next: nat, s: Snap)
    requires Tracks(sb, disk, next, s)
    ensures |s.owner| == next - sb.nmeta
  {
    hide Owns, FreeMap, Follows, Bitmaps, ZeroBlock;
    assert |s.owner| == |s.owner.Keys|;
  }

  /** The inode as read from the disk is that of the file system. */
  lemma ReadInode(sb: Super, disk: seq<Block>, next: nat, s: Snap, i: nat)
    requires AllSettled(sb, s) && Tracks(sb, disk, next, s) && i < sb.ninodes
    ensures sb.InodeBlock(i) < |disk| && InodeAt(sb, disk, i) == s.fs.inodes[i] && |s.fs.inodes| == sb.ninodes
    ensures s.fs.inodes[i].size <= MAXFILE * BSIZE
  {
    hide Owns, FreeMap, GetWord, OnDisk, WordsAt;
    assert Settled(sb, s.fs, i);
    assert sb.InodeBlock(i) < sb.bmapstart;
    ReadsBack(sb, s.fs, i);
  }

  /** The disk after winode. */
  function WithInode(sb: Super, disk: seq<Block>, i: nat, ip: Inode): seq<Block>
    requires sb.InodeBlock(i) < |disk|
  {
    var ib := sb.InodeBlock(i);
    disk[ib := PutWords(disk[ib], 16 * (i % 8), InodeWords(ip), 16)]
  }

  /** Writing inode i, in both. */
  lemma TracksInodeWrite(sb: Super, disk: seq<Block>, next: nat, s: Snap, fs': Fs, i: nat)
    requires Tracks(sb, disk, next, s) && i < sb.ninodes && Shape(sb, fs') && fs'.disk == s.fs.disk
    requires Core(sb, Iupdate(sb, fs', i), s.owner)
    ensures Tracks(sb, WithInode(sb, disk, i, fs'.inodes[i]), next, Snap(Iupdate(sb, fs', i), s.owner, s.logged))
  {
    hide Owns, FreeMap, PutWords, InodeWords, ZeroBlock;
    assert sb.InodeBlock(i) < sb.bmapstart;
  }

  lemma TracksGrow(sb: Super, disk: seq<Block>, next: nat, s: Snap, i: nat, size: Word)
    requires Tracks(sb, disk, next, s) && i < sb.ninodes && i < |s.fs.inodes|
    ensures sb.InodeBlock(i) < |disk|
    ensures Tracks(sb, WithInode(sb, disk, i, s.fs.inodes[i].(size := size)), next,
                   Snap(Grow(sb, s.fs, i, size), s.owner, s.logged))
  {
    hide Owns, FreeMap, Iupdate, Bitmaps, WithInode, ZeroBlock;
    GrowKeeps(sb, s.fs, s.owner, i, size);
    TracksInodeWrite(sb, disk, next, s, s.fs.(inodes := s.fs.inodes[i := s.fs.inodes[i].(size := size)]), i);
  }

  lemma EmptyTight(sb: Super, fs: Fs)
    requires Shape(sb, fs) && forall j :: 0 <= j < sb.ninodes ==> fs.inodes[j] == EmptyInode()
    ensures AllTight(sb, fs)
  {
    hide GetWord;
    forall j | 0 <= j < sb.ninodes
      ensures Tight(fs, j)
    {
      assert fs.inodes[j] == EmptyInode();
    }
  }

  lemma EmptyTracks(sb: Super, disk: seq<Block>, s: Snap)
    requires AllSettled(sb, s) && s.fs.disk == Format(sb, sb.nmeta, {}) && s.owner == map[]
    requires |disk| == sb.size && forall b :: 0 <= b < sb.size ==> disk[b] == ZeroBlock()
    ensures Tracks(sb, disk, sb.nmeta, s)
  {
    hide Format, ZeroBlock, Owns, FreeMap, Settled;
    forall b | 0 <= b < sb.size && b !in Bitmaps(sb)
      ensures disk[b] == s.fs.disk[b]
    {
      FormatZero(sb, sb.nmeta, {}, b);
    }
  }

  /** File i has exactly the blocks that its size calls for. */
  predicate Tight(fs: Fs, i: nat)
    requires i < |fs.inodes|
  {
    forall bn :: 0 <= bn < MAXFILE ==> (Addr(fs, i, DataSlot(bn)) != 0 <==> bn * BSIZE < fs.inodes[i].size)
  }

  ghost predicate AllTight(sb: Super, fs: Fs)
    requires Shape(sb, fs)
  {
    forall j :: 0 <= j < sb.ninodes ==> Tight(fs, j)
  }

  /** Appending keeps files tight. */
  lemma AppendTight(sb: Super, s0: Snap, s: Snap, i: nat, off: nat, xp: seq<Byte>, acc: Acc, j: nat)
    requires Writing(sb, s0, s, i, off, xp, |xp|, acc) && |xp| > 0 && off == s0.fs.inodes[i].size && j < sb.ninodes
    requires j < |s0.fs.inodes| && Tight(s0.fs, j)
    requires AddrSame(sb, s.fs, Grow(sb, s.fs, i, off + |xp|))
    ensures Tight(Grow(sb, s.fs, i, off + |xp|), j)
  {
    hide Core, Addr, Written, AccOk, PutWords, IndirectOf, EndBlock, Lacking, InodeWhole;
    var fs' := Grow(sb, s.fs, i, off + |xp|);
    var a, e := off / BSIZE, EndBlock(off, |xp|);
    forall bn | 0 <= bn < MAXFILE
      ensures Addr(fs', j, DataSlot(bn)) != 0 <==> bn * BSIZE < fs'.inodes[j].size
    {
      assert Addr(fs', j, DataSlot(bn)) == Addr(s.fs, j, DataSlot(bn));
      if j == i {
        AppendRange(off, |xp|, bn);
        assert Touched(a, e, DataSlot(bn)) <==> a <= bn < e;
        if a <= bn < e {
          assert Missing(s.fs, i, DataSlot(bn)) == 0;
        } else {
          assert Addr(s.fs, i, DataSlot(bn)) == Addr(s0.fs, i, DataSlot(bn));
        }
      } else {
        assert Addr(s.fs, j, DataSlot(bn)) == Addr(s0.fs, j, DataSlot(bn));
      }
    }
  }

  lemma AppendAllTight(sb: Super, s0: Snap, s: Snap, i: nat, off: nat, xp: seq<Byte>, acc: Acc)
    requires Writing(sb, s0, s, i, off, xp, |xp|, acc) && |xp| > 0 && Shape(sb, s0.fs)
    requires off == s0.fs.inodes[i].size
    ensures Shape(sb, s.fs) && Shape(sb, Grow(sb, s.fs, i, off + |xp|))
    ensures AllTight(sb, s0.fs) ==> AllTight(sb, Grow(sb, s.fs, i, off + |xp|))
  {
    hide Owns, FreeMap, Addr, Written, AccOk, IndirectOf, Lacking, InodeWhole, Tight, AllThere, ByteAt;
    WritingCore(sb, s0, s, i, off, xp, |xp|, acc);
    GrowKeeps(sb, s.fs, s.owner, i, off + |xp|);
    var fs' := Grow(sb, s.fs, i, off + |xp|);
    if AllTight(sb, s0.fs) {
      forall j | 0 <= j < sb.ninodes
        ensures Tight(fs', j)
      {
        AppendTight(sb, s0, s, i, off, xp, acc, j);
      }
    }
  }

  lemma AppendRange(off: nat, n: nat, bn: nat)
    requires n > 0
    ensures bn < EndBlock(off, n) <==> bn * BSIZE < off + n
    ensures bn < off / BSIZE ==> bn * BSIZE < off
    ensures bn >= EndBlock(off, n) ==> bn * BSIZE >= off
  {
  }

  /** The file system after ialloc made inode i. */
  function Made(sb: Super, fs: Fs, i: nat, kind: Word, links: Word): Fs
    requires Shape(sb, fs) && i < sb.ninodes
  {
    Iupdate(sb, fs.(inodes := fs.inodes[i := fs.inodes[i].(kind := kind, links := links)]), i)
  }

  lemma MadeKeeps(sb: Super, disk: seq<Block>, next: nat, s: Snap, i: nat, kind: Word, links: Word)
    requires AllSettled(sb, s) && Tracks(sb, disk, next, s) && i < sb.ninodes && s.fs.inodes[i] == EmptyInode()
    ensures var fs' := Made(sb, s.fs, i, kind, links);
            && AllSettled(sb, Snap(fs', s.owner, s.logged)) && sb.InodeBlock(i) < |disk|
            && Tracks(sb, WithInode(sb, disk, i, EmptyInode().(kind := kind, links := links)), next,
                      Snap(fs', s.owner, s.logged))
            && fs'.inodes == s.fs.inodes[i := EmptyInode().(kind := kind, links := links)]
            && (AllTight(sb, s.fs) ==> AllTight(sb, fs'))
            && forall j :: 0 <= j < sb.ninodes ==> Content(fs', j) == Content(s.fs, j)
  {
    hide Owns, FreeMap, Addr, ByteAt, Iupdate, OnDisk, WithInode, Follows, ZeroBlock, Bitmaps, GetWord;
    var fs1 := s.fs.(inodes := s.fs.inodes[i := s.fs.inodes[i].(kind := kind, links := links)]);
    TracksCore(sb, disk, next, s);
    RekindKeeps(sb, s.fs, s.owner, i, kind, links);
    IupdateKeeps(sb, fs1, s.owner, i);
    TracksInodeWrite(sb, disk, next, s, fs1, i);
    forall j | 0 <= j < sb.ninodes
      ensures Settled(sb, Iupdate(sb, fs1, i), j)
    {
      assert Settled(sb, s.fs, j);
      if j != i {
        RekindOnDisk(sb, s.fs, i, kind, links, j);
      }
      IupdateOnDisk(sb, fs1, i, j);
      IupdateInodes(sb, fs1, i);
    }
    IupdateInodes(sb, fs1, i);
    SameTight(sb, s.fs, Iupdate(sb, fs1, i));
  }

  lemma SameTight(sb: Super, fs: Fs, fs': Fs)
    requires Shape(sb, fs) && Shape(sb, fs')
    requires forall j, l :: 0 <= j < sb.ninodes && 0 <= l < SLOTS ==> Addr(fs', j, l) == Addr(fs, j, l)
    requires forall j :: 0 <= j < sb.ninodes ==> fs'.inodes[j].size == fs.inodes[j].size
    ensures AllTight(sb, fs) ==> AllTight(sb, fs')
  {
    hide Addr;
    if AllTight(sb, fs) {
      forall j | 0 <= j < sb.ninodes
        ensures Tight(fs', j)
      {
        assert Tight(fs, j);
      }
    }
  }

  lemma IupdateInodes(sb: Super, fs: Fs, i: nat)
    requires Shape(sb, fs) && i < sb.ninodes
    ensures Iupdate(sb, fs, i).inodes == fs.inodes && Shape(sb, Iupdate(sb, fs, i))
  {
  }

  lemma RekindOnDisk(sb: Super, fs: Fs, i: nat, kind: Word, links: Word, j: nat)
    requires Shape(sb, fs) && i < sb.ninodes && j < sb.ninodes && j != i && OnDisk(sb, fs, j)
    ensures OnDisk(sb, fs.(inodes := fs.inodes[i := fs.inodes[i].(kind := kind, links := links)]), j)
  {
    hide GetWord, InodeWords;
  }

  lemma RekindKeeps(sb: Super, fs: Fs, owner: map<nat, Slot>, i: nat, kind: Word, links: Word)
    requires Core(sb, fs, owner) && i < sb.ninodes
    ensures var fs' := fs.(inodes := fs.inodes[i := fs.inodes[i].(kind := kind, links := links)]);
            Core(sb, fs', owner) && AddrSame(sb, fs, fs') && BytesSame(sb, fs, fs')
  {
    hide GetWord, FreeMap;
    var fs' := fs.(inodes := fs.inodes[i := fs.inodes[i].(kind := kind, links := links)]);
    assert AddrSame(sb, fs, fs');
    SameOwns(sb, fs, owner, fs');
    SameFreeMap(sb, fs, owner, fs');
  }

  /** A directory entry: the inode number, and the name cut or padded to fourteen bytes. */
  function Dirent(inum: nat, name: seq<Byte>): (d: seq<Byte>)
    ensures |d| == 16
  {
    [inum % 256, inum / 256 % 256] + if |name| >= 14 then name[..14] else name + Zeros(14 - |name|)
  }

  lemma EmptyContent(fs: Fs, i: nat)
    requires i < |fs.inodes| && fs.inodes[i].size == 0
    ensures Content(fs, i) == []
  {
  }

  /** An inode of the given type with one link and no device number. */
  predicate Typed(fs: Fs, i: nat, kind: Word)
  {
    i < |fs.inodes| && fs.inodes[i].kind == kind && fs.inodes[i].links == 0x1_0000
  }

  /** Appending, in terms of contents. */
  lemma Appended(sb: Super, s0: Snap, s: Snap, i: nat, xp: seq<Byte>)
    requires AllSettled(sb, s0) && i < |s0.fs.inodes| && WriteDone(sb, s0, s, i, s0.fs.inodes[i].size, xp)
    ensures Shape(sb, s0.fs) && Shape(sb, s.fs) && i < sb.ninodes
    ensures Content(s.fs, i) == Content(s0.fs, i) + xp
    ensures s.fs.inodes[i].kind == s0.fs.inodes[i].kind && s.fs.inodes[i].links == s0.fs.inodes[i].links
    ensures forall j :: 0 <= j < sb.ninodes && j != i ==>
              Content(s.fs, j) == Content(s0.fs, j) && s.fs.inodes[j] == s0.fs.inodes[j]
  {
    hide Owns, FreeMap, Addr, OnDisk, Content, Written, NoNewHole;
    assert Settled(sb, s0.fs, i);
    ContentWritten(sb, s0, s, i, s0.fs.inodes[i].size, xp);
    var c := Content(s0.fs, i);
    assert c[..|c|] == c;
  }

  /** The size of i is rounded up; no address and no byte changes. */
  ghost predicate Resized(sb: Super, fs: Fs, fs': Fs, i: nat)
    requires Shape(sb, fs) && Shape(sb, fs') && i < sb.ninodes
  {
    && AddrSame(sb, fs, fs') && BytesSame(sb, fs, fs')
    && fs'.inodes == fs.inodes[i := fs'.inodes[i]] && fs'.inodes[i] == fs.inodes[i].(size := fs'.inodes[i].size)
    && fs'.inodes[i].size == (fs.inodes[i].size / BSIZE + 1) * BSIZE
  }

  lemma ResizeSettled(sb: Super, s: Snap, i: nat, size: Word)
    requires AllSettled(sb, s) && i < sb.ninodes && size <= MAXFILE * BSIZE
    ensures var fs' := Grow(sb, s.fs, i, size);
            && AllSettled(sb, Snap(fs', s.owner, s.logged)) && AddrSame(sb, s.fs, fs') && BytesSame(sb, s.fs, fs')
            && fs'.inodes == s.fs.inodes[i := s.fs.inodes[i].(size := size)]
            && (size == (s.fs.inodes[i].size / BSIZE + 1) * BSIZE ==> Resized(sb, s.fs, fs', i))
  {
    hide Owns, FreeMap, Addr, ByteAt, OnDisk, PutWords;
    GrowKeeps(sb, s.fs, s.owner, i, size);
    forall j | 0 <= j < sb.ninodes
      ensures Settled(sb, Grow(sb, s.fs, i, size), j)
    {
      assert Settled(sb, s.fs, j);
      GrowOnDisk(sb, s.fs, i, size, j);
    }
  }

  /** The bits set are those of the first n blocks. */
  predicate UsedBelow(sb: Super, d: seq<Block>, n: nat)
  {
    |d| == sb.size && forall c :: 0 <= c < sb.size ==> sb.BitmapBlock(c) < sb.size && (Used(sb, d, c) <==> c < n)
  }

  lemma MarkOne(sb: Super, d: seq<Block>, i: nat)
    requires UsedBelow(sb, d, i) && i < sb.size
    ensures sb.BitmapBlock(i) < |d| && UsedBelow(sb, Mark(sb, d, i, true), i + 1)
  {
    hide Used, Mark;
    forall c | 0 <= c < sb.size
      ensures Used(sb, Mark(sb, d, i, true), c) <==> c < i + 1
    {
      MarkUsed(sb, d, i, true, c);
    }
  }

  /** Before the free map is written, all its bits are clear. */
  lemma FirstBitmap(sb: Super, disk: seq<Block>, next: nat, s: Snap)
    requires Tracks(sb, disk, next, s)
    ensures sb.bmapstart < |disk| == sb.size && disk[sb.bmapstart := ZeroBlock()] == disk
    ensures UsedBelow(sb, disk, 0) && next <= sb.size && sb.inodestart <= sb.bmapstart
    ensures forall b :: 0 <= b < sb.inodestart ==> disk[b] == ZeroBlock()
  {
    hide Owns, FreeMap, ZeroBlock, Bit;
    BitmapInRange(sb);
    BitmapsHold(sb, 0);
    forall c | 0 <= c < sb.size
      ensures !Used(sb, disk, c)
    {
      BitmapsHold(sb, c);
      ZeroBit(c % 8);
      ZeroByte(c % BPB / 8);
    }
  }

  /** With its free map written, the disk holds the file system. */
  lemma Finished(sb: Super, disk: seq<Block>, next: nat, s: Snap, buf: Block)
    requires AllSettled(sb, s) && Tracks(sb, disk, next, s) && sb.bmapstart < |disk|
    requires UsedBelow(sb, disk[sb.bmapstart := buf], next)
    ensures var fs' := Fs(disk[sb.bmapstart := buf], s.fs.inodes);
            Shape(sb, fs') && SameFiles(sb, s.fs, fs') && AllSettled(sb, Snap(fs', s.owner, {}))
  {
    hide Owns, FreeMap, Addr, ByteAt, OnDisk, Used, ZeroBlock;
    var fs' := Fs(disk[sb.bmapstart := buf], s.fs.inodes);
    BitmapsHold(sb, 0);
    DataSame(sb, s.fs, fs', s.owner);
    SameOwns(sb, s.fs, s.owner, fs');
    MapWritten(sb, fs', next, s.owner);
    forall i | 0 <= i < sb.ninodes
      ensures Settled(sb, fs', i)
    {
      assert Settled(sb, s.fs, i);
      InodeSame(sb, s.fs, fs', i);
    }
  }

  lemma MapWritten(sb: Super, fs: Fs, next: nat, owner: map<nat, Slot>)
    requires Shape(sb, fs) && sb.nmeta <= next && owner.Keys == Range(sb.nmeta, next)
    requires UsedBelow(sb, fs.disk, next)
    ensures FreeMap(sb, fs, owner)
  {
    hide Used;
    assert forall b :: 0 <= b < sb.size ==> (b < next <==> b < sb.nmeta || b in owner);
  }

  lemma InodeSame(sb: Super, fs: Fs, fs': Fs, i: nat)
    requires Shape(sb, fs) && Shape(sb, fs') && fs'.inodes == fs.inodes && i < sb.ninodes && Settled(sb, fs, i)
    requires fs'.disk[sb.InodeBlock(i)] == fs.disk[sb.InodeBlock(i)]
    ensures Settled(sb, fs', i)
  {
    hide GetWord, InodeWords;
  }

  class Image {
    const sb: Super
    var disk: seq<Block>
    var freeblock: nat
    var freeinode: nat
    ghost var shadow: Snap         // the file system so far, its free map kept up

    ghost predicate Valid()
      reads this
    {
      AllSettled(sb, shadow) && Tracks(sb, disk, freeblock, shadow)
    }

    /** A zeroed disk. */
    constructor (sb: Super)
      requires sb.Valid()
      ensures Valid() && this.sb == sb && freeblock == sb.nmeta && freeinode == 1
      ensures forall j :: 0 <= j < sb.ninodes ==> shadow.fs.inodes[j] == EmptyInode()
      ensures AllTight(sb, shadow.fs)
    {
      this.sb := sb;
      disk := seq(sb.size, _ => ZeroBlock());
      freeblock := sb.nmeta;
      freeinode := 1;
      shadow := Snap(Fs(Format(sb, sb.nmeta, {}), seq(sb.ninodes, _ => EmptyInode())), map[], {});
      new;
      hide Format, ZeroBlock, Owns, FreeMap, OnDisk, EmptyInode;
      EmptyImage(sb);
      EmptyTracks(sb, disk, shadow);
      EmptyTight(sb, shadow.fs);
    }

    /** The next inode, with the given first word: type, no major number; and the second: no minor number, one link. */
    method Ialloc(kind: Word, links: Word) returns (i: nat)
      requires Valid() && freeinode < sb.ninodes && shadow.fs.inodes[freeinode] == EmptyInode()
      modifies this`disk, this`freeinode, this`shadow
      ensures Valid() && i == old(freeinode) && freeinode == i + 1
      ensures shadow.fs.inodes == old(shadow).fs.inodes[i := EmptyInode().(kind := kind, links := links)]
      ensures forall j :: 0 <= j < sb.ninodes ==> Content(shadow.fs, j) == Content(old(shadow).fs, j)
      ensures AllTight(sb, old(shadow).fs) ==> AllTight(sb, shadow.fs)
    {
      hide Owns, FreeMap, Addr, Tracks, Settled, WithInode, Content, EmptyInode, Tight, Made;
      i := freeinode;
      freeinode := freeinode + 1;
      var din := EmptyInode().(kind := kind, links := links);
      TracksCore(sb, disk, freeblock, shadow);
      MadeKeeps(sb, disk, freeblock, shadow, i, kind, links);
      disk := WithInode(sb, disk, i, din);
      shadow := Snap(Made(sb, shadow.fs, i, kind, links), shadow.owner, shadow.logged);
    }

    /** The block in slot k of the inode itself. */
    method MapInode(din: Inode, i: nat, k: nat) returns (r: Option<Word>, din': Inode, ghost bm: set<nat>)
      requires Tracks(sb, disk, freeblock, shadow) && i < sb.ninodes && shadow.fs.inodes[i] == din && k <= NDIRECT
      modifies this`freeblock, this`shadow
      ensures r.None? ==> old(freeblock) + Missing(old(shadow).fs, i, k) > sb.size
      ensures r.Some? ==> freeblock == old(freeblock) + Missing(old(shadow).fs, i, k)
      ensures r.Some? ==>
                && Tracks(sb, disk, freeblock, shadow) && shadow.fs.inodes[i] == din'
                && SlotDone(sb, old(shadow), shadow, i, k, r, {}, bm, Missing(old(shadow).fs, i, k))
                && AddrPut(sb, old(shadow).fs, shadow.fs, i, k, r.value)
    {
      hide Owns, FreeMap, Addr, SlotDone, AddrPut, ZeroBlock, Mark, Follows, Bitmaps;
      InodeThere(sb, shadow, i, k);
      bm := {};
      din' := din;
      if din.addrs[k] != 0 {
        return Some(din.addrs[k]), din, bm;
      }
      if freeblock >= sb.size {
        return None, din, bm;
      }
      r := Some(freeblock);
      TracksInode(sb, disk, freeblock, shadow, i, k);
      din' := din.(addrs := din.addrs[k := freeblock]);
      bm := {sb.BitmapBlock(freeblock)};
      shadow := GivenSnap(sb, shadow, freeblock, i, k);
      freeblock := freeblock + 1;
    }

    /** The block listed at slot k of the indirect block ind. */
    method MapListed(i: nat, k: nat, ind: nat) returns (r: Option<Word>, ghost bm: set<nat>)
      requires Tracks(sb, disk, freeblock, shadow) && i < sb.ninodes && NDIRECT < k < SLOTS
      requires Missing(shadow.fs, i, NDIRECT) == 0 && shadow.fs.inodes[i].addrs[NDIRECT] == ind
      modifies this`disk, this`freeblock, this`shadow
      ensures r.None? ==> old(freeblock) + Missing(old(shadow).fs, i, k) > sb.size
      ensures r.Some? ==>
                && Tracks(sb, disk, freeblock, shadow) && shadow.fs.inodes == old(shadow).fs.inodes
                && SlotDone(sb, old(shadow), shadow, i, k, r, IndirectOf(shadow.fs, i), bm,
                            Missing(old(shadow).fs, i, k))
    {
      hide Owns, FreeMap, Addr, SlotDone, Missing, ZeroBlock, Mark, Follows, Bitmaps, GetWord, SetWord, IndirectOf;
      IndirectTracked(sb, disk, freeblock, shadow, i);
      ListedAddr(sb, shadow, i, k);
      bm := {};
      var x := GetWord(disk[ind], k - 13);
      if x != 0 {
        return Some(x), bm;
      }
      if freeblock >= sb.size {
        return None, bm;
      }
      r := Some(freeblock);
      TracksListed(sb, disk, freeblock, shadow, i, k);
      bm := {sb.BitmapBlock(freeblock)};
      disk := disk[ind := SetWord(disk[ind], k - 13, freeblock)];
      shadow := ListedSnap(sb, shadow, freeblock, i, k);
      freeblock := freeblock + 1;
    }

    /** The disk block of block fbn of a file whose inode is din, a new one if there is none. */
    method MapBlock(din: Inode, i: nat, fbn: nat) returns (r: Option<Word>, din': Inode, ghost bm: set<nat>)
      requires Tracks(sb, disk, freeblock, shadow) && i < sb.ninodes && shadow.fs.inodes[i] == din && fbn < MAXFILE
      modifies this`disk, this`freeblock, this`shadow
      ensures r.None? ==> old(freeblock) + Needed(old(shadow).fs, i, fbn) > sb.size
      ensures r.Some? ==>
                && Tracks(sb, disk, freeblock, shadow) && shadow.fs.inodes[i] == din'
                && SlotDone(sb, old(shadow), shadow, i, DataSlot(fbn), r, Via(shadow.fs, i, fbn), bm,
                            Needed(old(shadow).fs, i, fbn))
    {
      hide Owns, FreeMap, SlotDone, Tracks, Missing, AddrPut, IndirectOf;
      TracksCore(sb, disk, freeblock, shadow);
      if fbn < NDIRECT {
        r, din', bm := MapInode(din, i, fbn);
      } else {
        ghost var s, bm1, bm2 := shadow, {}, {};
        r, din', bm1 := MapInode(din, i, NDIRECT);
        bm := bm1;
        if r.Some? {
          ghost var s1, r1 := shadow, r;
          TracksCore(sb, disk, freeblock, s1);
          GotIndirectBlock(sb, s, s1, i, fbn + 1, r, bm1);
          r, bm2 := MapListed(i, fbn + 1, din'.addrs[NDIRECT]);
          bm := bm1 + bm2;
          if r.Some? {
            BothSlots(sb, s, s1, shadow, i, fbn + 1, r1, r, bm1, bm2);
          }
        }
      }
    }

    /** Append xp to file i.  The checks that stop it are here made first. */
    method Iappend(i: nat, xp: seq<Byte>) returns (r: Result)
      requires Valid() && i < sb.ninodes && |xp| > 0
      modifies this`disk, this`freeblock, this`shadow
      ensures r.TooLong? <==> old(shadow).fs.inodes[i].size + |xp| > MAXFILE * BSIZE
      ensures !r.TooLong? ==>
                var off := old(shadow).fs.inodes[i].size;
                && EndBlock(off, |xp|) <= MAXFILE
                && (r.Beyond? <==>
                      old(freeblock) + Lacking(old(shadow).fs, i, off / BSIZE, EndBlock(off, |xp|)) > sb.size)
      ensures !r.TooMany?
      ensures r.Done? ==>
                Valid() && WriteDone(sb, old(shadow), shadow, i, old(shadow).fs.inodes[i].size, xp)
                && (AllTight(sb, old(shadow).fs) ==> AllTight(sb, shadow.fs))
    {
      hide Owns, FreeMap, Addr, Tracks, Writing, WriteDone, WriteDoneBut, SlotDone, Settled, InodeAt, Overlay, Grow,
        PartDone, WithInode, Via, Needed, Tight, Lacking, EndBlock;
      ghost var s0 := shadow;
      ReadInode(sb, disk, freeblock, shadow, i);
      var din := InodeAt(sb, disk, i);
      var off0 := din.size;
      if off0 + |xp| > MAXFILE * BSIZE {
        return TooLong;
      }
      ghost var acc := Acc({}, {});
      TracksCount(sb, disk, freeblock, shadow);
      EndInFile(off0, |xp|);
      WritingStart(sb, s0, i, off0, xp);
      var tot := 0;
      while tot < |xp|
        invariant 0 <= tot <= |xp| && Writing(sb, s0, shadow, i, off0, xp, tot, acc)
        invariant Tracks(sb, disk, freeblock, shadow) && i < |shadow.fs.inodes| && shadow.fs.inodes[i] == din
      {
        var off := off0 + tot;
        var n1 := Min(|xp| - tot, (off / BSIZE + 1) * BSIZE - off);
        ghost var s, disk0, next := shadow, disk, freeblock;
        TracksCore(sb, disk, freeblock, shadow);
        var x;
        ghost var bm;
        x, din, bm := MapBlock(din, i, off / BSIZE);
        if x.None? {
          TracksCount(sb, disk0, next, s);
          WritingNone(sb, s0, s, i, off0, xp, tot, acc);
          return Beyond;
        }
        ghost var s1 := shadow;
        StoreWhere(sb, disk, freeblock, s, s1, i, off / BSIZE, x.value, bm);
        var data := Overlay(disk[x.value], off % BSIZE, xp[tot..tot + n1]);
        shadow := Snap(s1.fs.(disk := s1.fs.disk[x.value := data]), s1.owner, s1.logged + {x.value as nat});
        PartStored(sb, s, s1, shadow, i, off, xp[tot..tot + n1], x.value, bm);
        PartCore(sb, s, shadow, i, off, xp[tot..tot + n1], bm);
        TracksStore(sb, disk, freeblock, s1, shadow, x.value, data);
        disk := disk[x.value := data];
        WritingStep(sb, s0, s, shadow, i, off0, xp, tot, n1, acc, bm);
        acc := NextAcc(Addr(shadow.fs, i, DataSlot(off / BSIZE)), bm, acc);
        tot := tot + n1;
      }
      WritingEnough(sb, s0, shadow, i, off0, xp, acc);
      BeyondDone(sb, s0, shadow, i, off0, xp, acc, shadow.logged);
      TracksCore(sb, disk, freeblock, shadow);
      TracksGrow(sb, disk, freeblock, shadow, i, off0 + |xp|);
      din := din.(size := off0 + |xp|);
      disk := WithInode(sb, disk, i, din);
      AppendAllTight(sb, s0, shadow, i, off0, xp, acc);
      shadow := Snap(Grow(sb, shadow.fs, i, off0 + |xp|), shadow.owner, shadow.logged);
      WriteDoneSettled(sb, s0, shadow, i, off0, xp);
      return Done;
    }

    /** Round the size of directory i up, by a whole block where it is a multiple already. */
    method FixSize(i: nat)
      requires Valid() && i < sb.ninodes && (shadow.fs.inodes[i].size / BSIZE + 1) * BSIZE <= MAXFILE * BSIZE
      modifies this`disk, this`shadow
      ensures Valid() && Resized(sb, old(shadow).fs, shadow.fs, i)
    {
      hide Owns, FreeMap, Addr, Tracks, Settled, InodeAt, Grow, WithInode, ByteAt, Resized;
      ReadInode(sb, disk, freeblock, shadow, i);
      TracksCore(sb, disk, freeblock, shadow);
      var din := InodeAt(sb, disk, i);
      var off := (din.size / BSIZE + 1) * BSIZE;
      TracksGrow(sb, disk, freeblock, shadow, i, off);
      ResizeSettled(sb, shadow, i, off);
      disk := WithInode(sb, disk, i, din.(size := off));
      shadow := Snap(Grow(sb, shadow.fs, i, off), shadow.owner, shadow.logged);
    }

    /** Write the free map: every block below freeblock is used.  False: an assertion fails. */
    method Balloc() returns (ok: bool)
      requires Valid()
      modifies this`disk
      ensures ok <==> freeblock < BSIZE * 8
      ensures ok ==> |disk| == sb.size && forall b :: 0 <= b < sb.inodestart ==> disk[b] == ZeroBlock()
      ensures ok ==> Shape(sb, Fs(disk, shadow.fs.inodes)) && SameFiles(sb, shadow.fs, Fs(disk, shadow.fs.inodes))
                     && AllSettled(sb, Snap(Fs(disk, shadow.fs.inodes), shadow.owner, {}))
    {
      hide Owns, FreeMap, Addr, Settled, Used, Mark, Bit, PutByteBit, ZeroBlock, Tracks, SameFiles, UsedBelow;
      if freeblock >= BSIZE * 8 {
        return false;
      }
      TracksCore(sb, disk, freeblock, shadow);
      FirstBitmap(sb, disk, freeblock, shadow);
      var buf := ZeroBlock();
      var i := 0;
      while i < freeblock
        invariant 0 <= i <= freeblock && disk == old(disk)
        invariant UsedBelow(sb, disk[sb.bmapstart := buf], i)
      {
        BitPlace(sb, disk[sb.bmapstart := buf], 0, i);
        assert disk[sb.bmapstart := buf][sb.bmapstart := buf[i / 8 := PutByteBit(buf[i / 8], i % 8, true)]] ==
               disk[sb.bmapstart := buf[i / 8 := PutByteBit(buf[i / 8], i % 8, true)]];
        MarkOne(sb, disk[sb.bmapstart := buf], i);
        buf := buf[i / 8 := PutByteBit(buf[i / 8], i % 8, true)];
        i := i + 1;
      }
      Finished(sb, disk, freeblock, shadow, buf);
      disk := disk[sb.bmapstart := buf];
      return true;
    }

    /** The root directory, inode 1, with its entries for itself. */
    method Start() returns (r: Result)
      requires Valid() && AllTight(sb, shadow.fs) && freeinode == 1 && 2 <= sb.ninodes
      requires forall j :: 0 <= j < sb.ninodes ==> shadow.fs.inodes[j] == EmptyInode()
      modifies this`disk, this`freeblock, this`freeinode, this`shadow
      ensures r.Done? ==>
                && Valid() && AllTight(sb, shadow.fs) && freeinode == 2
                && Content(shadow.fs, 1) == Dirent(1, [46]) + Dirent(1, [46, 46]) && Typed(shadow.fs, 1, 1)
                && forall j :: 2 <= j < sb.ninodes ==> shadow.fs.inodes[j] == EmptyInode()
    {
      hide Owns, FreeMap, Addr, Tracks, Settled, WriteDone, Content, AllTight, Dirent;
      var root := Ialloc(1, 0x1_0000);
      ghost var s1 := shadow;
      EmptyContent(s1.fs, 1);
      r := Iappend(root, Dirent(root, [46]));
      if !r.Done? {
        return;
      }
      Appended(sb, s1, shadow, 1, Dirent(1, [46]));
      ghost var s2 := shadow;
      r := Iappend(root, Dirent(root, [46, 46]));
      if r.Done? {
        Appended(sb, s2, shadow, 1, Dirent(1, [46, 46]));
      }
    }

    /** Make a file of the given data, entered in directory 1 under the given name. */
    method AddFile(name: seq<Byte>, data: seq<Byte>) returns (r: Result)
      requires Valid() && AllTight(sb, shadow.fs)
      requires 1 < freeinode < sb.ninodes && shadow.fs.inodes[freeinode] == EmptyInode()
      modifies this`disk, this`freeblock, this`freeinode, this`shadow
      ensures r.Done? ==>
                && Valid() && AllTight(sb, shadow.fs) && freeinode == old(freeinode) + 1
                && Content(shadow.fs, old(freeinode)) == data && Typed(shadow.fs, old(freeinode), 2)
                && Content(shadow.fs, 1) == Content(old(shadow).fs, 1) + Dirent(old(freeinode), name)
                && (Typed(old(shadow).fs, 1, 1) ==> Typed(shadow.fs, 1, 1))
                && (forall j :: 0 <= j < sb.ninodes && j != 1 && j != old(freeinode) ==>
                      && Content(shadow.fs, j) == Content(old(shadow).fs, j)
                      && shadow.fs.inodes[j] == old(shadow).fs.inodes[j])
    {
      hide Owns, FreeMap, Addr, Tracks, Settled, WriteDone, Content, AllTight, Dirent;
      ghost var s0 := shadow;
      var inum := Ialloc(2, 0x1_0000);
      ghost var s1 := shadow;
      EmptyContent(s1.fs, inum);
      r := Iappend(1, Dirent(inum, name));
      if !r.Done? {
        return;
      }
      Appended(sb, s1, shadow, 1, Dirent(inum, name));
      ghost var s2 := shadow;
      var pos := 0;
      while pos < |data|
        invariant 0 <= pos <= |data| && Valid() && AllTight(sb, shadow.fs) && freeinode == inum + 1
        invariant Content(shadow.fs, inum) == data[..pos] && Typed(shadow.fs, inum, 2)
        invariant forall j :: 0 <= j < sb.ninodes && j != inum ==>
                    Content(shadow.fs, j) == Content(s2.fs, j) && shadow.fs.inodes[j] == s2.fs.inodes[j]
      {
        var cc := Min(BSIZE, |data| - pos);
        ghost var s := shadow;
        r := Iappend(inum, data[pos..pos + cc]);
        if !r.Done? {
          return;
        }
        Appended(sb, s, shadow, inum, data[pos..pos + cc]);
        assert data[..pos] + data[pos..pos + cc] == data[..pos + cc];
        pos := pos + cc;
      }
      assert data[..pos] == data;
      r := Done;
    }
  }

  // ---------------------------------------------------------------- the whole image

  datatype Input = Input(name: seq<Byte>, data: seq<Byte>)

  /** The root directory: itself twice, and the first n files. */
  function Entries(files: seq<Input>, n: nat): (d: seq<Byte>)
    requires n <= |files|
    ensures |d| == 16 * (n + 2)
  {
    if n == 0 then Dirent(1, [46]) + Dirent(1, [46, 46]) else Entries(files, n - 1) + Dirent(n + 1, files[n - 1].name)
  }

  /** The image holds the files: the root directory lists them, and each has its data. */
  ghost predicate Holds(sb: Super, fs: Fs, files: seq<Input>, n: nat)
    requires Shape(sb, fs) && n <= |files| && n + 2 <= sb.ninodes
  {
    && Content(fs, 1) == Entries(files, n) && Typed(fs, 1, 1)
    && forall g :: 0 <= g < n ==> FileIn(fs, files, g)
  }

  /** File g is inode g + 2. */
  predicate FileIn(fs: Fs, files: seq<Input>, g: nat)
  {
    g < |files| && g + 2 < |fs.inodes| && Content(fs, g + 2) == files[g].data && Typed(fs, g + 2, 2)
  }

  predicate HasFile(fs: Fs, i: nat, data: seq<Byte>)
  {
    Typed(fs, i, 2) && Content(fs, i) == data && NoHole(fs, i)
  }

  /** The image as it is to be: every file has its data and no hole, the root directory starts with the entries, and
      ends in a hole exactly when the entries fill whole blocks. */
  ghost predicate Built(fs: Fs, files: seq<Input>)
  {
    var n := 16 * (|files| + 2);
    && |files| + 2 <= |fs.inodes|
    && (forall g :: 0 <= g < |files| ==> HasFile(fs, g + 2, files[g].data))
    && |Content(fs, 1)| >= n && Content(fs, 1)[..n] == Entries(files, |files|) && Typed(fs, 1, 1)
    && RootMade(fs, 1, n) && (NoHole(fs, 1) <==> n % BSIZE != 0)
  }

  /** The 16 bytes at position e of a directory: an inode number, low byte first, and a name padded with zeros. */
  predicate Names(d: seq<Byte>, e: nat, inum: nat, name: seq<Byte>)
  {
    && e + 16 <= |d| && (d[e] as int) + 256 * (d[e + 1] as int) == inum
    && forall k :: 0 <= k < 14 ==> d[e + 2 + k] == if k < |name| then name[k] else 0
  }

  lemma DirentNames(d: seq<Byte>, inum: nat, name: seq<Byte>)
    requires inum < 65536
    ensures Names(d + Dirent(inum, name), |d|, inum, name)
  {
    var e := Dirent(inum, name);
    assert (d + e)[|d|] == e[0] && (d + e)[|d| + 1] == e[1];
    forall k | 0 <= k < 14
      ensures (d + e)[|d| + 2 + k] == if k < |name| then name[k] else 0
    {
      assert (d + e)[|d| + 2 + k] == e[2 + k];
    }
  }

  lemma NamesBefore(d: seq<Byte>, more: seq<Byte>, e: nat, inum: nat, name: seq<Byte>)
    requires Names(d, e, inum, name)
    ensures Names(d + more, e, inum, name)
  {
    assert forall k :: 0 <= k < |d| ==> (d + more)[k] == d[k];
  }

  lemma {:induction false} EntriesName(files: seq<Input>, n: nat, g: nat)
    requires n <= |files| && n + 2 <= 65536
    ensures Names(Entries(files, n), 0, 1, [46]) && Names(Entries(files, n), 16, 1, [46, 46])
    ensures g < n ==> Names(Entries(files, n), 16 * (g + 2), g + 2, files[g].name)
  {
    hide Dirent, Names;
    if n == 0 {
      assert [] + Dirent(1, [46]) == Dirent(1, [46]);
      DirentNames([], 1, [46]);
      NamesBefore(Dirent(1, [46]), Dirent(1, [46, 46]), 0, 1, [46]);
      DirentNames(Dirent(1, [46]), 1, [46, 46]);
    } else {
      var d, more := Entries(files, n - 1), Dirent(n + 1, files[n - 1].name);
      EntriesName(files, n - 1, g);
      NamesBefore(d, more, 0, 1, [46]);
      NamesBefore(d, more, 16, 1, [46, 46]);
      if g == n - 1 {
        DirentNames(d, n + 1, files[g].name);
      } else if g < n {
        NamesBefore(d, more, 16 * (g + 2), g + 2, files[g].name);
      }
    }
  }

  /** Reading an image back: "." and ".." name the root, and each file's entry gives, byte by byte, its name and the
      number of the inode that has its data. */
  lemma FoundByName(fs: Fs, files: seq<Input>, g: nat)
    requires Built(fs, files) && g < |files| && |files| + 2 <= 65536
    ensures Names(Content(fs, 1), 0, 1, [46]) && Names(Content(fs, 1), 16, 1, [46, 46])
    ensures Names(Content(fs, 1), 16 * (g + 2), g + 2, files[g].name)
    ensures Content(fs, g + 2) == files[g].data && Typed(fs, 1, 1) && Typed(fs, g + 2, 2)
  {
    hide Content, Entries, Names, RootMade, NoHole;
    var d, n := Content(fs, 1), 16 * (|files| + 2);
    EntriesName(files, |files|, g);
    assert d[..n] + d[n..] == d;
    NamesBefore(d[..n], d[n..], 0, 1, [46]);
    NamesBefore(d[..n], d[n..], 16, 1, [46, 46]);
    NamesBefore(d[..n], d[n..], 16 * (g + 2), g + 2, files[g].name);
    assert HasFile(fs, g + 2, files[g].data);
  }

  /** Make the image.  Where mkfs reports no failure and uses no block beyond the disk, the image is consistent and
      holds the files. */
  method Build(sb: Super, files: seq<Input>) returns (r: Result, disk: seq<Block>, ghost s: Snap)
    requires sb.Valid() && |files| + 2 <= sb.ninodes <= 4000
    ensures r.Done? ==> AllSettled(sb, s) && s.fs.disk == disk && Built(s.fs, files)
    ensures r.Done? ==> |disk| == sb.size && forall b :: 0 <= b < sb.inodestart ==> disk[b] == ZeroBlock()
  {
    hide Settled, Owns, FreeMap, Tracks, Content, Tight, Entries, Dirent, Addr, Built, Holds, SameFiles, EmptyInode;
    var im := new Image(sb);
    disk := im.disk;
    s := im.shadow;
    r := im.Start();
    if r.Done? {
      HoldsNone(sb, im.shadow.fs, files);
    }
    var f := 0;
    while r.Done? && f < |files|
      invariant 0 <= f <= |files| && im.sb == sb
      invariant r.Done? ==>
                  && im.Valid() && AllTight(sb, im.shadow.fs) && im.freeinode == f + 2
                  && Holds(sb, im.shadow.fs, files, f)
                  && forall j :: f + 2 <= j < sb.ninodes ==> im.shadow.fs.inodes[j] == EmptyInode()
      decreases |files| - f, r.Done?
    {
      ghost var s1 := im.shadow;
      r := im.AddFile(files[f].name, files[f].data);
      if r.Done? {
        HoldsMore(sb, s1.fs, im.shadow.fs, files, f);
        f := f + 1;
      }
    }
    if !r.Done? {
      return;
    }
    ghost var s1 := im.shadow;
    RootFits(sb, s1.fs, files);
    im.FixSize(1);
    ghost var s2 := im.shadow;
    var ok := im.Balloc();
    if !ok {
      return TooMany, disk, s;
    }
    disk := im.disk;
    s := Snap(Fs(disk, s2.fs.inodes), s2.owner, {});
    Concluded(sb, s1, s2, s, files);
  }

  lemma RootFits(sb: Super, fs: Fs, files: seq<Input>)
    requires Shape(sb, fs) && |files| + 2 <= sb.ninodes <= 4000 && Holds(sb, fs, files, |files|)
    ensures fs.inodes[1].size == 16 * (|files| + 2)
    ensures (fs.inodes[1].size / BSIZE + 1) * BSIZE <= MAXFILE * BSIZE
  {
    hide FileBytes;
    assert |Content(fs, 1)| == 16 * (|files| + 2);
  }

  lemma HoldsNone(sb: Super, fs: Fs, files: seq<Input>)
    requires Shape(sb, fs) && 2 <= sb.ninodes && Content(fs, 1) == Dirent(1, [46]) + Dirent(1, [46, 46])
    requires Typed(fs, 1, 1)
    ensures Holds(sb, fs, files, 0)
  {
    hide Content, Dirent;
  }

  lemma OneMoreEntry(files: seq<Input>, n: nat)
    requires n < |files|
    ensures Entries(files, n + 1) == Entries(files, n) + Dirent(n + 2, files[n].name)
  {
    hide Dirent;
  }

  lemma HoldsMore(sb: Super, fs: Fs, fs': Fs, files: seq<Input>, n: nat)
    requires Shape(sb, fs) && Shape(sb, fs') && n < |files| && n + 3 <= sb.ninodes && Holds(sb, fs, files, n)
    requires Content(fs', n + 2) == files[n].data && Content(fs', 1) == Content(fs, 1) + Dirent(n + 2, files[n].name)
    requires (Typed(fs, 1, 1) ==> Typed(fs', 1, 1)) && Typed(fs', n + 2, 2)
    requires forall j :: 0 <= j < sb.ninodes && j != 1 && j != n + 2 ==>
               Content(fs', j) == Content(fs, j) && fs'.inodes[j] == fs.inodes[j]
    ensures Holds(sb, fs', files, n + 1)
  {
    hide Content, Dirent, Entries;
    OneMoreEntry(files, n);
    forall g | 0 <= g < n + 1
      ensures FileIn(fs', files, g)
    {
      if g < n {
        assert FileIn(fs, files, g);
      }
    }
  }

  /** Rounding the size up and writing the free map change no file, except that the root may end in a hole. */
  lemma Concluded(sb: Super, s1: Snap, s2: Snap, s3: Snap, files: seq<Input>)
    requires Shape(sb, s1.fs) && Shape(sb, s2.fs) && Shape(sb, s3.fs) && s3.fs.inodes == s2.fs.inodes
    requires |files| + 2 <= sb.ninodes <= 4000 && AllSettled(sb, s1) && AllTight(sb, s1.fs)
    requires Holds(sb, s1.fs, files, |files|) && Resized(sb, s1.fs, s2.fs, 1) && SameFiles(sb, s2.fs, s3.fs)
    ensures Built(s3.fs, files)
  {
    hide Content, Entries, Addr, ByteAt, NoHole, OnDisk, Owns, FreeMap, FileBytes, RootMade;
    RootFits(sb, s1.fs, files);
    SameAddrs(sb, s1.fs, s2.fs, s3.fs);
    forall g | 0 <= g < |files|
      ensures HasFile(s3.fs, g + 2, files[g].data)
    {
      assert Settled(sb, s1.fs, g + 2) && Tight(s1.fs, g + 2) && FileIn(s1.fs, files, g);
      FileKept(sb, s1.fs, s3.fs, g + 2);
    }
    assert Settled(sb, s1.fs, 1) && Tight(s1.fs, 1);
    RootKept(sb, s1.fs, s3.fs);
    RootHole(s3.fs, 1, s1.fs.inodes[1].size);
  }

  lemma SameAddrs(sb: Super, fs: Fs, fs1: Fs, fs2: Fs)
    requires Shape(sb, fs) && Shape(sb, fs1) && Shape(sb, fs2) && SameFiles(sb, fs, fs1) && SameFiles(sb, fs1, fs2)
    ensures SameFiles(sb, fs, fs2)
  {
    hide Addr, ByteAt;
  }

  lemma FileKept(sb: Super, fs: Fs, fs': Fs, i: nat)
    requires Shape(sb, fs) && Shape(sb, fs') && SameFiles(sb, fs, fs') && i < sb.ninodes
    requires fs'.inodes[i].size == fs.inodes[i].size <= MAXFILE * BSIZE && Tight(fs, i)
    ensures Content(fs', i) == Content(fs, i) && NoHole(fs', i)
  {
    hide Addr, ByteAt, FileBytes;
    SameFileBytes(sb, fs, fs', i, 0, fs.inodes[i].size);
  }

  lemma RootKept(sb: Super, fs: Fs, fs': Fs)
    requires Shape(sb, fs) && Shape(sb, fs') && SameFiles(sb, fs, fs') && 1 < sb.ninodes
    requires fs'.inodes[1].size == (fs.inodes[1].size / BSIZE + 1) * BSIZE <= MAXFILE * BSIZE && Tight(fs, 1)
    ensures var n := fs.inodes[1].size;
            && |Content(fs', 1)| >= n && Content(fs', 1)[..n] == Content(fs, 1) && RootMade(fs', 1, n)
  {
    hide Addr, ByteAt;
    var n := fs.inodes[1].size;
    assert n <= fs'.inodes[1].size;
  }
}
