/** The limit on what a chunk of filewrite logs is reached: a file system in which one chunk logs ten blocks. */
module FullChunk {
  import opened Arith
  import opened Params
  import opened Wrappers
  import opened Counting
  import opened Blocks
  import opened Bitmap
  import opened Inodes
  import opened BlockMap
  import opened BlockRange
  import opened FileContent
  import opened LogWrites
  import opened FileSystem
  import opened Mkfs

  // Four bitmap blocks, 157 to 160; a thousand files of twelve blocks each; four free blocks, one for each
  // bitmap block.

  const SB := Super(12289, 285, 157, 32, 1000)
  function Gaps(): set<nat> { {4095, 8191, 12287, 12288} }

  /** The t-th block from 285 up that is not free, and its inverse. */
  function Nth(t: nat): nat { 285 + t + (if t >= 3810 then 1 else 0) + (if t >= 7905 then 1 else 0) }
  function Rank(b: nat): int { b - 285 - (if b > 4095 then 1 else 0) - (if b > 8191 then 1 else 0) }

  lemma NthRank(b: nat, t: nat)
    ensures 285 <= b < 12289 && b !in Gaps() ==> 0 <= Rank(b) < 12000 && Nth(Rank(b)) == b
    ensures t < 12000 ==> 285 <= Nth(t) < 12287 && Nth(t) !in Gaps() && Rank(Nth(t)) == t
  {
  }

  /** The first n addresses of file j. */
  function Blocks12(j: nat, n: nat): (a: seq<Word>)
    requires j < 1000 && n <= 12
    ensures |a| == n && forall k :: 0 <= k < n ==> a[k] == Nth(12 * j + k)
  {
    if n == 0 then [] else Blocks12(j, n - 1) + [Nth(12 * j + n - 1)]
  }

  function File12(j: nat): Inode
    requires j < 1000
  {
    Inode(0, 0, 6144, Blocks12(j, 12) + [0])
  }

  function Files(n: nat): (inodes: seq<Inode>)
    requires n <= 1000
    ensures |inodes| == n && forall j :: 0 <= j < n ==> inodes[j] == File12(j)
  {
    if n == 0 then [] else Files(n - 1) + [File12(n - 1)]
  }

  predicate Chosen(sb: Super) { sb == SB }

  ghost function Owners(sb: Super): map<nat, Slot>
    requires Chosen(sb)
  {
    map b: nat | b in Range(sb.nmeta, sb.size) - Gaps() :: SlotFor(b)
  }

  function SlotFor(b: nat): Slot
    requires 285 <= b < 12289 && b !in Gaps()
  {
    NthRank(b, 0);
    Slot(Rank(b) / 12, Rank(b) % 12)
  }

  /** The files, before their inodes are written. */
  function Plain(sb: Super): (fs: Fs)
    requires Chosen(sb)
    ensures Shape(sb, fs)
  {
    Fs(Format(sb, sb.size, Gaps()), Files(sb.ninodes))
  }

  lemma PlainAddr(sb: Super, j: nat, k: nat)
    requires Chosen(sb) && j < 1000 && k < SLOTS
    ensures Addr(Plain(sb), j, k) == if k < NDIRECT then Nth(12 * j + k) else 0
  {
    hide Format, Nth, Files;
    assert Plain(sb).inodes[j] == File12(j);
  }

  lemma PlainOwner(sb: Super, b: nat)
    requires Chosen(sb) && b in Owners(sb)
    ensures var s := Owners(sb)[b];
            sb.nmeta <= b < sb.size && s.inum < sb.ninodes && s.k < SLOTS && Addr(Plain(sb), s.inum, s.k) == b
  {
    hide Addr, Plain;
    NthRank(b, 0);
    PlainAddr(sb, SlotFor(b).inum, SlotFor(b).k);
  }

  lemma PlainSlot(sb: Super, j: nat, k: nat)
    requires Chosen(sb) && j < sb.ninodes && k < SLOTS && Addr(Plain(sb), j, k) != 0
    ensures Addr(Plain(sb), j, k) in Owners(sb) && Owners(sb)[Addr(Plain(sb), j, k)] == Slot(j, k)
  {
    hide Addr, Plain, Nth, Rank;
    PlainAddr(sb, j, k);
    NthRank(0, 12 * j + k);
    assert (12 * j + k) / 12 == j && (12 * j + k) % 12 == k;
  }

  lemma PlainCore(sb: Super)
    requires Chosen(sb)
    ensures Core(sb, Plain(sb), Owners(sb)) && FreeBlocks(sb, Plain(sb).disk) == Gaps()
  {
    hide Addr, Plain, Used, Owners;
    forall b | b in Owners(sb)
      ensures sb.nmeta <= b < sb.size && Owners(sb)[b].inum < sb.ninodes && Owners(sb)[b].k < SLOTS
      ensures Addr(Plain(sb), Owners(sb)[b].inum, Owners(sb)[b].k) == b
    {
      PlainOwner(sb, b);
    }
    forall j, k | 0 <= j < sb.ninodes && 0 <= k < SLOTS && Addr(Plain(sb), j, k) != 0
      ensures Addr(Plain(sb), j, k) in Owners(sb) && Owners(sb)[Addr(Plain(sb), j, k)] == Slot(j, k)
    {
      PlainSlot(sb, j, k);
    }
    forall b | 0 <= b < sb.size
      ensures Used(sb, Plain(sb).disk, b) <==> b !in Gaps()
      ensures b !in Gaps() <==> b < sb.nmeta || b in Owners(sb)
    {
      PlainUsed(sb, b);
    }
  }

  lemma PlainUsed(sb: Super, b: nat)
    requires Chosen(sb) && b < sb.size
    ensures sb.BitmapBlock(b) < sb.size && (Used(sb, Plain(sb).disk, b) <==> b !in Gaps())
    ensures b !in Gaps() <==> b < sb.nmeta || b in Owners(sb)
  {
    hide Format, Used, SlotFor, Range, Files;
    FormatUsed(sb, sb.size, Gaps(), b);
  }

  /** The first n inodes written to disk. */
  function Stored(sb: Super, fs: Fs, n: nat): (fs': Fs)
    requires Shape(sb, fs) && n <= sb.ninodes
    ensures Shape(sb, fs') && fs'.inodes == fs.inodes
  {
    if n == 0 then fs else Iupdate(sb, Stored(sb, fs, n - 1), n - 1)
  }

  lemma {:induction false} StoredSettled(sb: Super, fs: Fs, owner: map<nat, Slot>, n: nat)
    requires Core(sb, fs, owner) && n <= sb.ninodes
    ensures Core(sb, Stored(sb, fs, n), owner)
    ensures forall j :: 0 <= j < n ==> OnDisk(sb, Stored(sb, fs, n), j)
    ensures forall b :: sb.bmapstart <= b < sb.size ==> Stored(sb, fs, n).disk[b] == fs.disk[b]
  {
    hide Iupdate, Owns, FreeMap, OnDisk;
    if n > 0 {
      StoredSettled(sb, fs, owner, n - 1);
      IupdateKeeps(sb, Stored(sb, fs, n - 1), owner, n - 1);
      IupdateBelow(sb, Stored(sb, fs, n - 1), n - 1);
      forall j | 0 <= j < n
        ensures OnDisk(sb, Stored(sb, fs, n), j)
      {
        IupdateOnDisk(sb, Stored(sb, fs, n - 1), n - 1, j);
      }
    }
  }

  lemma IupdateBelow(sb: Super, fs: Fs, i: nat)
    requires Shape(sb, fs) && i < sb.ninodes
    ensures forall b :: sb.bmapstart <= b < sb.size ==> Iupdate(sb, fs, i).disk[b] == fs.disk[b]
  {
    hide PutWords, InodeWords;
  }

  function Image(sb: Super): (fs: Fs)
    requires Chosen(sb)
    ensures Shape(sb, fs) && fs.inodes == Files(sb.ninodes)
  {
    Stored(sb, Plain(sb), sb.ninodes)
  }

  lemma ImageSettled(sb: Super)
    requires Chosen(sb)
    ensures AllSettled(sb, Snap(Image(sb), Owners(sb), {})) && NoHole(Image(sb), 0)
    ensures |FreeBlocks(sb, Image(sb).disk)| == 4 && Image(sb).inodes[0].size == 6144
    ensures forall b :: 161 <= b < 12289 ==> Image(sb).disk[b] == ZeroBlock()
  {
    hide Owns, FreeMap, OnDisk, Format, Stored, ZeroBlock, Addr, Files, Owners;
    PlainCore(sb);
    StoredSettled(sb, Plain(sb), Owners(sb), sb.ninodes);
    SameBits(sb, Plain(sb).disk, Image(sb).disk);
    forall b | 161 <= b < 12289
      ensures Image(sb).disk[b] == ZeroBlock()
    {
      FormatZero(sb, sb.size, Gaps(), b);
    }
    ImageNoHole(sb);
  }

  lemma SameBits(sb: Super, d: seq<Block>, d': seq<Block>)
    requires sb.Valid() && |d| == |d'| == sb.size && forall b :: sb.bmapstart <= b < sb.size ==> d'[b] == d[b]
    ensures FreeBlocks(sb, d') == FreeBlocks(sb, d)
  {
    hide Bit;
    BitmapInRange(sb);
    assert forall b :: 0 <= b < sb.size ==> Used(sb, d', b) == Used(sb, d, b);
  }

  lemma ImageNoHole(sb: Super)
    requires Chosen(sb)
    ensures NoHole(Image(sb), 0)
  {
    hide Image, Files, Nth;
    assert Image(sb).inodes[0] == File12(0);
    forall bn | 0 <= bn < MAXFILE && bn * BSIZE < 6144
      ensures Addr(Image(sb), 0, DataSlot(bn)) != 0
    {
      NthRank(0, bn);
    }
  }

  // ---------------------------------------------------------------- the write

  function Ones(n: nat): (s: seq<Byte>)
    ensures |s| == n && forall k :: 0 <= k < n ==> s[k] == 1
  {
    if n == 0 then [] else Ones(n - 1) + [1]
  }

  /** Writing 1536 bytes at 5633 needs blocks 11 to 14 of the file, of which 11 is there, and the indirect block. */
  lemma LacksFour(sb: Super)
    requires Chosen(sb)
    ensures EndBlock(5633, 1536) == 15 && Lacking(Image(sb), 0, 11, 15) == 4
  {
    hide Image, Files, Nth, GetWord;
    var fs := Image(sb);
    assert fs.inodes[0] == File12(0);
    NthRank(0, 11);
    assert Missing(fs, 0, 11) == 0 && Missing(fs, 0, 12) == 1;
    assert Missing(fs, 0, 13) == 1 && Missing(fs, 0, 14) == 1 && Missing(fs, 0, 15) == 1;
    assert Lacking(fs, 0, 11, 12) == 0;
    assert Lacking(fs, 0, 11, 13) == 2;
  }

  /** Where the bytes of block bn of file 0 now are was a block of zeros, and was logged. */
  lemma DataLogged(sb: Super, s0: Snap, s: Snap, c0: Cache, c: Cache, p: nat)
    requires Chosen(sb) && Core(sb, s.fs, s.owner) && p < MAXFILE * BSIZE && ByteAt(s.fs, 0, p) == 1
    requires |s0.fs.disk| == sb.size && forall b :: 161 <= b < 12289 ==> s0.fs.disk[b] == ZeroBlock()
    requires c0.disk == s0.fs.disk && c.disk == s.fs.disk && c.logged == s.logged && Journaled(32, c0, c)
    ensures var a := Addr(s.fs, 0, DataSlot(p / BSIZE)); 285 <= a < 12289 && a in s.logged
  {
    hide FreeMap, Addr, Journaled;
    var a := Addr(s.fs, 0, DataSlot(p / BSIZE));
    assert a in s.owner;
    ChangedIsLogged(32, c0, c, a);
    ZeroByte(p % BSIZE);
  }

  /** So was the indirect block. */
  lemma IndirectLogged(sb: Super, s0: Snap, s: Snap, c0: Cache, c: Cache)
    requires Chosen(sb) && Core(sb, s.fs, s.owner) && Addr(s.fs, 0, 13) != 0
    requires |s0.fs.disk| == sb.size && forall b :: 161 <= b < 12289 ==> s0.fs.disk[b] == ZeroBlock()
    requires c0.disk == s0.fs.disk && c.disk == s.fs.disk && c.logged == s.logged && Journaled(32, c0, c)
    ensures 285 <= Addr(s.fs, 0, NDIRECT) < 12289 && (Addr(s.fs, 0, NDIRECT) as nat) in s.logged
  {
    hide FreeMap, GetWord, Journaled, ZeroBlock;
    var ind := s.fs.inodes[0].addrs[NDIRECT];
    assert Addr(s.fs, 0, NDIRECT) == ind && ind != 0;
    assert ind in s.owner;
    ChangedIsLogged(32, c0, c, ind);
    ZeroWord(0);
  }

  /** A bit that was clear and is set: its bitmap block was logged. */
  lemma BitLogged(sb: Super, s0: Snap, s: Snap, c0: Cache, c: Cache, b: nat)
    requires Chosen(sb) && |s0.fs.disk| == |s.fs.disk| == sb.size && b < sb.size && sb.BitmapBlock(b) < sb.size
    requires !Used(sb, s0.fs.disk, b) && Used(sb, s.fs.disk, b)
    requires c0.disk == s0.fs.disk && c.disk == s.fs.disk && c.logged == s.logged && Journaled(32, c0, c)
    ensures sb.BitmapBlock(b) in s.logged
  {
    hide Bit, Journaled;
    ChangedIsLogged(32, c0, c, sb.BitmapBlock(b));
  }

  /** The size of file 0 changed on disk: the inode's block was logged. */
  lemma InodeLogged(sb: Super, s0: Snap, s: Snap, c0: Cache, c: Cache)
    requires Chosen(sb) && Shape(sb, s0.fs) && Shape(sb, s.fs) && OnDisk(sb, s0.fs, 0) && OnDisk(sb, s.fs, 0)
    requires s0.fs.inodes[0].size != s.fs.inodes[0].size
    requires c0.disk == s0.fs.disk && c.disk == s.fs.disk && c.logged == s.logged && Journaled(32, c0, c)
    ensures 32 in s.logged
  {
    hide GetWord, Journaled;
    assert InodeWords(s0.fs.inodes[0])[2] == s0.fs.inodes[0].size;
    assert InodeWords(s.fs.inodes[0])[2] == s.fs.inodes[0].size;
    assert sb.InodeBlock(0) == 32;
    ChangedIsLogged(32, c0, c, 32);
  }

  /** Ten different blocks. */
  lemma Ten(a: nat, b: nat, c: nat, d: nat, e: nat, logged: set<nat>)
    requires 285 <= a && 285 <= b && 285 <= c && 285 <= d && 285 <= e
    requires a != b && a != c && a != d && a != e && b != c && b != d && b != e && c != d && c != e && d != e
    requires {a, b, c, d, e} <= logged && {32, 157, 158, 159, 160} <= logged
    ensures |logged| >= 10
  {
    assert |{a, b, c, d, e}| == 5;
    assert |{32, 157, 158, 159, 160}| == 5;
    assert {a, b, c, d, e} !! {32, 157, 158, 159, 160};
    SubsetSize({a, b, c, d, e} + {32, 157, 158, 159, 160}, logged);
  }

  lemma NoneFree(sb: Super, disk: seq<Block>, b: nat)
    requires sb.Valid() && |disk| == sb.size && |FreeBlocks(sb, disk)| == 0 && b < sb.size
    ensures sb.BitmapBlock(b) < sb.size && Used(sb, disk, b)
  {
    hide Bit;
    BitmapInRange(sb);
    assert b !in FreeBlocks(sb, disk);
  }

  lemma BitsLogged(sb: Super, s0: Snap, s: Snap, c0: Cache, c: Cache)
    requires Chosen(sb) && s0.fs == Image(sb) && |s.fs.disk| == sb.size && |FreeBlocks(sb, s.fs.disk)| == 0
    requires c0.disk == s0.fs.disk && c.disk == s.fs.disk && c.logged == s.logged && Journaled(32, c0, c)
    ensures {157, 158, 159, 160} <= s.logged
  {
    hide Used, Journaled, Image, Files, FreeBlocks;
    ImageFree(sb);
    forall b | b in Gaps()
      ensures sb.BitmapBlock(b) in s.logged
    {
      NoneFree(sb, s.fs.disk, b);
      BitLogged(sb, s0, s, c0, c, b);
    }
    assert sb.BitmapBlock(4095) == 157 && sb.BitmapBlock(8191) == 158;
    assert sb.BitmapBlock(12287) == 159 && sb.BitmapBlock(12288) == 160;
    assert 4095 in Gaps() && 8191 in Gaps() && 12287 in Gaps() && 12288 in Gaps();
  }

  lemma ImageFree(sb: Super)
    requires Chosen(sb)
    ensures forall b :: b in Gaps() ==> sb.BitmapBlock(b) < sb.size && !Used(sb, Image(sb).disk, b)
  {
    hide Used, Owners, Format, Stored, Files, FreeMap, Owns;
    PlainCore(sb);
    StoredSettled(sb, Plain(sb), Owners(sb), sb.ninodes);
    SameBits(sb, Plain(sb).disk, Image(sb).disk);
    assert forall b :: b in Gaps() ==> b in FreeBlocks(sb, Image(sb).disk);
  }

  /** The blocks of file 0 that hold the bytes written, and the indirect block, are five. */
  lemma FiveLogged(sb: Super, s0: Snap, s: Snap, c0: Cache, c: Cache)
    requires Chosen(sb) && Core(sb, s.fs, s.owner)
    requires forall p :: 5633 <= p < 7169 ==> ByteAt(s.fs, 0, p) == 1
    requires |s0.fs.disk| == sb.size && forall b :: 161 <= b < 12289 ==> s0.fs.disk[b] == ZeroBlock()
    requires c0.disk == s0.fs.disk && c.disk == s.fs.disk && c.logged == s.logged && Journaled(32, c0, c)
    requires {32, 157, 158, 159, 160} <= s.logged
    ensures |s.logged| >= 10
  {
    hide Addr, Journaled, FreeMap, ByteAt;
    DataLogged(sb, s0, s, c0, c, 5633);
    DataLogged(sb, s0, s, c0, c, 6144);
    DataLogged(sb, s0, s, c0, c, 6656);
    DataLogged(sb, s0, s, c0, c, 7168);
    IndirectLogged(sb, s0, s, c0, c);
    Ten(Addr(s.fs, 0, 11), Addr(s.fs, 0, 12), Addr(s.fs, 0, 13), Addr(s.fs, 0, 14), Addr(s.fs, 0, 15), s.logged);
  }

  /** One chunk, written to a file without holes in a consistent file system, logs as many blocks as the log
      reserves for an operation. */
  method TenBlocks() returns (fs: FileSystem, r: Option<int>, ghost s0: Snap)
    ensures fs.sb == SB && AllSettled(SB, s0) && NoHole(s0.fs, 0) && s0.logged == {}
    ensures r == Some(1536) && WriteDone(SB, s0, fs.Now(), 0, 5633, Ones(1536))
    ensures |fs.logged| == MAXOPBLOCKS == ChunkLimit(SB)
  {
    hide Image, Owners, AllSettled, Journaled, WriteDone, WriteDoneBut, NoHole, Ones, Lacking, InodeWhole, Bitmaps,
      Full, FreeBlocks;
    var sb := SB;
    ImageSettled(sb);
    LacksFour(sb);
    var image := Image(sb);
    fs := new FileSystem(sb, image.disk, image.inodes, Owners(sb));
    s0 := fs.Now();
    ghost var c0 := fs.Held();
    r := fs.WriteI(0, Ones(1536), 5633);
    TenLogged(sb, s0, fs.Now(), c0, fs.Held());
  }

  lemma TenLogged(sb: Super, s0: Snap, s: Snap, c0: Cache, c: Cache)
    requires Chosen(sb) && s0 == Snap(Image(sb), Owners(sb), {}) && AllSettled(sb, s0)
    requires WriteDone(sb, s0, s, 0, 5633, Ones(1536)) && |s.fs.disk| == sb.size && |FreeBlocks(sb, s.fs.disk)| == 0
    requires c0.disk == s0.fs.disk && c.disk == s.fs.disk && c.logged == s.logged && Journaled(32, c0, c)
    ensures |s.logged| >= 10
  {
    hide Image, Owners, Journaled, Owns, FreeMap, OnDisk, ByteAt, Ones, FreeBlocks, NoNewHole;
    ImageSettled(sb);
    BitsLogged(sb, s0, s, c0, c);
    assert Settled(sb, s0.fs, 0) && Settled(sb, s.fs, 0);
    InodeLogged(sb, s0, s, c0, c);
    FiveLogged(sb, s0, s, c0, c);
  }
}
