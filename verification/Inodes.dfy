/** fs.c: inodes, their block addresses, who owns which block, and the bytes of a file. */
module Inodes {
  import opened Blocks
  import opened Bitmap

  const NDIRECT := 12
  const NINDIRECT := 128
  const MAXFILE := 140
  const SLOTS := 141   // 12 direct, the indirect block itself, 128 listed in it

  type Addrs = a: seq<Word> | |a| == 13 witness [0, 0, 0, 0, 0, 0, 0, 0, 0, 0, 0, 0, 0]

  /** The in-memory inode; `kind` packs type and major, `links` packs minor and nlink, as on disk. */
  datatype Inode = Inode(kind: Word, links: Word, size: Word, addrs: Addrs)

  /** A place that can hold a block number: slot k of inode inum. */
  datatype Slot = Slot(inum: nat, k: nat)

  /** Blocks as read through the buffer cache, and the in-memory inodes. */
  datatype Fs = Fs(disk: seq<Block>, inodes: seq<Inode>)

  predicate Shape(sb: Super, fs: Fs)
  {
    sb.Valid() && |fs.disk| == sb.size && |fs.inodes| == sb.ninodes
  }

  /** The block number in slot k of inode i, 0 if there is none. */
  function Addr(fs: Fs, i: nat, k: nat): Word
    requires i < |fs.inodes| && k < SLOTS
  {
    if k <= NDIRECT then fs.inodes[i].addrs[k]
    else
      var ind := fs.inodes[i].addrs[NDIRECT];
      if ind == 0 || ind >= |fs.disk| then 0 else GetWord(fs.disk[ind], k - 13)
  }

  /** The slot of a file's bn-th data block. */
  function DataSlot(bn: nat): (k: nat)
    requires bn < MAXFILE
    ensures k < SLOTS && k != NDIRECT
  {
    if bn < NDIRECT then bn else bn + 1
  }

  /** The byte at offset off of inode i; a block that was never allocated reads as zeros. */
  function ByteAt(fs: Fs, i: nat, off: nat): Byte
    requires i < |fs.inodes| && off < MAXFILE * BSIZE
  {
    var a := Addr(fs, i, DataSlot(off / BSIZE));
    if a == 0 || a >= |fs.disk| then 0 else fs.disk[a][off % BSIZE]
  }

  // ---------------------------------------------------------------- ownership

  /** owner names, for each allocated data block, the one slot that holds it. */
  ghost predicate Owns(sb: Super, fs: Fs, owner: map<nat, Slot>)
    requires Shape(sb, fs)
  {
    && (forall b :: b in owner ==> sb.nmeta <= b < sb.size && owner[b].inum < sb.ninodes && owner[b].k < SLOTS
                                   && Addr(fs, owner[b].inum, owner[b].k) == b)
    && (forall i, k :: 0 <= i < sb.ninodes && 0 <= k < SLOTS && Addr(fs, i, k) != 0 ==>
                         Addr(fs, i, k) in owner && owner[Addr(fs, i, k)] == Slot(i, k))
  }

  /** A bit is set exactly for metadata and for owned blocks. */
  ghost predicate FreeMap(sb: Super, fs: Fs, owner: map<nat, Slot>)
    requires Shape(sb, fs)
  {
    forall b :: 0 <= b < sb.size ==> (Used(sb, fs.disk, b) <==> b < sb.nmeta || b in owner)
  }

  /** Every slot keeps its address, except that (i, k) now holds b. */
  ghost predicate AddrPut(sb: Super, fs: Fs, fs': Fs, i: nat, k: nat, b: nat)
    requires Shape(sb, fs) && Shape(sb, fs')
  {
    forall j, l :: 0 <= j < sb.ninodes && 0 <= l < SLOTS ==>
      Addr(fs', j, l) == if j == i && l == k then b else Addr(fs, j, l)
  }

  ghost predicate BytesSame(sb: Super, fs: Fs, fs': Fs)
    requires Shape(sb, fs) && Shape(sb, fs')
  {
    forall j, off :: 0 <= j < sb.ninodes && 0 <= off < MAXFILE * BSIZE ==> ByteAt(fs', j, off) == ByteAt(fs, j, off)
  }

  /** The file system after balloc returned b for slot k of inode i, k not in the indirect block. */
  function GiveInode(sb: Super, fs: Fs, b: Word, i: nat, k: nat): Fs
    requires Shape(sb, fs) && b < sb.size && i < sb.ninodes && k <= NDIRECT
  {
    Fs(Mark(sb, fs.disk, b, true)[b := ZeroBlock()],
       fs.inodes[i := fs.inodes[i].(addrs := fs.inodes[i].addrs[k := b])])
  }

  /** The same for a slot listed in the indirect block. */
  function GiveIndirect(sb: Super, fs: Fs, b: Word, i: nat, k: nat): Fs
    requires Shape(sb, fs) && b < sb.size && i < sb.ninodes && NDIRECT < k < SLOTS
    requires fs.inodes[i].addrs[NDIRECT] < sb.size
  {
    var ind := fs.inodes[i].addrs[NDIRECT];
    var d := Mark(sb, fs.disk, b, true)[b := ZeroBlock()];
    fs.(disk := d[ind := SetWord(d[ind], k - 13, b)])
  }

  lemma ZeroWord(j: nat)
    requires j < WORDS_PER_BLOCK
    ensures GetWord(ZeroBlock(), j) == 0
  {
  }

  lemma GiveInodeAddr(sb: Super, fs: Fs, owner: map<nat, Slot>, b: Word, i: nat, k: nat)
    requires Shape(sb, fs) && Owns(sb, fs, owner)
    requires sb.nmeta <= b < sb.size && b !in owner && i < sb.ninodes && k <= NDIRECT && Addr(fs, i, k) == 0
    ensures Shape(sb, GiveInode(sb, fs, b, i, k))
    ensures AddrPut(sb, fs, GiveInode(sb, fs, b, i, k), i, k, b)
  {
    var fs' := GiveInode(sb, fs, b, i, k);
    hide GetWord, ZeroBlock;
    forall j, l | 0 <= j < sb.ninodes && 0 <= l < SLOTS
      ensures Addr(fs', j, l) == if j == i && l == k then b else Addr(fs, j, l)
    {
      var ind := fs.inodes[j].addrs[NDIRECT];
      if l > NDIRECT {
        if ind != 0 {
          assert Addr(fs, j, NDIRECT) in owner;
        } else if j == i && k == NDIRECT {
          ZeroWord(l - 13);
        }
      }
    }
  }

  lemma GiveIndirectAddr(sb: Super, fs: Fs, owner: map<nat, Slot>, b: Word, i: nat, k: nat)
    requires Shape(sb, fs) && Owns(sb, fs, owner)
    requires sb.nmeta <= b < sb.size && b !in owner && i < sb.ninodes && NDIRECT < k < SLOTS
    requires fs.inodes[i].addrs[NDIRECT] != 0
    ensures fs.inodes[i].addrs[NDIRECT] < sb.size
    ensures Shape(sb, GiveIndirect(sb, fs, b, i, k))
    ensures AddrPut(sb, fs, GiveIndirect(sb, fs, b, i, k), i, k, b)
  {
    hide GetWord, SetWord, ZeroBlock;
    var ind := fs.inodes[i].addrs[NDIRECT];
    assert Addr(fs, i, NDIRECT) == ind && ind in owner;
    var fs' := GiveIndirect(sb, fs, b, i, k);
    SetGetWord(fs.disk[ind], k - 13, b);
    assert fs'.disk[ind] == SetWord(fs.disk[ind], k - 13, b);
    forall j, l | 0 <= j < sb.ninodes && 0 <= l < SLOTS
      ensures Addr(fs', j, l) == if j == i && l == k then b else Addr(fs, j, l)
    {
      var indj := fs.inodes[j].addrs[NDIRECT];
      if l > NDIRECT && indj != 0 {
        assert Addr(fs, j, NDIRECT) in owner && owner[indj] == Slot(j, NDIRECT);
      }
    }
  }

  /** A slot without a block gets the free block b: ownership is kept. */
  lemma AllocOwns(sb: Super, fs: Fs, owner: map<nat, Slot>, fs': Fs, b: nat, i: nat, k: nat)
    requires Shape(sb, fs) && Owns(sb, fs, owner) && Shape(sb, fs')
    requires sb.nmeta <= b < sb.size && b !in owner && i < sb.ninodes && k < SLOTS && Addr(fs, i, k) == 0
    requires AddrPut(sb, fs, fs', i, k, b)
    ensures Owns(sb, fs', owner[b := Slot(i, k)])
  {
    hide Addr;
    forall c | c in owner
      ensures Addr(fs', owner[c].inum, owner[c].k) == c
    {
      assert owner[c] != Slot(i, k);
    }
  }

  /** The free map follows: only b's bit changed, in blocks that hold no other bits. */
  lemma AllocFreeMap(sb: Super, fs: Fs, owner: map<nat, Slot>, fs': Fs, b: nat, s: Slot)
    requires Shape(sb, fs) && FreeMap(sb, fs, owner) && Shape(sb, fs')
    requires sb.nmeta <= b < sb.size
    requires forall c :: 0 <= c < sb.nmeta ==> fs'.disk[c] == Mark(sb, fs.disk, b, true)[c]
    ensures FreeMap(sb, fs', owner[b := s])
  {
    hide Bit, Mark, PutBit;
    forall c | 0 <= c < sb.size
      ensures Used(sb, fs'.disk, c) <==> c < sb.nmeta || c in owner[b := s]
    {
      MarkUsed(sb, fs.disk, b, true, c);
      assert sb.BitmapBlock(c) < sb.nmeta;
    }
  }

  /** Blocks of data slots keep their contents, and a block just given to a slot is zero: no file's bytes change. */
  lemma AllocBytes(sb: Super, fs: Fs, owner: map<nat, Slot>, fs': Fs, b: nat, i: nat, k: nat)
    requires Shape(sb, fs) && Owns(sb, fs, owner) && Shape(sb, fs')
    requires sb.nmeta <= b < sb.size && b !in owner && i < sb.ninodes && k < SLOTS && Addr(fs, i, k) == 0
    requires AddrPut(sb, fs, fs', i, k, b) && fs'.disk[b] == ZeroBlock()
    requires forall c :: c in owner && owner[c].k != NDIRECT ==> fs'.disk[c] == fs.disk[c]
    ensures BytesSame(sb, fs, fs')
  {
    hide Addr, ZeroBlock;
    forall j, off | 0 <= j < sb.ninodes && 0 <= off < MAXFILE * BSIZE
      ensures ByteAt(fs', j, off) == ByteAt(fs, j, off)
    {
      var l := DataSlot(off / BSIZE);
      if j == i && l == k {
        assert Addr(fs', j, l) == b;
        ZeroByte(off % BSIZE);
      } else {
        assert Addr(fs', j, l) == Addr(fs, j, l);
      }
    }
  }

  lemma ZeroByte(n: nat)
    requires n < BSIZE
    ensures ZeroBlock()[n] == 0
  {
  }

  // ---------------------------------------------------------------- writing one data block

  ghost predicate AddrSame(sb: Super, fs: Fs, fs': Fs)
    requires Shape(sb, fs) && Shape(sb, fs')
  {
    forall j, l :: 0 <= j < sb.ninodes && 0 <= l < SLOTS ==> Addr(fs', j, l) == Addr(fs, j, l)
  }

  /** The file system after the block of i's bn-th data slot is replaced. */
  function Replace(sb: Super, fs: Fs, i: nat, bn: nat, data: Block): Fs
    requires Shape(sb, fs) && i < sb.ninodes && bn < MAXFILE && Addr(fs, i, DataSlot(bn)) < sb.size
  {
    fs.(disk := fs.disk[Addr(fs, i, DataSlot(bn)) := data])
  }

  /** fs' holds fs's bytes, except those of block bn of file i, which are data's. */
  ghost predicate BytesPut(sb: Super, fs: Fs, fs': Fs, i: nat, bn: nat, data: Block)
    requires Shape(sb, fs) && Shape(sb, fs')
  {
    forall j, off :: 0 <= j < sb.ninodes && 0 <= off < MAXFILE * BSIZE ==>
      ByteAt(fs', j, off) == if j == i && off / BSIZE == bn then data[off % BSIZE] else ByteAt(fs, j, off)
  }

  lemma SameOwns(sb: Super, fs: Fs, owner: map<nat, Slot>, fs': Fs)
    requires Shape(sb, fs) && Owns(sb, fs, owner) && Shape(sb, fs') && AddrSame(sb, fs, fs')
    ensures Owns(sb, fs', owner)
  {
    hide Addr;
  }

  lemma SameFreeMap(sb: Super, fs: Fs, owner: map<nat, Slot>, fs': Fs)
    requires Shape(sb, fs) && FreeMap(sb, fs, owner) && Shape(sb, fs')
    requires forall c :: sb.bmapstart <= c < sb.nmeta ==> fs'.disk[c] == fs.disk[c]
    ensures FreeMap(sb, fs', owner)
  {
    hide Bit;
    forall c | 0 <= c < sb.size
      ensures Used(sb, fs'.disk, c) == Used(sb, fs.disk, c)
    {
      assert sb.bmapstart <= sb.BitmapBlock(c) < sb.nmeta;
    }
  }

  lemma ReplaceAddr(sb: Super, fs: Fs, owner: map<nat, Slot>, i: nat, bn: nat, data: Block)
    requires Shape(sb, fs) && Owns(sb, fs, owner)
    requires i < sb.ninodes && bn < MAXFILE && Addr(fs, i, DataSlot(bn)) != 0
    ensures sb.nmeta <= Addr(fs, i, DataSlot(bn)) < sb.size
    ensures AddrSame(sb, fs, Replace(sb, fs, i, bn, data))
  {
    hide GetWord;
    var a := Addr(fs, i, DataSlot(bn));
    assert a in owner && owner[a] == Slot(i, DataSlot(bn));
    var fs' := Replace(sb, fs, i, bn, data);
    forall j, l | 0 <= j < sb.ninodes && 0 <= l < SLOTS
      ensures Addr(fs', j, l) == Addr(fs, j, l)
    {
      assert Addr(fs, j, NDIRECT) != a;
    }
  }

  lemma ReplaceBytes(sb: Super, fs: Fs, owner: map<nat, Slot>, i: nat, bn: nat, data: Block)
    requires Shape(sb, fs) && Owns(sb, fs, owner)
    requires i < sb.ninodes && bn < MAXFILE && 0 != Addr(fs, i, DataSlot(bn)) < sb.size
    requires AddrSame(sb, fs, Replace(sb, fs, i, bn, data))
    ensures BytesPut(sb, fs, Replace(sb, fs, i, bn, data), i, bn, data)
  {
    var fs' := Replace(sb, fs, i, bn, data);
    var a := Addr(fs, i, DataSlot(bn));
    hide Addr;
    forall j, off | 0 <= j < sb.ninodes && 0 <= off < MAXFILE * BSIZE
      ensures ByteAt(fs', j, off) == if j == i && off / BSIZE == bn then data[off % BSIZE] else ByteAt(fs, j, off)
    {
      var l := DataSlot(off / BSIZE);
      assert Addr(fs', j, l) == Addr(fs, j, l);
      if Addr(fs, j, l) == a {
        assert owner[a] == Slot(i, DataSlot(bn)) && owner[a] == Slot(j, l);
      }
    }
  }

  // ---------------------------------------------------------------- the invariant, and how allocation keeps it

  ghost predicate Core(sb: Super, fs: Fs, owner: map<nat, Slot>)
  {
    Shape(sb, fs) && Owns(sb, fs, owner) && FreeMap(sb, fs, owner)
  }

  /** Inode blocks, which lie below the bitmap, are untouched. */
  predicate InodeBlocksSame(sb: Super, fs: Fs, fs': Fs)
    requires Shape(sb, fs) && Shape(sb, fs')
  {
    forall c :: 0 <= c < sb.bmapstart ==> fs'.disk[c] == fs.disk[c]
  }

  /** Which blocks an allocation writes. */
  ghost predicate GiveWrites(sb: Super, fs: Fs, fs': Fs, b: nat, ind: nat)
    requires Shape(sb, fs) && Shape(sb, fs')
  {
    && sb.nmeta <= b < sb.size
    && fs'.disk[b] == ZeroBlock()
    && (forall c :: sb.nmeta <= c < sb.size && c != b && c != ind ==> fs'.disk[c] == fs.disk[c])
    && (forall c :: 0 <= c < sb.nmeta ==> fs'.disk[c] == Mark(sb, fs.disk, b, true)[c])
  }

  lemma GiveKeeps(sb: Super, fs: Fs, owner: map<nat, Slot>, fs': Fs, b: nat, ind: nat, i: nat, k: nat)
    requires Core(sb, fs, owner) && Shape(sb, fs')
    requires sb.nmeta <= b < sb.size && b !in owner && i < sb.ninodes && k < SLOTS && Addr(fs, i, k) == 0
    requires AddrPut(sb, fs, fs', i, k, b) && GiveWrites(sb, fs, fs', b, ind)
    requires ind in owner ==> owner[ind].k == NDIRECT
    ensures Core(sb, fs', owner[b := Slot(i, k)])
    ensures BytesSame(sb, fs, fs') && InodeBlocksSame(sb, fs, fs')
  {
    hide AddrPut, FreeMap, Addr, ZeroBlock, PutByteBit;
    AllocOwns(sb, fs, owner, fs', b, i, k);
    AllocFreeMap(sb, fs, owner, fs', b, Slot(i, k));
    AllocBytes(sb, fs, owner, fs', b, i, k);
  }

  lemma GiveInodeKeeps(sb: Super, fs: Fs, owner: map<nat, Slot>, b: Word, i: nat, k: nat)
    requires Core(sb, fs, owner)
    requires sb.nmeta <= b < sb.size && b !in owner && i < sb.ninodes && k <= NDIRECT && Addr(fs, i, k) == 0
    ensures var fs' := GiveInode(sb, fs, b, i, k);
            && Core(sb, fs', owner[b := Slot(i, k)])
            && AddrPut(sb, fs, fs', i, k, b) && BytesSame(sb, fs, fs') && InodeBlocksSame(sb, fs, fs')
  {
    hide AddrPut, FreeMap, Owns, ZeroBlock, PutByteBit;
    var fs' := GiveInode(sb, fs, b, i, k);
    GiveInodeAddr(sb, fs, owner, b, i, k);
    assert GiveWrites(sb, fs, fs', b, b);
    GiveKeeps(sb, fs, owner, fs', b, b, i, k);
  }

  lemma GiveIndirectKeeps(sb: Super, fs: Fs, owner: map<nat, Slot>, b: Word, i: nat, k: nat)
    requires Core(sb, fs, owner)
    requires sb.nmeta <= b < sb.size && b !in owner && i < sb.ninodes && NDIRECT < k < SLOTS && Addr(fs, i, k) == 0
    requires fs.inodes[i].addrs[NDIRECT] != 0
    ensures sb.nmeta <= fs.inodes[i].addrs[NDIRECT] < sb.size
    ensures var fs' := GiveIndirect(sb, fs, b, i, k);
            && Core(sb, fs', owner[b := Slot(i, k)])
            && AddrPut(sb, fs, fs', i, k, b) && BytesSame(sb, fs, fs') && InodeBlocksSame(sb, fs, fs')
  {
    hide AddrPut, FreeMap, ZeroBlock, PutByteBit, SetWord, GetWord;
    var ind := fs.inodes[i].addrs[NDIRECT];
    assert Addr(fs, i, NDIRECT) == ind && ind in owner && owner[ind] == Slot(i, NDIRECT);
    hide AddrPut, FreeMap, ZeroBlock, PutByteBit, SetWord, Owns, Addr;
    GiveIndirectAddr(sb, fs, owner, b, i, k);
    var fs' := GiveIndirect(sb, fs, b, i, k);
    assert GiveWrites(sb, fs, fs', b, ind);
    GiveKeeps(sb, fs, owner, fs', b, ind, i, k);
  }

  lemma ReplaceKeeps(sb: Super, fs: Fs, owner: map<nat, Slot>, i: nat, bn: nat, data: Block)
    requires Core(sb, fs, owner)
    requires i < sb.ninodes && bn < MAXFILE && Addr(fs, i, DataSlot(bn)) != 0
    ensures sb.nmeta <= Addr(fs, i, DataSlot(bn)) < sb.size
    ensures var fs' := Replace(sb, fs, i, bn, data);
            && Core(sb, fs', owner) && AddrSame(sb, fs, fs')
            && BytesPut(sb, fs, fs', i, bn, data) && InodeBlocksSame(sb, fs, fs')
  {
    ReplaceAddr(sb, fs, owner, i, bn, data);
    hide AddrSame, FreeMap, Addr, Owns;
    var fs' := Replace(sb, fs, i, bn, data);
    SameOwns(sb, fs, owner, fs');
    SameFreeMap(sb, fs, owner, fs');
    ReplaceBytes(sb, fs, owner, i, bn, data);
  }

  // ---------------------------------------------------------------- inodes on disk

  function InodeWords(ip: Inode): (ws: seq<Word>)
    ensures |ws| == 16
  {
    [ip.kind, ip.links, ip.size] + ip.addrs
  }

  function PutWords(b: Block, base: nat, ws: seq<Word>, k: nat): Block
    requires k <= |ws| && base + |ws| <= WORDS_PER_BLOCK
  {
    if k == 0 then b else SetWord(PutWords(b, base, ws, k - 1), base + k - 1, ws[k - 1])
  }

  lemma {:induction false} PutWordsGet(b: Block, base: nat, ws: seq<Word>, k: nat)
    requires k <= |ws| && base + |ws| <= WORDS_PER_BLOCK
    ensures forall j: nat :: j < WORDS_PER_BLOCK ==>
              GetWord(PutWords(b, base, ws, k), j) == if base <= j < base + k then ws[j - base] else GetWord(b, j)
  {
    if k > 0 {
      PutWordsGet(b, base, ws, k - 1);
      SetGetWord(PutWords(b, base, ws, k - 1), base + k - 1, ws[k - 1]);
      hide GetWord, SetWord;
    }
  }

  /** The on-disk inode i equals the one in memory. */
  predicate OnDisk(sb: Super, fs: Fs, i: nat)
    requires Shape(sb, fs) && i < sb.ninodes
  {
    forall w :: 0 <= w < 16 ==> GetWord(fs.disk[sb.InodeBlock(i)], 16 * (i % 8) + w) == InodeWords(fs.inodes[i])[w]
  }

  /** The n words of a block from word w on. */
  function WordsAt(b: Block, w: nat, n: nat): (ws: seq<Word>)
    requires w + n <= WORDS_PER_BLOCK
    ensures |ws| == n && forall k :: 0 <= k < n ==> ws[k] == GetWord(b, w + k)
  {
    if n == 0 then [] else WordsAt(b, w, n - 1) + [GetWord(b, w + n - 1)]
  }

  /** Inode i as it is on disk. */
  function InodeAt(sb: Super, disk: seq<Block>, i: nat): Inode
    requires sb.InodeBlock(i) < |disk|
  {
    var ws := WordsAt(disk[sb.InodeBlock(i)], 16 * (i % 8), 16);
    Inode(ws[0], ws[1], ws[2], ws[3..])
  }

  function InodesOn(sb: Super, disk: seq<Block>): (inodes: seq<Inode>)
    requires sb.Valid() && |disk| == sb.size
    ensures |inodes| == sb.ninodes && forall i :: 0 <= i < sb.ninodes ==> inodes[i] == InodeAt(sb, disk, i)
  {
    seq(sb.ninodes, i requires 0 <= i < sb.ninodes => InodeAt(sb, disk, i))
  }

  lemma ReadsBack(sb: Super, fs: Fs, i: nat)
    requires Shape(sb, fs) && i < sb.ninodes && OnDisk(sb, fs, i)
    ensures InodeAt(sb, fs.disk, i) == fs.inodes[i]
  {
    hide GetWord;
    var ip := fs.inodes[i];
    assert WordsAt(fs.disk[sb.InodeBlock(i)], 16 * (i % 8), 16) == InodeWords(ip);
    assert InodeWords(ip)[3..] == ip.addrs;
  }

  /** iupdate */
  function Iupdate(sb: Super, fs: Fs, i: nat): Fs
    requires Shape(sb, fs) && i < sb.ninodes
  {
    var ib := sb.InodeBlock(i);
    fs.(disk := fs.disk[ib := PutWords(fs.disk[ib], 16 * (i % 8), InodeWords(fs.inodes[i]), 16)])
  }

  lemma IupdateOnDisk(sb: Super, fs: Fs, i: nat, j: nat)
    requires Shape(sb, fs) && i < sb.ninodes && j < sb.ninodes
    ensures OnDisk(sb, Iupdate(sb, fs, i), i)
    ensures j != i && OnDisk(sb, fs, j) ==> OnDisk(sb, Iupdate(sb, fs, i), j)
  {
    hide GetWord, SetWord, InodeWords, PutWords;
    PutWordsGet(fs.disk[sb.InodeBlock(i)], 16 * (i % 8), InodeWords(fs.inodes[i]), 16);
    if sb.InodeBlock(i) == sb.InodeBlock(j) && i != j {
      assert i % 8 != j % 8;
    }
  }

  lemma IupdateKeeps(sb: Super, fs: Fs, owner: map<nat, Slot>, i: nat)
    requires Core(sb, fs, owner) && i < sb.ninodes
    ensures var fs' := Iupdate(sb, fs, i);
            Core(sb, fs', owner) && AddrSame(sb, fs, fs') && BytesSame(sb, fs, fs')
  {
    var fs' := Iupdate(sb, fs, i);
    hide GetWord, SetWord, InodeWords, PutWords, FreeMap;
    assert sb.InodeBlock(i) < sb.bmapstart;
    assert AddrSame(sb, fs, fs') by {
      forall j, l | 0 <= j < sb.ninodes && 0 <= l < SLOTS
        ensures Addr(fs', j, l) == Addr(fs, j, l)
      {
        assert Addr(fs, j, NDIRECT) != 0 ==> Addr(fs, j, NDIRECT) in owner;
      }
    }
    hide Addr;
    SameOwns(sb, fs, owner, fs');
    SameFreeMap(sb, fs, owner, fs');
    forall j, off | 0 <= j < sb.ninodes && 0 <= off < MAXFILE * BSIZE
      ensures ByteAt(fs', j, off) == ByteAt(fs, j, off)
    {
      assert Addr(fs', j, DataSlot(off / BSIZE)) == Addr(fs, j, DataSlot(off / BSIZE));
    }
  }
}
