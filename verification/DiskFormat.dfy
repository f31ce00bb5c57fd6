/** The on-disk format (fs.h, log.c), read byte by byte: what the kernel keeps in memory is what any reader of the
    disk would find there. */
module DiskFormat {
  import opened Params
  import opened Blocks
  import opened Bitmap
  import opened Inodes
  import opened BlockMap
  import opened FileContent
  import opened LogMachine

  /** The 32-bit number at byte p, least significant byte first. */
  function Le32(b: Block, p: nat): nat
    requires p + 4 <= 512
  {
    var b0: int, b1: int, b2: int, b3: int := b[p], b[p + 1], b[p + 2], b[p + 3];
    b0 + 256 * b1 + 65536 * b2 + 16777216 * b3
  }

  /** Bit i of a byte. */
  predicate Digit(x: Byte, i: nat)
    requires i < 8
  {
    x / [1, 2, 4, 8, 16, 32, 64, 128][i] % 2 == 1
  }

  lemma {:induction false} BitIsDigit(x: Byte, i: nat)
    requires i < 8
    ensures Bit(x, i) <==> Digit(x, i)
  {
    if i > 0 {
      BitIsDigit(x / 2, i - 1);
      Halved(x, [1, 2, 4, 8, 16, 32, 64, 128][i - 1]);
    }
  }

  lemma Halved(x: Byte, n: nat)
    requires n in {1, 2, 4, 8, 16, 32, 64}
    ensures x / 2 / n == x / (2 * n)
  {
    if
    case n == 1 => assert x / 2 / 1 == x / 2;
    case n == 2 => assert x / 2 / 2 == x / 4;
    case n == 4 => assert x / 2 / 4 == x / 8;
    case n == 8 => assert x / 2 / 8 == x / 16;
    case n == 16 => assert x / 2 / 16 == x / 32;
    case n == 32 => assert x / 2 / 32 == x / 64;
    case n == 64 => assert x / 2 / 64 == x / 128;
  }

  /** The free map: block b's bit is bit b % 8 of byte b % 4096 / 8 of block bmapstart + b / 4096, and it is set
      exactly for metadata and for blocks that belong to a file. */
  lemma FreeBit(sb: Super, s: Snap, b: nat)
    requires AllSettled(sb, s) && b < sb.size
    ensures sb.bmapstart + b / 4096 < |s.fs.disk|
    ensures Digit(s.fs.disk[sb.bmapstart + b / 4096][b % 4096 / 8], b % 8) <==> b < sb.nmeta || b in s.owner
  {
    hide Owns, Digit, Bit;
    BitmapInRange(sb);
    assert Used(sb, s.fs.disk, b) <==> b < sb.nmeta || b in s.owner;
    BitIsDigit(s.fs.disk[sb.bmapstart + b / 4096][b % 4096 / 8], b % 8);
  }

  // ---------------------------------------------------------------- inodes and files

  /** Word w of inode i, 64 bytes each from block inodestart on. */
  function InodeWord(disk: seq<Block>, inodestart: nat, i: nat, w: nat): nat
    requires inodestart + i / 8 < |disk| && w < 16
  {
    Le32(disk[inodestart + i / 8], i % 8 * 64 + 4 * w)
  }

  /** The block that holds byte off of file i: one of the inode's 12 addresses, or one of the 128 in its
      indirect block. */
  function FileBlock(disk: seq<Block>, inodestart: nat, i: nat, off: nat): nat
    requires inodestart + i / 8 < |disk| && off < 140 * 512
  {
    var n := off / 512;
    if n < 12 then InodeWord(disk, inodestart, i, 3 + n)
    else
      var ind := InodeWord(disk, inodestart, i, 15);
      if ind == 0 || ind >= |disk| then 0 else Le32(disk[ind], 4 * (n - 12))
  }

  lemma WordIsLe32(b: Block, w: nat)
    requires w < 128
    ensures GetWord(b, w) == Le32(b, 4 * w)
  {
  }

  lemma InodeOnDisk(sb: Super, fs: Fs, i: nat, w: nat)
    requires Shape(sb, fs) && i < sb.ninodes && OnDisk(sb, fs, i) && w < 16
    ensures sb.inodestart + i / 8 < |fs.disk|
    ensures InodeWord(fs.disk, sb.inodestart, i, w) == (if w == 0 then fs.inodes[i].kind
                                                        else if w == 1 then fs.inodes[i].links
                                                        else if w == 2 then fs.inodes[i].size
                                                        else fs.inodes[i].addrs[w - 3])
  {
    hide GetWord, Le32;
    var ip := fs.inodes[i];
    assert InodeWords(ip)[w] == if w < 3 then [ip.kind, ip.links, ip.size][w] else ip.addrs[w - 3];
    assert GetWord(fs.disk[sb.InodeBlock(i)], 16 * (i % 8) + w) == InodeWords(ip)[w];
    WordIsLe32(fs.disk[sb.InodeBlock(i)], 16 * (i % 8) + w);
  }

  /** A reader of the disk finds each file: its size in the inode, and its bytes in the blocks listed there. */
  lemma FileOnDisk(sb: Super, s: Snap, i: nat, off: nat)
    requires AllSettled(sb, s) && i < sb.ninodes && off < s.fs.inodes[i].size
    ensures sb.inodestart + i / 8 < |s.fs.disk| && InodeWord(s.fs.disk, sb.inodestart, i, 2) == |Content(s.fs, i)|
    ensures off < 140 * 512 && off < |Content(s.fs, i)|
    ensures var a := FileBlock(s.fs.disk, sb.inodestart, i, off);
            Content(s.fs, i)[off] == if a == 0 then 0 else if a < |s.fs.disk| then s.fs.disk[a][off % 512] else 0
  {
    hide Owns, FreeMap, OnDisk, GetWord, Le32, FileBytes, InodeWord;
    assert Settled(sb, s.fs, i);
    var n := off / 512;
    InodeOnDisk(sb, s.fs, i, 2);
    if n < 12 {
      InodeOnDisk(sb, s.fs, i, 3 + n);
    } else {
      InodeOnDisk(sb, s.fs, i, 15);
      var ind := s.fs.inodes[i].addrs[12];
      if ind != 0 && ind < |s.fs.disk| {
        WordIsLe32(s.fs.disk[ind], n - 12);
      }
    }
  }

  // ---------------------------------------------------------------- the log's header

  /** The log header: the number of blocks, then where each belongs. */
  lemma {:induction false} HeaderBytes(b: Block, lh: seq<nat>, i: nat)
    requires LhFits(lh) && i < |lh|
    ensures Le32(WriteHeader(b, lh), 0) == |lh| && 4 * (i + 1) + 4 <= 512
    ensures Le32(WriteHeader(b, lh), 4 * (i + 1)) == lh[i]
  {
    hide GetWord, Le32, SetWord;
    SetGetWord(b, 0, |lh|);
    PutEntriesWords(SetWord(b, 0, |lh|), lh, |lh|);
    WordIsLe32(WriteHeader(b, lh), 0);
    WordIsLe32(WriteHeader(b, lh), i + 1);
    assert GetWord(PutEntries(SetWord(b, 0, |lh|), lh, |lh|), 1 + i) == lh[i];
  }
}
