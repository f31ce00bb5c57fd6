/** mkfs.c: the images the file system starts from. */
module Mkfs {
  import opened Blocks
  import opened Bitmap
  import opened Inodes
  import opened BlockMap

  /** A zeroed disk with the bits of its first k blocks set, except those in `clear`. */
  function Format(sb: Super, k: nat, clear: set<nat>): (disk: seq<Block>)
    requires sb.Valid() && k <= sb.size
    ensures |disk| == sb.size
  {
    if k == 0 then seq(sb.size, _ => ZeroBlock())
    else if k - 1 in clear then Format(sb, k - 1, clear)
    else Mark(sb, Format(sb, k - 1, clear), k - 1, true)
  }

  function EmptyInode(): Inode { Inode(0, 0, 0, [0, 0, 0, 0, 0, 0, 0, 0, 0, 0, 0, 0, 0]) }

  lemma {:induction false} FormatUsed(sb: Super, k: nat, clear: set<nat>, c: nat)
    requires sb.Valid() && k <= sb.size && c < sb.size
    ensures sb.BitmapBlock(c) < sb.size && (Used(sb, Format(sb, k, clear), c) <==> c < k && c !in clear)
  {
    hide Bit, Mark, ZeroBlock;
    BitmapInRange(sb);
    if k == 0 {
      ZeroBit(c % 8);
      ZeroByte(c % BPB / 8);
    } else {
      FormatUsed(sb, k - 1, clear, c);
      MarkUsed(sb, Format(sb, k - 1, clear), k - 1, true, c);
    }
  }

  lemma {:induction false} ZeroBit(i: nat)
    ensures !Bit(0, i)
  {
    if i > 0 {
      ZeroBit(i - 1);
    }
  }

  /** Formatting writes bitmap blocks only. */
  lemma {:induction false} FormatZero(sb: Super, k: nat, clear: set<nat>, c: nat)
    requires sb.Valid() && k <= sb.size && c < sb.size && c !in Bitmaps(sb)
    ensures Format(sb, k, clear)[c] == ZeroBlock()
  {
    hide ZeroBlock, PutByteBit;
    if k > 0 {
      FormatZero(sb, k - 1, clear, c);
      BitmapsHold(sb, k - 1);
    }
  }

  /** A formatted disk without files is consistent, for every layout. */
  lemma EmptyImage(sb: Super)
    requires sb.Valid()
    ensures AllSettled(sb, Snap(Fs(Format(sb, sb.nmeta, {}), seq(sb.ninodes, _ => EmptyInode())), map[], {}))
  {
    hide Format, Used, GetWord, ZeroBlock;
    var fs := Fs(Format(sb, sb.nmeta, {}), seq(sb.ninodes, _ => EmptyInode()));
    forall b | 0 <= b < sb.size
      ensures Used(sb, fs.disk, b) <==> b < sb.nmeta
    {
      FormatUsed(sb, sb.nmeta, {}, b);
    }
    forall i | 0 <= i < sb.ninodes
      ensures Settled(sb, fs, i)
    {
      EmptySettled(sb, fs, i);
    }
  }

  lemma EmptySettled(sb: Super, fs: Fs, i: nat)
    requires Shape(sb, fs) && fs.disk == Format(sb, sb.nmeta, {}) && i < sb.ninodes && fs.inodes[i] == EmptyInode()
    ensures Settled(sb, fs, i)
  {
    hide Format, GetWord, ZeroBlock;
    FormatZero(sb, sb.nmeta, {}, sb.InodeBlock(i));
    forall w | 0 <= w < 16
      ensures GetWord(fs.disk[sb.InodeBlock(i)], 16 * (i % 8) + w) == InodeWords(fs.inodes[i])[w]
    {
      ZeroWord(16 * (i % 8) + w);
    }
  }

  /** The root directory after n bytes of entries were appended and its size rounded up: blocks are there for
      the entries, and the size is the next multiple of BSIZE above n. */
  predicate RootMade(fs: Fs, i: nat, n: nat)
  {
    && i < |fs.inodes| && fs.inodes[i].size == (n / BSIZE + 1) * BSIZE <= MAXFILE * BSIZE
    && forall bn :: 0 <= bn < MAXFILE ==> (Addr(fs, i, DataSlot(bn)) != 0 <==> bn * BSIZE < n)
  }

  /** mkfs leaves a hole at the end of the root directory exactly when the entries fill whole blocks, for
      instance with 32 entries of 16 bytes. */
  lemma RootHole(fs: Fs, i: nat, n: nat)
    requires RootMade(fs, i, n)
    ensures NoHole(fs, i) <==> n % BSIZE != 0
  {
    hide Addr;
    if n % BSIZE == 0 {
      assert Addr(fs, i, DataSlot(n / BSIZE)) == 0;
    }
  }
}
