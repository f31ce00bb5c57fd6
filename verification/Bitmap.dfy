/** fs.c: the free map, one bit per disk block, packed eight to a byte in the bitmap blocks. */
module Bitmap {
  import opened Blocks
  import opened Counting

  const BPB := 4096   // bits per bitmap block

  /** x & (1 << i) */
  predicate Bit(x: nat, i: nat)
  {
    if i == 0 then x % 2 == 1 else Bit(x / 2, i - 1)
  }

  /** x | (1 << i) when v, x & ~(1 << i) otherwise */
  function PutBit(x: nat, i: nat, v: bool): nat
  {
    if i == 0 then x / 2 * 2 + (if v then 1 else 0) else x % 2 + 2 * PutBit(x / 2, i - 1, v)
  }

  function Pow2(n: nat): nat { if n == 0 then 1 else 2 * Pow2(n - 1) }

  lemma {:induction false} PutBitGet(x: nat, i: nat, v: bool, j: nat)
    ensures Bit(PutBit(x, i, v), j) == if j == i then v else Bit(x, j)
    decreases i
  {
    if i > 0 && j > 0 {
      PutBitGet(x / 2, i - 1, v, j - 1);
    }
  }

  lemma {:induction false} PutBitBound(x: nat, i: nat, v: bool, n: nat)
    requires i < n && x < Pow2(n)
    ensures PutBit(x, i, v) < Pow2(n)
    decreases n
  {
    hide Pow2, PutBit;
    Double(n);
    Half(x, Pow2(n - 1));
    PutBitStep(x, i, v);
    if i > 0 {
      PutBitBound(x / 2, i - 1, v, n - 1);
    }
  }

  lemma Double(n: nat)
    requires n > 0
    ensures Pow2(n) == 2 * Pow2(n - 1)
  {
  }

  lemma Half(x: nat, half: nat)
    requires x < 2 * half
    ensures x / 2 < half && x / 2 * 2 + 1 < 2 * half && x % 2 < 2
  {
  }

  lemma PutBitStep(x: nat, i: nat, v: bool)
    ensures PutBit(x, i, v) == if i == 0 then x / 2 * 2 + (if v then 1 else 0) else x % 2 + 2 * PutBit(x / 2, i - 1, v)
  {
  }

  /** A byte with bit i replaced. */
  function PutByteBit(x: Byte, i: nat, v: bool): Byte
    requires i < 8
  {
    assert Pow2(8) == 256 by { assert Pow2(4) == 16; }
    PutBitBound(x, i, v, 8);
    PutBit(x, i, v)
  }

  /** Where a file system keeps things: bitmap and inode blocks lie below nmeta, data blocks above. */
  datatype Super = Super(size: nat, nmeta: nat, bmapstart: nat, inodestart: nat, ninodes: nat) {
    predicate Valid()
    {
      && 1 <= nmeta <= size < 0x1_0000_0000
      && inodestart + (ninodes + 7) / 8 <= bmapstart
      && bmapstart + (size + BPB - 1) / BPB <= nmeta
    }
    function BitmapBlock(b: nat): nat { b / BPB + bmapstart }
    function InodeBlock(i: nat): nat { i / 8 + inodestart }
  }

  /** Is block b marked in use? */
  predicate Used(sb: Super, disk: seq<Block>, b: nat)
    requires sb.BitmapBlock(b) < |disk|
  {
    Bit(disk[sb.BitmapBlock(b)][b % BPB / 8], b % 8)
  }

  /** The disk after b's bit is set to v. */
  function Mark(sb: Super, disk: seq<Block>, b: nat, v: bool): (d: seq<Block>)
    requires sb.BitmapBlock(b) < |disk|
    ensures |d| == |disk|
  {
    var bb := sb.BitmapBlock(b);
    var k := b % BPB / 8;
    disk[bb := disk[bb][k := PutByteBit(disk[bb][k], b % 8, v)]]
  }

  /** No block is free. */
  predicate Full(sb: Super, disk: seq<Block>)
  {
    forall c: nat :: c < sb.size ==> sb.BitmapBlock(c) < |disk| && Used(sb, disk, c)
  }

  /** None of the first n blocks is free. */
  predicate UsedUpTo(sb: Super, disk: seq<Block>, n: nat)
  {
    forall c: nat :: c < n && c < sb.size ==> sb.BitmapBlock(c) < |disk| && Used(sb, disk, c)
  }

  lemma UsedStart(sb: Super, disk: seq<Block>)
    ensures UsedUpTo(sb, disk, 0)
  {
  }

  lemma UsedNext(sb: Super, disk: seq<Block>, n: nat)
    requires UsedUpTo(sb, disk, n) && (n < sb.size ==> sb.BitmapBlock(n) < |disk| && Used(sb, disk, n))
    ensures UsedUpTo(sb, disk, n + 1)
  {
    hide Used;
  }

  lemma UsedAll(sb: Super, disk: seq<Block>, n: nat)
    requires UsedUpTo(sb, disk, n)
    ensures n >= sb.size ==> Full(sb, disk) && forall m: nat :: UsedUpTo(sb, disk, m)
  {
    hide Used;
  }

  /** How many bitmap blocks there are. */
  function NBitmaps(sb: Super): nat { (sb.size + BPB - 1) / BPB }

  function Bitmaps(sb: Super): set<nat> { Range(sb.bmapstart, sb.bmapstart + NBitmaps(sb)) }

  lemma BitmapsHold(sb: Super, b: nat)
    requires b < sb.size
    ensures sb.BitmapBlock(b) in Bitmaps(sb)
  {
  }

  predicate BitmapOnly(sb: Super, bm: set<nat>)
  {
    forall c :: c in bm ==> sb.bmapstart <= c < sb.bmapstart + NBitmaps(sb)
  }

  lemma OneBitmap(sb: Super, b: nat)
    requires b < sb.size
    ensures BitmapOnly(sb, {sb.BitmapBlock(b)})
  {
  }

  lemma SameBit(b: nat, c: nat)
    ensures c == b <==> c / BPB == b / BPB && c % BPB / 8 == b % BPB / 8 && c % 8 == b % 8
  {
    BitParts(b);
    BitParts(c);
  }

  lemma BitParts(b: nat)
    ensures b == b / 4096 * 4096 + b % 4096 / 8 * 8 + b % 8
  {
    Eights(512 * (b / 4096), b % 4096);
  }

  lemma Eights(a: nat, r: nat)
    ensures (8 * a + r) % 8 == r % 8
  {
  }

  /** Marking b changes b's bit and nothing else in the free map. */
  lemma MarkUsed(sb: Super, disk: seq<Block>, b: nat, v: bool, c: nat)
    requires sb.BitmapBlock(b) < |disk| && sb.BitmapBlock(c) < |disk|
    ensures Used(sb, Mark(sb, disk, b, v), c) == if c == b then v else Used(sb, disk, c)
  {
    hide Bit, PutBit, Pow2;
    var bb := sb.BitmapBlock(b);
    SameBit(b, c);
    if sb.BitmapBlock(c) == bb && c % BPB / 8 == b % BPB / 8 {
      PutBitGet(disk[bb][b % BPB / 8], b % 8, v, c % 8);
    }
  }
}
