/** Disk blocks as the kernel sees them: 512 bytes, also read as 128 little-endian 32-bit words. */
module Blocks {

  const BSIZE := 512
  const WORDS_PER_BLOCK := 128

  type Byte = x: int | 0 <= x < 256
  type Word = x: int | 0 <= x < 0x1_0000_0000
  type Block = b: seq<Byte> | |b| == 512 witness seq(512, _ => 0)

  /** a + b in 32-bit arithmetic. */
  function Add32(a: Word, b: Word): Word { (a + b) % 0x1_0000_0000 }

  lemma Add32Wraps(a: Word, b: Word)
    ensures Add32(a, b) < a <==> a + b >= 0x1_0000_0000
    ensures a + b < 0x1_0000_0000 ==> Add32(a, b) == a + b
  {
  }

  function Zeros(n: nat): (s: seq<Byte>)
    ensures |s| == n && forall i :: 0 <= i < n ==> s[i] == 0
  {
    if n == 0 then [] else Zeros(n - 1) + [0]
  }

  /** The block bzero leaves. */
  function ZeroBlock(): Block { Zeros(512) }

  /** The i-th 32-bit word of a block. */
  function GetWord(b: Block, i: nat): (w: Word)
    requires i < WORDS_PER_BLOCK
  {
    var b0: int, b1: int, b2: int, b3: int := b[4 * i], b[4 * i + 1], b[4 * i + 2], b[4 * i + 3];
    b0 + 256 * b1 + 65536 * b2 + 16777216 * b3
  }

  /** The block after storing w in its i-th word. */
  function SetWord(b: Block, i: nat, w: Word): (r: Block)
    requires i < WORDS_PER_BLOCK
  {
    b[4 * i := w % 256][4 * i + 1 := w / 256 % 256][4 * i + 2 := w / 65536 % 256][4 * i + 3 := w / 16777216]
  }

  /** A stored word is read back, every other word is untouched. */
  lemma SetGetWord(b: Block, i: nat, w: Word)
    requires i < WORDS_PER_BLOCK
    ensures GetWord(SetWord(b, i, w), i) == w
    ensures forall j: nat :: j < WORDS_PER_BLOCK && j != i ==> GetWord(SetWord(b, i, w), j) == GetWord(b, j)
  {
    WordBytes(w);
  }

  lemma WordBytes(w: Word)
    ensures w == w % 256 + 256 * (w / 256 % 256) + 65536 * (w / 65536 % 256) + 16777216 * (w / 16777216)
  {
    assert w == 256 * (w / 256) + w % 256;
    assert w / 65536 == w / 256 / 256;
    assert w / 16777216 == w / 65536 / 256;
  }
}
