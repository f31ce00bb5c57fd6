/** fs.c: what readi and writei do to the block map while they visit the blocks of a range one after the other. */
module BlockRange {
  import opened Arith
  import opened Wrappers
  import opened Blocks
  import opened Bitmap
  import opened Inodes
  import opened BlockMap

  /** The slots that mapping the blocks [a, b) of a file passes through. */
  predicate Touched(a: nat, b: nat, l: nat)
  {
    if l < NDIRECT then a <= l < b
    else if l == NDIRECT then a < b && NDIRECT < b
    else a <= l - 1 < b
  }

  /** How many blocks mapping the blocks [a, b) of file i must allocate, the indirect block counted once. */
  function Lacking(fs: Fs, i: nat, a: nat, b: nat): nat
    requires b <= MAXFILE
    decreases b
  {
    if b <= a then 0
    else Lacking(fs, i, a, b - 1) + Missing(fs, i, DataSlot(b - 1))
         + if b - 1 == Max(a, NDIRECT) then Missing(fs, i, NDIRECT) else 0
  }

  /** Every block of [a, b), and the indirect block if one of them is listed there, is allocated. */
  predicate AllThere(fs: Fs, i: nat, a: nat, b: nat)
  {
    forall l :: 0 <= l < SLOTS && Touched(a, b, l) ==> Missing(fs, i, l) == 0
  }

  /** Every address that the inode itself holds for the blocks [a, b) is set. */
  predicate InodeWhole(fs: Fs, i: nat, a: nat, b: nat)
  {
    forall l :: 0 <= l <= NDIRECT && Touched(a, b, l) ==> Missing(fs, i, l) == 0
  }

  /** Block bn of file i was looked up, and allocated if it was missing. */
  ghost predicate Got(sb: Super, s: Snap, s': Snap, i: nat, bn: nat)
  {
    && bn < MAXFILE && Core(sb, s'.fs, s'.owner) && Grown(sb, s.fs, s'.fs, i)
    && OthersSame(sb, s.fs, s'.fs, i, DataSlot(bn)) && Missing(s'.fs, i, DataSlot(bn)) == 0
    && |s'.owner| == |s.owner| + Needed(s.fs, i, bn)
    && (Missing(s.fs, i, Head(DataSlot(bn))) == 0 ==> s'.fs.inodes == s.fs.inodes)
  }

  /** The blocks [a, b) of file i were looked up in turn, starting from s0. */
  ghost predicate Visited(sb: Super, s0: Snap, s: Snap, i: nat, a: nat, b: nat)
  {
    && a <= b <= MAXFILE && Core(sb, s.fs, s.owner) && Grown(sb, s0.fs, s.fs, i)
    && AllThere(s.fs, i, a, b)
    && (forall j, l :: 0 <= j < sb.ninodes && 0 <= l < SLOTS && !(j == i && Touched(a, b, l)) ==>
          Addr(s.fs, j, l) == Addr(s0.fs, j, l))
    && |s.owner| == |s0.owner| + Lacking(s0.fs, i, a, b)
    && (InodeWhole(s0.fs, i, a, b) ==> s.fs.inodes == s0.fs.inodes)
  }

  lemma VisitStart(sb: Super, s: Snap, i: nat, a: nat)
    requires Core(sb, s.fs, s.owner) && i < sb.ninodes && a <= MAXFILE
    ensures Visited(sb, s, s, i, a, a)
  {
    hide Owns, FreeMap, Addr;
  }

  lemma SlotGot(sb: Super, s: Snap, s': Snap, i: nat, bn: nat, r: Word, via: set<nat>, bm: set<nat>)
    requires bn < MAXFILE && SlotDone(sb, s, s', i, DataSlot(bn), Some(r), via, bm, Needed(s.fs, i, bn))
    ensures Got(sb, s, s', i, bn)
  {
    hide Owns, FreeMap, Addr, BytesSame, OthersSame;
  }

  /** Slots that are filled stay filled. */
  lemma StayFilled(sb: Super, fs: Fs, fs': Fs, i: nat)
    requires Grown(sb, fs, fs', i)
    ensures forall k :: 0 <= k < SLOTS && Missing(fs, i, k) == 0 ==> Missing(fs', i, k) == 0
  {
    hide Addr;
  }

  /** What the next block needs is what was missing at the start. */
  lemma NeededNext(sb: Super, s0: Snap, s: Snap, i: nat, a: nat, b: nat)
    requires Visited(sb, s0, s, i, a, b) && b < MAXFILE
    ensures Lacking(s0.fs, i, a, b + 1) == Lacking(s0.fs, i, a, b) + Needed(s.fs, i, b)
  {
    hide Core, Grown, Addr, InodeWhole;
    GrownShape(sb, s0.fs, s.fs, i);
    assert !Touched(a, b, DataSlot(b));
    if b >= NDIRECT {
      if b == Max(a, NDIRECT) {
        assert !Touched(a, b, NDIRECT);
      } else {
        assert Touched(a, b, NDIRECT);
      }
    }
  }

  lemma GrownShape(sb: Super, fs: Fs, fs': Fs, i: nat)
    requires Grown(sb, fs, fs', i)
    ensures Shape(sb, fs) && Shape(sb, fs') && i < sb.ninodes
  {
  }

  lemma FilledNext(sb: Super, s: Snap, s': Snap, i: nat, a: nat, b: nat)
    requires AllThere(s.fs, i, a, b) && Grown(sb, s.fs, s'.fs, i) && a <= b < MAXFILE
    requires Missing(s'.fs, i, DataSlot(b)) == 0
    ensures AllThere(s'.fs, i, a, b + 1)
  {
    hide Grown, Addr, Missing;
    GrownShape(sb, s.fs, s'.fs, i);
    StayFilled(sb, s.fs, s'.fs, i);
    if b >= NDIRECT {
      NoIndirect(s'.fs, i, DataSlot(b));
    }
    forall l | 0 <= l < SLOTS && Touched(a, b + 1, l)
      ensures Missing(s'.fs, i, l) == 0
    {
      assert Touched(a, b, l) || l == DataSlot(b) || (l == NDIRECT && b >= NDIRECT);
    }
  }

  /** One more block. */
  lemma VisitStep(sb: Super, s0: Snap, s: Snap, s': Snap, i: nat, a: nat, b: nat)
    requires Visited(sb, s0, s, i, a, b) && b < MAXFILE && Got(sb, s, s', i, b)
    ensures Visited(sb, s0, s', i, a, b + 1)
  {
    hide Owns, FreeMap, Addr, Grown, Missing, Lacking;
    GrownShape(sb, s0.fs, s.fs, i);
    NeededNext(sb, s0, s, i, a, b);
    GrownTrans(sb, s0.fs, s.fs, s'.fs, i);
    FilledNext(sb, s, s', i, a, b);
    forall j, l | 0 <= j < sb.ninodes && 0 <= l < SLOTS && !(j == i && Touched(a, b + 1, l))
      ensures Addr(s'.fs, j, l) == Addr(s0.fs, j, l)
    {
      assert j == i ==> !Touched(a, b, l) && l != DataSlot(b) && !(l == NDIRECT < DataSlot(b));
      assert Addr(s'.fs, j, l) == Addr(s.fs, j, l);
    }
    if InodeWhole(s0.fs, i, a, b + 1) {
      WholeNext(sb, s0, s, i, a, b);
    }
  }

  lemma WholeNext(sb: Super, s0: Snap, s: Snap, i: nat, a: nat, b: nat)
    requires InodeWhole(s0.fs, i, a, b + 1) && Grown(sb, s0.fs, s.fs, i) && a <= b < MAXFILE
    ensures InodeWhole(s0.fs, i, a, b) && Missing(s.fs, i, Head(DataSlot(b))) == 0
  {
    hide Addr, Missing, Grown;
    StayFilled(sb, s0.fs, s.fs, i);
    assert Touched(a, b + 1, Head(DataSlot(b)));
    assert forall l :: Touched(a, b, l) ==> Touched(a, b + 1, l);
  }

  /** The inode changed exactly if it lacked an address. */
  lemma InodeChanged(sb: Super, s0: Snap, s: Snap, i: nat, a: nat, b: nat)
    requires Visited(sb, s0, s, i, a, b)
    ensures s.fs.inodes[i] == s0.fs.inodes[i] <==> InodeWhole(s0.fs, i, a, b)
  {
    hide Owns, FreeMap, Grown;
    GrownShape(sb, s0.fs, s.fs, i);
    if !InodeWhole(s0.fs, i, a, b) {
      var l :| 0 <= l <= NDIRECT && Touched(a, b, l) && Missing(s0.fs, i, l) != 0;
      assert Missing(s.fs, i, l) == 0;
    }
  }

  /** Where a lookup finds too few free blocks, there were too few for the whole range. */
  lemma VisitNone(sb: Super, s0: Snap, s: Snap, i: nat, a: nat, b: nat, e: nat)
    requires Visited(sb, s0, s, i, a, b) && b < e <= MAXFILE && Short(sb, s, Needed(s.fs, i, b))
    ensures Short(sb, s0, Lacking(s0.fs, i, a, e))
  {
    hide Core, Grown, AllThere, Needed;
    NeededNext(sb, s0, s, i, a, b);
    LackingMore(s0.fs, i, a, b + 1, e);
  }

  lemma {:induction false} LackingMore(fs: Fs, i: nat, a: nat, b: nat, e: nat)
    requires b <= e <= MAXFILE
    ensures Lacking(fs, i, a, b) <= Lacking(fs, i, a, e)
    decreases e
  {
    if b < e {
      LackingMore(fs, i, a, b, e - 1);
    }
  }

  /** A range that was visited to its end had enough free blocks. */
  lemma VisitEnough(sb: Super, s0: Snap, s: Snap, i: nat, a: nat, b: nat)
    requires Visited(sb, s0, s, i, a, b)
    ensures !Short(sb, s0, Lacking(s0.fs, i, a, b))
  {
    hide Owns, FreeMap, Addr, Grown, AllThere;
    FreeCount(sb, s.fs, s.owner);
  }

  /** Nothing is missing: nothing is allocated. */
  lemma {:induction false} LackingNone(fs: Fs, i: nat, a: nat, b: nat)
    requires b <= MAXFILE && AllThere(fs, i, a, b)
    ensures Lacking(fs, i, a, b) == 0
    decreases b
  {
    hide Missing;
    if a < b {
      assert forall l :: Touched(a, b - 1, l) ==> Touched(a, b, l);
      LackingNone(fs, i, a, b - 1);
      assert Touched(a, b, DataSlot(b - 1));
      assert b - 1 == Max(a, NDIRECT) ==> Touched(a, b, NDIRECT);
    }
  }

  lemma {:induction false} NoneLacking(fs: Fs, i: nat, a: nat, b: nat)
    requires a <= b <= MAXFILE && Lacking(fs, i, a, b) == 0
    ensures AllThere(fs, i, a, b)
    decreases b
  {
    hide Addr;
    if a < b {
      NoneLacking(fs, i, a, b - 1);
      forall l | 0 <= l < SLOTS && Touched(a, b, l)
        ensures Missing(fs, i, l) == 0
      {
        assert Touched(a, b - 1, l) || l == DataSlot(b - 1) || (l == NDIRECT && b - 1 == Max(a, NDIRECT));
      }
    }
  }

  /** At most one block for each block of the range, and the indirect block. */
  lemma {:induction false} LackingBound(fs: Fs, i: nat, a: nat, b: nat)
    requires a <= b <= MAXFILE
    ensures Lacking(fs, i, a, b) <= b - a + (if b > Max(a, NDIRECT) then 1 else 0)
    ensures a < b && Missing(fs, i, DataSlot(a)) == 0 ==>
              Lacking(fs, i, a, b) <= b - a - 1 + (if b > Max(a, NDIRECT) then 1 else 0)
    decreases b
  {
    hide Missing;
    if a < b {
      LackingBound(fs, i, a, b - 1);
    }
  }

  // ---------------------------------------------------------------- ranges of bytes

  /** The block behind the last block of the n bytes at off. */
  function EndBlock(off: nat, n: nat): nat { if n == 0 then off / BSIZE else (off + n - 1) / BSIZE + 1 }

  /** The loops of readi and writei, which take one block at a time: tot of n bytes are done. */
  predicate PassAt(off: nat, n: nat, tot: nat)
  {
    tot <= n && (tot == 0 || tot == n || (off + tot) % BSIZE == 0)
  }

  lemma PassNext(off: nat, n: nat, tot: nat, m: nat)
    requires PassAt(off, n, tot) && tot < n && m == Min(n - tot, BSIZE - (off + tot) % BSIZE)
    ensures (off + tot) / BSIZE == EndBlock(off, tot) < EndBlock(off, n)
    ensures PassAt(off, n, tot + m) && EndBlock(off, tot + m) == EndBlock(off, tot) + 1
  {
    var q, r := (off + tot) / BSIZE, (off + tot) % BSIZE;
    assert off + tot == BSIZE * q + r && 0 < m <= BSIZE - r;
    assert (off + tot + m - 1) / BSIZE == q;
    assert tot > 0 ==> (off + tot - 1) / BSIZE == q - 1;
    EndMore(off, tot + m, n);
  }

  lemma PassStart(off: nat, n: nat)
    ensures PassAt(off, n, 0)
  {
  }

  lemma EndMore(off: nat, m: nat, n: nat)
    requires 0 < m <= n
    ensures EndBlock(off, m) <= EndBlock(off, n)
  {
  }

  lemma EndInFile(off: nat, n: nat)
    requires off + n <= MAXFILE * BSIZE
    ensures off / BSIZE <= EndBlock(off, n) <= MAXFILE
  {
  }

  /** Bytes below the size of a file without holes have their blocks. */
  lemma InsideThere(fs: Fs, i: nat, off: nat, n: nat)
    requires i < |fs.inodes| && NoHole(fs, i) && off + n <= fs.inodes[i].size
    ensures AllThere(fs, i, off / BSIZE, EndBlock(off, n))
  {
    hide Addr;
    EndInFile(off, n);
    forall l | 0 <= l < SLOTS && Touched(off / BSIZE, EndBlock(off, n), l)
      ensures Missing(fs, i, l) == 0
    {
      var bn := if l < NDIRECT then l else if l == NDIRECT then EndBlock(off, n) - 1 else l - 1;
      BelowEnd(off, n, bn);
      assert Addr(fs, i, DataSlot(bn)) != 0;
      if l == NDIRECT {
        NoIndirect(fs, i, DataSlot(bn));
      }
    }
  }

  /** Every block of file i that holds a byte of [off, off + n) is allocated. */
  predicate NoHoleIn(fs: Fs, i: nat, off: nat, n: nat)
  {
    AllThere(fs, i, off / BSIZE, EndBlock(off, n))
  }

  lemma BelowEnd(off: nat, n: nat, bn: nat)
    requires off / BSIZE <= bn < EndBlock(off, n)
    ensures bn * BSIZE < off + n
  {
  }
}
