/** fs.c, file.c: a file's content as one byte sequence, and how one pass of writei changes it. */
module FileContent {
  import opened Arith
  import opened Counting
  import opened Params
  import opened Wrappers
  import opened Blocks
  import opened Bitmap
  import opened Inodes
  import opened BlockMap
  import opened BlockRange

  /** n bytes of file i from offset off. */
  function FileBytes(fs: Fs, i: nat, off: nat, n: nat): (s: seq<Byte>)
    requires i < |fs.inodes| && off + n <= MAXFILE * BSIZE
    ensures |s| == n && forall k :: 0 <= k < n ==> s[k] == ByteAt(fs, i, off + k)
  {
    if n == 0 then [] else FileBytes(fs, i, off, n - 1) + [ByteAt(fs, i, off + n - 1)]
  }

  /** The content of file i. */
  function Content(fs: Fs, i: nat): (s: seq<Byte>)
    requires i < |fs.inodes|
    ensures |s| == Min(fs.inodes[i].size, MAXFILE * BSIZE)
  {
    FileBytes(fs, i, 0, Min(fs.inodes[i].size, MAXFILE * BSIZE))
  }

  /** Bytes read from one block continue those read before it. */
  lemma ReadPart(sb: Super, fs: Fs, owner: map<nat, Slot>, i: nat, off: nat, tot: nat, m: nat)
    requires Core(sb, fs, owner) && i < sb.ninodes && off + tot + m <= MAXFILE * BSIZE && m > 0
    requires (off + tot) % BSIZE + m <= BSIZE && Missing(fs, i, DataSlot((off + tot) / BSIZE)) == 0
    ensures var a, o := Addr(fs, i, DataSlot((off + tot) / BSIZE)), (off + tot) % BSIZE;
            && a < |fs.disk|
            && FileBytes(fs, i, off, tot) + fs.disk[a][o..o + m] == FileBytes(fs, i, off, tot + m)
  {
    hide FreeMap, Addr;
    var bn, o := (off + tot) / BSIZE, (off + tot) % BSIZE;
    var a := Addr(fs, i, DataSlot(bn));
    assert a in owner;
    forall p | off + tot <= p < off + tot + m
      ensures ByteAt(fs, i, p) == fs.disk[a][p - bn * BSIZE]
    {
      assert p / BSIZE == bn && p % BSIZE == p - bn * BSIZE;
    }
  }

  /** A block with part stored at offset o. */
  function Overlay(b: Block, o: nat, part: seq<Byte>): (r: Block)
    requires o + |part| <= BSIZE
    ensures forall k :: 0 <= k < BSIZE ==> r[k] == if o <= k < o + |part| then part[k - o] else b[k]
  {
    b[..o] + part + b[o + |part|..]
  }

  /** One pass of writei's loop has stored part at off in file i. */
  ghost predicate PartDone(sb: Super, s: Snap, s': Snap, i: nat, off: nat, part: seq<Byte>, bm: set<nat>)
  {
    && off < MAXFILE * BSIZE && Got(sb, s, s', i, off / BSIZE) && i < sb.ninodes
    && Written(sb, s.fs, s'.fs, i, off, part)
    && s'.logged <= s.logged + bm + {Addr(s'.fs, i, DataSlot(off / BSIZE)) as nat} + IndirectOf(s'.fs, i)
    && |bm| <= Needed(s.fs, i, off / BSIZE) && BitmapOnly(sb, bm)
  }

  lemma PutPart(sb: Super, fs: Fs, owner: map<nat, Slot>, i: nat, off: nat, part: seq<Byte>)
    requires Core(sb, fs, owner) && i < sb.ninodes && off < MAXFILE * BSIZE && off % BSIZE + |part| <= BSIZE
    requires Missing(fs, i, DataSlot(off / BSIZE)) == 0
    ensures var bn := off / BSIZE;
            var a := Addr(fs, i, DataSlot(bn));
            && a < |fs.disk|
            && var fs' := fs.(disk := fs.disk[a := Overlay(fs.disk[a], off % BSIZE, part)]);
               && Core(sb, fs', owner) && AddrSame(sb, fs, fs') && InodeBlocksSame(sb, fs, fs')
               && Written(sb, fs, fs', i, off, part)
  {
    hide Owns, FreeMap, Addr;
    var bn := off / BSIZE;
    var a := Addr(fs, i, DataSlot(bn));
    MappedInRange(sb, fs, owner, i, DataSlot(bn));
    var data := Overlay(fs.disk[a], off % BSIZE, part);
    ReplaceKeeps(sb, fs, owner, i, bn, data);
    PutWritten(sb, fs, Replace(sb, fs, i, bn, data), i, off, part);
  }

  lemma MappedInRange(sb: Super, fs: Fs, owner: map<nat, Slot>, i: nat, k: nat)
    requires Core(sb, fs, owner) && i < sb.ninodes && k < SLOTS && Missing(fs, i, k) == 0
    ensures 0 != Addr(fs, i, k) < |fs.disk|
  {
    hide FreeMap, Addr;
  }

  lemma PutWritten(sb: Super, fs: Fs, fs': Fs, i: nat, off: nat, part: seq<Byte>)
    requires Shape(sb, fs) && Shape(sb, fs') && i < sb.ninodes
    requires off < MAXFILE * BSIZE && off % BSIZE + |part| <= BSIZE
    requires var a := Addr(fs, i, DataSlot(off / BSIZE));
             0 != a < |fs.disk| && BytesPut(sb, fs, fs', i, off / BSIZE, Overlay(fs.disk[a], off % BSIZE, part))
    ensures Written(sb, fs, fs', i, off, part)
  {
    hide Addr, Overlay;
    var bn, o := off / BSIZE, off % BSIZE;
    forall j, k | 0 <= j < sb.ninodes && 0 <= k < MAXFILE * BSIZE
      ensures ByteAt(fs', j, k) == if j == i && off <= k < off + |part| then part[k - off] else ByteAt(fs, j, k)
    {
      if j == i && k / BSIZE == bn {
        assert k - off == k % BSIZE - o;
      } else {
        assert !(j == i && off <= k < off + |part|);
      }
    }
  }

  /** Mapping the block and storing the part make one pass of the loop. */
  lemma PartStored(sb: Super, s: Snap, s1: Snap, s2: Snap, i: nat, off: nat, part: seq<Byte>, a: Word, bm: set<nat>)
    requires Core(sb, s.fs, s.owner) && i < sb.ninodes && off < MAXFILE * BSIZE && off % BSIZE + |part| <= BSIZE
    requires var bn := off / BSIZE;
             SlotDone(sb, s, s1, i, DataSlot(bn), Some(a), Via(s1.fs, i, bn), bm, Needed(s.fs, i, bn))
    requires a < |s1.fs.disk|
    requires s2 == Snap(s1.fs.(disk := s1.fs.disk[a := Overlay(s1.fs.disk[a], off % BSIZE, part)]), s1.owner,
                        s1.logged + {a as nat})
    ensures PartDone(sb, s, s2, i, off, part, bm)
  {
    hide Owns, FreeMap, Addr, ByteAt, Overlay, Got, BytesSame, OthersSame, Grown, Written;
    var bn := off / BSIZE;
    SlotGot(sb, s, s1, i, bn, a, Via(s1.fs, i, bn), bm);
    PutPart(sb, s1.fs, s1.owner, i, off, part);
    PartGot(sb, s, s1, s2, i, bn);
    WrittenAfter(sb, s.fs, s1.fs, s2.fs, i, off, part);
    SameIndirect(s1.fs, s2.fs, i);
  }

  lemma SameIndirect(fs: Fs, fs': Fs, i: nat)
    requires fs'.inodes == fs.inodes
    ensures IndirectOf(fs', i) == IndirectOf(fs, i)
  {
  }

  /** Storing into a block that is there keeps every address. */
  lemma PartGot(sb: Super, s: Snap, s1: Snap, s2: Snap, i: nat, bn: nat)
    requires Got(sb, s, s1, i, bn) && Core(sb, s2.fs, s2.owner) && i < sb.ninodes
    requires AddrSame(sb, s1.fs, s2.fs) && InodeBlocksSame(sb, s1.fs, s2.fs) && s2.fs.inodes == s1.fs.inodes
    requires s2.owner == s1.owner
    ensures Got(sb, s, s2, i, bn)
  {
    hide Owns, FreeMap, Addr;
  }

  lemma WrittenAfter(sb: Super, fs: Fs, fs1: Fs, fs2: Fs, i: nat, off: nat, part: seq<Byte>)
    requires Shape(sb, fs) && Shape(sb, fs1) && BytesSame(sb, fs, fs1) && Written(sb, fs1, fs2, i, off, part)
    ensures Written(sb, fs, fs2, i, off, part)
  {
    hide ByteAt;
  }

  // ---------------------------------------------------------------- the loop of writei

  /** Accounting for the log: the data blocks and the bitmap blocks that the passes so far logged. */
  datatype Acc = Acc(data: set<nat>, bms: set<nat>)

  ghost predicate AccOk(sb: Super, fs: Fs, i: nat, a: nat, b: nat, acc: Acc)
    requires b <= MAXFILE
  {
    |acc.data| <= b - a && |acc.bms| <= Lacking(fs, i, a, b) && BitmapOnly(sb, acc.bms)
  }

  /** After tot of the bytes of src are stored, starting from state s0. */
  ghost predicate Writing(sb: Super, s0: Snap, s: Snap, i: nat, off: nat, src: seq<Byte>, tot: nat, acc: Acc)
  {
    && PassAt(off, |src|, tot) && off + |src| <= MAXFILE * BSIZE && i < sb.ninodes
    && Visited(sb, s0, s, i, off / BSIZE, EndBlock(off, tot))
    && Written(sb, s0.fs, s.fs, i, off, src[..tot])
    && AccOk(sb, s0.fs, i, off / BSIZE, EndBlock(off, tot), acc)
    && s.logged <= s0.logged + acc.data + acc.bms + IndirectOf(s.fs, i)
  }

  function NextAcc(a: nat, bm: set<nat>, acc: Acc): Acc
  {
    Acc(acc.data + {a}, acc.bms + bm)
  }

  lemma NextAccOk(sb: Super, s0: Snap, s: Snap, i: nat, a: nat, b: nat, acc: Acc, blk: nat, bm: set<nat>)
    requires Visited(sb, s0, s, i, a, b) && b < MAXFILE && AccOk(sb, s0.fs, i, a, b, acc)
    requires |bm| <= Needed(s.fs, i, b) && BitmapOnly(sb, bm)
    ensures AccOk(sb, s0.fs, i, a, b + 1, NextAcc(blk, bm, acc))
  {
    hide Visited, Lacking, Needed;
    NeededNext(sb, s0, s, i, a, b);
  }

  lemma WritingStep(sb: Super, s0: Snap, s: Snap, s': Snap, i: nat, off: nat, src: seq<Byte>, tot: nat, m: nat,
                    acc: Acc, bm: set<nat>)
    requires Writing(sb, s0, s, i, off, src, tot, acc)
    requires tot < |src| && m == Min(|src| - tot, BSIZE - (off + tot) % BSIZE)
    requires PartDone(sb, s, s', i, off + tot, src[tot..tot + m], bm)
    ensures (off + tot) / BSIZE < MAXFILE && i < |s'.fs.inodes|
    ensures Writing(sb, s0, s', i, off, src, tot + m,
                    NextAcc(Addr(s'.fs, i, DataSlot((off + tot) / BSIZE)), bm, acc))
  {
    hide Visited, Written, Addr, AccOk, IndirectOf, Got, Needed;
    var bn := (off + tot) / BSIZE;
    PassNext(off, |src|, tot, m);
    GotShape(sb, s, s', i, bn);
    NextAccOk(sb, s0, s, i, off / BSIZE, bn, acc, Addr(s'.fs, i, DataSlot(bn)), bm);
    VisitStep(sb, s0, s, s', i, off / BSIZE, bn);
    assert src[..tot] + src[tot..tot + m] == src[..tot + m];
    WrittenTrans(sb, s0.fs, s.fs, s'.fs, i, off, src[..tot], src[tot..tot + m]);
  }

  lemma GotShape(sb: Super, s: Snap, s': Snap, i: nat, bn: nat)
    requires Got(sb, s, s', i, bn)
    ensures bn < MAXFILE && Shape(sb, s'.fs) && i < sb.ninodes && IndirectOf(s.fs, i) <= IndirectOf(s'.fs, i)
  {
    assert Addr(s.fs, i, NDIRECT) == s.fs.inodes[i].addrs[NDIRECT];
    assert Addr(s'.fs, i, NDIRECT) == s'.fs.inodes[i].addrs[NDIRECT];
    hide Owns, FreeMap;
  }

  // ---------------------------------------------------------------- the end of writei

  /** Growing the size changes no address and no byte. */
  lemma ResizeKeeps(sb: Super, fs: Fs, owner: map<nat, Slot>, i: nat, size: Word)
    requires Core(sb, fs, owner) && i < sb.ninodes
    ensures var fs' := fs.(inodes := fs.inodes[i := fs.inodes[i].(size := size)]);
            Core(sb, fs', owner) && AddrSame(sb, fs, fs') && BytesSame(sb, fs, fs')
  {
    hide GetWord, FreeMap;
    var fs' := fs.(inodes := fs.inodes[i := fs.inodes[i].(size := size)]);
    assert AddrSame(sb, fs, fs');
    SameOwns(sb, fs, owner, fs');
    SameFreeMap(sb, fs, owner, fs');
  }

  /** Every other inode is as settled as before. */
  lemma OthersSettled(sb: Super, fs: Fs, fs': Fs, i: nat, j: nat)
    requires Grown(sb, fs, fs', i) && j < sb.ninodes && Settled(sb, fs, j)
    requires j != i || fs'.inodes == fs.inodes
    ensures Settled(sb, fs', j)
  {
    hide Addr, GetWord, InodeWords;
    assert sb.InodeBlock(j) < sb.bmapstart;
    assert fs'.inodes[j] == fs.inodes[j];
  }

  /** Blocks given to a file make no hole. */
  lemma GrownNoHole(sb: Super, fs: Fs, fs': Fs, i: nat)
    requires Grown(sb, fs, fs', i)
    ensures NoNewHole(sb, fs, fs')
  {
    hide Addr;
    assert forall j :: 0 <= j < sb.ninodes ==> fs'.inodes[j].size == fs.inodes[j].size;
  }

  /** Where an inode's block on disk is as it was, the inode is on disk exactly if it is as it was. */
  lemma SameOnDisk(sb: Super, fs: Fs, fs': Fs, i: nat)
    requires Shape(sb, fs) && Shape(sb, fs') && InodeBlocksSame(sb, fs, fs') && i < sb.ninodes && OnDisk(sb, fs, i)
    ensures OnDisk(sb, fs', i) <==> fs'.inodes[i] == fs.inodes[i]
  {
    hide GetWord, InodeWords;
    assert sb.InodeBlock(i) < sb.bmapstart;
    if OnDisk(sb, fs', i) {
      assert InodeWords(fs'.inodes[i]) == InodeWords(fs.inodes[i]);
      SameWords(fs'.inodes[i], fs.inodes[i]);
    }
  }

  lemma SameWords(a: Inode, b: Inode)
    requires InodeWords(a) == InodeWords(b)
    ensures a == b
  {
    assert a.addrs == InodeWords(a)[3..] && b.addrs == InodeWords(b)[3..];
    assert a.kind == InodeWords(a)[0] && a.links == InodeWords(a)[1] && a.size == InodeWords(a)[2];
    assert b.kind == InodeWords(b)[0] && b.links == InodeWords(b)[1] && b.size == InodeWords(b)[2];
  }

  /** writei's result when the file grows: the new size is recorded, in memory and on disk. */
  function Grow(sb: Super, fs: Fs, i: nat, size: Word): Fs
    requires Shape(sb, fs) && i < sb.ninodes
  {
    Iupdate(sb, fs.(inodes := fs.inodes[i := fs.inodes[i].(size := size)]), i)
  }

  lemma GrowKeeps(sb: Super, fs: Fs, owner: map<nat, Slot>, i: nat, size: Word)
    requires Core(sb, fs, owner) && i < sb.ninodes
    ensures Core(sb, Grow(sb, fs, i, size), owner)
    ensures AddrSame(sb, fs, Grow(sb, fs, i, size)) && BytesSame(sb, fs, Grow(sb, fs, i, size))
  {
    hide Owns, FreeMap, Addr, ByteAt, Iupdate;
    var fs1 := fs.(inodes := fs.inodes[i := fs.inodes[i].(size := size)]);
    ResizeKeeps(sb, fs, owner, i, size);
    IupdateKeeps(sb, fs1, owner, i);
  }

  lemma GrowOnDisk(sb: Super, fs: Fs, i: nat, size: Word, j: nat)
    requires Shape(sb, fs) && i < sb.ninodes && j < sb.ninodes && (j == i || OnDisk(sb, fs, j))
    ensures OnDisk(sb, Grow(sb, fs, i, size), j)
  {
    hide Iupdate, GetWord, InodeWords;
    var fs1 := fs.(inodes := fs.inodes[i := fs.inodes[i].(size := size)]);
    assert j != i ==> OnDisk(sb, fs1, j);
    IupdateOnDisk(sb, fs1, i, j);
  }

  lemma GrowNoHole(sb: Super, s0: Snap, s: Snap, i: nat, off: nat, src: seq<Byte>, acc: Acc, j: nat)
    requires Writing(sb, s0, s, i, off, src, |src|, acc) && j < sb.ninodes && |src| > 0
    requires off <= s0.fs.inodes[i].size && j < |s0.fs.inodes| && NoHole(s0.fs, j)
    requires AddrSame(sb, s.fs, Grow(sb, s.fs, i, off + |src|))
    ensures NoHole(Grow(sb, s.fs, i, off + |src|), j)
  {
    hide Core, Addr, Written, AccOk, PutWords, IndirectOf;
    var fs' := Grow(sb, s.fs, i, off + |src|);
    forall bn | 0 <= bn < MAXFILE && bn * BSIZE < fs'.inodes[j].size
      ensures Addr(fs', j, DataSlot(bn)) != 0
    {
      assert Addr(fs', j, DataSlot(bn)) == Addr(s.fs, j, DataSlot(bn));
      if j == i && bn >= off / BSIZE {
        InRange(off, |src|, bn);
        assert Touched(off / BSIZE, EndBlock(off, |src|), DataSlot(bn));
        assert Missing(s.fs, i, DataSlot(bn)) == 0;
      } else {
        assert Addr(s0.fs, j, DataSlot(bn)) != 0;
      }
    }
  }

  lemma InRange(off: nat, n: nat, bn: nat)
    requires off / BSIZE <= bn && bn * BSIZE < off + n && n > 0
    ensures bn < EndBlock(off, n)
  {
  }

  lemma WrittenSame(sb: Super, fs: Fs, fs1: Fs, fs2: Fs, i: nat, off: nat, src: seq<Byte>)
    requires Written(sb, fs, fs1, i, off, src) && Shape(sb, fs2) && BytesSame(sb, fs1, fs2)
    ensures Written(sb, fs, fs2, i, off, src)
  {
    hide ByteAt;
  }

  lemma WrittenBeyond(sb: Super, s0: Snap, s: Snap, i: nat, off: nat, src: seq<Byte>, acc: Acc)
    requires Writing(sb, s0, s, i, off, src, |src|, acc) && |src| > 0 && Shape(sb, s0.fs)
    requires forall j :: 0 <= j < sb.ninodes ==> Settled(sb, s0.fs, j)
    requires off <= s0.fs.inodes[i].size
    ensures var fs' := Grow(sb, s.fs, i, off + |src|);
            && Core(sb, fs', s.owner) && NoNewHole(sb, s0.fs, fs')
            && (forall j :: 0 <= j < sb.ninodes ==> Settled(sb, fs', j))
            && Written(sb, s0.fs, fs', i, off, src)
  {
    hide Owns, FreeMap, Grown, Written, Addr, AccOk, NoHole, OnDisk, AllThere;
    var fs' := Grow(sb, s.fs, i, off + |src|);
    assert Settled(sb, s0.fs, i);
    GrowKeeps(sb, s.fs, s.owner, i, off + |src|);
    assert src[..|src|] == src;
    WrittenSame(sb, s0.fs, s.fs, fs', i, off, src);
    forall j | 0 <= j < sb.ninodes
      ensures Settled(sb, fs', j)
    {
      if j != i {
        OthersSettled(sb, s0.fs, s.fs, i, j);
      }
      GrowOnDisk(sb, s.fs, i, off + |src|, j);
    }
    forall j | 0 <= j < sb.ninodes && NoHole(s0.fs, j)
      ensures NoHole(fs', j)
    {
      GrowNoHole(sb, s0, s, i, off, src, acc, j);
    }
  }

  /** What one chunk may log: four data blocks, the indirect block, the inode's block, and bitmap blocks, of which
      there are at most four to change. */
  function ChunkLimit(sb: Super): nat { 6 + Min(4, NBitmaps(sb)) }

  /** A chunk of at most 1536 bytes written to a file without holes logs at most MAXOPBLOCKS blocks, the inode's
      included; fewer where there are fewer than four bitmap blocks. */
  lemma TransactionBound(sb: Super, s0: Snap, s: Snap, i: nat, off: nat, src: seq<Byte>, acc: Acc, logged: set<nat>)
    requires Writing(sb, s0, s, i, off, src, |src|, acc) && s0.logged == {} && |src| <= 1536
    requires i < |s0.fs.inodes| && NoHole(s0.fs, i) && off <= s0.fs.inodes[i].size
    requires logged <= s.logged + {sb.InodeBlock(i)}
    ensures |logged| <= ChunkLimit(sb)
  {
    hide Visited, Written, Addr, Missing, Lacking;
    var a, b := off / BSIZE, EndBlock(off, |src|);
    var ind := IndirectOf(s.fs, i);
    var all := acc.data + acc.bms + ind + {sb.InodeBlock(i)};
    assert s.logged <= acc.data + acc.bms + ind;
    SubsetSize(logged, all);
    assert |ind| <= 1;
    SubsetSize(acc.bms, Range(sb.bmapstart, sb.bmapstart + NBitmaps(sb)));
    assert |all| <= |acc.data| + |acc.bms| + |ind| + 1;
    EndInFile(off, |src|);
    ChunkBlocks(off, |src|);
    LackingBound(s0.fs, i, a, b);
    if off % BSIZE != 0 {
      FirstThere(s0.fs, i, off);
    }
  }

  lemma ChunkBlocks(off: nat, n: nat)
    requires n <= 1536
    ensures EndBlock(off, n) - off / BSIZE <= if off % BSIZE == 0 then 3 else 4
  {
  }

  /** The block that an unaligned offset within the file lies in is there. */
  lemma FirstThere(fs: Fs, i: nat, off: nat)
    requires i < |fs.inodes| && NoHole(fs, i) && off <= fs.inodes[i].size && off % BSIZE != 0
    ensures off / BSIZE < MAXFILE && Missing(fs, i, DataSlot(off / BSIZE)) == 0
  {
    hide Addr;
  }

  // ---------------------------------------------------------------- facts the methods use

  /** After readi has visited the blocks of [off, off + tot): they are all there, no byte of any file has
      changed, and nothing at all if they were there before. */
  ghost predicate Filling(sb: Super, s0: Snap, s: Snap, i: nat, off: nat, tot: nat)
  {
    && Visited(sb, s0, s, i, off / BSIZE, EndBlock(off, tot)) && BytesSame(sb, s0.fs, s.fs)
    && (NoHoleIn(s0.fs, i, off, tot) ==> s == s0)
  }

  lemma FillingStart(sb: Super, s: Snap, i: nat, off: nat)
    requires Core(sb, s.fs, s.owner) && i < sb.ninodes && off <= MAXFILE * BSIZE
    ensures Filling(sb, s, s, i, off, 0)
  {
    hide Owns, FreeMap, Addr, ByteAt, Visited;
    VisitStart(sb, s, i, off / BSIZE);
  }

  lemma FillingCore(sb: Super, s0: Snap, s: Snap, i: nat, off: nat, tot: nat)
    requires Filling(sb, s0, s, i, off, tot)
    ensures Core(sb, s.fs, s.owner)
  {
  }

  lemma FillingShape(sb: Super, s0: Snap, s: Snap, i: nat, off: nat, tot: nat)
    requires Filling(sb, s0, s, i, off, tot)
    ensures Shape(sb, s0.fs)
  {
  }

  lemma SomeHole(sb: Super, s0: Snap, s: Snap, i: nat, off: nat, tot: nat)
    requires Visited(sb, s0, s, i, off / BSIZE, EndBlock(off, tot)) && s == s0
    ensures NoHoleIn(s0.fs, i, off, tot)
  {
  }

  /** What readi leaves: no byte of any file has changed; nothing at all has changed exactly if there was no hole in
      the range; every other inode is on disk as before, and inode i is exactly if it lacked no address of its own. */
  ghost predicate ReadDone(sb: Super, s0: Snap, s: Snap, i: nat, off: nat, n: nat)
  {
    && Filling(sb, s0, s, i, off, n) && i < sb.ninodes && Shape(sb, s.fs)
    && (s == s0 <==> NoHoleIn(s0.fs, i, off, n))
    && (forall j :: 0 <= j < sb.ninodes && j != i ==> Settled(sb, s.fs, j))
    && (Settled(sb, s.fs, i) <==> InodeWhole(s0.fs, i, off / BSIZE, EndBlock(off, n)))
  }

  lemma FillingExact(sb: Super, s0: Snap, s: Snap, i: nat, off: nat, tot: nat)
    requires AllSettled(sb, s0) && Filling(sb, s0, s, i, off, tot) && i < sb.ninodes
    ensures ReadDone(sb, s0, s, i, off, tot)
    ensures !Short(sb, s0, Lacking(s0.fs, i, off / BSIZE, EndBlock(off, tot)))
  {
    hide Visited, OnDisk, NoHoleIn, Owns, FreeMap, InodeWhole, Lacking;
    VisitShape(sb, s0, s, i, off / BSIZE, EndBlock(off, tot));
    VisitEnough(sb, s0, s, i, off / BSIZE, EndBlock(off, tot));
    VisitSettled(sb, s0, s, i, off / BSIZE, EndBlock(off, tot));
    if s == s0 {
      SomeHole(sb, s0, s, i, off, tot);
    }
  }

  lemma VisitSettled(sb: Super, s0: Snap, s: Snap, i: nat, a: nat, b: nat)
    requires AllSettled(sb, s0) && Visited(sb, s0, s, i, a, b) && i < sb.ninodes
    ensures forall j :: 0 <= j < sb.ninodes && j != i ==> Settled(sb, s.fs, j)
    ensures Settled(sb, s.fs, i) <==> InodeWhole(s0.fs, i, a, b)
    ensures s.fs.inodes[i].size == s0.fs.inodes[i].size
  {
    hide OnDisk, Owns, FreeMap, InodeWhole, Lacking, Addr, AllThere;
    InodeChanged(sb, s0, s, i, a, b);
    assert Settled(sb, s0.fs, i);
    SameOnDisk(sb, s0.fs, s.fs, i);
    forall j | 0 <= j < sb.ninodes && j != i
      ensures Settled(sb, s.fs, j)
    {
      OthersSettled(sb, s0.fs, s.fs, i, j);
    }
  }

  /** One pass of readi's loop. */
  lemma FillingStep(sb: Super, s0: Snap, s: Snap, s': Snap, i: nat, off: nat, n: nat, tot: nat, m: nat, a: Word,
                    bm: set<nat>)
    requires Filling(sb, s0, s, i, off, tot) && i < sb.ninodes && off + n <= MAXFILE * BSIZE && tot < n
    requires PassAt(off, n, tot) && m == Min(n - tot, BSIZE - (off + tot) % BSIZE)
    requires var bn := (off + tot) / BSIZE;
             SlotDone(sb, s, s', i, DataSlot(bn), Some(a), Via(s'.fs, i, bn), bm, Needed(s.fs, i, bn))
    ensures Filling(sb, s0, s', i, off, tot + m) && a < |s'.fs.disk|
    ensures FileBytes(s0.fs, i, off, tot) + s'.fs.disk[a][(off + tot) % BSIZE..(off + tot) % BSIZE + m]
            == FileBytes(s0.fs, i, off, tot + m)
  {
    hide SlotDone, Filling, FileBytes, Via, Needed, Addr, Missing;
    var bn := (off + tot) / BSIZE;
    PassNext(off, n, tot, m);
    SlotThere(sb, s, s', i, DataSlot(bn), a, Via(s'.fs, i, bn), bm, Needed(s.fs, i, bn));
    FillingShape(sb, s0, s, i, off, tot);
    FillingNext(sb, s0, s, s', i, off, tot, tot + m, bn, a, bm);
    FillingBytes(sb, s0, s', i, off, tot, m, bn);
  }

  lemma FillingNext(sb: Super, s0: Snap, s: Snap, s': Snap, i: nat, off: nat, tot: nat, tot': nat, bn: nat, a: Word,
                    bm: set<nat>)
    requires Filling(sb, s0, s, i, off, tot) && i < sb.ninodes && bn < MAXFILE
    requires bn == EndBlock(off, tot) && EndBlock(off, tot') == bn + 1
    requires SlotDone(sb, s, s', i, DataSlot(bn), Some(a), Via(s'.fs, i, bn), bm, Needed(s.fs, i, bn))
    ensures Filling(sb, s0, s', i, off, tot')
  {
    hide Owns, FreeMap, Addr, ByteAt, Grown, BytesSame, AllThere, Visited, Got, OthersSame, Missing, EndBlock;
    VisitShape(sb, s0, s, i, off / BSIZE, bn);
    SlotGot(sb, s, s', i, bn, a, Via(s'.fs, i, bn), bm);
    VisitStep(sb, s0, s, s', i, off / BSIZE, bn);
    SameTrans(sb, s0.fs, s.fs, s'.fs);
    HoleLess(s0.fs, i, off / BSIZE, bn);
  }

  lemma FillingBytes(sb: Super, s0: Snap, s': Snap, i: nat, off: nat, tot: nat, m: nat, bn: nat)
    requires Filling(sb, s0, s', i, off, tot + m) && i < sb.ninodes && off + tot + m <= MAXFILE * BSIZE && m > 0
    requires bn == (off + tot) / BSIZE && (off + tot) % BSIZE + m <= BSIZE && bn < MAXFILE
    requires i < |s'.fs.inodes| && i < |s0.fs.inodes| && Missing(s'.fs, i, DataSlot(bn)) == 0
    ensures var a, o := Addr(s'.fs, i, DataSlot(bn)), (off + tot) % BSIZE;
            && a < |s'.fs.disk|
            && FileBytes(s0.fs, i, off, tot) + s'.fs.disk[a][o..o + m] == FileBytes(s0.fs, i, off, tot + m)
  {
    hide Owns, FreeMap, Addr, ByteAt, FileBytes, BytesSame, Visited, EndBlock, Missing, NoHoleIn;
    FillingCore(sb, s0, s', i, off, tot + m);
    VisitShape(sb, s0, s', i, off / BSIZE, EndBlock(off, tot + m));
    ReadPart(sb, s'.fs, s'.owner, i, off, tot, m);
    SameFileBytes(sb, s0.fs, s'.fs, i, off, tot);
    SameFileBytes(sb, s0.fs, s'.fs, i, off, tot + m);
  }

  lemma SlotThere(sb: Super, s: Snap, s': Snap, i: nat, k: nat, a: Word, via: set<nat>, bm: set<nat>, missing: nat)
    requires SlotDone(sb, s, s', i, k, Some(a), via, bm, missing)
    ensures Shape(sb, s.fs) && Shape(sb, s'.fs) && i < sb.ninodes && k < SLOTS && a == Addr(s'.fs, i, k)
    ensures Missing(s'.fs, i, k) == 0
  {
    hide Owns, FreeMap, Addr, BytesSame, OthersSame;
  }

  lemma VisitShape(sb: Super, s0: Snap, s: Snap, i: nat, a: nat, b: nat)
    requires Visited(sb, s0, s, i, a, b)
    ensures Shape(sb, s0.fs) && Shape(sb, s.fs) && i < sb.ninodes && a <= b
  {
  }

  /** The blocks of a longer range include those of a shorter one. */
  lemma HoleLess(fs: Fs, i: nat, a: nat, b: nat)
    requires a <= b < MAXFILE
    ensures AllThere(fs, i, a, b + 1) ==> AllThere(fs, i, a, b) && Missing(fs, i, DataSlot(b)) == 0
  {
    hide Missing;
    assert Touched(a, b + 1, DataSlot(b)) && forall l :: Touched(a, b, l) ==> Touched(a, b + 1, l);
  }

  lemma SameFileBytes(sb: Super, fs: Fs, fs': Fs, i: nat, off: nat, n: nat)
    requires Shape(sb, fs) && Shape(sb, fs') && BytesSame(sb, fs, fs') && i < sb.ninodes && off + n <= MAXFILE * BSIZE
    ensures FileBytes(fs', i, off, n) == FileBytes(fs, i, off, n)
  {
    hide ByteAt;
  }

  /** readi runs out of blocks only if fewer are free than the range lacks. */
  lemma FillingNone(sb: Super, s0: Snap, s: Snap, s': Snap, i: nat, off: nat, n: nat, tot: nat, m: nat, bm: set<nat>)
    requires Filling(sb, s0, s, i, off, tot) && i < sb.ninodes && tot < n && off + n <= MAXFILE * BSIZE
    requires PassAt(off, n, tot) && m == Min(n - tot, BSIZE - (off + tot) % BSIZE)
    requires var bn := (off + tot) / BSIZE;
             SlotDone(sb, s, s', i, DataSlot(bn), None, Via(s'.fs, i, bn), bm, Needed(s.fs, i, bn))
    ensures EndBlock(off, n) <= MAXFILE
    ensures Full(sb, s'.fs.disk) && Short(sb, s0, Lacking(s0.fs, i, off / BSIZE, EndBlock(off, n)))
  {
    hide Visited, BytesSame, Addr, Missing, Lacking, Needed;
    PassNext(off, n, tot, m);
    EndInFile(off, n);
    VisitNone(sb, s0, s, i, off / BSIZE, (off + tot) / BSIZE, EndBlock(off, n));
  }

  lemma SlotInRange(sb: Super, s: Snap, s': Snap, i: nat, bn: nat, a: Word, bm: set<nat>)
    requires bn < MAXFILE && i < sb.ninodes
    requires SlotDone(sb, s, s', i, DataSlot(bn), Some(a), Via(s'.fs, i, bn), bm, Needed(s.fs, i, bn))
    ensures sb.inodestart <= a < |s'.fs.disk|
  {
    hide FreeMap, Addr;
  }

  lemma ContentSlice(fs: Fs, i: nat, off: nat, n: nat)
    requires i < |fs.inodes| && off + n <= fs.inodes[i].size <= MAXFILE * BSIZE
    ensures FileBytes(fs, i, off, n) == Content(fs, i)[off..off + n]
  {
    hide ByteAt;
  }

  /** What writing src at off changes, of inodes and bytes. */
  ghost predicate WriteEffect(sb: Super, s0: Snap, s: Snap, i: nat, off: nat, src: seq<Byte>)
  {
    && Shape(sb, s.fs) && Shape(sb, s0.fs) && i < sb.ninodes
    && Written(sb, s0.fs, s.fs, i, off, src) && NoNewHole(sb, s0.fs, s.fs)
    && (forall j :: 0 <= j < sb.ninodes && j != i ==> s.fs.inodes[j] == s0.fs.inodes[j])
    && s.fs.inodes[i].size == Max(s0.fs.inodes[i].size, if |src| == 0 then 0 else off + |src|)
    && s.fs.inodes[i].kind == s0.fs.inodes[i].kind && s.fs.inodes[i].links == s0.fs.inodes[i].links
  }

  /** What a successful writei leaves. */
  ghost predicate WriteDone(sb: Super, s0: Snap, s: Snap, i: nat, off: nat, src: seq<Byte>)
  {
    AllSettled(sb, s) && WriteEffect(sb, s0, s, i, off, src)
  }

  /** The same, but the addresses of inode i itself may not be on disk. */
  ghost predicate WriteDoneBut(sb: Super, s0: Snap, s: Snap, i: nat, off: nat, src: seq<Byte>)
  {
    && WriteEffect(sb, s0, s, i, off, src) && Core(sb, s.fs, s.owner) && s.fs.inodes[i].size <= MAXFILE * BSIZE
    && (forall j :: 0 <= j < sb.ninodes && j != i ==> Settled(sb, s.fs, j))
  }

  /** Does writing n bytes at off make the file longer? */
  predicate Lengthens(size: nat, off: nat, n: nat) { n > 0 && off + n > size }

  lemma WritingStart(sb: Super, s0: Snap, i: nat, off: nat, src: seq<Byte>)
    requires AllSettled(sb, s0) && i < sb.ninodes && off + |src| <= MAXFILE * BSIZE && off <= s0.fs.inodes[i].size
    ensures Writing(sb, s0, s0, i, off, src, 0, Acc({}, {}))
  {
    hide Owns, FreeMap, Addr, ByteAt, OnDisk, Visited;
    VisitStart(sb, s0, i, off / BSIZE);
  }

  lemma WritingCore(sb: Super, s0: Snap, s: Snap, i: nat, off: nat, src: seq<Byte>, tot: nat, acc: Acc)
    requires Writing(sb, s0, s, i, off, src, tot, acc)
    ensures Core(sb, s.fs, s.owner) && s.fs.inodes[i].size == s0.fs.inodes[i].size && PassAt(off, |src|, tot)
  {
    hide Owns, FreeMap, Addr, ByteAt;
  }

  /** writei runs out of blocks only if fewer are free than the range lacks. */
  lemma WritingNone(sb: Super, s0: Snap, s: Snap, i: nat, off: nat, src: seq<Byte>, tot: nat, acc: Acc)
    requires Writing(sb, s0, s, i, off, src, tot, acc) && tot < |src| && (off + tot) / BSIZE < MAXFILE
    requires Short(sb, s, Needed(s.fs, i, (off + tot) / BSIZE))
    ensures EndBlock(off, |src|) <= MAXFILE
    ensures Short(sb, s0, Lacking(s0.fs, i, off / BSIZE, EndBlock(off, |src|)))
  {
    hide Visited, Written, Addr, Missing, Lacking, Needed;
    PassNext(off, |src|, tot, Min(|src| - tot, BSIZE - (off + tot) % BSIZE));
    EndInFile(off, |src|);
    VisitNone(sb, s0, s, i, off / BSIZE, (off + tot) / BSIZE, EndBlock(off, |src|));
  }

  lemma WritingEnough(sb: Super, s0: Snap, s: Snap, i: nat, off: nat, src: seq<Byte>, acc: Acc)
    requires Writing(sb, s0, s, i, off, src, |src|, acc)
    ensures !Short(sb, s0, Lacking(s0.fs, i, off / BSIZE, EndBlock(off, |src|)))
  {
    hide Visited, Written, Addr, Missing, Lacking;
    VisitEnough(sb, s0, s, i, off / BSIZE, EndBlock(off, |src|));
  }

  /** writei allocates exactly the blocks that the range lacked. */
  lemma WritingCount(sb: Super, s0: Snap, s: Snap, s': Snap, i: nat, off: nat, src: seq<Byte>, acc: Acc)
    requires AllSettled(sb, s0) && Writing(sb, s0, s, i, off, src, |src|, acc)
    requires WriteDoneBut(sb, s0, s', i, off, src) && s'.owner == s.owner
    ensures |FreeBlocks(sb, s'.fs.disk)| ==
            |FreeBlocks(sb, s0.fs.disk)| - Lacking(s0.fs, i, off / BSIZE, EndBlock(off, |src|))
  {
    hide Settled, Written, Addr, Missing, Lacking, Owns, FreeMap, AllThere, Grown;
    FreeCount(sb, s0.fs, s0.owner);
    FreeCount(sb, s'.fs, s'.owner);
  }

  /** writei's result when the file grows. */
  lemma BeyondDone(sb: Super, s0: Snap, s: Snap, i: nat, off: nat, src: seq<Byte>, acc: Acc, logged: set<nat>)
    requires AllSettled(sb, s0) && Writing(sb, s0, s, i, off, src, |src|, acc)
    requires Lengthens(s0.fs.inodes[i].size, off, |src|) && off <= s0.fs.inodes[i].size
    ensures var s' := Snap(Grow(sb, s.fs, i, off + |src|), s.owner, logged);
            WriteDone(sb, s0, s', i, off, src) && WriteDoneBut(sb, s0, s', i, off, src)
  {
    hide Owns, FreeMap, Addr, ByteAt, AccOk, PutWords, NoNewHole, OnDisk;
    WrittenBeyond(sb, s0, s, i, off, src, acc);
  }

  /** writei's result when it does not: inode i is on disk exactly if it lacked no address of its own. */
  lemma InsideDone(sb: Super, s0: Snap, s: Snap, i: nat, off: nat, src: seq<Byte>, acc: Acc)
    requires AllSettled(sb, s0) && Writing(sb, s0, s, i, off, src, |src|, acc)
    requires !Lengthens(s0.fs.inodes[i].size, off, |src|) && off <= s0.fs.inodes[i].size
    ensures WriteDoneBut(sb, s0, s, i, off, src)
    ensures WriteDone(sb, s0, s, i, off, src) <==> InodeWhole(s0.fs, i, off / BSIZE, EndBlock(off, |src|))
  {
    hide Owns, FreeMap, Addr, ByteAt, OnDisk, AccOk, NoNewHole, InodeWhole, AllThere, Lacking;
    VisitSettled(sb, s0, s, i, off / BSIZE, EndBlock(off, |src|));
    GrownNoHole(sb, s0.fs, s.fs, i);
    assert src[..|src|] == src;
    assert Settled(sb, s0.fs, i);
  }

  /** writei in terms of contents: the bytes at [off, off + n) are replaced or added, nothing else changes. */
  lemma ContentWritten(sb: Super, s0: Snap, s: Snap, i: nat, off: nat, src: seq<Byte>)
    requires AllSettled(sb, s0) && WriteDone(sb, s0, s, i, off, src) && off <= |Content(s0.fs, i)|
    ensures var c := Content(s0.fs, i);
            Content(s.fs, i) == c[..off] + src + (if off + |src| < |c| then c[off + |src|..] else [])
    ensures forall j :: 0 <= j < sb.ninodes && j != i ==> Content(s.fs, j) == Content(s0.fs, j)
  {
    hide Owns, FreeMap, Addr, ByteAt, OnDisk;
    forall j | 0 <= j < sb.ninodes && j != i
      ensures Content(s.fs, j) == Content(s0.fs, j)
    {
      assert Settled(sb, s0.fs, j);
    }
    assert Settled(sb, s0.fs, i) && Settled(sb, s.fs, i);
  }

  /** Two writes in a row, the second where the first ended, are one write. */
  lemma WriteDoneTrans(sb: Super, s0: Snap, s1: Snap, s2: Snap, i: nat, off: nat, a: seq<Byte>, b: seq<Byte>)
    requires WriteDone(sb, s0, s1, i, off, a) && WriteDone(sb, s1, s2, i, off + |a|, b)
    ensures WriteDone(sb, s0, s2, i, off, a + b)
  {
    hide AllSettled, Addr, Written, NoHole;
    WrittenTrans(sb, s0.fs, s1.fs, s2.fs, i, off, a, b);
  }

  lemma NothingWritten(sb: Super, s: Snap, s': Snap, i: nat, off: nat)
    requires AllSettled(sb, s) && i < sb.ninodes && s'.fs == s.fs && s'.owner == s.owner
    ensures WriteDone(sb, s, s', i, off, [])
  {
    hide Owns, FreeMap, Addr, ByteAt, Settled;
  }

  /** What a write does is no matter of the blocks logged before it. */
  lemma FromLogged(sb: Super, s0: Snap, s: Snap, i: nat, off: nat, src: seq<Byte>)
    requires WriteDone(sb, s0.(logged := {}), s, i, off, src)
    ensures WriteDone(sb, s0, s, i, off, src)
  {
    hide AllSettled, Written, NoNewHole;
  }

  /** Writing to a file without holes leaves its inode on disk. */
  lemma WholeOrLonger(fs: Fs, i: nat, off: nat, n: nat)
    requires i < |fs.inodes| && NoHole(fs, i)
    ensures Lengthens(fs.inodes[i].size, off, n) || InodeWhole(fs, i, off / BSIZE, EndBlock(off, n))
  {
    hide Addr, Missing, EndBlock;
    if n > 0 && off + n <= fs.inodes[i].size {
      InsideThere(fs, i, off, n);
    } else if n == 0 {
      assert EndBlock(off, 0) == off / BSIZE by { NoBytes(off); }
    }
  }

  lemma NoBytes(off: nat)
    ensures EndBlock(off, 0) == off / BSIZE
  {
  }

  lemma WriteDoneSettled(sb: Super, s0: Snap, s: Snap, i: nat, off: nat, src: seq<Byte>)
    requires WriteDone(sb, s0, s, i, off, src)
    ensures AllSettled(sb, s) && NoNewHole(sb, s0.fs, s.fs)
  {
  }

  /** No address and no byte differs. */
  ghost predicate SameFiles(sb: Super, fs: Fs, fs': Fs)
    requires Shape(sb, fs) && Shape(sb, fs')
  {
    AddrSame(sb, fs, fs') && BytesSame(sb, fs, fs')
  }

  /** Files live in their inodes and in the blocks from nmeta up. */
  lemma DataSame(sb: Super, fs: Fs, fs': Fs, owner: map<nat, Slot>)
    requires Shape(sb, fs) && Shape(sb, fs') && Owns(sb, fs, owner) && fs'.inodes == fs.inodes
    requires forall b :: sb.nmeta <= b < sb.size ==> fs'.disk[b] == fs.disk[b]
    ensures SameFiles(sb, fs, fs')
  {
    hide GetWord;
    forall j, l | 0 <= j < sb.ninodes && 0 <= l < SLOTS
      ensures Addr(fs', j, l) == Addr(fs, j, l)
    {
      assert Addr(fs, j, NDIRECT) != 0 ==> Addr(fs, j, NDIRECT) in owner;
    }
    hide Addr;
    forall j, off | 0 <= j < sb.ninodes && 0 <= off < MAXFILE * BSIZE
      ensures ByteAt(fs', j, off) == ByteAt(fs, j, off)
    {
      assert Addr(fs', j, DataSlot(off / BSIZE)) == Addr(fs, j, DataSlot(off / BSIZE));
    }
  }

  lemma SameContent(sb: Super, fs: Fs, fs': Fs, i: nat)
    requires Shape(sb, fs) && Shape(sb, fs') && SameFiles(sb, fs, fs') && fs'.inodes == fs.inodes && i < sb.ninodes
    ensures Content(fs', i) == Content(fs, i) && (NoHole(fs, i) ==> NoHole(fs', i))
  {
    hide Addr, ByteAt;
  }

  /** Block ownership: a bit is set exactly when its block is metadata or held by a slot, and no two
      slots hold the same block. */
  lemma BlockOwnership(sb: Super, s: Snap)
    requires AllSettled(sb, s)
    ensures forall b :: 0 <= b < sb.size ==>
              (Used(sb, s.fs.disk, b) <==>
                 b < sb.nmeta || exists i, k ::
                     0 <= i < sb.ninodes && 0 <= k < SLOTS && Addr(s.fs, i, k) == b && b != 0)
    ensures forall i, k, j, l :: (0 <= i < sb.ninodes && 0 <= k < SLOTS && 0 <= j < sb.ninodes && 0 <= l < SLOTS
                                  && Addr(s.fs, i, k) == Addr(s.fs, j, l) != 0) ==> i == j && k == l
    ensures forall i, k :: 0 <= i < sb.ninodes && 0 <= k < SLOTS && Addr(s.fs, i, k) != 0 ==>
              sb.nmeta <= Addr(s.fs, i, k) < sb.size
  {
    hide Addr, Used, Settled;
    forall b | 0 <= b < sb.size && b in s.owner
      ensures exists i, k :: 0 <= i < sb.ninodes && 0 <= k < SLOTS && Addr(s.fs, i, k) == b && b != 0
    {
      assert Addr(s.fs, s.owner[b].inum, s.owner[b].k) == b;
    }
  }
}
