/** From mkfs to the running system: an image that mkfs made boots, with its files. */
module Boot {
  import opened Blocks
  import opened LogMachine
  import opened Bitmap
  import opened Inodes
  import opened BlockMap
  import opened FileContent
  import opened CrashConsistency
  import opened Log
  import opened Journal
  import opened Mkfs
  import opened MkfsImage
  import opened Wrappers
  import opened BlockRange

  /** A zeroed log area is an empty log. */
  lemma ZeroLog(L: Layout, sb: Super, disk: seq<Block>)
    requires L.Valid() && Below(L, sb) && |disk| == sb.size && disk[L.start] == ZeroBlock()
    ensures GoodImage(L, disk) && SameHome(L, disk, Recover(L, disk))
  {
    hide SetWord, ZeroBlock;
    ZeroWord(0);
    assert HeaderOf(disk[L.start]) == [];
  }

  /** mkfs, then boot: the kernel finds the file system that mkfs made. */
  method MakeAndBoot(L: Layout, sb: Super, files: seq<Input>) returns (r: Result, j: Journal?)
    requires L.Valid() && Below(L, sb) && sb.Valid() && |files| + 2 <= sb.ninodes <= 4000
    ensures r.Done? <==> j != null
    ensures r.Done? ==>
              && j.Valid() && fresh({j, j.log, j.log.block, j.fs}) && j.sb == sb && |j.fs.inodes| == sb.ninodes
              && (forall g :: 0 <= g < |files| ==> HasFile(j.fs.View(), g + 2, files[g].data))
              && RootMade(j.fs.View(), 1, 16 * (|files| + 2))
  {
    hide Recover, Built, AllSettled, Consistent, GoodImage, HasFile, RootMade;
    j := null;
    var disk;
    ghost var s;
    r, disk, s := Build(sb, files);
    if r.Done? {
      ZeroLog(L, sb, disk);
      SettledConsistent(sb, s);
      SameFileSystem(L, sb, disk, Recover(L, disk));
      j := new Journal(L, sb, disk);
      BootedFiles(L, sb, s, j.fs.View(), files);
    }
  }

  /** The files are those of the image: the boot changed the log area only. */
  lemma BootedFiles(L: Layout, sb: Super, s: Snap, fs: Fs, files: seq<Input>)
    requires Below(L, sb) && AllSettled(sb, s) && SameHome(L, s.fs.disk, fs.disk) && Built(s.fs, files)
    requires |fs.disk| == sb.size && sb.Valid() && fs.inodes == InodesOn(sb, fs.disk)
    ensures forall g :: 0 <= g < |files| ==> HasFile(fs, g + 2, files[g].data)
    ensures RootMade(fs, 1, 16 * (|files| + 2))
  {
    hide OnDisk, FreeMap, Owns, Addr, ByteAt, Content, NoHole;
    ReadAgain(L, sb, s, fs);
    forall g | 0 <= g < |files|
      ensures HasFile(fs, g + 2, files[g].data)
    {
      assert HasFile(s.fs, g + 2, files[g].data);
      SameContent(sb, s.fs, fs, g + 2);
    }
  }

  /** mkfs, boot, and read the 16 bytes behind the last entry of the root directory, as ls does: the kernel panics
      exactly if the entries fill whole blocks. */
  method ReadBehindEntries(L: Layout, sb: Super, files: seq<Input>) returns (r: Result, got: Option<int>)
    requires L.Valid() && Below(L, sb) && sb.Valid() && |files| + 2 <= sb.ninodes <= 4000
    ensures r.Done? ==> (got.None? <==> 16 * (|files| + 2) % BSIZE == 0)
  {
    hide HasFile, RootMade, ReadsHole, AllSettled, AtRest, Safe, GoodImage, Content, Reaches;
    got := None;
    var j;
    r, j := MakeAndBoot(L, sb, files);
    if r.Done? {
      BehindEntries(j.fs.View(), 16 * (|files| + 2));
      var dst;
      got, dst := j.Read(1, 16 * (|files| + 2), 16);
    }
  }

  lemma BehindEntries(fs: Fs, n: Word)
    requires RootMade(fs, 1, n) && n % 16 == 0 && n + 16 < 0x1_0000_0000
    ensures ReadsHole(fs, 1, n, 16) <==> n % BSIZE == 0
  {
    hide Addr;
    var bn := n / BSIZE;
    LastPiece(n);
    var e := bn + 1;
    assert forall l :: 0 <= l < SLOTS && Touched(bn, e, l) ==> l == DataSlot(bn) || l == NDIRECT;
    assert Touched(bn, bn + 1, DataSlot(bn));
    if n % BSIZE != 0 && bn >= NDIRECT {
      NoIndirect(fs, 1, DataSlot(bn));
    }
  }

  lemma LastPiece(n: nat)
    requires n % 16 == 0 && (n / BSIZE + 1) * BSIZE <= MAXFILE * BSIZE
    ensures n + 16 <= (n / BSIZE + 1) * BSIZE && EndBlock(n, 16) == n / BSIZE + 1 && n / BSIZE < MAXFILE
    ensures n / BSIZE * BSIZE < n <==> n % BSIZE != 0
  {
  }
}
