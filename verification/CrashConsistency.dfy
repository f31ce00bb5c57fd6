/** The file system over the log: what a crash leaves is a consistent file system. */
module CrashConsistency {
  import opened Params
  import opened Blocks
  import opened LogMachine
  import opened LogBudget
  import opened Bitmap
  import opened Inodes
  import opened BlockMap
  import opened FileContent
  import opened Truncate

  /** The disk holds a file system: reading the inodes from it, every block has the owner it should have, the
      free map agrees, and every size is possible. */
  ghost predicate Consistent(sb: Super, disk: seq<Block>)
  {
    exists inodes, owner :: AllSettled(sb, Snap(Fs(disk, inodes), owner, {}))
  }

  /** One operation of the file system, as its method promises it: from a consistent state. */
  ghost predicate FsOp(sb: Super, s: Snap, s': Snap)
  {
    AllSettled(sb, s) ==>
      (exists i, off, src :: WriteDone(sb, s, s', i, off, src)) || (exists i :: Truncated(sb, s, s', i))
  }

  /** Operations one after the other. */
  ghost predicate FsSteps(sb: Super, ss: seq<Snap>)
  {
    |ss| > 0 && forall j :: 0 <= j < |ss| - 1 ==> FsOp(sb, ss[j], ss[j + 1])
  }

  ghost predicate LeadsTo(sb: Super, fs: Fs, owner: map<nat, Slot>, disk: seq<Block>)
  {
    exists ss: seq<Snap> :: FsSteps(sb, ss) && ss[0].fs == fs && ss[0].owner == owner && ss[|ss| - 1].fs.disk == disk
  }

  /** Operations lead from the file system on disk a to disk b. */
  ghost predicate FsReach(sb: Super, a: seq<Block>, b: seq<Block>)
  {
    a == b ||
    forall inodes, owner :: AllSettled(sb, Snap(Fs(a, inodes), owner, {})) ==> LeadsTo(sb, Fs(a, inodes), owner, b)
  }

  lemma ReachConsistent(sb: Super, a: seq<Block>, b: seq<Block>)
    requires Consistent(sb, a) && FsReach(sb, a, b)
    ensures Consistent(sb, b)
  {
    hide AllSettled, WriteDone, Truncated;
    if a != b {
      var inodes, owner :| AllSettled(sb, Snap(Fs(a, inodes), owner, {}));
      var ss: seq<Snap> :| FsSteps(sb, ss) && ss[0].fs == Fs(a, inodes) && ss[0].owner == owner
          && ss[|ss| - 1].fs.disk == b;
      var n := |ss| - 1;
      LoggedApart(sb, Snap(Fs(a, inodes), owner, {}), ss[0]);
      StepsSettled(sb, ss, n);
      LoggedApart(sb, ss[n], ss[n].(logged := {}));
      assert ss[n].(logged := {}) == Snap(Fs(b, ss[n].fs.inodes), ss[n].owner, {});
    }
  }

  lemma {:induction false} StepsSettled(sb: Super, ss: seq<Snap>, n: nat)
    requires FsSteps(sb, ss) && AllSettled(sb, ss[0]) && n < |ss|
    ensures AllSettled(sb, ss[n])
  {
    hide AllSettled, Truncated, WriteEffect;
    if n > 0 {
      StepsSettled(sb, ss, n - 1);
      assert FsOp(sb, ss[n - 1], ss[n - 1 + 1]);
      OpSettled(sb, ss[n - 1], ss[n]);
    }
  }

  lemma OpSettled(sb: Super, s: Snap, s': Snap)
    requires FsOp(sb, s, s') && AllSettled(sb, s)
    ensures AllSettled(sb, s')
  {
    hide Settled, Owns, FreeMap, Written;
  }

  lemma LoggedApart(sb: Super, s: Snap, s': Snap)
    requires AllSettled(sb, s) && s'.fs == s.fs && s'.owner == s.owner
    ensures AllSettled(sb, s')
  {
    hide Settled, Owns, FreeMap;
  }

  // ---------------------------------------------------------------- the log area is not part of the file system

  predicate Below(L: Layout, sb: Super) { L.nblocks == sb.size && L.start + L.size <= sb.inodestart }

  /** Disks that differ in the log area only hold the same file system. */
  lemma SameFileSystem(L: Layout, sb: Super, a: seq<Block>, b: seq<Block>)
    requires Below(L, sb) && SameHome(L, a, b) && Consistent(sb, a)
    ensures Consistent(sb, b)
  {
    hide Settled, Owns, FreeMap;
    var inodes, owner :| AllSettled(sb, Snap(Fs(a, inodes), owner, {}));
    var fs, fs' := Fs(a, inodes), Fs(b, inodes);
    SameCore(L, sb, fs, fs', owner);
    forall i | 0 <= i < sb.ninodes
      ensures Settled(sb, fs', i)
    {
      assert Settled(sb, fs, i);
      SameSettled(L, sb, fs, fs', i);
    }
    assert AllSettled(sb, Snap(fs', owner, {}));
  }

  lemma SameCore(L: Layout, sb: Super, fs: Fs, fs': Fs, owner: map<nat, Slot>)
    requires Below(L, sb) && SameHome(L, fs.disk, fs'.disk) && Core(sb, fs, owner) && fs'.inodes == fs.inodes
    ensures Core(sb, fs', owner)
  {
    hide GetWord;
    forall i, k | 0 <= i < sb.ninodes && 0 <= k < SLOTS
      ensures Addr(fs', i, k) == Addr(fs, i, k)
    {
      var ind := fs.inodes[i].addrs[NDIRECT];
      assert Addr(fs, i, NDIRECT) == ind;
    }
    SameOwns(sb, fs, owner, fs');
    SameFreeMap(sb, fs, owner, fs');
  }

  lemma SameSettled(L: Layout, sb: Super, fs: Fs, fs': Fs, i: nat)
    requires Below(L, sb) && SameHome(L, fs.disk, fs'.disk) && Shape(sb, fs) && Shape(sb, fs')
             && fs'.inodes == fs.inodes
    requires i < sb.ninodes && Settled(sb, fs, i)
    ensures Settled(sb, fs', i)
  {
    hide GetWord, InodeWords;
    assert L.Home(sb.InodeBlock(i));
  }

  // ---------------------------------------------------------------- runs of file system operations

  ghost predicate Quiet(L: Layout, disk: seq<Block>, es: seq<Event>, k: nat)
    requires GoodImage(L, disk) && k <= |es|
  {
    SpecRun(Fresh(L, disk), es, k).open == {}
  }

  /** From a moment at which no operation is in progress to the next such moment. */
  ghost predicate Stretch(L: Layout, disk: seq<Block>, es: seq<Event>, k: nat, l: nat)
    requires GoodImage(L, disk)
  {
    && k < l <= |es| && Quiet(L, disk, es, k) && Quiet(L, disk, es, l)
    && forall m :: k < m < l ==> !Quiet(L, disk, es, m)
  }

  /** An assumption on operations that overlap: what those of each stretch write, together, is what operations of
      the file system do one after the other.  The locks on inodes and buffers are there for this. */
  ghost predicate FileSystemRun(L: Layout, sb: Super, disk: seq<Block>, es: seq<Event>)
    requires GoodImage(L, disk)
  {
    forall k: nat, l: nat :: Stretch(L, disk, es, k, l) && es[k] != Crash ==>
      FsReach(sb, SpecRun(Fresh(L, disk), es, k).current, SpecRun(Fresh(L, disk), es, l).current)
  }

  lemma {:induction false} LastQuiet(L: Layout, disk: seq<Block>, es: seq<Event>, k: nat, l: nat) returns (m: nat)
    requires GoodImage(L, disk) && k < l <= |es| && Quiet(L, disk, es, l)
    requires forall m :: k < m < l ==> !Quiet(L, disk, es, m)
    ensures Stretch(L, disk, es, m, l)
    decreases k
  {
    hide GoodImage, Fresh;
    if Quiet(L, disk, es, k) {
      m := k;
    } else {
      assert k > 0 by { FirstQuiet(L, disk, es); }
      m := LastQuiet(L, disk, es, k - 1, l);
    }
  }

  lemma FirstQuiet(L: Layout, disk: seq<Block>, es: seq<Event>)
    requires GoodImage(L, disk)
    ensures Quiet(L, disk, es, 0)
  {
  }

  lemma {:induction false} RunBefore(L: Layout, s: State, es: seq<Event>, j: nat, k: nat)
    requires L.start < |s.disk| && j <= k <= |es| && Run(L, s, es, k).Next?
    ensures Run(L, s, es, j).Next?
    decreases k
  {
    hide Step;
    if j < k {
      RunBefore(L, s, es, j, k - 1);
    }
  }

  /** Whenever no operation is in progress, the current contents are a consistent file system. */
  lemma {:induction false} QuietConsistent(L: Layout, sb: Super, disk: seq<Block>, es: seq<Event>, k: nat)
    requires GoodImage(L, disk) && k <= |es| && Run(L, Boot(L, disk), es, k).Next?
    requires FileSystemRun(L, sb, disk, es) && Consistent(sb, Recover(L, disk)) && Quiet(L, disk, es, k)
    ensures Consistent(sb, SpecRun(Fresh(L, disk), es, k).current)
    decreases k
  {
    hide Step, Consistent, FsReach, Boot, Recover;
    if k > 0 {
      if es[k - 1] == Crash {
        RunBefore(L, Boot(L, disk), es, k - 1, k);
        var cut := DurableIsQuiescent(L, disk, es, k - 1);
        RunBefore(L, Boot(L, disk), es, cut, k - 1);
        QuietConsistent(L, sb, disk, es, cut);
      } else {
        var m := LastQuiet(L, disk, es, k - 1, k);
        NotCrash(L, disk, es, m, k);
        RunBefore(L, Boot(L, disk), es, m, k);
        QuietConsistent(L, sb, disk, es, m);
        ReachConsistent(sb, SpecRun(Fresh(L, disk), es, m).current, SpecRun(Fresh(L, disk), es, k).current);
      }
    }
  }

  lemma NotCrash(L: Layout, disk: seq<Block>, es: seq<Event>, m: nat, k: nat)
    requires GoodImage(L, disk) && Stretch(L, disk, es, m, k) && es[k - 1] != Crash
    ensures es[m] != Crash
  {
    hide Fresh, GoodImage;
    assert es[m] == Crash ==> Quiet(L, disk, es, m + 1);
  }

  /** Crash consistency with operations in progress together: if their locks make each stretch of them as good as one
      after the other, then a crash after any number of steps of any run, also inside commits and recoveries, leaves
      a consistent file system. */
  lemma RecoveredIsConsistent(L: Layout, sb: Super, disk: seq<Block>, es: seq<Event>, k: nat)
    requires GoodImage(L, disk) && Below(L, sb) && k <= |es| && Run(L, Boot(L, disk), es, k).Next?
    requires FileSystemRun(L, sb, disk, es) && Consistent(sb, Recover(L, disk))
    ensures Consistent(sb, Recover(L, Run(L, Boot(L, disk), es, k).s.disk))
  {
    hide Step, Consistent, Boot, Recover, FileSystemRun;
    var cut := DurableIsQuiescent(L, disk, es, k);
    RunBefore(L, Boot(L, disk), es, cut, k);
    QuietConsistent(L, sb, disk, es, cut);
    RunInv(L, disk, es, k);
    var s := Run(L, Boot(L, disk), es, k).s;
    CrashLeavesDurable(L, s, SpecRun(Fresh(L, disk), es, k));
    SameFileSystem(L, sb, SpecRun(Fresh(L, disk), es, k).durable, Recover(L, s.disk));
  }

  /** On the log area that mkfs makes, operations that log up to the limit for a chunk of filewrite never fill the
      log if and only if there are at most three bitmap blocks; mkfs's file system has one. */
  lemma ChunksFitLog(L: Layout, sb: Super, disk: seq<Block>)
    requires Roomy(L, disk) && L.size == LOGSIZE
    ensures PanicFree(L, disk, ByBlocks(ChunkLimit(sb))) <==> sb.size <= 3 * BPB
  {
    hide PanicFree, Roomy;
    MkfsLog(L, disk, ChunkLimit(sb));
  }
}
