/** The file system over the log, one operation at a time: begin_op, the operation's log_writes, end_op.  A crash
    may come between any two steps of the log, also inside commits and inside recovery. */
module Journal {
  import opened Arith
  import opened Params
  import opened Counting
  import opened Wrappers
  import opened Blocks
  import opened LogMachine
  import opened Log
  import opened LogWrites
  import opened Bitmap
  import opened Inodes
  import opened BlockMap
  import opened BlockRange
  import opened FileContent
  import opened Truncate
  import opened FileSystem
  import opened CrashConsistency

  // ---------------------------------------------------------------- stretches of steps

  function WriteEvents(op: OpId, ws: seq<Logged>): (es: seq<Event>)
    ensures |es| == |ws| && forall k :: 0 <= k < |ws| ==> es[k] == Write(op, ws[k].block, ws[k].data)
  {
    if ws == [] then [] else
    WriteEvents(op, ws[..|ws| - 1]) + [Write(op, ws[|ws| - 1].block, ws[|ws| - 1].data)]
  }

  /** Steps after which what is durable, or what is current, is as before. */
  predicate KeepsDurable(e: Event) { e.Begin? || e.Write? }
  predicate KeepsCurrent(e: Event) { !e.Write? && !e.Crash? && !e.Begin? }

  lemma {:induction false} SpecPrefix(sp: Spec, es: seq<Event>, more: seq<Event>, k: nat)
    requires k <= |es|
    ensures SpecRun(sp, es + more, k) == SpecRun(sp, es, k)
  {
    if k > 0 {
      SpecPrefix(sp, es, more, k - 1);
    }
  }

  lemma {:induction false} DurableKept(sp: Spec, es: seq<Event>, a: nat, k: nat)
    requires a <= k <= |es| && forall m :: a <= m < k ==> KeepsDurable(es[m])
    ensures SpecRun(sp, es, k).durable == SpecRun(sp, es, a).durable
    decreases k
  {
    if a < k {
      DurableKept(sp, es, a, k - 1);
    }
  }

  lemma {:induction false} CurrentKept(sp: Spec, es: seq<Event>, a: nat, k: nat)
    requires a <= k <= |es| && forall m :: a <= m < k ==> KeepsCurrent(es[m])
    ensures var was, now := SpecRun(sp, es, a), SpecRun(sp, es, k);
            && now.current == was.current && (now.durable == was.durable || now.durable == was.current)
            && ((exists m :: a <= m < k && es[m] == WriteHead) ==> now.durable == was.current)
    decreases k
  {
    if a < k {
      CurrentKept(sp, es, a, k - 1);
    }
  }

  /** The log_writes of an operation, handed to the log, give what the log's clients read the operation's blocks. */
  lemma {:induction false} CurrentWritten(sp: Spec, es: seq<Event>, op: OpId, ws: seq<Logged>)
    ensures SpecRun(sp, es + WriteEvents(op, ws), |es| + |ws|).current == Apply(SpecRun(sp, es, |es|).current, ws)
    decreases |ws|
  {
    if ws == [] {
      assert es + WriteEvents(op, ws) == es;
    } else {
      var ws' := ws[..|ws| - 1];
      var e := WriteEvents(op, ws)[|ws| - 1];
      CurrentWritten(sp, es, op, ws');
      assert es + WriteEvents(op, ws) == (es + WriteEvents(op, ws')) + [e];
      SpecPrefix(sp, es + WriteEvents(op, ws'), [e], |es| + |ws'|);
    }
  }

  // ---------------------------------------------------------------- what a crash leaves

  /** A crash after k steps of the run es, and recovery, leave the blocks of d. */
  ghost predicate Leaves(L: Layout, image: seq<Block>, es: seq<Event>, k: nat, d: seq<Block>)
    requires GoodImage(L, image)
  {
    && k <= |es| && Run(L, Boot(L, image), es, k).Next?
    && SameHome(L, Recover(L, Run(L, Boot(L, image), es, k).s.disk), d)
  }

  lemma LeavesMore(L: Layout, image: seq<Block>, es: seq<Event>, es': seq<Event>, k: nat, d: seq<Block>)
    requires GoodImage(L, image) && Leaves(L, image, es, k, d) && es <= es'
    ensures Leaves(L, image, es', k, d)
  {
    hide Step, Boot, Recover, SameHome;
    assert es' == es + es'[|es|..];
    RunMore(L, Boot(L, image), es, es'[|es|..], k);
  }

  lemma {:induction false} RunMore(L: Layout, s: State, es: seq<Event>, more: seq<Event>, k: nat)
    requires L.start < |s.disk| && k <= |es|
    ensures Run(L, s, es + more, k) == Run(L, s, es, k)
  {
    hide Step;
    if k > 0 {
      RunMore(L, s, es, more, k - 1);
    }
  }

  lemma LeavesDurable(L: Layout, image: seq<Block>, es: seq<Event>, s: State, k: nat)
    requires Reaches(L, image, es, s) && k <= |es|
    ensures Leaves(L, image, es, k, SpecRun(Fresh(L, image), es, k).durable)
    ensures GoodImage(L, Run(L, Boot(L, image), es, k).s.disk)
  {
    hide Step, Inv, Fresh, Boot, Recover;
    RunBefore(L, Boot(L, image), es, k, |es|);
    RunInv(L, image, es, k);
    CrashLeavesDurable(L, Run(L, Boot(L, image), es, k).s, SpecRun(Fresh(L, image), es, k));
    CrashedGood(L, Run(L, Boot(L, image), es, k).s, SpecRun(Fresh(L, image), es, k));
  }

  /** What a crash leaves can be booted. */
  lemma CrashedGood(L: Layout, s: State, sp: Spec)
    requires Inv(L, s, sp)
    ensures GoodImage(L, s.disk)
  {
    hide HeaderOf, HeaderFits, Pending, Installed, Copied;
  }

  /** Between operations: what is read is durable, and is the file system on disk. */
  ghost predicate AtRest(L: Layout, image: seq<Block>, es: seq<Event>, disk: seq<Block>)
    requires GoodImage(L, image)
  {
    var sp := SpecRun(Fresh(L, image), es, |es|);
    sp.current == disk && sp.durable == disk
  }

  /** At every moment so far, a crash would have left a consistent file system. */
  ghost predicate Safe(L: Layout, sb: Super, image: seq<Block>, es: seq<Event>)
    requires GoodImage(L, image)
  {
    forall k :: 0 <= k <= |es| ==> Consistent(sb, SpecRun(Fresh(L, image), es, k).durable)
  }

  /** What is durable at each moment of a stretch is d or d'. */
  ghost predicate OneOf(L: Layout, image: seq<Block>, es: seq<Event>, a: nat, d: seq<Block>, d': seq<Block>)
    requires GoodImage(L, image)
  {
    forall k :: a <= k <= |es| ==>
      SpecRun(Fresh(L, image), es, k).durable == d || SpecRun(Fresh(L, image), es, k).durable == d'
  }

  lemma SafeMore(L: Layout, sb: Super, image: seq<Block>, es: seq<Event>, es': seq<Event>, d: seq<Block>,
                 d': seq<Block>)
    requires GoodImage(L, image) && Safe(L, sb, image, es) && es <= es' && OneOf(L, image, es', |es|, d, d')
    requires Consistent(sb, d) && Consistent(sb, d')
    ensures Safe(L, sb, image, es')
  {
    hide Fresh, GoodImage, Consistent, SpecStep;
    forall k | 0 <= k <= |es'|
      ensures Consistent(sb, SpecRun(Fresh(L, image), es', k).durable)
    {
      if k <= |es| {
        assert es' == es + es'[|es|..];
        SpecPrefix(Fresh(L, image), es, es'[|es|..], k);
      }
    }
  }

  /** Whatever instant of the stretch from a on the machine stops at, recovery leaves the blocks of d or of d'. */
  ghost predicate CrashLeaves(L: Layout, image: seq<Block>, es: seq<Event>, a: nat, d: seq<Block>, d': seq<Block>)
    requires GoodImage(L, image)
  {
    forall k :: a <= k <= |es| ==> Leaves(L, image, es, k, d) || Leaves(L, image, es, k, d')
  }

  lemma OneOfLeaves(L: Layout, image: seq<Block>, es: seq<Event>, s: State, a: nat, d: seq<Block>, d': seq<Block>)
    requires Reaches(L, image, es, s) && OneOf(L, image, es, a, d, d')
    ensures CrashLeaves(L, image, es, a, d, d')
  {
    hide Leaves, SpecRun, Fresh, Run, Boot;
    forall k | a <= k <= |es|
      ensures Leaves(L, image, es, k, d) || Leaves(L, image, es, k, d')
    {
      LeavesDurable(L, image, es, s, k);
    }
  }

  // ---------------------------------------------------------------- reading the inodes

  /** The inodes that make a disk consistent are those read from it. */
  lemma ConsistentInodes(sb: Super, disk: seq<Block>) returns (owner: map<nat, Slot>)
    requires Consistent(sb, disk)
    ensures sb.Valid() && |disk| == sb.size && AllSettled(sb, Snap(Fs(disk, InodesOn(sb, disk)), owner, {}))
  {
    hide OnDisk, Owns, FreeMap, InodeAt;
    var inodes, own :| AllSettled(sb, Snap(Fs(disk, inodes), own, {}));
    forall i | 0 <= i < sb.ninodes
      ensures inodes[i] == InodeAt(sb, disk, i)
    {
      assert Settled(sb, Fs(disk, inodes), i);
      ReadsBack(sb, Fs(disk, inodes), i);
    }
    assert inodes == InodesOn(sb, disk);
    owner := own;
  }

  lemma SameInodeAt(sb: Super, d: seq<Block>, d': seq<Block>, i: nat)
    requires sb.Valid() && |d| == |d'| == sb.size && i < sb.ninodes
    requires d'[sb.InodeBlock(i)] == d[sb.InodeBlock(i)]
    ensures InodeAt(sb, d', i) == InodeAt(sb, d, i)
  {
  }

  /** A file system read from a disk that differs from its own in the log area only is the same. */
  lemma ReadAgain(L: Layout, sb: Super, s: Snap, fs: Fs)
    requires Below(L, sb) && AllSettled(sb, s) && SameHome(L, s.fs.disk, fs.disk)
    requires sb.Valid() && |fs.disk| == sb.size && fs.inodes == InodesOn(sb, fs.disk)
    ensures Shape(sb, s.fs) && Shape(sb, fs) && fs.inodes == s.fs.inodes && SameFiles(sb, s.fs, fs)
  {
    hide OnDisk, FreeMap, InodeAt, Addr, SameFiles;
    forall i | 0 <= i < sb.ninodes
      ensures fs.inodes[i] == s.fs.inodes[i]
    {
      assert Settled(sb, s.fs, i);
      ReadsBack(sb, s.fs, i);
      SameInodeAt(sb, s.fs.disk, fs.disk, i);
    }
    assert fs.inodes == s.fs.inodes;
    DataSame(sb, s.fs, fs, s.owner);
  }

  lemma SettledConsistent(sb: Super, s: Snap)
    requires AllSettled(sb, s)
    ensures Consistent(sb, s.fs.disk)
  {
    hide Settled, Owns, FreeMap;
    assert AllSettled(sb, Snap(Fs(s.fs.disk, s.fs.inodes), s.owner, {}));
  }

  // ---------------------------------------------------------------- the blocks recorded in the header

  function Elems(lh: seq<nat>): set<nat> { set b | b in lh }

  lemma {:induction false} DistinctSize(L: Layout, lh: seq<nat>)
    requires forall i, j :: 0 <= i < j < |lh| ==> lh[i] != lh[j]
    ensures |Elems(lh)| == |lh|
  {
    if lh != [] {
      var lh' := lh[..|lh| - 1];
      DistinctSize(L, lh');
      assert Elems(lh) == Elems(lh') + {lh[|lh| - 1]};
    }
  }

  /** What the steps of one operation make of what is current and durable. */
  lemma Committed(L: Layout, image: seq<Block>, es: seq<Event>, ws: seq<Logged>, n: nat, d: seq<Block>)
    requires GoodImage(L, image) && AtRest(L, image, es, d) && (n == 0 ==> ws == [])
    ensures var es' := es + [Begin(0)] + WriteEvents(0, ws) + [End(0)] + (CommitSteps(n) + [Finish]);
            AtRest(L, image, es', Apply(d, ws)) && OneOf(L, image, es', |es|, d, Apply(d, ws)) && es <= es'
  {
    hide Fresh, GoodImage, SpecStep, CommitSteps, WriteEvents;
    Ended(Fresh(L, image), es, ws, n, d);
  }

  /** An operation that does not end leaves what was durable. */
  lemma Abandoned(L: Layout, image: seq<Block>, es: seq<Event>, ws: seq<Logged>, d: seq<Block>)
    requires GoodImage(L, image) && AtRest(L, image, es, d)
    ensures var es' := es + [Begin(0)] + WriteEvents(0, ws); OneOf(L, image, es', |es|, d, d) && es <= es'
  {
    hide Fresh, GoodImage, SpecStep, CommitSteps, WriteEvents;
    Began(Fresh(L, image), es, ws, d);
  }

  lemma Began(sp: Spec, es: seq<Event>, ws: seq<Logged>, d: seq<Block>)
    requires SpecRun(sp, es, |es|).current == d && SpecRun(sp, es, |es|).durable == d
    ensures var es' := es + [Begin(0)] + WriteEvents(0, ws);
            && (forall k :: |es| <= k <= |es'| ==> SpecRun(sp, es', k).durable == d)
            && SpecRun(sp, es', |es'|).current == Apply(d, ws)
  {
    var es1 := es + [Begin(0)];
    var es' := es1 + WriteEvents(0, ws);
    SpecPrefix(sp, es, [Begin(0)], |es|);
    SpecPrefix(sp, es1, WriteEvents(0, ws), |es|);
    CurrentWritten(sp, es1, 0, ws);
    hide SpecStep, WriteEvents;
    forall k | |es| <= k <= |es'|
      ensures SpecRun(sp, es', k).durable == d
    {
      assert forall m :: |es| <= m < k ==> KeepsDurable(es'[m]);
      DurableKept(sp, es', |es|, k);
    }
  }

  lemma Ended(sp: Spec, es: seq<Event>, ws: seq<Logged>, n: nat, d: seq<Block>)
    requires SpecRun(sp, es, |es|).current == d && SpecRun(sp, es, |es|).durable == d && (n == 0 ==> ws == [])
    ensures var es' := es + [Begin(0)] + WriteEvents(0, ws) + [End(0)] + (CommitSteps(n) + [Finish]);
            && SpecRun(sp, es', |es'|).current == Apply(d, ws) && SpecRun(sp, es', |es'|).durable == Apply(d, ws)
            && forall k :: |es| <= k <= |es'| ==>
                 SpecRun(sp, es', k).durable == d || SpecRun(sp, es', k).durable == Apply(d, ws)
  {
    hide SpecStep, WriteEvents, CommitSteps;
    var es1 := es + [Begin(0)] + WriteEvents(0, ws);
    var tail := [End(0)] + (CommitSteps(n) + [Finish]);
    var es' := es1 + tail;
    assert es' == es + [Begin(0)] + WriteEvents(0, ws) + [End(0)] + (CommitSteps(n) + [Finish]);
    Began(sp, es, ws, d);
    TailKeeps(n);
    forall k | 0 <= k <= |es1|
      ensures SpecRun(sp, es', k) == SpecRun(sp, es1, k)
    {
      SpecPrefix(sp, es1, tail, k);
    }
    forall k | |es1| <= k <= |es'|
      ensures SpecRun(sp, es', k).current == Apply(d, ws)
      ensures SpecRun(sp, es', k).durable == d || SpecRun(sp, es', k).durable == Apply(d, ws)
    {
      assert forall m :: |es1| <= m < k ==> es'[m] == tail[m - |es1|];
      CurrentKept(sp, es', |es1|, k);
    }
    CurrentKept(sp, es', |es1|, |es'|);
    if n > 0 {
      var m :| 0 <= m < |tail| && tail[m] == WriteHead;
      assert es'[|es1| + m] == WriteHead;
    }
  }

  /** The steps of end_op and commit leave what is current, and one of them makes it durable. */
  lemma TailKeeps(n: nat)
    ensures var tail := [End(0)] + (CommitSteps(n) + [Finish]);
            && (forall m :: 0 <= m < |tail| ==> KeepsCurrent(tail[m]))
            && (n > 0 ==> exists m :: 0 <= m < |tail| && tail[m] == WriteHead)
  {
    RepeatAll(CopyBlock, n);
    RepeatAll(InstallBlock, n);
    if n > 0 {
      assert ([End(0)] + (CommitSteps(n) + [Finish]))[1 + n] == WriteHead;
    }
  }

  lemma {:induction false} RepeatAll(e: Event, k: nat)
    ensures forall m :: 0 <= m < k ==> Repeat(e, k)[m] == e
  {
    if k > 0 {
      RepeatAll(e, k - 1);
    }
  }

  /** The steps of recovery leave what is current and durable. */
  lemma Recovery(L: Layout, image: seq<Block>, n: nat)
    requires GoodImage(L, image)
    ensures var es := Repeat(InstallBlock, n) + [ClearHead, Finish];
            && AtRest(L, image, es, Recover(L, image))
            && forall k :: 0 <= k <= |es| ==> SpecRun(Fresh(L, image), es, k).durable == Recover(L, image)
  {
    hide Recover, SpecStep, LogOk, HeaderOf, HeaderFits;
    var es := Repeat(InstallBlock, n) + [ClearHead, Finish];
    RepeatAll(InstallBlock, n);
    forall k | 0 <= k <= |es|
      ensures SpecRun(Fresh(L, image), es, k).durable == Recover(L, image)
      ensures SpecRun(Fresh(L, image), es, k).current == Recover(L, image)
    {
      CurrentKept(Fresh(L, image), es, 0, k);
    }
  }

  // ---------------------------------------------------------------- the file system over the log

  class Journal {
    const layout: Layout
    const sb: Super
    const log: Log
    const fs: FileSystem
    ghost const image: seq<Block>   // the disk at boot

    /** Boot: recover from the log, then read the inodes. */
    constructor (layout: Layout, sb: Super, image: seq<Block>)
      requires GoodImage(layout, image) && Below(layout, sb) && Consistent(sb, Recover(layout, image))
      ensures Valid() && this.layout == layout && this.sb == sb && this.image == image
      ensures fs.disk == Recover(layout, image) && fs.inodes == InodesOn(sb, fs.disk)
      ensures fresh(log) && fresh(log.block) && fresh(fs)
    {
      hide Consistent, Recover, AllSettled, InodesOn, GoodImage, SpecRun, Fresh;
      this.layout := layout;
      this.sb := sb;
      this.image := image;
      var l := new Log(layout, image);
      ghost var owner := ConsistentInodes(sb, l.disk);
      log := l;
      fs := new FileSystem(sb, l.disk, InodesOn(sb, l.disk), owner);
      Recovery(layout, image, |HeaderOf(image[layout.start])|);
    }

    /** No operation is in progress and nothing waits in the log; every crash so far would have been survived. */
    ghost predicate Valid()
      reads log, log.block, fs
    {
      && GoodImage(layout, image) && Below(layout, sb) && fs.sb == sb && fs.Valid()
      && LogIdle(map[])
      && AtRest(layout, image, log.trace, fs.disk) && Safe(layout, sb, image, log.trace)
    }

    /** The log is valid and empty, with the given operations in progress. */
    ghost predicate LogIdle(active: map<OpId, OpLog>)
      reads log, log.block
    {
      && log.layout == layout && log.image == image && log.Valid()
      && log.pc == Idle && log.n == 0 && log.active.Keys == active.Keys
    }

    /** begin_op, which need not wait: nothing is in progress. */
    method Begin()
      requires Valid()
      modifies log, fs`logged, fs`writes
      ensures LogIdle(map[0 := OpLog(0, 0)]) && log.trace == old(log.trace) + [LogMachine.Begin(0)]
      ensures fs.logged == {} && fs.writes == [] && log.block == old(log.block)
    {
      hide AllSettled, Safe, AtRest, Reaches, Consistent;
      fs.logged := {};
      fs.writes := [];
      var admitted := log.BeginOp(0);
      assert admitted;
    }

    /** The operation's calls of log_write, in order.  Stops early where one panics. */
    method Replay(ws: seq<Logged>) returns (ok: bool, m: nat)
      requires LogIdle(map[0 := OpLog(0, 0)])
      requires forall k :: 0 <= k < |ws| ==> layout.Home(ws[k].block)
      modifies log`n, log`pinned, log`active, log`trace, log.block
      ensures m <= |ws| && log.trace == old(log.trace) + WriteEvents(0, ws[..m]) && (ok ==> m == |ws|)
      ensures log.Valid() && log.pc == Idle && log.active.Keys == {0} && (ok && log.n == 0 ==> ws == [])
      ensures |Targets(ws)| < LOGSIZE && |Targets(ws)| < layout.size - 1 ==> ok
    {
      hide Reaches, Elems, Targets, WriteEvents;
      NothingYet(ws);
      m := 0;
      while m < |ws|
        invariant m <= |ws| && log.Valid() && log.active.Keys == {0}
        invariant log.trace == old(log.trace) + WriteEvents(0, ws[..m])
        invariant Elems(log.block[..log.n]) == Targets(ws[..m])
      {
        DistinctLogged(layout, image, log.trace, log.View());
        SomeOf(ws, m);
        ElemsMore(log.block[..log.n], ws[m].block);
        var p := log.LogWrite(0, ws[m].block, ws[m].data);
        if p {
          return false, m;
        }
        m := m + 1;
      }
      assert ws[..|ws|] == ws;
      return true, m;
    }

    /** Hand what the operation wrote to the log and, unless it panicked, end it.  False: a panic, here or before. */
    method Conclude(finished: bool, ghost es: seq<Event>, ghost d: seq<Block>) returns (ok: bool)
      requires GoodImage(layout, image) && Below(layout, sb) && fs.sb == sb
      requires LogIdle(map[0 := OpLog(0, 0)]) && log.trace == es + [LogMachine.Begin(0)]
      requires AtRest(layout, image, es, d) && |d| == sb.size
      requires Journaled(sb.inodestart, Cache(d, [], {}), fs.Held())
      modifies log, log.block
      ensures es <= log.trace && OneOf(layout, image, log.trace, |es|, d, if ok then fs.disk else d)
      ensures ok ==> LogIdle(map[]) && AtRest(layout, image, log.trace, fs.disk)
      ensures log.Valid() && log.block == old(log.block) && (ok ==> finished)
      ensures finished && |fs.logged| < LOGSIZE && |fs.logged| < layout.size - 1 ==> ok
    {
      hide AtRest, Reaches, OneOf, CommitSteps, WriteEvents, Journaled, GoodImage, Targets, Apply;
      var ws := fs.writes;
      JournaledAll(sb.inodestart, Cache(d, [], {}), fs.Held());
      var done, m := Replay(ws);
      if !done || !finished {
        Abandoned(layout, image, es, ws[..m], d);
        return false;
      }
      assert ws[..m] == ws;
      Committed(layout, image, es, ws, log.n, d);
      log.EndOp(0);
      return true;
    }

    /** A stretch in which what is durable is a consistent file system throughout. */
    lemma Survives(es: seq<Event>, s: Snap, s': Snap, ok: bool)
      requires GoodImage(layout, image) && log.Valid() && log.layout == layout && log.image == image
      requires Safe(layout, sb, image, es) && es <= log.trace && AllSettled(sb, s) && (ok ==> AllSettled(sb, s'))
      requires OneOf(layout, image, log.trace, |es|, s.fs.disk, if ok then s'.fs.disk else s.fs.disk)
      ensures Safe(layout, sb, image, log.trace)
      ensures CrashLeaves(layout, image, log.trace, |es|, s.fs.disk, if ok then s'.fs.disk else s.fs.disk)
      ensures AtRest(layout, image, log.trace, s'.fs.disk) ==>
                Leaves(layout, image, log.trace, |log.trace|, s'.fs.disk)
    {
      hide AllSettled, OneOf, Safe, CrashLeaves, Reaches, Consistent, GoodImage, Leaves;
      LeavesDurable(layout, image, log.trace, log.View(), |log.trace|);
      SettledConsistent(sb, s);
      if ok {
        SettledConsistent(sb, s');
      }
      SafeMore(layout, sb, image, es, log.trace, s.fs.disk, if ok then s'.fs.disk else s.fs.disk);
      OneOfLeaves(layout, image, log.trace, log.View(), |es|, s.fs.disk, if ok then s'.fs.disk else s.fs.disk);
    }

    /** Write src at off in inode i, as one operation.  None: a panic, out of blocks or of log.  Some(-1): refused.
        Whatever instant a crash comes at, recovery leaves the file system from before, or from after. */
    method Write(i: nat, src: seq<Byte>, off: Word) returns (r: Option<int>)
      requires Valid() && i < sb.ninodes && NoHole(fs.View(), i) && |src| < 0x1_0000_0000
      modifies log, log.block, fs
      ensures old(log.trace) <= log.trace && log.block == old(log.block)
      ensures Safe(layout, sb, image, log.trace)
      ensures CrashLeaves(layout, image, log.trace, |old(log.trace)|, old(fs.disk),
                          if r.Some? then fs.disk else old(fs.disk))
      ensures r.Some? ==> Valid() && Leaves(layout, image, log.trace, |log.trace|, fs.disk)
      ensures r == Some(-1) ==> fs.View() == old(fs.View()) && fs.owner == old(fs.owner)
      ensures r.Some? ==> (r.value != -1 <==> off <= old(fs.inodes)[i].size && off + |src| <= MAXFILE * BSIZE)
      ensures r.Some? && r.value != -1 ==> r.value == |src| && WriteDone(sb, old(fs.Now()), fs.Now(), i, off, src)
      ensures |src| <= 1536 && ChunkLimit(sb) + 1 < layout.size ==>
                (r.None? <==> off <= old(fs.inodes)[i].size && off + |src| <= MAXFILE * BSIZE &&
                              EndBlock(off, |src|) <= MAXFILE && |FreeBlocks(sb, old(fs.disk))| <
                              Lacking(old(fs.View()), i, off / BSIZE, EndBlock(off, |src|)))
      ensures |src| <= 1536 && r.Some? ==> |fs.logged| <= ChunkLimit(sb)
      ensures |src| <= 1536 && ChunkLimit(sb) + 1 < layout.size && r.None? ==> Full(sb, fs.disk)
    {
      hide AllSettled, AtRest, Reaches, OneOf, WriteDone, WriteDoneBut, Safe, CrashLeaves, Journaled, NoHole, Lacking,
        Leaves, InodeWhole, Consistent, EndBlock;
      ghost var es, s := log.trace, fs.Now();
      Relogged(sb, s, {});
      WholeOrLonger(s.fs, i, off, |src|);
      Begin();
      var w := fs.WriteI(i, src, off);
      var ok := Conclude(w.Some?, es, s.fs.disk);
      if ok {
        WriteSettled(sb, s, fs.Now(), i, off, src, w.value != -1);
      }
      Survives(es, s, fs.Now(), ok);
      return if ok then w else None;
    }

    /** Discard the contents of inode i, as one operation.  False: a panic, out of log. */
    method Truncate(i: nat) returns (ok: bool)
      requires Valid() && i < sb.ninodes
      modifies log, log.block, fs
      ensures old(log.trace) <= log.trace && log.block == old(log.block)
      ensures Safe(layout, sb, image, log.trace)
      ensures CrashLeaves(layout, image, log.trace, |old(log.trace)|, old(fs.disk),
                          if ok then fs.disk else old(fs.disk))
      ensures ok ==> Valid() && Leaves(layout, image, log.trace, |log.trace|, fs.disk)
      ensures ok ==> Truncated(sb, old(fs.Now()), fs.Now(), i)
      ensures NBitmaps(sb) + 1 < LOGSIZE && NBitmaps(sb) + 2 < layout.size ==> ok
    {
      hide AllSettled, AtRest, Reaches, OneOf, Truncated, Safe, CrashLeaves, Leaves, Journaled, Consistent;
      ghost var es, s := log.trace, fs.Now();
      Relogged(sb, s, {});
      Begin();
      fs.Itrunc(i);
      ok := Conclude(true, es, s.fs.disk);
      SubsetSize(fs.logged, Bitmaps(sb) + {sb.InodeBlock(i)});
      TruncateSettled(sb, s, fs.Now(), i);
      Survives(es, s, fs.Now(), ok);
    }

    /** Read n bytes at off from inode i, in no transaction, as fileread does.  None: a panic.  log_write panics
        outside a transaction, so this is exactly when readi meets a hole. */
    method Read(i: nat, off: Word, n: Word) returns (r: Option<int>, dst: seq<Byte>)
      requires Valid() && i < sb.ninodes
      modifies log, log.block, fs
      ensures log.trace == old(log.trace) && old(fs.inodes)[i].size <= MAXFILE * BSIZE
      ensures r.None? <==> ReadsHole(old(fs.View()), i, off, n)
      ensures r.Some? ==> Valid() && fs.View() == old(fs.View()) && fs.owner == old(fs.owner)
      ensures r.Some? && (off > old(fs.inodes)[i].size || off + n >= 0x1_0000_0000) ==> r.value == -1 && dst == []
      ensures r.Some? && off <= old(fs.inodes)[i].size && off + n < 0x1_0000_0000 ==>
                && r.value == Min(n, old(fs.inodes)[i].size - off)
                && dst == Content(old(fs.View()), i)[off..off + r.value]
    {
      hide AllSettled, AtRest, Reaches, Safe, Consistent, Content, ReadsHole, GoodImage;
      ghost var s := fs.Now();
      r, dst := ReadWrites(i, off, n);
      if r.Some? && fs.writes != [] {
        var p := log.LogWrite(0, fs.writes[0].block, fs.writes[0].data);
        assert p;
        return None, [];
      }
      if r.Some? {
        Relogged(sb, s, {});
      }
    }

    /** readi, and what it would log. */
    method ReadWrites(i: nat, off: Word, n: Word) returns (r: Option<int>, dst: seq<Byte>)
      requires fs.Valid() && fs.sb == sb && i < sb.ninodes && Below(layout, sb)
      modifies fs
      ensures old(fs.inodes)[i].size <= MAXFILE * BSIZE
      ensures r.None? || fs.writes != [] <==> ReadsHole(old(fs.View()), i, off, n)
      ensures r.Some? && fs.writes == [] ==> fs.Now() == old(fs.Now()).(logged := {})
      ensures r.Some? && (off > old(fs.inodes)[i].size || off + n >= 0x1_0000_0000) ==> r.value == -1 && dst == []
      ensures r.Some? && off <= old(fs.inodes)[i].size && off + n < 0x1_0000_0000 ==>
                && r.value == Min(n, old(fs.inodes)[i].size - off)
                && dst == Content(old(fs.View()), i)[off..off + r.value]
      ensures fs.writes != [] ==> layout.Home(fs.writes[0].block)
    {
      hide AllSettled, Journaled, ReadDone, Content, NoHoleIn, Lacking, EndBlock, Apply, Targets;
      ghost var s := fs.Now();
      Relogged(sb, s, {});
      fs.logged := {};
      fs.writes := [];
      ghost var s0 := fs.Now();
      r, dst := fs.ReadI(i, off, n);
      JournaledAll(sb.inodestart, Cache(s.fs.disk, [], {}), fs.Held());
      if r.None? {
        HoleShort(sb, s.fs, i, off, Min(n, s.fs.inodes[i].size - off));
      } else if off <= s.fs.inodes[i].size && off + n < 0x1_0000_0000 {
        ReadLogs(sb, s0, fs.Now(), i, off, r.value, fs.writes);
      } else {
        NothingYet(fs.writes);
      }
    }

    /** What a crash after any k steps leaves can be booted, and holds a consistent file system. */
    lemma Crashed(k: nat)
      requires Valid() && k <= |log.trace|
      ensures Run(layout, Boot(layout, image), log.trace, k).Next?
      ensures var disk := Run(layout, Boot(layout, image), log.trace, k).s.disk;
              GoodImage(layout, disk) && Consistent(sb, Recover(layout, disk))
    {
      hide Reaches, Fresh, Recover, Consistent, Run, Boot, AtRest, AllSettled;
      LeavesDurable(layout, image, log.trace, log.View(), k);
      SameFileSystem(layout, sb, SpecRun(Fresh(layout, image), log.trace, k).durable,
                     Recover(layout, Run(layout, Boot(layout, image), log.trace, k).s.disk));
    }
  }

  /** Boot from what a crash after k steps of an earlier session left.  If recovery leaves the blocks of a file
      system s, then s it is: the same inodes, and the same contents of every file. */
  method Reboot(j: Journal, disk: seq<Block>, ghost k: nat) returns (j': Journal)
    requires j.Valid() && k <= |j.log.trace| && Run(j.layout, Boot(j.layout, j.image), j.log.trace, k).Next?
    requires disk == Run(j.layout, Boot(j.layout, j.image), j.log.trace, k).s.disk
    ensures j'.Valid() && fresh(j') && j'.sb == j.sb && j'.layout == j.layout
    ensures j'.fs.disk == Recover(j.layout, disk) && |j'.fs.inodes| == j.sb.ninodes
    ensures forall s: Snap :: AllSettled(j.sb, s) && Leaves(j.layout, j.image, j.log.trace, k, s.fs.disk) ==>
              && j'.fs.inodes == s.fs.inodes && |s.fs.inodes| == j.sb.ninodes
              && forall i :: 0 <= i < j.sb.ninodes ==> Content(j'.fs.View(), i) == Content(s.fs, i)
  {
    hide Recover, Consistent, Run, Boot, AllSettled, SameFiles, Content, SameHome;
    j.Crashed(k);
    j' := new Journal(j.layout, j.sb, disk);
    Relogged(j.sb, j'.fs.Now(), {});
    forall s: Snap | AllSettled(j.sb, s) && Leaves(j.layout, j.image, j.log.trace, k, s.fs.disk)
      ensures j'.fs.inodes == s.fs.inodes && |s.fs.inodes| == j.sb.ninodes
      ensures forall i :: 0 <= i < j.sb.ninodes ==> Content(j'.fs.View(), i) == Content(s.fs, i)
    {
      SameHomeBack(j.layout, j'.fs.disk, s.fs.disk);
      ReadAgain(j.layout, j.sb, s, j'.fs.View());
      forall i | 0 <= i < j.sb.ninodes
        ensures Content(j'.fs.View(), i) == Content(s.fs, i)
      {
        SameContent(j.sb, s.fs, j'.fs.View(), i);
      }
    }
  }

  lemma SameHomeBack(L: Layout, a: seq<Block>, b: seq<Block>)
    requires SameHome(L, a, b)
    ensures SameHome(L, b, a)
  {
  }

  /** Does reading n bytes at off look up a block that is not there? */
  predicate ReadsHole(fs: Fs, i: nat, off: Word, n: Word)
    requires i < |fs.inodes|
  {
    && off <= fs.inodes[i].size && off + n < 0x1_0000_0000
    && !NoHoleIn(fs, i, off, Min(n, fs.inodes[i].size - off))
  }

  lemma TruncateSettled(sb: Super, s: Snap, s': Snap, i: nat)
    requires Truncated(sb, s.(logged := {}), s', i)
    ensures AllSettled(sb, s') && Truncated(sb, s, s', i)
  {
    hide AllSettled, Addr, ByteAt, NoNewHole;
  }

  /** Too few free blocks: some block was missing. */
  lemma HoleShort(sb: Super, fs: Fs, i: nat, off: nat, len: nat)
    requires Shape(sb, fs) && EndBlock(off, len) <= MAXFILE
    requires |FreeBlocks(sb, fs.disk)| < Lacking(fs, i, off / BSIZE, EndBlock(off, len))
    ensures !NoHoleIn(fs, i, off, len)
  {
    hide Lacking, AllThere, EndBlock;
    if NoHoleIn(fs, i, off, len) {
      LackingNone(fs, i, off / BSIZE, EndBlock(off, len));
    }
  }

  /** A lookup that changes no block found every block. */
  lemma UnchangedThere(sb: Super, s: Snap, s': Snap, i: nat, a: nat, b: nat)
    requires Visited(sb, s, s', i, a, b) && Core(sb, s.fs, s.owner) && s'.fs.disk == s.fs.disk
    ensures AllThere(s.fs, i, a, b)
  {
    hide Owns, FreeMap, Lacking, Grown, Addr, InodeWhole, AllThere;
    FreeCount(sb, s.fs, s.owner);
    FreeCount(sb, s'.fs, s'.owner);
    NoneLacking(s.fs, i, a, b);
  }

  /** readi calls log_write exactly if it meets a hole. */
  lemma ReadLogs(sb: Super, s: Snap, s': Snap, i: nat, off: nat, len: nat, ws: seq<Logged>)
    requires AllSettled(sb, s) && ReadDone(sb, s, s', i, off, len) && s.logged == {}
    requires s'.fs.disk == Apply(s.fs.disk, ws) && s'.logged == Targets(ws)
    ensures ws == [] <==> NoHoleIn(s.fs, i, off, len)
    ensures ws == [] ==> s' == s
  {
    hide Settled, Core, Visited, EndBlock, AllThere;
    NothingYet(ws);
    if ws == [] {
      UnchangedThere(sb, s, s', i, off / BSIZE, EndBlock(off, len));
    }
  }

  lemma WriteSettled(sb: Super, s: Snap, s': Snap, i: nat, off: nat, src: seq<Byte>, written: bool)
    requires AllSettled(sb, s)
    requires if written then WriteDone(sb, s.(logged := {}), s', i, off, src) else s'.fs == s.fs && s'.owner == s.owner
    ensures AllSettled(sb, s') && (written ==> WriteDone(sb, s, s', i, off, src))
  {
    hide Settled, Owns, FreeMap, WriteEffect;
    if written {
      FromLogged(sb, s, s', i, off, src);
    }
  }

  lemma NothingYet(ws: seq<Logged>)
    ensures Targets(ws[..0]) == {} == Elems([]) && WriteEvents(0, ws[..0]) == []
    ensures Targets(ws) == {} ==> ws == []
  {
    assert ws != [] ==> ws[0].block in Targets(ws);
  }

  lemma ElemsMore(lh: seq<nat>, b: nat)
    ensures Elems(if b in lh then lh else lh + [b]) == Elems(lh) + {b}
  {
  }

  lemma DistinctLogged(L: Layout, image: seq<Block>, es: seq<Event>, s: State)
    requires Reaches(L, image, es, s)
    ensures |Elems(s.lh)| == |s.lh|
  {
    hide Reaches, Elems;
    Facts(L, image, es, s);
    DistinctSize(L, s.lh);
  }

  /** Which blocks were logged before is no matter. */
  lemma Relogged(sb: Super, s: Snap, logged: set<nat>)
    requires AllSettled(sb, s)
    ensures AllSettled(sb, s.(logged := logged)) && Shape(sb, s.fs)
  {
    hide Settled, Owns, FreeMap;
  }

  lemma SomeOf(ws: seq<Logged>, m: nat)
    requires m < |ws|
    ensures |Targets(ws[..m])| <= |Targets(ws)| && Targets(ws[..m + 1]) == Targets(ws[..m]) + {ws[m].block}
    ensures WriteEvents(0, ws[..m + 1]) == WriteEvents(0, ws[..m]) + [Write(0, ws[m].block, ws[m].data)]
  {
    assert ws[..m + 1][..m] == ws[..m];
    assert ws[..m] + ws[m..] == ws && ws[..m] + [ws[m]] == ws[..m + 1];
    TargetsMore(ws[..m], ws[m..]);
    TargetsMore(ws[..m], [ws[m]]);
    assert Targets([ws[m]]) == {ws[m].block} by { assert [ws[m]][0].block == ws[m].block; }
    SubsetSize(Targets(ws[..m]), Targets(ws));
  }
}
