/** log.c: the log itself.  Every method performs the loops and updates of its namesake and is
    proved to take exactly the steps of LogMachine, so what holds of every run holds of it. */
module Log {
  import opened Params
  import opened Blocks
  import opened LogMachine

  function Repeat(e: Event, k: nat): (es: seq<Event>)
    ensures |es| == k
  {
    if k == 0 then [] else Repeat(e, k - 1) + [e]
  }

  /** The steps of commit() for a log of n blocks. */
  function CommitSteps(n: nat): seq<Event>
  {
    if n == 0 then []
    else Repeat(CopyBlock, n) + [WriteHead] + Repeat(InstallBlock, n) + [ClearHead]
  }

  lemma {:induction false} RunPrefix(L: Layout, s: State, es: seq<Event>, e: Event, k: nat)
    requires L.start < |s.disk| && k <= |es|
    ensures Run(L, s, es + [e], k) == Run(L, s, es, k)
  {
    hide Step;
    if k > 0 {
      RunPrefix(L, s, es, e, k - 1);
    }
  }

  /** s is the state that the run es of the machine reaches from a boot on the given disk image. */
  ghost predicate Reaches(L: Layout, image: seq<Block>, es: seq<Event>, s: State)
  {
    GoodImage(L, image) && Run(L, Boot(L, image), es, |es|) == Next(s)
  }

  lemma Booted(L: Layout, image: seq<Block>)
    requires GoodImage(L, image)
    ensures Reaches(L, image, [], Boot(L, image))
  {
    hide HeaderOf;
  }

  /** Appending a step to a run. */
  lemma Extend(L: Layout, image: seq<Block>, es: seq<Event>, s: State, e: Event, s': State)
    requires Reaches(L, image, es, s) && |s.disk| == L.nblocks && L.Valid() && Step(L, s, e) == Next(s')
    ensures Reaches(L, image, es + [e], s')
  {
    hide Step, Boot;
    RunPrefix(L, Boot(L, image), es, e, |es|);
  }

  /** What the methods below need to know of a reached state. */
  lemma Facts(L: Layout, image: seq<Block>, es: seq<Event>, s: State)
    requires Reaches(L, image, es, s)
    ensures L.Valid() && |s.disk| == L.nblocks && LogOk(L, s.lh) && LhFits(s.lh)
    ensures s.pc != Idle ==> s.active == map[]
  {
    hide Fresh, Step, Boot, HeaderOf;
    RunInv(L, image, es, |es|);
    assert s.pc != Idle ==> s.active.Keys == {};
  }

  // The shapes of the steps, so that the methods need not unfold Step.

  lemma CopyShape(L: Layout, s: State, k: nat)
    requires L.Valid() && |s.disk| == L.nblocks && LogOk(L, s.lh) && s.pc == Copying(k) && k < |s.lh|
    ensures s.lh[k] < |s.disk| && L.start + k + 1 < |s.disk|
    ensures Step(L, s, CopyBlock) ==
            Next(s.(disk := s.disk[L.start + k + 1 := Bread(s, s.lh[k])], pc := Copying(k + 1)))
  {
  }

  lemma InstallShape(L: Layout, s: State, k: nat)
    requires L.Valid() && |s.disk| == L.nblocks && LogOk(L, s.lh) && s.pc == Installing(k) && k < |s.lh|
    ensures s.lh[k] < |s.disk| && L.start + k + 1 < |s.disk|
    ensures Step(L, s, InstallBlock) ==
            Next(s.(disk := s.disk[s.lh[k] := Bread(s, L.start + k + 1)], pinned := s.pinned - {s.lh[k]},
                    pc := Installing(k + 1)))
  {
  }

  lemma WriteShape(L: Layout, s: State, op: OpId, b: nat, data: Block)
    requires L.start < |s.disk| && |s.lh| < LOGSIZE && |s.lh| < L.size - 1 && op in s.active && L.Home(b)
    ensures var r := Step(L, s, Write(op, b, data));
            && r.Next? && r.s.active.Keys == s.active.Keys
            && r.s == s.(lh := if b in s.lh then s.lh else s.lh + [b], pinned := s.pinned[b := data],
                         active := r.s.active)
  {
    assert s.active.Keys != {};
  }

  lemma EndShape(L: Layout, s: State, op: OpId)
    requires L.start < |s.disk| && op in s.active && s.pc == Idle
    ensures |s.active - {op}| == |s.active| - 1
    ensures Step(L, s, End(op)) ==
            Next(s.(active := s.active - {op},
                    pc := if |s.active| > 1 then Idle else if |s.lh| > 0 then Copying(0) else Done))
  {
    assert (s.active - {op}).Keys == s.active.Keys - {op};
  }

  lemma SomeActive(m: map<OpId, OpLog>)
    ensures |m.Keys| > 0 ==> m != map[]
  {
  }

  /** Storing b in its slot, or behind the last, records it. */
  lemma Recorded(a: seq<nat>, n: nat, i: nat, b: nat)
    requires i <= n < |a| && (i < n <==> b in a[..n]) && (i < n ==> a[i] == b)
    ensures a[i := b][..if i == n then n + 1 else n] == if b in a[..n] then a[..n] else a[..n] + [b]
  {
  }

  class Log {
    const layout: Layout
    var n: nat                    // lh.n
    var block: array<nat>         // lh.block
    var outstanding: nat
    var committing: bool
    var disk: seq<Block>
    var pinned: map<nat, Block>   // buffers with B_DIRTY set
    ghost var active: map<OpId, OpLog>
    ghost var pc: Pc
    ghost const image: seq<Block> // the disk at boot
    ghost var trace: seq<Event>   // every step since boot

    ghost function View(): State
      requires n <= block.Length
      reads this, block
    {
      State(disk, pinned, block[..n], active, pc)
    }

    /** The state is one that a run of the machine from the boot image reaches. */
    ghost predicate Reached()
      reads this, block
    {
      && block.Length == LOGSIZE && n <= LOGSIZE && |disk| == layout.nblocks && layout.Valid()
      && Reaches(layout, image, trace, View())
      && outstanding == |active|
    }

    ghost predicate Valid()
      reads this, block
    {
      Reached() && (committing <==> pc != Idle)
    }

    /** initlog on a disk image: read the superblock's log location and recover. */
    constructor (layout: Layout, image: seq<Block>)
      requires GoodImage(layout, image)
      ensures Valid() && pc == Idle && active == map[] && n == 0
      ensures disk == Recover(layout, image)
      ensures this.layout == layout && this.image == image
      ensures trace == Repeat(InstallBlock, |HeaderOf(image[layout.start])|) + [ClearHead, Finish]
      ensures fresh(block)
    {
      this.layout := layout;
      this.image := image;
      disk := image;
      n := 0;
      block := new nat[LOGSIZE];
      outstanding := 0;
      committing := false;
      pinned := map[];
      active := map[];
      pc := Installing(0);
      trace := [];
      new;
      hide Reaches, HeaderOf, GoodImage, Repeat, Recover;
      RecoverFromLog();
      FinishCommit();
    }

    /** Copy the on-disk header into memory. */
    method ReadHead()
      requires block.Length == LOGSIZE && GoodImage(layout, image) && disk == image
      modifies this`n, block
      ensures n <= LOGSIZE && block[..n] == HeaderOf(image[layout.start])
    {
      var hb := disk[layout.start];
      n := GetWord(hb, 0);
      var i := 0;
      while i < n
        invariant 0 <= i <= n == |HeaderOf(hb)|
        invariant block[..i] == HeaderOf(hb)[..i]
      {
        block[i] := GetWord(hb, 1 + i);
        i := i + 1;
      }
    }

    /** Write the in-memory header to disk. */
    method WriteHeadBlock()
      requires block.Length == LOGSIZE && n <= LOGSIZE && layout.start < |disk| && LhFits(block[..n])
      modifies this`disk
      ensures disk == old(disk)[layout.start := WriteHeader(old(disk)[layout.start], block[..n])]
    {
      var hb := SetWord(disk[layout.start], 0, n);
      var i := 0;
      while i < n
        invariant 0 <= i <= n
        invariant hb == PutEntries(SetWord(disk[layout.start], 0, n), block[..n], i)
      {
        hb := SetWord(hb, 1 + i, block[i]);
        i := i + 1;
      }
      disk := disk[layout.start := hb];
    }

    /** bread: a pinned buffer, else the disk. */
    method ReadBlock(b: nat) returns (data: Block)
      requires b < |disk| && n <= block.Length
      ensures data == Bread(View(), b)
    {
      if b in pinned {
        data := pinned[b];
      } else {
        data := disk[b];
      }
    }

    /** Note that the fields now hold the state after step e from s. */
    ghost method Record(s: State, e: Event)
      requires n <= block.Length && Reaches(layout, image, trace, s)
      requires |s.disk| == layout.nblocks && layout.Valid() && Step(layout, s, e) == Next(View())
      modifies this`trace
      ensures trace == old(trace) + [e]
      ensures Reaches(layout, image, trace, View())
    {
      hide Step;
      Extend(layout, image, trace, s, e, View());
      trace := trace + [e];
    }

    /** Copy modified blocks from the cache to the log. */
    method WriteLog()
      requires Reached() && pc == Copying(0)
      modifies this`disk, this`pc, this`trace
      ensures Reached() && pc == Copying(n)
      ensures trace == old(trace) + Repeat(CopyBlock, n)
    {
      hide Reaches;
      var tail := 0;
      while tail < n
        invariant 0 <= tail <= n
        invariant Reached() && pc == Copying(tail)
        invariant trace == old(trace) + Repeat(CopyBlock, tail)
      {
        CopyOneBlock(tail);
        tail := tail + 1;
      }
    }

    method CopyOneBlock(tail: nat)
      requires Reached() && pc == Copying(tail) && tail < n
      modifies this`disk, this`pc, this`trace
      ensures Reached() && pc == Copying(tail + 1)
      ensures trace == old(trace) + [CopyBlock]
    {
      hide Reaches, LhFits, LogOk, Step, Bread;
      ghost var s := View();
      Facts(layout, image, trace, s);
      CopyShape(layout, s, tail);
      assert s.lh[tail] == block[tail];
      var from := ReadBlock(block[tail]);
      disk := disk[layout.start + tail + 1 := from];
      pc := Copying(tail + 1);
      Record(s, CopyBlock);
    }

    /** Copy committed blocks from the log to their home locations. */
    method InstallTrans()
      requires Reached() && pc == Installing(0)
      modifies this`disk, this`pinned, this`pc, this`trace
      ensures Reached() && pc == Installing(n)
      ensures trace == old(trace) + Repeat(InstallBlock, n)
      ensures old(pinned) == map[] ==> disk == InstallPrefix(layout, old(disk), block[..n], n)
    {
      hide Reaches;
      var tail := 0;
      while tail < n
        invariant 0 <= tail <= n
        invariant Reached() && pc == Installing(tail)
        invariant trace == old(trace) + Repeat(InstallBlock, tail)
        invariant old(pinned) == map[] ==> pinned == map[] && disk == InstallPrefix(layout, old(disk), block[..n], tail)
      {
        InstallOneBlock(tail);
        tail := tail + 1;
      }
    }

    method InstallOneBlock(tail: nat)
      requires Reached() && pc == Installing(tail) && tail < n
      modifies this`disk, this`pinned, this`pc, this`trace
      ensures Reached() && pc == Installing(tail + 1)
      ensures trace == old(trace) + [InstallBlock]
      ensures block[tail] < |disk| && layout.start + tail + 1 < |disk|
      ensures old(pinned) == map[] ==>
                pinned == map[] && disk == old(disk)[block[tail] := old(disk)[layout.start + tail + 1]]
    {
      hide Reaches, LhFits, LogOk, Step;
      ghost var s := View();
      Facts(layout, image, trace, s);
      InstallShape(layout, s, tail);
      assert s.lh[tail] == block[tail];
      var from := ReadBlock(layout.start + tail + 1);
      disk := disk[block[tail] := from];
      pinned := pinned - {block[tail]};
      pc := Installing(tail + 1);
      Record(s, InstallBlock);
    }

    method RecoverFromLog()
      requires block.Length == LOGSIZE && GoodImage(layout, image) && disk == image
      requires pinned == map[] && active == map[] && pc == Installing(0) && trace == [] && outstanding == 0
      modifies this`n, this`disk, this`pinned, this`pc, this`trace, block
      ensures Reached() && pc == Done && n == 0
      ensures disk == Recover(layout, image)
      ensures trace == Repeat(InstallBlock, |HeaderOf(image[layout.start])|) + [ClearHead]
    {
      hide Reaches, HeaderOf, ClearHeader;
      ReadHead();
      Booted(layout, image);
      InstallTrans();
      ClearTrans();
    }

    /** Erase the installed transaction from the log. */
    method ClearTrans()
      requires Reached() && pc == Installing(n)
      modifies this`n, this`disk, this`pc, this`trace
      ensures Reached() && pc == Done && n == 0
      ensures disk == old(disk)[layout.start := ClearHeader(old(disk)[layout.start])]
      ensures trace == old(trace) + [ClearHead]
    {
      hide Reaches;
      ghost var s := View();
      n := 0;
      WriteHeadBlock();
      pc := Done;
      Record(s, ClearHead);
    }

    /** The commit point: the header now lists the logged blocks. */
    method CommitHead()
      requires Reached() && pc == Copying(n)
      modifies this`disk, this`pc, this`trace
      ensures Reached() && pc == Installing(0) && trace == old(trace) + [WriteHead]
    {
      hide Reaches;
      ghost var s := View();
      Facts(layout, image, trace, s);
      WriteHeadBlock();
      pc := Installing(0);
      Record(s, WriteHead);
    }

    method Commit()
      requires Reached() && pc == (if n > 0 then Copying(0) else Done)
      modifies this`n, this`disk, this`pinned, this`pc, this`trace
      ensures Reached() && pc == Done && n == 0
      ensures trace == old(trace) + CommitSteps(old(n))
    {
      hide Reaches, Repeat, WriteHeader, ClearHeader;
      if n > 0 {
        WriteLog();
        CommitHead();
        InstallTrans();
        ClearTrans();
      }
    }

    /** One pass of begin_op's loop: admit the operation, or report that the caller must sleep. */
    method BeginOp(op: OpId) returns (admitted: bool)
      requires Valid() && op !in active
      modifies this`outstanding, this`active, this`trace
      ensures Valid()
      ensures admitted <==> !committing && n + (old(outstanding) + 1) * MAXOPBLOCKS <= LOGSIZE
      ensures admitted ==> trace == old(trace) + [Begin(op)] && active.Keys == old(active.Keys) + {op}
      ensures !admitted ==> outstanding == old(outstanding) && active == old(active) && trace == old(trace)
    {
      if committing {
        return false;
      } else if n + (outstanding + 1) * MAXOPBLOCKS > LOGSIZE {
        return false;
      } else {
        hide Reaches;
        ghost var s := View();
        outstanding := outstanding + 1;
        active := active[op := OpLog(0, 0)];
        Record(s, Begin(op));
        return true;
      }
    }

    /** Record a modified block and pin it.  The caller has changed b's buffer to data. */
    method LogWrite(op: OpId, b: nat, data: Block) returns (panicked: bool)
      requires Valid() && layout.Home(b) && (op in active || active == map[])
      modifies this`n, block, this`pinned, this`active, this`trace
      ensures Valid()
      ensures panicked <==> old(n) >= LOGSIZE || old(n) >= layout.size - 1 || outstanding < 1
      ensures panicked ==> trace == old(trace) && n == old(n) && active == old(active)
      ensures !panicked ==> trace == old(trace) + [Write(op, b, data)] && active.Keys == old(active.Keys)
      ensures !panicked ==> block[..n] == if b in old(block[..n]) then old(block[..n]) else old(block[..n]) + [b]
    {
      hide Reaches, Step;
      if n >= LOGSIZE || n >= layout.size - 1 {
        return true;
      }
      if outstanding < 1 {
        return true;
      }
      ghost var s := View();
      SomeActive(active);
      WriteShape(layout, s, op, b, data);
      var i := FindSlot(b);
      Recorded(block[..], n, i, b);
      block[i] := b;
      if i == n {
        n := n + 1;
      }
      pinned := pinned[b := data];
      active := Step(layout, s, Write(op, b, data)).s.active;
      Record(s, Write(op, b, data));
      return false;
    }

    /** Where b is recorded in the header, or the first unused entry. */
    method FindSlot(b: nat) returns (i: nat)
      requires n <= block.Length
      ensures i <= n && (i < n <==> b in block[..n]) && (i < n ==> block[i] == b)
    {
      i := 0;
      while i < n
        invariant 0 <= i <= n
        invariant forall j :: 0 <= j < i ==> block[j] != b
      {
        if block[i] == b {
          break;
        }
        i := i + 1;
      }
    }

    method FinishCommit()
      requires Reached() && pc == Done
      modifies this`committing, this`pc, this`trace
      ensures Valid() && pc == Idle && trace == old(trace) + [Finish]
    {
      hide Reaches;
      ghost var s := View();
      committing := false;
      pc := Idle;
      Record(s, Finish);
    }

    /** End an operation; the last one out commits. */
    method EndOp(op: OpId)
      requires Valid() && op in active
      modifies this`n, this`outstanding, this`committing, this`disk, this`pinned, this`active, this`pc, this`trace
      ensures Valid() && !committing
      ensures outstanding == old(outstanding) - 1 && active == old(active) - {op}
      ensures n == if old(outstanding) == 1 then 0 else old(n)
      ensures trace == old(trace) + [End(op)] +
                       (if old(outstanding) == 1 then CommitSteps(old(n)) + [Finish] else [])
    {
      hide Reaches, Repeat, CommitSteps, LogOk, LhFits, Step;
      ghost var s := View();
      Facts(layout, image, trace, s);
      assert !committing;
      EndShape(layout, s, op);
      outstanding := outstanding - 1;
      active := active - {op};
      var doCommit := false;
      if outstanding == 0 {
        doCommit := true;
        committing := true;
        pc := if n > 0 then Copying(0) else Done;
      }
      Record(s, End(op));
      if doCommit {
        Commit();
        FinishCommit();
      }
    }
  }
}
