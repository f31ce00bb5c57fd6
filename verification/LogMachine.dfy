/** log.c as a transition system.  A step is one lock-protected section of an FS
    operation, one disk write of the committer, or a crash.  Any number of
    operations run concurrently; a crash may come between any two steps, also
    inside recovery. */
module LogMachine {
  import opened Params
  import opened Blocks

  type OpId = nat

  /** Where the log lives: header at `start`, log blocks after it, `size` blocks in all. */
  datatype Layout = Layout(start: nat, size: nat, nblocks: nat) {
    predicate Valid() { 1 <= size && start + size <= nblocks < 0x1_0000_0000 }
    predicate Home(b: nat) { b < nblocks && !(start <= b < start + size) }
  }

  // ---------------------------------------------------------------- the header block

  predicate LhFits(lh: seq<nat>)
  {
    |lh| <= LOGSIZE && forall i :: 0 <= i < |lh| ==> lh[i] < 0x1_0000_0000
  }

  /** The block numbers recorded in a header block. */
  function HeaderOf(b: Block): (lh: seq<nat>)
    ensures |lh| <= LOGSIZE
  {
    Entries(b, if GetWord(b, 0) <= LOGSIZE then GetWord(b, 0) else LOGSIZE)
  }

  /** The header's count is one that read_head can copy. */
  predicate HeaderFits(b: Block) { GetWord(b, 0) <= LOGSIZE }

  function Entries(b: Block, n: nat): (lh: seq<nat>)
    requires n <= LOGSIZE
    ensures |lh| == n && forall i :: 0 <= i < n ==> lh[i] == GetWord(b, 1 + i)
  {
    if n == 0 then [] else Entries(b, n - 1) + [GetWord(b, n)]
  }

  function PutEntries(b: Block, lh: seq<nat>, k: nat): Block
    requires LhFits(lh) && k <= |lh|
  {
    if k == 0 then b else SetWord(PutEntries(b, lh, k - 1), k, lh[k - 1])
  }

  /** The header block after write_head: only n and the first n entries are overwritten. */
  function WriteHeader(b: Block, lh: seq<nat>): Block
    requires LhFits(lh)
  {
    PutEntries(SetWord(b, 0, |lh|), lh, |lh|)
  }

  /** write_head with lh.n == 0. */
  function ClearHeader(b: Block): Block { SetWord(b, 0, 0) }

  lemma {:induction false} PutEntriesWords(b: Block, lh: seq<nat>, k: nat)
    requires LhFits(lh) && k <= |lh|
    ensures GetWord(PutEntries(b, lh, k), 0) == GetWord(b, 0)
    ensures forall i :: 0 <= i < k ==> GetWord(PutEntries(b, lh, k), 1 + i) == lh[i]
  {
    if k > 0 {
      PutEntriesWords(b, lh, k - 1);
      SetGetWord(PutEntries(b, lh, k - 1), k, lh[k - 1]);
      hide GetWord, SetWord;
    }
  }

  /** write_head followed by read_head gives back the in-memory header. */
  lemma {:induction false} HeaderRoundTrip(b: Block, lh: seq<nat>)
    requires LhFits(lh)
    ensures HeaderFits(WriteHeader(b, lh)) && HeaderOf(WriteHeader(b, lh)) == lh
  {
    SetGetWord(b, 0, |lh|);
    PutEntriesWords(SetWord(b, 0, |lh|), lh, |lh|);
    assert GetWord(WriteHeader(b, lh), 0) == |lh|;
  }

  lemma ClearHeaderEmpty(b: Block)
    ensures HeaderFits(ClearHeader(b)) && HeaderOf(ClearHeader(b)) == []
  {
    SetGetWord(b, 0, 0);
  }

  // ---------------------------------------------------------------- states and steps

  /** Per-operation accounting: blocks it added to the log, and its log_write calls. */
  datatype OpLog = OpLog(added: nat, calls: nat)

  /** Where the committer (or boot-time recovery) stands. */
  datatype Pc = Idle | Copying(tail: nat) | Installing(tail: nat) | Done

  /** `pinned` holds the B_DIRTY buffers; every other cached block equals the disk. */
  datatype State = State(disk: seq<Block>, pinned: map<nat, Block>, lh: seq<nat>,
                         active: map<OpId, OpLog>, pc: Pc)

  datatype Event =
    | Begin(op: OpId)
    | Write(op: OpId, block: nat, data: Block)
    | End(op: OpId)
    | CopyBlock
    | WriteHead
    | InstallBlock
    | ClearHead
    | Finish
    | Crash

  /** Blocked: the caller sleeps.  Disabled: the code is not at such a step. */
  datatype Outcome = Next(s: State) | Blocked | Disabled | Panic

  /** bread through the cache. */
  function Bread(s: State, b: nat): Block
  {
    if b in s.pinned then s.pinned[b] else if b < |s.disk| then s.disk[b] else ZeroBlock()
  }

  /** All memory is lost; initlog reads the header and recovery starts. */
  function Boot(L: Layout, disk: seq<Block>): (s: State)
    requires L.start < |disk|
    ensures s.disk == disk
  {
    State(disk, map[], HeaderOf(disk[L.start]), map[], Installing(0))
  }

  function StepWrite(L: Layout, s: State, op: OpId, b: nat, data: Block): Outcome
  {
    if |s.lh| >= LOGSIZE || |s.lh| >= L.size - 1 then Panic
    else if |s.active| < 1 then Panic
    else if op !in s.active || !L.Home(b) then Disabled
    else
      var fresh' := if b in s.lh then 0 else 1;
      Next(s.(lh := if b in s.lh then s.lh else s.lh + [b],
              pinned := s.pinned[b := data],
              active := s.active[op := OpLog(s.active[op].added + fresh', s.active[op].calls + 1)]))
  }

  function StepEnd(s: State, op: OpId): Outcome
  {
    if op !in s.active then Disabled
    else if s.pc != Idle then Panic
    else
      var rest := s.active - {op};
      Next(s.(active := rest,
              pc := if |rest| > 0 then Idle else if |s.lh| > 0 then Copying(0) else Done))
  }

  /** One disk write of commit() or recover_from_log(). */
  function StepDisk(L: Layout, s: State, e: Event): Outcome
    requires L.start < |s.disk|
    requires e.CopyBlock? || e.WriteHead? || e.InstallBlock? || e.ClearHead?
  {
    match e
    case CopyBlock =>
      if !s.pc.Copying? || s.pc.tail >= |s.lh| then Disabled
      else if L.start + s.pc.tail + 1 >= |s.disk| || s.lh[s.pc.tail] >= |s.disk| then Panic
      else Next(s.(disk := s.disk[L.start + s.pc.tail + 1 := Bread(s, s.lh[s.pc.tail])],
                   pc := Copying(s.pc.tail + 1)))
    case WriteHead =>
      if !s.pc.Copying? || s.pc.tail != |s.lh| || !LhFits(s.lh) then Disabled
      else Next(s.(disk := s.disk[L.start := WriteHeader(s.disk[L.start], s.lh)], pc := Installing(0)))
    case InstallBlock =>
      if !s.pc.Installing? || s.pc.tail >= |s.lh| then Disabled
      else if L.start + s.pc.tail + 1 >= |s.disk| || s.lh[s.pc.tail] >= |s.disk| then Panic
      else Next(s.(disk := s.disk[s.lh[s.pc.tail] := Bread(s, L.start + s.pc.tail + 1)],
                   pinned := s.pinned - {s.lh[s.pc.tail]},
                   pc := Installing(s.pc.tail + 1)))
    case ClearHead =>
      if !s.pc.Installing? || s.pc.tail != |s.lh| then Disabled
      else Next(s.(disk := s.disk[L.start := ClearHeader(s.disk[L.start])], lh := [], pc := Done))
  }

  function Step(L: Layout, s: State, e: Event): Outcome
    requires L.start < |s.disk|
  {
    match e
    case Begin(op) =>
      if op in s.active then Disabled
      else if s.pc != Idle || |s.lh| + (|s.active| + 1) * MAXOPBLOCKS > LOGSIZE then Blocked
      else Next(s.(active := s.active[op := OpLog(0, 0)]))
    case Write(op, b, data) => StepWrite(L, s, op, b, data)
    case End(op) => StepEnd(s, op)
    case Finish => if s.pc.Done? then Next(s.(pc := Idle)) else Disabled
    case Crash => if HeaderFits(s.disk[L.start]) then Next(Boot(L, s.disk)) else Panic
    case _ => StepDisk(L, s, e)
  }

  lemma StepSize(L: Layout, s: State, e: Event)
    requires L.start < |s.disk|
    ensures Step(L, s, e).Next? ==> |Step(L, s, e).s.disk| == |s.disk|
  {
    hide HeaderFits, HeaderOf, WriteHeader, ClearHeader, Bread, LhFits;
  }

  /** The state after the first k events of a run. */
  function Run(L: Layout, s: State, es: seq<Event>, k: nat): (r: Outcome)
    requires L.start < |s.disk| && k <= |es|
    ensures r.Next? ==> |r.s.disk| == |s.disk|
  {
    if k == 0 then Next(s) else
    var r := Run(L, s, es, k - 1);
    if r.Next? then (StepSize(L, r.s, es[k - 1]); Step(L, r.s, es[k - 1])) else r
  }

  // ---------------------------------------------------------------- what the log promises

  /** What clients of the log rely on: `current` is what they read, `durable` what a crash
      leaves, `open` the operations in progress. */
  datatype Spec = Spec(durable: seq<Block>, current: seq<Block>, open: set<OpId>)

  function SpecStep(sp: Spec, e: Event): Spec
  {
    match e
    case Begin(op) => sp.(open := sp.open + {op})
    case Write(_, b, data) => if b < |sp.current| then sp.(current := sp.current[b := data]) else sp
    case End(op) => sp.(open := sp.open - {op})
    case WriteHead => sp.(durable := sp.current)
    case Crash => Spec(sp.durable, sp.durable, {})
    case _ => sp
  }

  function SpecRun(sp: Spec, es: seq<Event>, k: nat): Spec
    requires k <= |es|
  {
    if k == 0 then sp else SpecStep(SpecRun(sp, es, k - 1), es[k - 1])
  }

  /** The disk after installing the first k blocks of the log. */
  function InstallPrefix(L: Layout, disk: seq<Block>, lh: seq<nat>, k: nat): (d: seq<Block>)
    requires k <= |lh|
    ensures |d| == |disk|
  {
    if k == 0 then disk else
    var d := InstallPrefix(L, disk, lh, k - 1);
    if lh[k - 1] < |d| && L.start + k < |d| then d[lh[k - 1] := d[L.start + k]] else d
  }

  /** The disk that recover_from_log leaves. */
  function Recover(L: Layout, disk: seq<Block>): seq<Block>
    requires L.start < |disk|
  {
    var lh := HeaderOf(disk[L.start]);
    var d := InstallPrefix(L, disk, lh, |lh|);
    d[L.start := ClearHeader(d[L.start])]
  }

  // ---------------------------------------------------------------- invariant
  // The parts below speak of block contents of any type T: what a block holds does not matter.

  predicate SameHome<T(==)>(L: Layout, a: seq<T>, b: seq<T>)
  {
    |a| == |b| == L.nblocks && forall k :: 0 <= k < L.nblocks && L.Home(k) ==> a[k] == b[k]
  }

  predicate LogOk(L: Layout, lh: seq<nat>)
  {
    && L.Valid() && |lh| <= LOGSIZE && |lh| <= L.size - 1
    && (forall i :: 0 <= i < |lh| ==> L.Home(lh[i]))
    && (forall i, j :: 0 <= i < j < |lh| ==> lh[i] != lh[j])
  }

  /** The pending updates are the pinned buffers, one for each entry of lh. */
  predicate Pending<T(==)>(L: Layout, disk: seq<T>, pinned: map<nat, T>, lh: seq<nat>, durable: seq<T>, current: seq<T>)
    requires LogOk(L, lh)
  {
    && SameHome(L, disk, durable)
    && |current| == L.nblocks
    && (forall i :: 0 <= i < |lh| ==> lh[i] in pinned)
    && (forall b :: b in pinned ==> b in lh && pinned[b] == current[b])
    && (forall b :: 0 <= b < L.nblocks && L.Home(b) && b !in pinned ==> disk[b] == current[b])
  }

  /** The first k log blocks hold their pinned buffers. */
  predicate Copied<T(==)>(L: Layout, disk: seq<T>, lh: seq<nat>, current: seq<T>, k: nat)
    requires LogOk(L, lh) && |disk| == |current| == L.nblocks
  {
    && k <= |lh|
    && (forall i :: 0 <= i < k ==> disk[L.start + 1 + i] == current[lh[i]])
  }

  /** The log holds every logged block; k of them are installed and unpinned. */
  predicate Installed<T(==)>(L: Layout, disk: seq<T>, pinned: map<nat, T>, lh: seq<nat>, durable: seq<T>, k: nat)
    requires LogOk(L, lh) && |disk| == |durable| == L.nblocks
  {
    && Copied(L, disk, lh, durable, |lh|)
    && k <= |lh|
    && (forall i :: 0 <= i < k ==> disk[lh[i]] == durable[lh[i]] && lh[i] !in pinned)
    && (forall b :: 0 <= b < L.nblocks && L.Home(b) && b !in lh ==> disk[b] == durable[b])
    && (forall b :: b in pinned ==> b in lh)
  }

  lemma PendingWrite<T>(L: Layout, disk: seq<T>, pinned: map<nat, T>, lh: seq<nat>, durable: seq<T>, current: seq<T>,
                        b: nat, v: T)
    requires LogOk(L, lh) && Pending(L, disk, pinned, lh, durable, current)
    requires L.Home(b) && |lh| < LOGSIZE && |lh| < L.size - 1
    ensures var lh' := if b in lh then lh else lh + [b];
            LogOk(L, lh') && Pending(L, disk, pinned[b := v], lh', durable, current[b := v])
  {
    if b !in lh {
      var lh' := lh + [b];
      assert lh'[|lh|] == b;
      assert forall i :: 0 <= i < |lh| ==> lh'[i] == lh[i];
      assert forall c :: c in lh ==> c in lh';
      assert LogOk(L, lh');
      hide LogOk;
    }
  }

  lemma CopyOne<T>(L: Layout, disk: seq<T>, pinned: map<nat, T>, lh: seq<nat>, durable: seq<T>, current: seq<T>, k: nat)
    requires LogOk(L, lh) && Pending(L, disk, pinned, lh, durable, current)
    requires Copied(L, disk, lh, current, k) && k < |lh|
    ensures lh[k] in pinned && lh[k] < |disk| && L.start + 1 + k < |disk|
    ensures var disk' := disk[L.start + 1 + k := pinned[lh[k]]];
            Pending(L, disk', pinned, lh, durable, current) && Copied(L, disk', lh, current, k + 1)
  {
  }

  lemma CommitPoint<T>(L: Layout, disk: seq<T>, pinned: map<nat, T>, lh: seq<nat>, durable: seq<T>, current: seq<T>,
                       h: T)
    requires LogOk(L, lh) && Pending(L, disk, pinned, lh, durable, current)
    requires Copied(L, disk, lh, current, |lh|)
    ensures Installed(L, disk[L.start := h], pinned, lh, current, 0)
  {
  }

  lemma NothingPending<T>(L: Layout, disk: seq<T>, pinned: map<nat, T>, durable: seq<T>, current: seq<T>, d: seq<T>)
    requires LogOk(L, []) && Pending(L, disk, pinned, [], durable, current)
    requires SameHome(L, d, durable)
    ensures SameHome(L, d, current)
  {
  }

  lemma InstallOne<T>(L: Layout, disk: seq<T>, pinned: map<nat, T>, lh: seq<nat>, durable: seq<T>, k: nat)
    requires LogOk(L, lh) && |disk| == |durable| == L.nblocks
    requires Installed(L, disk, pinned, lh, durable, k) && k < |lh|
    ensures L.start != lh[k] < |disk| && L.start + 1 + k < |disk| && L.start + 1 + k !in pinned
    ensures Installed(L, disk[lh[k] := disk[L.start + 1 + k]], pinned - {lh[k]}, lh, durable, k + 1)
  {
  }

  lemma InstalledAll<T>(L: Layout, disk: seq<T>, pinned: map<nat, T>, lh: seq<nat>, durable: seq<T>, h: T)
    requires LogOk(L, lh) && |disk| == |durable| == L.nblocks
    requires Installed(L, disk, pinned, lh, durable, |lh|)
    ensures SameHome(L, disk[L.start := h], durable)
    ensures LogOk(L, []) && Pending(L, disk[L.start := h], pinned, [], durable, durable)
  {
  }

  predicate Inv(L: Layout, s: State, sp: Spec)
  {
    && L.Valid() && |s.disk| == |sp.durable| == |sp.current| == L.nblocks
    && LogOk(L, s.lh)
    && sp.open == s.active.Keys
    && (s.pc != Idle ==> sp.open == {})
    && HeaderFits(s.disk[L.start])
    && HeaderOf(s.disk[L.start]) == (if s.pc.Installing? then s.lh else [])
    && (s.pc.Idle? || s.pc.Copying? || s.pc.Done? ==> Pending(L, s.disk, s.pinned, s.lh, sp.durable, sp.current))
    && (s.pc.Copying? ==> 0 < |s.lh| && Copied(L, s.disk, s.lh, sp.current, s.pc.tail))
    && (s.pc.Installing? ==> sp.durable == sp.current && Installed(L, s.disk, s.pinned, s.lh, sp.durable, s.pc.tail))
    && (s.pc.Done? ==> s.lh == [])
  }

  lemma InvWrite(L: Layout, s: State, sp: Spec, e: Event)
    requires Inv(L, s, sp) && e.Write? && Step(L, s, e).Next?
    ensures Inv(L, Step(L, s, e).s, SpecStep(sp, e))
  {
    hide HeaderFits, HeaderOf, Pending, LogOk;
    assert s.active.Keys != {} && s.pc == Idle;
    assert Step(L, s, e).s.active.Keys == s.active.Keys;
    PendingWrite(L, s.disk, s.pinned, s.lh, sp.durable, sp.current, e.block, e.data);
  }

  lemma InvBegin(L: Layout, s: State, sp: Spec, e: Event)
    requires Inv(L, s, sp) && e.Begin? && Step(L, s, e).Next?
    ensures Inv(L, Step(L, s, e).s, SpecStep(sp, e))
  {
    hide HeaderFits, HeaderOf, Pending, LogOk;
    assert s.active[e.op := OpLog(0, 0)].Keys == s.active.Keys + {e.op};
  }

  lemma InvFinish(L: Layout, s: State, sp: Spec)
    requires Inv(L, s, sp) && Step(L, s, Finish).Next?
    ensures Inv(L, Step(L, s, Finish).s, sp)
  {
    hide HeaderFits, HeaderOf, Pending, LogOk;
  }

  lemma InvEnd(L: Layout, s: State, sp: Spec, e: Event)
    requires Inv(L, s, sp) && e.End? && Step(L, s, e).Next?
    ensures Inv(L, Step(L, s, e).s, SpecStep(sp, e))
  {
    assert (s.active - {e.op}).Keys == s.active.Keys - {e.op};
  }

  lemma InvHead(L: Layout, s: State, sp: Spec)
    requires Inv(L, s, sp) && Step(L, s, WriteHead).Next?
    ensures Inv(L, Step(L, s, WriteHead).s, SpecStep(sp, WriteHead))
  {
    hide HeaderFits, HeaderOf, WriteHeader, Pending, Installed;
    HeaderRoundTrip(s.disk[L.start], s.lh);
    CommitPoint(L, s.disk, s.pinned, s.lh, sp.durable, sp.current, WriteHeader(s.disk[L.start], s.lh));
  }

  lemma InvClear(L: Layout, s: State, sp: Spec)
    requires Inv(L, s, sp) && Step(L, s, ClearHead).Next?
    ensures Inv(L, Step(L, s, ClearHead).s, sp)
  {
    hide HeaderFits, HeaderOf, ClearHeader, LogOk, Installed, Pending;
    ClearHeaderEmpty(s.disk[L.start]);
    InstalledAll(L, s.disk, s.pinned, s.lh, sp.durable, ClearHeader(s.disk[L.start]));
  }

  lemma InvCopy(L: Layout, s: State, sp: Spec)
    requires Inv(L, s, sp) && Step(L, s, CopyBlock).Next?
    ensures Inv(L, Step(L, s, CopyBlock).s, sp)
  {
    hide HeaderFits, HeaderOf, Pending, Copied, LogOk;
    CopyOne(L, s.disk, s.pinned, s.lh, sp.durable, sp.current, s.pc.tail);
  }

  lemma InvInstall(L: Layout, s: State, sp: Spec)
    requires Inv(L, s, sp) && Step(L, s, InstallBlock).Next?
    ensures Inv(L, Step(L, s, InstallBlock).s, sp)
  {
    hide HeaderFits, HeaderOf, Installed, Pending, LogOk;
    InstallOne(L, s.disk, s.pinned, s.lh, sp.durable, s.pc.tail);
  }

  lemma InvCrash(L: Layout, s: State, sp: Spec)
    requires Inv(L, s, sp)
    ensures Inv(L, Boot(L, s.disk), SpecStep(sp, Crash))
  {
    hide Entries;
  }

  // ---------------------------------------------------------------- recovery

  lemma {:induction false} InstallPrefixInstalled(L: Layout, disk: seq<Block>, lh: seq<nat>, durable: seq<Block>,
                                                  k: nat)
    requires LogOk(L, lh) && |disk| == |durable| == L.nblocks && k <= |lh|
    requires Installed(L, disk, map[], lh, durable, 0)
    ensures Installed(L, InstallPrefix(L, disk, lh, k), map[], lh, durable, k)
  {
    hide Installed, LogOk;
    if k > 0 {
      InstallPrefixInstalled(L, disk, lh, durable, k - 1);
      var none: map<nat, Block> := map[];
      InstallOne(L, InstallPrefix(L, disk, lh, k - 1), none, lh, durable, k - 1);
      assert none - {lh[k - 1]} == none;
    }
  }

  /** A crash in any reachable state, followed by recovery, leaves exactly the durable contents. */
  lemma CrashLeavesDurable(L: Layout, s: State, sp: Spec)
    requires Inv(L, s, sp)
    ensures SameHome(L, Recover(L, s.disk), sp.durable)
  {
    InvCrash(L, s, sp);
    var lh := HeaderOf(s.disk[L.start]);
    hide Entries, HeaderFits, HeaderOf, Installed, ClearHeader;
    InstallPrefixInstalled(L, s.disk, lh, sp.durable, |lh|);
    var d := InstallPrefix(L, s.disk, lh, |lh|);
    InstalledAll(L, d, map[], lh, sp.durable, ClearHeader(d[L.start]));
  }

  lemma InvStep(L: Layout, s: State, sp: Spec, e: Event)
    requires Inv(L, s, sp) && Step(L, s, e).Next?
    ensures Inv(L, Step(L, s, e).s, SpecStep(sp, e))
  {
    hide Inv;
    match e
    case Begin(op) => InvBegin(L, s, sp, e);
    case Write(_, _, _) => InvWrite(L, s, sp, e);
    case End(_) => InvEnd(L, s, sp, e);
    case CopyBlock => InvCopy(L, s, sp);
    case WriteHead => InvHead(L, s, sp);
    case InstallBlock => InvInstall(L, s, sp);
    case ClearHead => InvClear(L, s, sp);
    case Finish => InvFinish(L, s, sp);
    case Crash => InvCrash(L, s, sp);
  }

  /** A disk image the kernel may boot from: its header, if not empty, lists distinct home blocks. */
  predicate GoodImage(L: Layout, disk: seq<Block>)
  {
    L.Valid() && |disk| == L.nblocks && HeaderFits(disk[L.start]) && LogOk(L, HeaderOf(disk[L.start]))
  }

  function Fresh(L: Layout, disk: seq<Block>): (sp: Spec)
    requires GoodImage(L, disk)
    ensures sp.open == {} && sp.durable == sp.current
  {
    Spec(Recover(L, disk), Recover(L, disk), {})
  }

  lemma {:induction false} InstallPrefixValues(L: Layout, disk: seq<Block>, lh: seq<nat>, k: nat)
    requires LogOk(L, lh) && |disk| == L.nblocks && k <= |lh|
    ensures var d := InstallPrefix(L, disk, lh, k);
            && (forall i :: 0 <= i < k ==> d[lh[i]] == disk[L.start + 1 + i])
            && (forall b :: 0 <= b < L.nblocks && b !in lh ==> d[b] == disk[b])
  {
    if k > 0 {
      InstallPrefixValues(L, disk, lh, k - 1);
      assert L.start + k !in lh;
    }
  }

  lemma InvInit(L: Layout, disk: seq<Block>)
    requires GoodImage(L, disk)
    ensures Inv(L, Boot(L, disk), Fresh(L, disk))
  {
    hide Entries, HeaderFits, HeaderOf, ClearHeader, InstallPrefix;
    var lh := HeaderOf(disk[L.start]);
    InstallPrefixValues(L, disk, lh, |lh|);
    assert L.start !in lh;
    assert Installed(L, disk, map[], lh, Recover(L, disk), 0);
    hide Entries, HeaderFits, HeaderOf, ClearHeader, InstallPrefix, Installed, Recover, LogOk;
  }

  lemma {:induction false} RunInv(L: Layout, disk: seq<Block>, es: seq<Event>, k: nat)
    requires GoodImage(L, disk) && k <= |es|
    requires Run(L, Boot(L, disk), es, k).Next?
    ensures Inv(L, Run(L, Boot(L, disk), es, k).s, SpecRun(Fresh(L, disk), es, k))
  {
    if k == 0 {
      InvInit(L, disk);
    } else {
      hide Inv, SpecStep, Fresh, Step;
      RunInv(L, disk, es, k - 1);
      InvStep(L, Run(L, Boot(L, disk), es, k - 1).s, SpecRun(Fresh(L, disk), es, k - 1), es[k - 1]);
    }
  }

  // ---------------------------------------------------------------- main results on crashes

  /** In every run a commit happens only when no operation is in progress. */
  lemma CommitsWholeOperations(L: Layout, disk: seq<Block>, es: seq<Event>, k: nat)
    requires GoodImage(L, disk) && k < |es| && es[k] == WriteHead
    requires Run(L, Boot(L, disk), es, k + 1).Next?
    ensures SpecRun(Fresh(L, disk), es, k).open == {}
  {
    hide Fresh, Boot;
    RunInv(L, disk, es, k);
  }

  /** The durable contents are always those after some prefix of the run at which no operation was open. */
  lemma {:induction false} DurableIsQuiescent(L: Layout, disk: seq<Block>, es: seq<Event>, k: nat) returns (cut: nat)
    requires GoodImage(L, disk) && k <= |es|
    requires Run(L, Boot(L, disk), es, k).Next?
    ensures cut <= k
    ensures SpecRun(Fresh(L, disk), es, cut).open == {}
    ensures SpecRun(Fresh(L, disk), es, k).durable == SpecRun(Fresh(L, disk), es, cut).current
  {
    hide Fresh, Boot, Step, Recover, HeaderFits, HeaderOf, LogOk;
    if k == 0 {
      return 0;
    }
    if es[k - 1].WriteHead? {
      CommitsWholeOperations(L, disk, es, k - 1);
      return k - 1;
    }
    cut := DurableIsQuiescent(L, disk, es, k - 1);
  }

  /** Crash atomicity: crash after any k steps of any run (the run may hold earlier crashes, also
      inside recovery); recovery leaves every home block exactly as after some prefix of the run
      that no operation straddles. */
  lemma CrashAtomicity(L: Layout, disk: seq<Block>, es: seq<Event>, k: nat)
    requires GoodImage(L, disk) && k <= |es|
    requires Run(L, Boot(L, disk), es, k).Next?
    ensures exists cut :: 0 <= cut <= k
                          && SpecRun(Fresh(L, disk), es, cut).open == {}
                          && SameHome(L, Recover(L, Run(L, Boot(L, disk), es, k).s.disk),
                                      SpecRun(Fresh(L, disk), es, cut).current)
  {
    hide Inv, Fresh, Boot, Recover, SameHome;
    RunInv(L, disk, es, k);
    CrashLeavesDurable(L, Run(L, Boot(L, disk), es, k).s, SpecRun(Fresh(L, disk), es, k));
    var cut := DurableIsQuiescent(L, disk, es, k);
  }

  /** Durability: once a commit (or recovery) has finished, a crash loses nothing. */
  lemma FinishedIsDurable(L: Layout, disk: seq<Block>, es: seq<Event>, k: nat)
    requires GoodImage(L, disk) && k < |es| && es[k] == Finish
    requires Run(L, Boot(L, disk), es, k + 1).Next?
    ensures SameHome(L, Recover(L, Run(L, Boot(L, disk), es, k + 1).s.disk),
                     SpecRun(Fresh(L, disk), es, k + 1).current)
  {
    hide Entries, HeaderFits, HeaderOf, Recover, Fresh, Boot, Pending, SameHome, LogOk;
    RunInv(L, disk, es, k);
    RunInv(L, disk, es, k + 1);
    var s, sp := Run(L, Boot(L, disk), es, k + 1).s, SpecRun(Fresh(L, disk), es, k + 1);
    CrashLeavesDurable(L, s, sp);
    assert s.lh == [];
    NothingPending(L, s.disk, s.pinned, sp.durable, sp.current, Recover(L, s.disk));
  }

  /** While a commit or recovery is under way no operation is in progress, and none can change the log. */
  lemma CommitterAlone(L: Layout, disk: seq<Block>, es: seq<Event>, k: nat)
    requires GoodImage(L, disk) && k <= |es|
    requires Run(L, Boot(L, disk), es, k).Next?
    requires Run(L, Boot(L, disk), es, k).s.pc != Idle
    ensures Run(L, Boot(L, disk), es, k).s.active == map[]
    ensures k < |es| && (es[k].Begin? || es[k].Write? || es[k].End?) ==> !Run(L, Boot(L, disk), es, k + 1).Next?
  {
    hide Fresh, Boot;
    RunInv(L, disk, es, k);
    assert Run(L, Boot(L, disk), es, k).s.active.Keys == {};
  }
}
