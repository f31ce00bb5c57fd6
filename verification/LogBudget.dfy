/** log.c: how much log space the operations in progress may still use, and when log_write panics. */
module LogBudget {
  import opened Params
  import opened Blocks
  import opened LogMachine

  /** What each operation promises: at most MAXOPBLOCKS calls of log_write, or to add at most d blocks
      to the log, in any number of calls. */
  datatype Limit = ByCalls | ByBlocks(d: nat)

  /** The blocks that an operation may add under a limit. */
  function Share(limit: Limit): nat { if limit.ByCalls? then MAXOPBLOCKS else limit.d }

  /** How much of d blocks each the operations in m have not used. */
  ghost function Unused(m: map<OpId, OpLog>, d: nat): int
    decreases |m|
  {
    if m == map[] then 0 else
    var op :| op in m;
    d - m[op].added + Unused(m - {op}, d)
  }

  lemma {:induction false} UnusedRemove(m: map<OpId, OpLog>, d: nat, op: OpId)
    requires op in m
    ensures Unused(m, d) == d - m[op].added + Unused(m - {op}, d)
    decreases |m|
  {
    var o :| o in m && Unused(m, d) == d - m[o].added + Unused(m - {o}, d);
    if o != op {
      UnusedRemove(m - {o}, d, op);
      UnusedRemove(m - {op}, d, o);
      assert m - {o} - {op} == m - {op} - {o};
    }
  }

  lemma UnusedUpdate(m: map<OpId, OpLog>, d: nat, op: OpId, v: OpLog)
    ensures op in m ==> Unused(m[op := v], d) == Unused(m, d) + m[op].added - v.added
    ensures op !in m ==> Unused(m[op := v], d) == Unused(m, d) + d - v.added
  {
    UnusedRemove(m[op := v], d, op);
    if op in m {
      UnusedRemove(m, d, op);
      assert m[op := v] - {op} == m - {op};
    } else {
      assert m[op := v] - {op} == m;
    }
  }

  /** No operation has added more than d blocks, nor more than it made calls. */
  predicate Accounted(m: map<OpId, OpLog>, d: nat)
  {
    forall op :: op in m ==> m[op].added <= d && m[op].added <= m[op].calls
  }

  lemma {:induction false} UnusedBounds(m: map<OpId, OpLog>, d: nat)
    requires Accounted(m, d)
    ensures 0 <= Unused(m, d) <= d * |m|
    decreases |m|
  {
    if m != map[] {
      var op :| op in m;
      UnusedRemove(m, d, op);
      UnusedBounds(m - {op}, d);
      assert (m - {op}).Keys == m.Keys - {op};
      OneMore(d, |m|);
    }
  }

  lemma OneMore(d: nat, n: nat)
    ensures d * n == d * (n - 1) + d
  {
  }

  /** An operation keeps its promise. */
  predicate Allowed(s: State, e: Event, limit: Limit)
  {
    e.Write? ==>
      && e.op in s.active
      && match limit
         case ByCalls => s.active[e.op].calls < MAXOPBLOCKS
         case ByBlocks(d) => e.block in s.lh || s.active[e.op].added < d
  }

  predicate Budgeted(L: Layout, s: State, es: seq<Event>, k: nat, limit: Limit)
    requires L.start < |s.disk| && k <= |es|
  {
    k == 0 || (Budgeted(L, s, es, k - 1, limit)
               && (Run(L, s, es, k - 1).Next? ==> Allowed(Run(L, s, es, k - 1).s, es[k - 1], limit)))
  }

  // ---------------------------------------------------------------- what every budgeted run keeps

  /** The log and all unused reservations fit in LOGSIZE.  And more closely: a commit empties the log
      before the first operation begins, the second is admitted over at most MAXOPBLOCKS logged blocks
      and the third over none, so that with d blocks each they never fill more than MAXOPBLOCKS + 2 d. */
  ghost predicate Reserve(s: State, limit: Limit)
  {
    var d := Share(limit);
    && Accounted(s.active, d)
    && (limit.ByCalls? ==> forall op :: op in s.active ==> s.active[op].calls <= MAXOPBLOCKS)
    && (d <= MAXOPBLOCKS ==> |s.lh| + Unused(s.active, MAXOPBLOCKS) <= LOGSIZE)
    && (d <= MAXOPBLOCKS && s.active != map[] ==> |s.lh| + Unused(s.active, d) <= MAXOPBLOCKS + 2 * d)
    && (s.pc.Done? || (s.pc.Idle? && s.active == map[]) ==> s.lh == [])
    && (s.active != map[] ==> s.pc.Idle?)
    && (d == 0 && s.active != map[] ==> s.lh == [])
  }

  lemma AccountedMore(m: map<OpId, OpLog>, d: nat, d': nat)
    requires Accounted(m, d) && d <= d'
    ensures Accounted(m, d')
  {
  }

  lemma Empty(m: map<OpId, OpLog>)
    ensures m == map[] <==> |m| == 0
  {
    assert |m| == |m.Keys|;
  }

  lemma ReserveBegin(L: Layout, s: State, e: Event, limit: Limit)
    requires L.start < |s.disk| && e.Begin? && Step(L, s, e).Next?
    requires Reserve(s, limit)
    ensures Reserve(Step(L, s, e).s, limit)
  {
    hide Unused;
    var d := Share(limit);
    Empty(s.active);
    UnusedBounds(s.active, d);
    UnusedUpdate(s.active, d, e.op, OpLog(0, 0));
    if d <= MAXOPBLOCKS {
      AccountedMore(s.active, d, MAXOPBLOCKS);
      UnusedBounds(s.active, MAXOPBLOCKS);
      UnusedUpdate(s.active, MAXOPBLOCKS, e.op, OpLog(0, 0));
      assert |s.active| == 0 || |s.active| == 1 || (|s.active| == 2 && |s.lh| == 0);
    }
  }

  lemma ReserveWrite(L: Layout, s: State, e: Event, limit: Limit)
    requires L.start < |s.disk| && e.Write? && Step(L, s, e).Next?
    requires Reserve(s, limit) && Allowed(s, e, limit)
    ensures Reserve(Step(L, s, e).s, limit)
  {
    hide Unused;
    UnusedUpdate(s.active, MAXOPBLOCKS, e.op, Step(L, s, e).s.active[e.op]);
    UnusedUpdate(s.active, Share(limit), e.op, Step(L, s, e).s.active[e.op]);
  }

  lemma ReserveEnd(L: Layout, s: State, e: Event, limit: Limit)
    requires L.start < |s.disk| && e.End? && Step(L, s, e).Next?
    requires Reserve(s, limit)
    ensures Reserve(Step(L, s, e).s, limit)
  {
    hide Unused;
    UnusedRemove(s.active, MAXOPBLOCKS, e.op);
    UnusedRemove(s.active, Share(limit), e.op);
    Empty(s.active - {e.op});
  }

  lemma ReserveOther(L: Layout, s: State, e: Event, limit: Limit)
    requires L.start < |s.disk| && !e.Begin? && !e.Write? && !e.End? && Step(L, s, e).Next?
    requires Reserve(s, limit)
    ensures Reserve(Step(L, s, e).s, limit)
  {
    hide HeaderFits, HeaderOf, WriteHeader, ClearHeader, Bread, LhFits;
    UnusedNone();
  }

  lemma UnusedNone()
    ensures forall d: nat :: Unused(map[], d) == 0
  {
  }

  lemma ReserveStep(L: Layout, s: State, e: Event, limit: Limit)
    requires L.start < |s.disk| && Step(L, s, e).Next?
    requires Reserve(s, limit) && Allowed(s, e, limit)
    ensures Reserve(Step(L, s, e).s, limit)
  {
    hide *;
    if e.Begin? {
      ReserveBegin(L, s, e, limit);
    } else if e.Write? {
      ReserveWrite(L, s, e, limit);
    } else if e.End? {
      ReserveEnd(L, s, e, limit);
    } else {
      ReserveOther(L, s, e, limit);
    }
  }

  lemma ReserveBoot(L: Layout, disk: seq<Block>, limit: Limit)
    requires L.start < |disk|
    ensures Reserve(Boot(L, disk), limit)
  {
    hide HeaderFits, HeaderOf;
  }

  /** Group commit: in every run in which each operation keeps within its limit, the log plus what the
      operations in progress may still add fits in LOGSIZE, and with d blocks each in MAXOPBLOCKS + 2 d. */
  lemma {:induction false} GroupCommitBound(L: Layout, disk: seq<Block>, es: seq<Event>, k: nat, limit: Limit)
    requires L.start < |disk| && k <= |es|
    requires Budgeted(L, Boot(L, disk), es, k, limit) && Run(L, Boot(L, disk), es, k).Next?
    ensures Reserve(Run(L, Boot(L, disk), es, k).s, limit)
  {
    hide Reserve, Step, Allowed, Boot;
    if k == 0 {
      ReserveBoot(L, disk, limit);
    } else {
      GroupCommitBound(L, disk, es, k - 1, limit);
      ReserveStep(L, Run(L, Boot(L, disk), es, k - 1).s, es[k - 1], limit);
    }
  }

  // ---------------------------------------------------------------- when log_write panics

  ghost predicate PanicFree(L: Layout, disk: seq<Block>, limit: Limit)
    requires L.start < |disk|
  {
    forall es: seq<Event> :: Budgeted(L, Boot(L, disk), es, |es|, limit) ==> Run(L, Boot(L, disk), es, |es|) != Panic
  }

  /** A log area large enough for a limit.  The area holds one header block beside the logged blocks. */
  predicate Ample(size: nat, limit: Limit)
  {
    match limit
    case ByCalls => size > LOGSIZE
    case ByBlocks(d) => d == 0 || (d < MAXOPBLOCKS && size > MAXOPBLOCKS + 2 * d + 1)
  }

  /** Within its limit an operation never finds an ample log full. */
  lemma RoomLeft(s: State, e: Event, size: nat, limit: Limit)
    requires Reserve(s, limit) && Allowed(s, e, limit) && e.Write? && Ample(size, limit)
    ensures |s.lh| < LOGSIZE && |s.lh| < size - 1
  {
    hide Unused;
    var d := Share(limit);
    UnusedRemove(s.active, d, e.op);
    UnusedBounds(s.active - {e.op}, d);
  }

  lemma StepNoPanic(L: Layout, s: State, sp: Spec, e: Event, limit: Limit)
    requires Inv(L, s, sp) && Reserve(s, limit) && Allowed(s, e, limit) && Ample(L.size, limit)
    ensures Step(L, s, e) != Panic
  {
    hide HeaderFits, HeaderOf, WriteHeader, ClearHeader, Bread, LhFits, Pending, Unused;
    if e.Write? {
      RoomLeft(s, e, L.size, limit);
      Empty(s.active);
    }
    if e.End? && e.op in s.active {
      assert sp.open != {};
    }
  }

  lemma {:induction false} RunNoPanic(L: Layout, disk: seq<Block>, es: seq<Event>, k: nat, limit: Limit)
    requires GoodImage(L, disk) && Ample(L.size, limit) && k <= |es|
    requires Budgeted(L, Boot(L, disk), es, k, limit)
    ensures Run(L, Boot(L, disk), es, k) != Panic
  {
    hide Reserve, Step, Allowed, Fresh, Inv, Ample, Boot;
    if k > 0 {
      RunNoPanic(L, disk, es, k - 1, limit);
      if Run(L, Boot(L, disk), es, k - 1).Next? {
        RunInv(L, disk, es, k - 1);
        GroupCommitBound(L, disk, es, k - 1, limit);
        StepNoPanic(L, Run(L, Boot(L, disk), es, k - 1).s, SpecRun(Fresh(L, disk), es, k - 1), es[k - 1], limit);
      }
    }
  }

  // ---------------------------------------------------------------- a run that fills the log

  /** Room for LOGSIZE distinct home blocks, and nothing to recover. */
  predicate Roomy(L: Layout, disk: seq<Block>)
  {
    GoodImage(L, disk) && HeaderOf(disk[L.start]) == [] && L.start + L.size + LOGSIZE <= L.nblocks
  }

  /** How far a run can fill the log: the blocks each operation may add, but not past MAXOPBLOCKS. */
  function Each(limit: Limit): nat { if Share(limit) < MAXOPBLOCKS then Share(limit) else MAXOPBLOCKS }

  /** t blocks are logged.  Operation 0 has been there all along; others added the first MAXOPBLOCKS blocks,
      one each; then operation 11 began and added its share, and after it operation 0. */
  predicate Filled(L: Layout, s: State, t: nat, each: nat)
  {
    && s.pc == Idle && |s.lh| == t
    && (forall i :: 0 <= i < t ==> s.lh[i] == L.start + L.size + i)
    && s.active.Keys == (if t < MAXOPBLOCKS then {0} else {0, 11})
    && (var a := if t <= MAXOPBLOCKS + each then 0 else t - MAXOPBLOCKS - each; s.active[0] == OpLog(a, a))
    && (t >= MAXOPBLOCKS ==>
          var b := if t <= MAXOPBLOCKS + each then t - MAXOPBLOCKS else each; s.active[11] == OpLog(b, b))
  }

  /** es, all within the limit, leads to s. */
  ghost predicate Leads(L: Layout, disk: seq<Block>, es: seq<Event>, s: State, limit: Limit)
  {
    && L.start < |disk| && Run(L, Boot(L, disk), es, |es|) == Next(s) && Budgeted(L, Boot(L, disk), es, |es|, limit)
  }

  lemma {:induction false} SamePrefix(L: Layout, s: State, es: seq<Event>, e: Event, k: nat, limit: Limit)
    requires L.start < |s.disk| && k <= |es|
    ensures Run(L, s, es + [e], k) == Run(L, s, es, k)
    ensures Budgeted(L, s, es + [e], k, limit) == Budgeted(L, s, es, k, limit)
  {
    hide Step, Allowed;
    if k > 0 {
      SamePrefix(L, s, es, e, k - 1, limit);
      assert (es + [e])[k - 1] == es[k - 1];
    }
  }

  lemma Append(L: Layout, disk: seq<Block>, es: seq<Event>, s: State, e: Event, limit: Limit)
    requires Leads(L, disk, es, s, limit) && Allowed(s, e, limit)
    ensures L.start < |s.disk|
    ensures Run(L, Boot(L, disk), es + [e], |es + [e]|) == Step(L, s, e)
    ensures Budgeted(L, Boot(L, disk), es + [e], |es + [e]|, limit)
    ensures Step(L, s, e).Next? ==> Leads(L, disk, es + [e], Step(L, s, e).s, limit)
  {
    hide Step, Boot;
    SamePrefix(L, Boot(L, disk), es, e, |es|, limit);
  }

  lemma FillStart(L: Layout, disk: seq<Block>, limit: Limit) returns (es: seq<Event>, s: State)
    requires Roomy(L, disk)
    ensures Leads(L, disk, es, s, limit) && Filled(L, s, 0, Each(limit))
  {
    hide HeaderFits, HeaderOf, ClearHeader;
    s := Boot(L, disk);
    es := [];
    Append(L, disk, es, s, ClearHead, limit);
    es, s := es + [ClearHead], Step(L, s, ClearHead).s;
    Append(L, disk, es, s, Finish, limit);
    es, s := es + [Finish], Step(L, s, Finish).s;
    assert s.active == map[] && s.lh == [] && s.pc == Idle;
    Append(L, disk, es, s, Begin(0), limit);
    es, s := es + [Begin(0)], Step(L, s, Begin(0)).s;
    assert s.active == map[0 := OpLog(0, 0)];
  }

  lemma BeginNext(L: Layout, s: State, op: OpId)
    requires L.start < |s.disk| && s.pc == Idle && op !in s.active && |s.lh| + (|s.active| + 1) * MAXOPBLOCKS <= LOGSIZE
    ensures Step(L, s, Begin(op)) == Next(s.(active := s.active[op := OpLog(0, 0)]))
  {
  }

  lemma WriteNext(L: Layout, s: State, op: OpId, b: nat, v: OpLog)
    requires L.start < |s.disk| && |s.lh| < LOGSIZE && |s.lh| < L.size - 1 && op in s.active && L.Home(b) && b !in s.lh
    requires v == OpLog(s.active[op].added + 1, s.active[op].calls + 1)
    ensures var r := Step(L, s, Write(op, b, ZeroBlock()));
            r.Next? && r.s == s.(lh := s.lh + [b], pinned := r.s.pinned, active := s.active[op := v])
  {
    hide ZeroBlock;
    Empty(s.active);
  }

  lemma EndNext(L: Layout, s: State, op: OpId)
    requires L.start < |s.disk| && s.pc == Idle && op in s.active && s.active - {op} != map[]
    ensures Step(L, s, End(op)) == Next(s.(active := s.active - {op}))
  {
    Empty(s.active - {op});
  }

  lemma RoomyHome(L: Layout, disk: seq<Block>, t: nat)
    requires Roomy(L, disk) && t < LOGSIZE
    ensures L.Home(L.start + L.size + t)
  {
    hide HeaderOf;
  }

  /** Beside operation 0, one more comes, adds a block and goes. */
  lemma ComeAndGo(L: Layout, disk: seq<Block>, es0: seq<Event>, s0: State, op: OpId, b: nat, limit: Limit)
    returns (es: seq<Event>, s: State)
    requires Leads(L, disk, es0, s0, limit) && Share(limit) > 0 && s0.pc == Idle && s0.active == map[0 := OpLog(0, 0)]
    requires op != 0 && L.Home(b) && b !in s0.lh && |s0.lh| < MAXOPBLOCKS && |s0.lh| < L.size - 1
    ensures Leads(L, disk, es, s, limit) && s == s0.(lh := s0.lh + [b], pinned := s.pinned)
  {
    hide Leads, ZeroBlock, Step;
    Append(L, disk, es0, s0, Begin(op), limit);
    BeginNext(L, s0, op);
    var es1, s1 := es0 + [Begin(op)], s0.(active := s0.active[op := OpLog(0, 0)]);
    var w := Write(op, b, ZeroBlock());
    Append(L, disk, es1, s1, w, limit);
    WriteNext(L, s1, op, b, OpLog(1, 1));
    var es2, s2 := es1 + [w], Step(L, s1, w).s;
    assert s2.active - {op} == map[0 := OpLog(0, 0)];
    Append(L, disk, es2, s2, End(op), limit);
    EndNext(L, s2, op);
    es, s := es2 + [End(op)], s2.(active := s2.active - {op});
  }

  /** The first MAXOPBLOCKS blocks; after the last of them operation 11 begins. */
  lemma FillEarly(L: Layout, disk: seq<Block>, es0: seq<Event>, s0: State, t: nat, limit: Limit)
    returns (es: seq<Event>, s: State)
    requires Roomy(L, disk) && Leads(L, disk, es0, s0, limit) && Filled(L, s0, t, Each(limit))
    requires t < MAXOPBLOCKS && t < L.size - 1 && Share(limit) > 0
    ensures Leads(L, disk, es, s, limit) && Filled(L, s, t + 1, Each(limit))
  {
    hide Leads, Step, Roomy;
    RoomyHome(L, disk, t);
    assert s0.active == map[0 := OpLog(0, 0)];
    es, s := ComeAndGo(L, disk, es0, s0, t + 1, L.start + L.size + t, limit);
    if t + 1 == MAXOPBLOCKS {
      Append(L, disk, es, s, Begin(11), limit);
      BeginNext(L, s, 11);
      es, s := es + [Begin(11)], s.(active := s.active[11 := OpLog(0, 0)]);
    }
  }

  /** Operation 11, and then operation 0, adds one more block of its share. */
  lemma FillLate(L: Layout, disk: seq<Block>, es0: seq<Event>, s0: State, t: nat, limit: Limit)
    returns (es: seq<Event>, s: State)
    requires Roomy(L, disk) && Leads(L, disk, es0, s0, limit) && Filled(L, s0, t, Each(limit))
    requires MAXOPBLOCKS <= t < MAXOPBLOCKS + 2 * Each(limit) && t < L.size - 1
    ensures Leads(L, disk, es, s, limit) && Filled(L, s, t + 1, Each(limit))
  {
    hide Leads, ZeroBlock, Step, Roomy;
    var op, b := if t < MAXOPBLOCKS + Each(limit) then 11 else 0, L.start + L.size + t;
    var e := Write(op, b, ZeroBlock());
    RoomyHome(L, disk, t);
    assert op in s0.active && b !in s0.lh;
    Append(L, disk, es0, s0, e, limit);
    WriteNext(L, s0, op, b, OpLog(s0.active[op].added + 1, s0.active[op].calls + 1));
    es, s := es0 + [e], Step(L, s0, e).s;
  }

  lemma {:induction false} Fill(L: Layout, disk: seq<Block>, t: nat, limit: Limit) returns (es: seq<Event>, s: State)
    requires Roomy(L, disk) && Share(limit) > 0 && t <= MAXOPBLOCKS + 2 * Each(limit) && t <= L.size - 1
    ensures Leads(L, disk, es, s, limit) && Filled(L, s, t, Each(limit))
  {
    hide Leads, Filled, Roomy;
    if t == 0 {
      es, s := FillStart(L, disk, limit);
    } else {
      es, s := Fill(L, disk, t - 1, limit);
      if t <= MAXOPBLOCKS {
        es, s := FillEarly(L, disk, es, s, t - 1, limit);
      } else {
        es, s := FillLate(L, disk, es, s, t - 1, limit);
      }
    }
  }

  /** log_write tests for a full log before it looks for the block.  So once the operations have filled the
      log as far as they may, writing the first block again panics, unless the log is ample. */
  lemma PanicsUnlessAmple(L: Layout, disk: seq<Block>, limit: Limit)
    requires Roomy(L, disk) && !Ample(L.size, limit)
    ensures !PanicFree(L, disk, limit)
  {
    hide Roomy, Leads;
    var most := MAXOPBLOCKS + 2 * Each(limit);
    var t := if L.size - 1 <= most then L.size - 1 else most;
    RoomyValid(L, disk);
    var es, s := Fill(L, disk, t, limit);
    var e := Write(0, L.start + L.size, ZeroBlock());
    LeadsDisk(L, disk, es, s, limit);
    FilledPanics(L, s, t, limit);
    Append(L, disk, es, s, e, limit);
    assert Budgeted(L, Boot(L, disk), es + [e], |es + [e]|, limit);
  }

  lemma LeadsDisk(L: Layout, disk: seq<Block>, es: seq<Event>, s: State, limit: Limit)
    requires Leads(L, disk, es, s, limit)
    ensures L.start < |s.disk|
  {
  }

  lemma RoomyValid(L: Layout, disk: seq<Block>)
    requires Roomy(L, disk)
    ensures L.size >= 1 && L.start < |disk|
  {
  }

  lemma FilledPanics(L: Layout, s: State, t: nat, limit: Limit)
    requires Filled(L, s, t, Each(limit)) && L.start < |s.disk| && !Ample(L.size, limit) && L.size >= 1
    requires t == (var most := MAXOPBLOCKS + 2 * Each(limit); if L.size - 1 <= most then L.size - 1 else most)
    ensures var e := Write(0, L.start + L.size, ZeroBlock()); Allowed(s, e, limit) && Step(L, s, e) == Panic
  {
    hide ZeroBlock;
    assert t > 0 ==> s.lh[0] == L.start + L.size;
  }

  /** No run within the limit panics exactly when the log area is ample for it. */
  lemma PanicFreeIff(L: Layout, disk: seq<Block>, limit: Limit)
    requires Roomy(L, disk)
    ensures PanicFree(L, disk, limit) <==> Ample(L.size, limit)
  {
    if Ample(L.size, limit) {
      forall es: seq<Event> | Budgeted(L, Boot(L, disk), es, |es|, limit)
        ensures Run(L, Boot(L, disk), es, |es|) != Panic
      {
        RunNoPanic(L, disk, es, |es|, limit);
      }
    } else {
      PanicsUnlessAmple(L, disk, limit);
    }
  }

  /** The log area that mkfs makes has LOGSIZE blocks, its header among them.  It is safe for operations that
      add fewer than MAXOPBLOCKS blocks, and for no larger promise. */
  lemma MkfsLog(L: Layout, disk: seq<Block>, d: nat)
    requires Roomy(L, disk) && L.size == LOGSIZE
    ensures PanicFree(L, disk, ByBlocks(d)) <==> d < MAXOPBLOCKS
    ensures !PanicFree(L, disk, ByCalls)
  {
    PanicFreeIff(L, disk, ByBlocks(d));
    PanicFreeIff(L, disk, ByCalls);
  }
}
