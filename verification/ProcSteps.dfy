/** proc.c: the process table as a transition system.  A step is one section under ptable.lock, or
    one of fork's stores to a slot that no other process touches yet. */
module ProcSteps {
  import opened Wrappers

  datatype ProcState = UNUSED | EMBRYO | SLEEPING | RUNNABLE | RUNNING | ZOMBIE

  /** A sleep channel: a process (used only by wait, with the process itself), or anything else. */
  datatype Chan = NoChan | OfProc(p: nat) | Other(n: nat)

  /** A slot.  `forking` is where its process stands in fork: the slot of the child it is building. */
  datatype Proc = Proc(state: ProcState, pid: nat, parent: Option<nat>, chan: Chan, killed: bool, forking: Option<nat>)

  /** The table, what each CPU runs, and the slot of init. */
  datatype Table = Table(procs: seq<Proc>, cpus: seq<Option<nat>>, init: nat, nextpid: nat)

  predicate Published(s: ProcState) { s.SLEEPING? || s.RUNNABLE? || s.RUNNING? || s.ZOMBIE? }

  predicate Alive(s: ProcState) { s.SLEEPING? || s.RUNNABLE? || s.RUNNING? }

  /** wakeup1 on one slot. */
  function WakeOne(p: Proc, chan: Chan): Proc
  {
    if p.state.SLEEPING? && p.chan == chan then p.(state := RUNNABLE) else p
  }

  /** cur is the process current on the given CPU. */
  predicate Current(t: Table, cpu: nat, cur: nat)
  {
    cpu < |t.cpus| && cur < |t.procs| && t.cpus[cpu] == Some(cur)
  }

  // ---------------------------------------------------------------- steps

  /** Every slot but those in `but` is the same, and so are the CPUs. */
  predicate SameBut(t: Table, t': Table, but: set<nat>)
  {
    && |t'.procs| == |t.procs| && t'.init == t.init && t'.cpus == t.cpus
    && (forall i :: 0 <= i < |t.procs| && i !in but ==> t'.procs[i] == t.procs[i])
  }

  /** cur gives up the CPU, having become p. */
  predicate GivesUp(t: Table, t': Table, cpu: nat, cur: nat, p: Proc)
  {
    && Current(t, cpu, cur) && SameBut(t.(cpus := t'.cpus), t', {cur})
    && t'.cpus == t.cpus[cpu := None] && t'.procs[cur] == p && t'.nextpid == t.nextpid
  }

  /** fork, allocproc: take an unused slot. */
  predicate AllocStep(t: Table, t': Table, cpu: nat, cur: nat, np: nat)
  {
    && Current(t, cpu, cur) && t.procs[cur].forking.None? && np < |t.procs| && t.procs[np].state.UNUSED?
    && np != cur && SameBut(t, t', {cur, np}) && t'.nextpid == t.nextpid + 1
    && t'.procs[cur] == t.procs[cur].(forking := Some(np))
    && t'.procs[np] == t.procs[np].(state := EMBRYO, pid := t.nextpid)
  }

  /** fork gives the slot back: no kernel stack or no memory for the child. */
  predicate ForkFailStep(t: Table, t': Table, cpu: nat, cur: nat)
  {
    && Current(t, cpu, cur) && t.procs[cur].forking.Some?
    && var np := t.procs[cur].forking.value;
       && np < |t.procs| && np != cur && t.procs[np].parent.None? && SameBut(t, t', {cur, np})
          && t'.nextpid == t.nextpid
       && t'.procs[cur] == t.procs[cur].(forking := None)
       && t'.procs[np] == t.procs[np].(state := UNUSED)
  }

  /** fork: np->parent = curproc. */
  predicate SetParentStep(t: Table, t': Table, cpu: nat, cur: nat)
  {
    && Current(t, cpu, cur) && t.procs[cur].forking.Some?
    && var np := t.procs[cur].forking.value;
       && np < |t.procs| && SameBut(t, t', {np}) && t'.nextpid == t.nextpid
       && t'.procs[np] == t.procs[np].(parent := Some(cur))
  }

  /** fork: np->state = RUNNABLE. */
  predicate PublishStep(t: Table, t': Table, cpu: nat, cur: nat)
  {
    && Current(t, cpu, cur) && t.procs[cur].forking.Some?
    && var np := t.procs[cur].forking.value;
       && np < |t.procs| && np != cur && t.procs[np].parent == Some(cur) && SameBut(t, t', {cur, np})
          && t'.nextpid == t.nextpid
       && t'.procs[cur] == t.procs[cur].(forking := None)
       && t'.procs[np] == t.procs[np].(state := RUNNABLE)
  }

  predicate HasZombie(procs: seq<Proc>, parent: nat)
  {
    exists c :: 0 <= c < |procs| && procs[c].parent == Some(parent) && procs[c].state.ZOMBIE?
  }

  /** What exit of cur makes of slot p other than cur: its parent is woken, its children go to init,
      and init is woken if one of them is a zombie. */
  function AfterExit(p: Proc, cur: nat, init: nat, parent: Option<nat>, wakeInit: bool): Proc
  {
    var p1 := if parent.Some? then WakeOne(p, OfProc(parent.value)) else p;
    var p2 := if p1.parent == Some(cur) then p1.(parent := Some(init)) else p1;
    if wakeInit then WakeOne(p2, OfProc(init)) else p2
  }

  predicate ExitStep(t: Table, t': Table, cpu: nat, cur: nat)
  {
    && Current(t, cpu, cur) && cur != t.init && t.procs[cur].forking.None?
    && |t'.procs| == |t.procs| && t'.init == t.init && t'.cpus == t.cpus[cpu := None] && t'.nextpid == t.nextpid
    && (forall i :: 0 <= i < |t.procs| && i != cur ==>
          t'.procs[i] == AfterExit(t.procs[i], cur, t.init, t.procs[cur].parent, HasZombie(t.procs, cur)))
    && t'.procs[cur] == t.procs[cur].(state := ZOMBIE)
  }

  /** wait finds a zombie child and frees its slot. */
  predicate ReapStep(t: Table, t': Table, cpu: nat, cur: nat, c: nat)
  {
    && Current(t, cpu, cur) && t.procs[cur].forking.None? && c < |t.procs| && c != cur
    && t.procs[c].parent == Some(cur) && t.procs[c].state.ZOMBIE? && SameBut(t, t', {c}) && t'.nextpid == t.nextpid
    && t'.procs[c] == t.procs[c].(state := UNUSED, pid := 0, parent := None, killed := false)
  }

  /** wait has children, none of them a zombie, and sleeps on the process itself. */
  predicate WaitSleepStep(t: Table, t': Table, cpu: nat, cur: nat)
  {
    && Current(t, cpu, cur) && t.procs[cur].forking.None? && !HasZombie(t.procs, cur)
    && GivesUp(t, t', cpu, cur, t.procs[cur].(state := SLEEPING, chan := OfProc(cur)))
  }

  /** sleep on something that is not a process. */
  predicate SleepStep(t: Table, t': Table, cpu: nat, cur: nat, n: nat)
  {
    && Current(t, cpu, cur) && t.procs[cur].forking.None?
    && GivesUp(t, t', cpu, cur, t.procs[cur].(state := SLEEPING, chan := Other(n)))
  }

  predicate YieldStep(t: Table, t': Table, cpu: nat, cur: nat)
  {
    Current(t, cpu, cur) && GivesUp(t, t', cpu, cur, t.procs[cur].(state := RUNNABLE))
  }

  predicate WakeupStep(t: Table, t': Table, chan: Chan)
  {
    && |t'.procs| == |t.procs| && t'.init == t.init && t'.cpus == t.cpus && t'.nextpid == t.nextpid
    && (forall i :: 0 <= i < |t.procs| ==> t'.procs[i] == WakeOne(t.procs[i], chan))
  }

  predicate KillStep(t: Table, t': Table, p: nat)
  {
    && p < |t.procs| && SameBut(t, t', {p}) && t'.nextpid == t.nextpid
    && t'.procs[p] == t.procs[p].(killed := true, state := if t.procs[p].state.SLEEPING? then RUNNABLE
                                  else t.procs[p].state)
  }

  predicate ScheduleStep(t: Table, t': Table, cpu: nat, p: nat)
  {
    && cpu < |t.cpus| && t.cpus[cpu].None? && p < |t.procs| && t.procs[p].state.RUNNABLE?
    && SameBut(t.(cpus := t'.cpus), t', {p}) && t'.cpus == t.cpus[cpu := Some(p)] && t'.nextpid == t.nextpid
    && t'.procs[p] == t.procs[p].(state := RUNNING)
  }

  // ---------------------------------------------------------------- invariant

  /** A published process but init has a living parent; a slot in the making belongs to the process
      that is forking it; a free slot has no parent. */
  predicate ParentAt(t: Table, c: nat)
  {
    c < |t.procs| &&
    var p := t.procs[c];
    && (c != t.init && Published(p.state) ==>
          p.parent.Some? && p.parent.value < |t.procs| && Alive(t.procs[p.parent.value].state))
    && p.parent != Some(c) && (p.state.UNUSED? ==> p.parent.None?)
    && (p.state.EMBRYO? && p.parent.Some? ==> p.parent.value < |t.procs| && t.procs[p.parent.value].forking == Some(c))
  }

  /** Only a running or preempted process is inside fork. */
  predicate ForkAt(t: Table, p: nat)
  {
    p < |t.procs| &&
    (t.procs[p].forking.Some? ==>
       && (t.procs[p].state.RUNNING? || t.procs[p].state.RUNNABLE?)
       && t.procs[p].forking.value < |t.procs| && t.procs[t.procs[p].forking.value].state.EMBRYO?)
  }

  /** No two processes build the same child. */
  predicate ForkApart(t: Table, p: nat, q: nat)
  {
    p < |t.procs| && q < |t.procs| && (p != q && t.procs[p].forking.Some? ==> t.procs[p].forking != t.procs[q].forking)
  }

  predicate WaitsFor(t: Table, p: nat)
  {
    p < |t.procs| && t.procs[p].state.SLEEPING? && t.procs[p].chan == OfProc(p)
  }

  /** p does not sleep in wait while its child c is a zombie. */
  predicate WaitAt(t: Table, p: nat, c: nat)
  {
    WaitsFor(t, p) && c < |t.procs| && t.procs[c].parent == Some(p) ==> !t.procs[c].state.ZOMBIE?
  }

  /** wait alone sleeps on a process, and on its own. */
  predicate ChanAt(t: Table, p: nat)
  {
    p < |t.procs| && t.procs[p].state.SLEEPING? && t.procs[p].chan.OfProc? ==> t.procs[p].chan == OfProc(p)
  }

  /** The process on a CPU is RUNNING. */
  predicate CpuAt(t: Table, c: nat)
  {
    c < |t.cpus| && t.cpus[c].Some? ==> t.cpus[c].value < |t.procs| && t.procs[t.cpus[c].value].state.RUNNING?
  }

  predicate CpuApart(t: Table, c: nat, d: nat)
  {
    c < |t.cpus| && d < |t.cpus| && c != d && t.cpus[c].Some? ==> t.cpus[c] != t.cpus[d]
  }

  /** A RUNNING process is on some CPU. */
  ghost predicate RunsAt(t: Table, p: nat)
  {
    p < |t.procs| && t.procs[p].state.RUNNING? ==> exists c :: 0 <= c < |t.cpus| && t.cpus[c] == Some(p)
  }

  ghost predicate Family(t: Table)
  {
    && t.init < |t.procs| && Alive(t.procs[t.init].state) && t.procs[t.init].parent.None?
    && (forall c: nat {:trigger ParentAt(t, c)} :: c < |t.procs| ==> ParentAt(t, c))
    && (forall p: nat {:trigger ForkAt(t, p)} :: p < |t.procs| ==> ForkAt(t, p))
    && (forall p: nat, q: nat {:trigger ForkApart(t, p, q)} :: p < |t.procs| && q < |t.procs| ==> ForkApart(t, p, q))
  }

  ghost predicate Waits(t: Table)
  {
    && (forall p: nat, c: nat {:trigger WaitAt(t, p, c)} :: WaitAt(t, p, c))
    && (forall p: nat {:trigger ChanAt(t, p)} :: ChanAt(t, p))
  }

  ghost predicate Cpus(t: Table)
  {
    && (forall c: nat {:trigger CpuAt(t, c)} :: CpuAt(t, c))
    && (forall c: nat, d: nat {:trigger CpuApart(t, c, d)} :: CpuApart(t, c, d))
    && (forall p: nat {:trigger RunsAt(t, p)} :: RunsAt(t, p))
  }

  predicate PidAt(t: Table, p: nat)
  {
    p < |t.procs| ==> t.procs[p].pid < t.nextpid && (!t.procs[p].state.UNUSED? ==> t.procs[p].pid != 0)
  }

  predicate PidApart(t: Table, p: nat, q: nat)
  {
    p < |t.procs| && q < |t.procs| && p != q && t.procs[p].pid != 0 ==> t.procs[p].pid != t.procs[q].pid
  }

  /** Every process has a pid of its own, below the next one; a freed slot may keep the pid it had. */
  ghost predicate Pids(t: Table)
  {
    && 0 < t.nextpid
    && (forall p: nat {:trigger PidAt(t, p)} :: PidAt(t, p))
    && (forall p: nat, q: nat {:trigger PidApart(t, p, q)} :: PidApart(t, p, q))
  }

  ghost predicate Inv(t: Table) { Family(t) && Waits(t) && Cpus(t) && Pids(t) }

  datatype Event =
    | Alloc(cpu: nat, cur: nat, np: nat) | ForkFail(cpu: nat, cur: nat)
    | SetParent(cpu: nat, cur: nat) | Publish(cpu: nat, cur: nat)
    | Exit(cpu: nat, cur: nat) | Reap(cpu: nat, cur: nat, c: nat) | WaitSleep(cpu: nat, cur: nat)
    | Sleep(cpu: nat, cur: nat, n: nat) | Yield(cpu: nat, cur: nat)
    | Wakeup(n: nat) | Kill(p: nat) | Schedule(cpu: nat, p: nat)

  predicate Next(t: Table, t': Table, e: Event)
  {
    match e
    case Alloc(cpu, cur, np) => AllocStep(t, t', cpu, cur, np)
    case ForkFail(cpu, cur) => ForkFailStep(t, t', cpu, cur)
    case SetParent(cpu, cur) => SetParentStep(t, t', cpu, cur)
    case Publish(cpu, cur) => PublishStep(t, t', cpu, cur)
    case Exit(cpu, cur) => ExitStep(t, t', cpu, cur)
    case Reap(cpu, cur, c) => ReapStep(t, t', cpu, cur, c)
    case WaitSleep(cpu, cur) => WaitSleepStep(t, t', cpu, cur)
    case Sleep(cpu, cur, n) => SleepStep(t, t', cpu, cur, n)
    case Yield(cpu, cur) => YieldStep(t, t', cpu, cur)
    case Wakeup(n) => WakeupStep(t, t', Other(n))
    case Kill(p) => KillStep(t, t', p)
    case Schedule(cpu, p) => ScheduleStep(t, t', cpu, p)
  }

  /** What is known of the process that takes the step. */
  lemma Actor(t: Table, t': Table, e: Event)
    requires Inv(t) && Next(t, t', e) && !e.Wakeup? && !e.Kill? && !e.Schedule?
    ensures e.cur < |t.procs| && t.procs[e.cur].state.RUNNING? && ForkAt(t, e.cur) && ParentAt(t, e.cur)
    ensures t.procs[e.cur].forking.Some? ==>
              ParentAt(t, t.procs[e.cur].forking.value) && ForkAt(t, t.procs[e.cur].forking.value)
  {
    assert CpuAt(t, e.cpu);
    assert ForkAt(t, e.cur);
  }

  lemma ParentKeptFork(t: Table, t': Table, e: Event, c: nat)
    requires Inv(t) && Next(t, t', e) && (e.Alloc? || e.ForkFail? || e.SetParent? || e.Publish?) && c < |t'.procs|
    ensures ParentAt(t', c)
  {
    hide Waits, Cpus, ExitStep, ReapStep, WaitSleepStep, SleepStep, YieldStep, WakeupStep, KillStep, ScheduleStep;
    Actor(t, t', e);
    assert ParentAt(t, c) && ForkAt(t, c);
    assert t.procs[c].parent.Some? && t.procs[c].parent.value < |t.procs| ==> ForkAt(t, t.procs[c].parent.value);
  }

  lemma AfterExitShape(p: Proc, cur: nat, init: nat, parent: Option<nat>, wakeInit: bool)
    ensures var p' := AfterExit(p, cur, init, parent, wakeInit);
            && p'.forking == p.forking && p'.parent == (if p.parent == Some(cur) then Some(init) else p.parent)
            && (p'.state == p.state || (p.state.SLEEPING? && p'.state.RUNNABLE?))
  {
  }

  /** The slots after an exit, without saying who is woken. */
  lemma ExitShape(t: Table, t': Table, e: Event, i: nat)
    requires Inv(t) && Next(t, t', e) && e.Exit? && i < |t.procs|
    ensures |t'.procs| == |t.procs| && t'.init == t.init && e.cur < |t.procs| && e.cur != t.init
    ensures i == e.cur ==> t'.procs[i] == t.procs[i].(state := ZOMBIE) && t.procs[i].state.RUNNING?
                           && t.procs[i].forking.None?
    ensures i != e.cur ==>
              && t'.procs[i].forking == t.procs[i].forking
              && t'.procs[i].parent == (if t.procs[i].parent == Some(e.cur) then Some(t.init) else t.procs[i].parent)
              && (t'.procs[i].state == t.procs[i].state || (t.procs[i].state.SLEEPING? && t'.procs[i].state.RUNNABLE?))
  {
    hide HasZombie, Family, Waits, AfterExit;
    assert CpuAt(t, e.cpu);
    AfterExitShape(t.procs[i], e.cur, t.init, t.procs[e.cur].parent, HasZombie(t.procs, e.cur));
  }

  lemma ParentKeptExit(t: Table, t': Table, e: Event, c: nat)
    requires Inv(t) && Next(t, t', e) && e.Exit? && c < |t.procs|
    ensures ParentAt(t', c)
  {
    hide Next, Waits, Cpus;
    ExitShape(t, t', e, c);
    ExitShape(t, t', e, e.cur);
    assert ParentAt(t, c) && ForkAt(t, e.cur);
    ExitShape(t, t', e, t.init);
    if t.procs[c].parent.Some? && t.procs[c].parent.value < |t.procs| {
      ExitShape(t, t', e, t.procs[c].parent.value);
    }
  }

  lemma ParentKeptOther(t: Table, t': Table, e: Event, c: nat)
    requires Inv(t) && Next(t, t', e) && c < |t'.procs|
    requires !(e.Alloc? || e.ForkFail? || e.SetParent? || e.Publish? || e.Exit?)
    ensures ParentAt(t', c)
  {
    hide HasZombie, Waits, Cpus;
    if !e.Wakeup? && !e.Kill? && !e.Schedule? {
      Actor(t, t', e);
    }
    assert ParentAt(t, c);
    assert t.procs[c].parent.Some? && t.procs[c].parent.value < |t.procs| ==> ForkAt(t, t.procs[c].parent.value);
  }

  lemma ForkKept(t: Table, t': Table, e: Event, p: nat)
    requires Inv(t) && Next(t, t', e) && p < |t'.procs|
    ensures ForkAt(t', p)
  {
    hide Inv, Next, ForkAt;
    if e.Alloc? || e.ForkFail? || e.SetParent? || e.Publish? {
      ForkKeptFork(t, t', e, p);
    } else {
      ForkKeptOther(t, t', e, p);
    }
  }

  lemma ForkKeptFork(t: Table, t': Table, e: Event, p: nat)
    requires Inv(t) && Next(t, t', e) && p < |t'.procs| && (e.Alloc? || e.ForkFail? || e.SetParent? || e.Publish?)
    ensures ForkAt(t', p)
  {
    hide HasZombie, Waits, Cpus, ExitStep;
    Actor(t, t', e);
    assert ForkApart(t, p, e.cur);
    assert ForkAt(t, p);
  }

  lemma ForkKeptOther(t: Table, t': Table, e: Event, p: nat)
    requires Inv(t) && Next(t, t', e) && p < |t'.procs| && !(e.Alloc? || e.ForkFail? || e.SetParent? || e.Publish?)
    ensures ForkAt(t', p)
  {
    hide HasZombie, Waits, Cpus, AllocStep, ForkFailStep, SetParentStep, PublishStep;
    if !e.Wakeup? && !e.Kill? && !e.Schedule? {
      Actor(t, t', e);
    }
    assert ForkAt(t, p);
  }

  lemma ForkApartKept(t: Table, t': Table, e: Event, p: nat, q: nat)
    requires Inv(t) && Next(t, t', e) && p < |t'.procs| && q < |t'.procs|
    ensures ForkApart(t', p, q)
  {
    hide HasZombie, Waits, Cpus;
    assert ForkApart(t, p, q) && ForkAt(t, p) && ForkAt(t, q);
  }

  lemma FamilyKept(t: Table, t': Table, e: Event)
    requires Inv(t) && Next(t, t', e)
    ensures Family(t')
  {
    hide HasZombie, ParentAt, ForkAt, ForkApart;
    InitKept(t, t', e);
    forall c: nat | c < |t'.procs| ensures ParentAt(t', c) {
      if e.Alloc? || e.ForkFail? || e.SetParent? || e.Publish? {
        ParentKeptFork(t, t', e, c);
      } else if e.Exit? {
        assert |t'.procs| == |t.procs|;
        ParentKeptExit(t, t', e, c);
      } else {
        ParentKeptOther(t, t', e, c);
      }
    }
    forall p: nat | p < |t'.procs| ensures ForkAt(t', p) {
      ForkKept(t, t', e, p);
    }
    forall p: nat, q: nat | p < |t'.procs| && q < |t'.procs| ensures ForkApart(t', p, q) {
      ForkApartKept(t, t', e, p, q);
    }
  }

  lemma InitKept(t: Table, t': Table, e: Event)
    requires Inv(t) && Next(t, t', e)
    ensures t'.init == t.init < |t'.procs| && Alive(t'.procs[t'.init].state) && t'.procs[t'.init].parent.None?
  {
    hide HasZombie;
    if !e.Wakeup? && !e.Kill? && !e.Schedule? {
      Actor(t, t', e);
    }
  }

  /** The heart of the protocol: an exiting process wakes its parent, and init if it inherits a zombie. */
  lemma WaitKeptExit(t: Table, t': Table, e: Event, p: nat, c: nat)
    requires Inv(t) && Next(t, t', e) && e.Exit?
    ensures WaitAt(t', p, c)
  {
    Actor(t, t', e);
    assert WaitAt(t, p, c) && ChanAt(t, p);
  }

  lemma WaitKeptOther(t: Table, t': Table, e: Event, p: nat, c: nat)
    requires Inv(t) && Next(t, t', e) && !e.Exit?
    ensures WaitAt(t', p, c)
  {
    assert WaitAt(t, p, c);
    if e.SetParent? {
      Actor(t, t', e);
    }
  }

  lemma ChanKept(t: Table, t': Table, e: Event, p: nat)
    requires Inv(t) && Next(t, t', e)
    ensures ChanAt(t', p)
  {
    hide HasZombie;
    assert ChanAt(t, p);
  }

  lemma WaitsKept(t: Table, t': Table, e: Event)
    requires Inv(t) && Next(t, t', e)
    ensures Waits(t')
  {
    hide WaitAt, ChanAt, Next;
    forall p: nat, c: nat ensures WaitAt(t', p, c) {
      if e.Exit? {
        WaitKeptExit(t, t', e, p, c);
      } else {
        WaitKeptOther(t, t', e, p, c);
      }
    }
    forall p: nat ensures ChanAt(t', p) {
      ChanKept(t, t', e, p);
    }
  }

  lemma CpuKept(t: Table, t': Table, e: Event, c: nat)
    requires Inv(t) && Next(t, t', e)
    ensures CpuAt(t', c)
  {
    hide HasZombie, Waits, Family;
    assert CpuAt(t, c);
    if !e.Wakeup? && !e.Kill? {
      assert CpuAt(t, e.cpu) && CpuApart(t, c, e.cpu);
    }
    if !e.Wakeup? && !e.Kill? && !e.Schedule? {
      Actor(t, t', e);
    }
  }

  lemma CpuApartKept(t: Table, t': Table, e: Event, c: nat, d: nat)
    requires Inv(t) && Next(t, t', e)
    ensures CpuApart(t', c, d)
  {
    hide HasZombie, Waits, Family;
    assert CpuApart(t, c, d) && CpuAt(t, c) && CpuAt(t, d);
  }

  lemma RunsKept(t: Table, t': Table, e: Event, p: nat)
    requires Inv(t) && Next(t, t', e)
    ensures RunsAt(t', p)
  {
    hide HasZombie, Waits, Family;
    assert RunsAt(t, p);
    if !e.Wakeup? && !e.Kill? && !e.Schedule? {
      Actor(t, t', e);
    }
    if p < |t.procs| && t.procs[p].state.RUNNING? && p < |t'.procs| && t'.procs[p].state.RUNNING? {
      var c :| 0 <= c < |t.cpus| && t.cpus[c] == Some(p);
      assert t'.cpus[c] == Some(p);
    } else if e.Schedule? {
      assert t'.cpus[e.cpu] == Some(e.p);
    }
  }

  lemma CpusKept(t: Table, t': Table, e: Event)
    requires Inv(t) && Next(t, t', e)
    ensures Cpus(t')
  {
    hide CpuAt, CpuApart, RunsAt, Next;
    forall c: nat ensures CpuAt(t', c) {
      CpuKept(t, t', e, c);
    }
    forall c: nat, d: nat ensures CpuApart(t', c, d) {
      CpuApartKept(t, t', e, c, d);
    }
    forall p: nat ensures RunsAt(t', p) {
      RunsKept(t, t', e, p);
    }
  }

  /** What a step does to pids: only allocproc and wait's reaping change one. */
  lemma PidStep(t: Table, t': Table, e: Event, i: nat)
    requires Family(t) && Cpus(t) && Next(t, t', e) && i < |t.procs|
    ensures |t'.procs| == |t.procs| && t'.nextpid == t.nextpid + if e.Alloc? then 1 else 0
    ensures t'.procs[i].pid == if e.Alloc? && i == e.np then t.nextpid
                               else if e.Reap? && i == e.c then 0 else t.procs[i].pid
    ensures t.procs[i].state.UNUSED? && !t'.procs[i].state.UNUSED? ==> e.Alloc? && i == e.np
    ensures e.Reap? && i == e.c ==> t'.procs[i].state.UNUSED?
  {
    hide HasZombie, Waits, Pids;
    if !e.Wakeup? && !e.Kill? && !e.Schedule? {
      assert CpuAt(t, e.cpu);
      assert ForkAt(t, e.cur);
    }
  }

  lemma PidsKept(t: Table, t': Table, e: Event)
    requires Inv(t) && Next(t, t', e)
    ensures Pids(t')
  {
    hide Next, Family, Waits, Cpus;
    SameLength(t, t', e);
    forall p: nat
      ensures PidAt(t', p)
    {
      assert PidAt(t, p);
      if p < |t.procs| {
        PidStep(t, t', e, p);
      }
    }
    forall p: nat, q: nat
      ensures PidApart(t', p, q)
    {
      assert PidApart(t, p, q) && PidAt(t, p) && PidAt(t, q);
      if p < |t.procs| && q < |t.procs| {
        PidStep(t, t', e, p);
        PidStep(t, t', e, q);
      }
    }
  }

  lemma SameLength(t: Table, t': Table, e: Event)
    requires Next(t, t', e)
    ensures |t'.procs| == |t.procs| && t'.nextpid >= t.nextpid
  {
    hide HasZombie;
  }

  // ---------------------------------------------------------------- runs

  /** After boot: init is ready to run, every other slot is free. */
  function Boot(nproc: nat, ncpu: nat, init: nat): Table
    requires init < nproc
  {
    Table(seq(nproc, i => if i == init then Proc(RUNNABLE, 1, None, NoChan, false, None)
                          else Proc(UNUSED, 0, None, NoChan, false, None)),
          seq(ncpu, _ => None), init, 2)
  }

  /** es takes the table through ts, from boot. */
  ghost predicate IsRun(ts: seq<Table>, es: seq<Event>, nproc: nat, ncpu: nat, init: nat)
  {
    && init < nproc && |ts| == |es| + 1 && ts[0] == Boot(nproc, ncpu, init)
    && forall k :: 0 <= k < |es| ==> Next(ts[k], ts[k + 1], es[k])
  }

  lemma BootInv(nproc: nat, ncpu: nat, init: nat)
    requires init < nproc
    ensures Inv(Boot(nproc, ncpu, init))
  {
    var t := Boot(nproc, ncpu, init);
    forall p: nat ensures RunsAt(t, p) {}
  }

  /** Any number of processes and CPUs, any interleaving: the invariant holds in every state. */
  lemma {:induction false} RunInv(ts: seq<Table>, es: seq<Event>, nproc: nat, ncpu: nat, init: nat, k: nat)
    requires IsRun(ts, es, nproc, ncpu, init) && k <= |es|
    ensures Inv(ts[k])
  {
    hide Family, Waits, Cpus, Pids, Next, Boot;
    if k == 0 {
      BootInv(nproc, ncpu, init);
    } else {
      RunInv(ts, es, nproc, ncpu, init, k - 1);
      FamilyKept(ts[k - 1], ts[k], es[k - 1]);
      WaitsKept(ts[k - 1], ts[k], es[k - 1]);
      CpusKept(ts[k - 1], ts[k], es[k - 1]);
      PidsKept(ts[k - 1], ts[k], es[k - 1]);
    }
  }

  // ---------------------------------------------------------------- main results

  /** No process is asleep in wait while it has a zombie child: no exit goes unnoticed. */
  lemma NoMissedExit(ts: seq<Table>, es: seq<Event>, nproc: nat, ncpu: nat, init: nat, k: nat, p: nat, c: nat)
    requires IsRun(ts, es, nproc, ncpu, init) && k <= |es|
    requires p < |ts[k].procs| && c < |ts[k].procs|
    requires ts[k].procs[p].state.SLEEPING? && ts[k].procs[p].chan == OfProc(p) && ts[k].procs[c].parent == Some(p)
    ensures !ts[k].procs[c].state.ZOMBIE?
  {
    hide Boot, Next;
    RunInv(ts, es, nproc, ncpu, init, k);
    assert WaitAt(ts[k], p, c);
  }

  /** Every published process but init has a parent that is neither a zombie nor gone; so no zombie has children. */
  lemma NoOrphans(ts: seq<Table>, es: seq<Event>, nproc: nat, ncpu: nat, init: nat, k: nat, c: nat)
    requires IsRun(ts, es, nproc, ncpu, init) && k <= |es| && c < |ts[k].procs|
    ensures c != ts[k].init && Published(ts[k].procs[c].state) ==>
              ts[k].procs[c].parent.Some? && ts[k].procs[c].parent.value < |ts[k].procs|
              && Alive(ts[k].procs[ts[k].procs[c].parent.value].state)
    ensures ts[k].procs[c].parent.Some? && ts[k].procs[c].parent.value < |ts[k].procs| ==>
              !ts[k].procs[ts[k].procs[c].parent.value].state.ZOMBIE?
  {
    hide Boot, Next;
    RunInv(ts, es, nproc, ncpu, init, k);
    assert ParentAt(ts[k], c);
    if ts[k].procs[c].parent.Some? && ts[k].procs[c].parent.value < |ts[k].procs| {
      assert ForkAt(ts[k], ts[k].procs[c].parent.value);
    }
  }

  /** A process is RUNNING exactly when it is current on one CPU, and then on only one. */
  lemma OneCpuEach(ts: seq<Table>, es: seq<Event>, nproc: nat, ncpu: nat, init: nat, k: nat, p: nat)
    requires IsRun(ts, es, nproc, ncpu, init) && k <= |es| && p < |ts[k].procs|
    ensures ts[k].procs[p].state.RUNNING? <==> exists c :: 0 <= c < |ts[k].cpus| && ts[k].cpus[c] == Some(p)
    ensures forall c, d :: (0 <= c < |ts[k].cpus| && 0 <= d < |ts[k].cpus|
                            && ts[k].cpus[c] == Some(p) == ts[k].cpus[d]) ==> c == d
  {
    hide Boot, Next;
    RunInv(ts, es, nproc, ncpu, init, k);
    var t := ts[k];
    assert RunsAt(t, p);
    forall c, d | 0 <= c < |t.cpus| && 0 <= d < |t.cpus| && t.cpus[c] == Some(p) == t.cpus[d]
      ensures c == d
    {
      assert CpuApart(t, c, d);
    }
    forall c | 0 <= c < |t.cpus| && t.cpus[c] == Some(p)
      ensures t.procs[p].state.RUNNING?
    {
      assert CpuAt(t, c);
    }
  }

  /** No two processes have the same pid. */
  lemma UniquePids(ts: seq<Table>, es: seq<Event>, nproc: nat, ncpu: nat, init: nat, k: nat, p: nat, q: nat)
    requires IsRun(ts, es, nproc, ncpu, init) && k <= |es| && p < |ts[k].procs| && q < |ts[k].procs| && p != q
    requires !ts[k].procs[p].state.UNUSED?
    ensures ts[k].procs[p].pid != 0 && ts[k].procs[p].pid != ts[k].procs[q].pid
  {
    hide Boot, Next, Family, Waits, Cpus;
    RunInv(ts, es, nproc, ncpu, init, k);
    assert PidAt(ts[k], p) && PidApart(ts[k], p, q);
  }

  /** What can happen to a process asleep on n: wakeup(n) and kill make it RUNNABLE, anything else leaves it asleep
      on n. */
  lemma AsleepStep(t: Table, t': Table, e: Event, p: nat, n: nat)
    requires Inv(t) && Next(t, t', e) && p < |t.procs| && t.procs[p].state.SLEEPING? && t.procs[p].chan == Other(n)
    ensures |t'.procs| == |t.procs|
    ensures e == Wakeup(n) || e == Kill(p) ==> t'.procs[p].state.RUNNABLE?
    ensures e != Wakeup(n) && e != Kill(p) ==> t'.procs[p].state.SLEEPING? && t'.procs[p].chan == Other(n)
  {
    hide HasZombie, Waits, Pids;
    assert ForkAt(t, p);
    if !e.Wakeup? && !e.Kill? && !e.Schedule? {
      Actor(t, t', e);
    }
  }

  /** Sleep and wakeup: over every run, a process that went to sleep on n sleeps on exactly until the first
      wakeup(n), or the first kill of it, and is RUNNABLE then. */
  lemma {:induction false} SleepsUntilWoken(ts: seq<Table>, es: seq<Event>, nproc: nat, ncpu: nat, init: nat, j: nat,
                                            k: nat)
    requires IsRun(ts, es, nproc, ncpu, init) && j < k <= |es| && es[j].Sleep?
    requires forall i :: j < i < k ==> es[i] != Wakeup(es[j].n) && es[i] != Kill(es[j].cur)
    ensures es[j].cur < |ts[k].procs|
    ensures ts[k].procs[es[j].cur].state.SLEEPING? && ts[k].procs[es[j].cur].chan == Other(es[j].n)
    ensures k < |es| && (es[k] == Wakeup(es[j].n) || es[k] == Kill(es[j].cur)) ==>
              es[j].cur < |ts[k + 1].procs| && ts[k + 1].procs[es[j].cur].state.RUNNABLE?
    decreases k
  {
    hide Boot, Next, Inv;
    if k == j + 1 {
      SleepEffect(ts[j], ts[j + 1], es[j]);
    } else {
      SleepsUntilWoken(ts, es, nproc, ncpu, init, j, k - 1);
      RunInv(ts, es, nproc, ncpu, init, k - 1);
      assert Next(ts[k - 1], ts[k - 1 + 1], es[k - 1]);
      AsleepStep(ts[k - 1], ts[k], es[k - 1], es[j].cur, es[j].n);
    }
    if k < |es| {
      RunInv(ts, es, nproc, ncpu, init, k);
      AsleepStep(ts[k], ts[k + 1], es[k], es[j].cur, es[j].n);
    }
  }

  lemma SleepEffect(t: Table, t': Table, e: Event)
    requires Next(t, t', e) && e.Sleep?
    ensures e.cur < |t'.procs| && t'.procs[e.cur].state.SLEEPING? && t'.procs[e.cur].chan == Other(e.n)
  {
  }
}
