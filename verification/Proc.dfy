/** proc.c: the process table.  Each method is the code between acquiring and giving up ptable.lock,
    with its scan of the table, and is proved to take one step of ProcSteps (or none). */
module Proc {
  import opened Wrappers
  import opened ProcSteps

  /** What one pass of wait's loop does. */
  datatype WaitResult = Reaped(pid: nat) | NoWait | Asleep

  class Ptable {
    var procs: seq<Proc>
    var cpus: seq<Option<nat>>
    const init: nat
    var nextpid: nat

    ghost function View(): Table
      reads this
    {
      Table(procs, cpus, init, nextpid)
    }

    ghost predicate Valid()
      reads this
    {
      Inv(View())
    }

    constructor (nproc: nat, ncpu: nat, init: nat)
      requires init < nproc
      ensures Valid() && View() == Boot(nproc, ncpu, init)
    {
      procs := Boot(nproc, ncpu, init).procs;
      cpus := Boot(nproc, ncpu, init).cpus;
      this.init := init;
      nextpid := 2;
      BootInv(nproc, ncpu, init);
    }

    /** Wake up all processes sleeping on chan. */
    method Wakeup1(chan: Chan)
      modifies this`procs
      ensures |procs| == |old(procs)|
      ensures forall i :: 0 <= i < |procs| ==>
                procs[i] == if old(procs)[i].state.SLEEPING? && old(procs)[i].chan == chan
                            then old(procs)[i].(state := RUNNABLE) else old(procs)[i]
    {
      var i := 0;
      while i < |procs|
        invariant 0 <= i <= |procs| == |old(procs)|
        invariant forall j :: 0 <= j < i ==> procs[j] == WakeOne(old(procs)[j], chan)
        invariant forall j :: i <= j < |procs| ==> procs[j] == old(procs)[j]
      {
        if procs[i].state.SLEEPING? && procs[i].chan == chan {
          procs := procs[i := procs[i].(state := RUNNABLE)];
        }
        i := i + 1;
      }
    }

    /** wakeup on a channel that is not a process. */
    method WakeupOn(n: nat)
      requires Valid()
      modifies this`procs
      ensures Valid() && Next(old(View()), View(), Wakeup(n)) && |procs| == |old(procs)|
      ensures forall i :: 0 <= i < |procs| ==>
                procs[i] == if old(procs)[i].state.SLEEPING? && old(procs)[i].chan == Other(n)
                            then old(procs)[i].(state := RUNNABLE) else old(procs)[i]
    {
      hide Inv;
      Wakeup1(Other(n));
      Kept(old(View()), View(), Wakeup(n));
    }

    /** allocproc for fork: the first unused slot becomes EMBRYO. */
    method AllocProc(cpu: nat) returns (np: Option<nat>)
      requires Valid() && cpu < |cpus| && cpus[cpu].Some? && cpus[cpu].value < |procs|
               && procs[cpus[cpu].value].forking.None?
      modifies this`procs, this`nextpid
      ensures Valid()
      ensures np.Some? ==> Next(old(View()), View(), Alloc(cpu, cpus[cpu].value, np.value))
      ensures np.Some? ==> forall i :: 0 <= i < np.value && i < |old(procs)| ==> !old(procs)[i].state.UNUSED?
      ensures np.Some? ==>
                && np.value < |old(procs)| && old(procs)[np.value].state.UNUSED? && nextpid == old(nextpid) + 1
                && procs == old(procs)[np.value := old(procs)[np.value].(state := EMBRYO, pid := old(nextpid))]
                            [cpus[cpu].value := old(procs)[cpus[cpu].value].(forking := np)]
                && (forall i :: 0 <= i < |procs| && i != np.value ==> procs[i].pid != procs[np.value].pid)
      ensures np.None? ==> View() == old(View()) && forall i :: 0 <= i < |procs| ==> !procs[i].state.UNUSED?
    {
      hide Family, Waits, Cpus;
      var cur := cpus[cpu].value;
      Running(View(), cpu);
      var i := 0;
      while i < |procs|
        invariant 0 <= i <= |procs| && View() == old(View())
        invariant forall j :: 0 <= j < i ==> !procs[j].state.UNUSED?
      {
        if procs[i].state.UNUSED? {
          procs := procs[i := procs[i].(state := EMBRYO, pid := nextpid)];
          nextpid := nextpid + 1;
          procs := procs[cur := procs[cur].(forking := Some(i))];
          Kept(old(View()), View(), Alloc(cpu, cur, i));
          NewPid(old(View()), i);
          return Some(i);
        }
        i := i + 1;
      }
      return None;
    }

    /** fork's three stores to the slot it builds: give it back, set its parent, publish it. */
    method ForkStore(cpu: nat, e: Event)
      requires Valid() && cpu < |cpus| && cpus[cpu].Some? && cpus[cpu].value < |procs|
      requires e == ForkFail(cpu, cpus[cpu].value) || e == SetParent(cpu, cpus[cpu].value)
               || e == Publish(cpu, cpus[cpu].value)
      requires var p := procs[cpus[cpu].value];
               p.forking.Some? && p.forking.value < |procs| &&
               (e.ForkFail? ==> procs[p.forking.value].parent.None?) &&
               (e.Publish? ==> procs[p.forking.value].parent == Some(cpus[cpu].value))
      modifies this`procs
      ensures Valid() && Next(old(View()), View(), e)
      ensures var cur := cpus[cpu].value;
              var np := old(procs)[cur].forking.value;
              && np != cur
              && (e.SetParent? ==> procs == old(procs)[np := old(procs)[np].(parent := Some(cur))])
              && (e.ForkFail? ==> procs == old(procs)[np := old(procs)[np].(state := UNUSED)]
                                           [cur := old(procs)[cur].(forking := None)])
              && (e.Publish? ==> procs == old(procs)[np := old(procs)[np].(state := RUNNABLE)]
                                          [cur := old(procs)[cur].(forking := None)])
    {
      hide Family, Waits, Cpus;
      var cur := cpus[cpu].value;
      var np := procs[cur].forking.value;
      Building(View(), cpu);
      if e.SetParent? {
        procs := procs[np := procs[np].(parent := Some(cur))];
      } else {
        procs := procs[np := procs[np].(state := if e.ForkFail? then UNUSED else RUNNABLE)];
        procs := procs[cur := procs[cur].(forking := None)];
      }
      Kept(old(View()), View(), e);
    }

    /** exit's loop: children go to init, which is woken for each of them that is a zombie. */
    method PassOn(cur: nat) returns (ghost woken: bool)
      modifies this`procs
      ensures |procs| == |old(procs)|
      ensures woken <==> exists c :: 0 <= c < |procs| && old(procs)[c].parent == Some(cur)
                                     && old(procs)[c].state.ZOMBIE?
      ensures forall j :: 0 <= j < |procs| ==> procs[j] == Passed(old(procs)[j], cur, init, true, woken)
    {
      var i := 0;
      woken := false;
      while i < |procs|
        invariant 0 <= i <= |procs| == |old(procs)|
        invariant woken <==> exists c :: 0 <= c < i && old(procs)[c].parent == Some(cur) && old(procs)[c].state.ZOMBIE?
        invariant forall j :: 0 <= j < |procs| ==> procs[j] == Passed(old(procs)[j], cur, init, j < i, woken)
      {
        if procs[i].parent == Some(cur) {
          procs := procs[i := procs[i].(parent := Some(init))];
          if procs[i].state.ZOMBIE? {
            Wakeup1(OfProc(init));
            woken := true;
          }
        }
        i := i + 1;
      }
    }

    /** exit of the current process: wake the parent, hand the children to init, become a zombie. */
    method ExitCurrent(cpu: nat)
      requires Valid() && cpu < |cpus| && cpus[cpu].Some? && cpus[cpu].value < |procs|
      requires cpus[cpu].value != init && procs[cpus[cpu].value].forking.None?
      modifies this`procs, this`cpus
      ensures Valid() && Next(old(View()), View(), Exit(cpu, old(cpus)[cpu].value))
      ensures cpus == old(cpus)[cpu := None] && Exited(old(procs), procs, old(cpus)[cpu].value, init)
    {
      hide Inv, Exited, Next;
      var cur := cpus[cpu].value;
      ghost var t := View();
      ExitingHasParent(t, cpu);
      var parent := procs[cur].parent;
      if parent.Some? {
        Wakeup1(OfProc(parent.value));
      }
      ghost var before := procs;
      ghost var woken := PassOn(cur);
      ghost var after := procs;
      procs := procs[cur := procs[cur].(state := ZOMBIE)];
      cpus := cpus[cpu := None];
      ExitAssembled(t, before, after, View(), cpu, woken);
      Kept(t, View(), Exit(cpu, cur));
      ExitSeen(t, View(), cpu, cur);
    }

    /** One pass of wait's loop: reap a zombie child, return, or sleep. */
    method WaitOnce(cpu: nat) returns (r: WaitResult)
      requires Valid() && cpu < |cpus| && cpus[cpu].Some? && cpus[cpu].value < |procs|
               && procs[cpus[cpu].value].forking.None?
      modifies this`procs, this`cpus
      ensures Valid()
      ensures r.Reaped? <==> exists c :: 0 <= c < |old(procs)| && old(procs)[c].parent == Some(old(cpus)[cpu].value)
                                         && old(procs)[c].state.ZOMBIE?
      ensures r.Reaped? ==> exists c: nat ::
                Next(old(View()), View(), Reap(cpu, old(cpus)[cpu].value, c)) && old(procs)[c].pid == r.pid
      // the zombie's slot is free again, and nothing else changes
      ensures r.Reaped? ==> cpus == old(cpus) && exists c: nat ::
                && c < |old(procs)| && old(procs)[c].pid == r.pid && old(procs)[c].state.ZOMBIE?
                && old(procs)[c].parent == Some(old(cpus)[cpu].value)
                && procs == old(procs)[c := old(procs)[c].(state := UNUSED, pid := 0, parent := None, killed := false)]
      ensures r.Asleep? ==> Next(old(View()), View(), WaitSleep(cpu, old(cpus)[cpu].value))
      ensures r.Asleep? ==>
                var cur := old(cpus)[cpu].value;
                && procs == old(procs)[cur := old(procs)[cur].(state := SLEEPING, chan := OfProc(cur))]
                && cpus == old(cpus)[cpu := None]
      ensures r.NoWait? ==> View() == old(View())
      ensures r.NoWait? <==> !r.Reaped? &&
                             (old(procs)[old(cpus)[cpu].value].killed ||
                              forall c :: 0 <= c < |old(procs)| ==> old(procs)[c].parent != Some(old(cpus)[cpu].value))
    {
      hide Inv;
      var cur := cpus[cpu].value;
      ghost var t := View();
      Running(t, cpu);
      var havekids := false;
      var c := 0;
      while c < |procs|
        invariant 0 <= c <= |procs| && View() == t
        invariant havekids <==> exists j :: 0 <= j < c && procs[j].parent == Some(cur)
        invariant forall j :: 0 <= j < c && procs[j].parent == Some(cur) ==> !procs[j].state.ZOMBIE?
      {
        if procs[c].parent == Some(cur) {
          havekids := true;
          if procs[c].state.ZOMBIE? {
            var pid := procs[c].pid;
            procs := procs[c := procs[c].(state := UNUSED, pid := 0, parent := None, killed := false)];
            assert Next(t, View(), Reap(cpu, cur, c));
            Kept(t, View(), Reap(cpu, cur, c));
            return Reaped(pid);
          }
        }
        c := c + 1;
      }
      if !havekids || procs[cur].killed {
        return NoWait;
      }
      procs := procs[cur := procs[cur].(state := SLEEPING, chan := OfProc(cur))];
      cpus := cpus[cpu := None];
      Kept(t, View(), WaitSleep(cpu, cur));
      return Asleep;
    }

    /** sleep on something that is not a process, or yield. */
    method GiveUp(cpu: nat, on: Option<nat>)
      requires Valid() && cpu < |cpus| && cpus[cpu].Some? && cpus[cpu].value < |procs|
      requires on.Some? ==> procs[cpus[cpu].value].forking.None?
      modifies this`procs, this`cpus
      ensures Valid()
      ensures Next(old(View()), View(), if on.Some? then Sleep(cpu, old(cpus)[cpu].value, on.value)
                   else Yield(cpu, old(cpus)[cpu].value))
      ensures var cur := old(cpus)[cpu].value;
              && cpus == old(cpus)[cpu := None]
              && procs == old(procs)[cur := if on.None? then old(procs)[cur].(state := RUNNABLE)
                                            else old(procs)[cur].(state := SLEEPING, chan := Other(on.value))]
    {
      hide Inv;
      var cur := cpus[cpu].value;
      ghost var t := View();
      if on.Some? {
        procs := procs[cur := procs[cur].(state := SLEEPING, chan := Other(on.value))];
        cpus := cpus[cpu := None];
        Kept(t, View(), Sleep(cpu, cur, on.value));
      } else {
        procs := procs[cur := procs[cur].(state := RUNNABLE)];
        cpus := cpus[cpu := None];
        Kept(t, View(), Yield(cpu, cur));
      }
    }

    /** Mark the process with the given pid killed, and wake it; false if there is none. */
    method KillPid(pid: nat) returns (found: bool)
      requires Valid()
      modifies this`procs
      ensures Valid()
      ensures found <==> exists p :: 0 <= p < |old(procs)| && old(procs)[p].pid == pid
      ensures found ==> exists p: nat :: Next(old(View()), View(), Kill(p)) && old(procs)[p].pid == pid
      // the process with that pid is marked and no longer asleep; nothing else changes
      ensures found ==> exists p: nat ::
                && p < |old(procs)| == |procs| && old(procs)[p].pid == pid
                && procs == old(procs)[p := procs[p]] && procs[p].killed
                && procs[p] == old(procs)[p].(killed := true, state := procs[p].state)
                && procs[p].state == (if old(procs)[p].state.SLEEPING? then RUNNABLE else old(procs)[p].state)
                && (pid != 0 ==> forall i :: 0 <= i < |old(procs)| && i != p ==> old(procs)[i].pid != pid)
      ensures !found ==> View() == old(View())
    {
      hide Inv;
      ghost var t := View();
      var p := 0;
      while p < |procs|
        invariant 0 <= p <= |procs| && View() == t
        invariant forall j :: 0 <= j < p ==> procs[j].pid != pid
      {
        if procs[p].pid == pid {
          procs := procs[p := procs[p].(killed := true)];
          if procs[p].state.SLEEPING? {
            procs := procs[p := procs[p].(state := RUNNABLE)];
          }
          assert Next(t, View(), Kill(p));
          Kept(t, View(), Kill(p));
          OnePid(t, p);
          return true;
        }
        p := p + 1;
      }
      return false;
    }

    /** The scheduler of an idle CPU: run the first RUNNABLE process from slot `from` on, if there is one. */
    method PickNext(cpu: nat, from: nat) returns (p: Option<nat>)
      requires Valid() && cpu < |cpus| && cpus[cpu].None? && from <= |procs|
      modifies this`procs, this`cpus
      ensures Valid()
      ensures p.Some? ==> from <= p.value && Next(old(View()), View(), Schedule(cpu, p.value))
      ensures p.Some? ==>
                && p.value < |old(procs)| && old(procs)[p.value].state.RUNNABLE? && cpus == old(cpus)[cpu := p]
                && procs == old(procs)[p.value := old(procs)[p.value].(state := RUNNING)]
      ensures p.Some? ==> forall j :: from <= j < p.value && j < |old(procs)| ==> !old(procs)[j].state.RUNNABLE?
      ensures p.None? ==> View() == old(View()) && forall j :: from <= j < |procs| ==> !procs[j].state.RUNNABLE?
    {
      hide Inv;
      ghost var t := View();
      var i := from;
      while i < |procs|
        invariant from <= i <= |procs| && View() == t
        invariant forall j :: from <= j < i ==> !procs[j].state.RUNNABLE?
      {
        if procs[i].state.RUNNABLE? {
          cpus := cpus[cpu := Some(i)];
          procs := procs[i := procs[i].(state := RUNNING)];
          Kept(t, View(), Schedule(cpu, i));
          return Some(i);
        }
        i := i + 1;
      }
      return None;
    }
  }

  lemma ExitAssembled(t: Table, before: seq<Proc>, after: seq<Proc>, t': Table, cpu: nat, woken: bool)
    requires Inv(t) && cpu < |t.cpus| && t.cpus[cpu].Some? && t.cpus[cpu].value < |t.procs|
             && t.cpus[cpu].value != t.init
    requires var cur := t.cpus[cpu].value;
             && t.procs[cur].forking.None? && t.procs[cur].parent.Some? && |before| == |after| == |t.procs|
             && (forall j :: 0 <= j < |before| ==> before[j] == WakeOne(t.procs[j], OfProc(t.procs[cur].parent.value)))
             && (woken <==> exists c :: 0 <= c < |before| && before[c].parent == Some(cur) && before[c].state.ZOMBIE?)
             && (forall j :: 0 <= j < |after| ==> after[j] == Passed(before[j], cur, t.init, true, woken))
             && t' == t.(procs := after[cur := after[cur].(state := ZOMBIE)], cpus := t.cpus[cpu := None])
    ensures Next(t, t', Exit(cpu, t.cpus[cpu].value))
  {
    hide Family, Waits, Cpus;
    var cur := t.cpus[cpu].value;
    Running(t, cpu);
    NotOwnParent(t, cur);
    assert woken <==> HasZombie(t.procs, cur) by {
      assert forall c :: 0 <= c < |before| ==>
               before[c].parent == t.procs[c].parent && (before[c].state.ZOMBIE? <==> t.procs[c].state.ZOMBIE?);
    }
  }

  /** A new pid is nobody else's. */
  lemma NewPid(t: Table, np: nat)
    requires Inv(t) && np < |t.procs|
    ensures forall i :: 0 <= i < |t.procs| ==> t.procs[i].pid != t.nextpid
  {
    hide Family, Waits, Cpus;
    forall i | 0 <= i < |t.procs|
      ensures t.procs[i].pid != t.nextpid
    {
      assert PidAt(t, i);
    }
  }

  lemma OnePid(t: Table, p: nat)
    requires Inv(t) && p < |t.procs|
    ensures t.procs[p].pid != 0 ==> forall i :: 0 <= i < |t.procs| && i != p ==> t.procs[i].pid != t.procs[p].pid
  {
    hide Family, Waits, Cpus;
    forall i | 0 <= i < |t.procs| && i != p && t.procs[p].pid != 0
      ensures t.procs[i].pid != t.procs[p].pid
    {
      assert PidApart(t, p, i);
    }
  }

  /** Exit of cur, slot by slot: it is a zombie; its children go to init; whoever is asleep in wait on its parent
      wakes, and on init, if init got a zombie; nothing else changes. */
  ghost predicate Exited(before: seq<Proc>, after: seq<Proc>, cur: nat, init: nat)
  {
    && cur < |after| == |before| && before[cur].parent.Some? && after[cur] == before[cur].(state := ZOMBIE)
    && forall i :: 0 <= i < |after| && i != cur ==>
         && after[i] == before[i].(parent := after[i].parent, state := after[i].state)
         && after[i].parent == (if before[i].parent == Some(cur) then Some(init) else before[i].parent)
         && after[i].state == (if before[i].state.SLEEPING? &&
                                  (before[i].chan == OfProc(before[cur].parent.value)
                                   || (before[i].chan == OfProc(init) && exists c ::
                                         0 <= c < |before| && before[c].parent == Some(cur)
                                         && before[c].state.ZOMBIE?))
                               then RUNNABLE else before[i].state)
  }

  lemma ExitSeen(t: Table, t': Table, cpu: nat, cur: nat)
    requires Next(t, t', Exit(cpu, cur)) && t.procs[cur].parent.Some?
    ensures t'.cpus == t.cpus[cpu := None] && Exited(t.procs, t'.procs, cur, t.init)
  {
  }

  lemma NotOwnParent(t: Table, c: nat)
    requires Inv(t) && c < |t.procs|
    ensures t.procs[c].parent != Some(c)
  {
    assert ParentAt(t, c);
  }

  /** A slot while exit's loop runs: its parent replaced if the loop has passed it, init woken or not. */
  function Passed(p: Proc, cur: nat, init: nat, passed: bool, woken: bool): Proc
  {
    var p1 := if passed && p.parent == Some(cur) then p.(parent := Some(init)) else p;
    if woken then WakeOne(p1, OfProc(init)) else p1
  }

  lemma Kept(t: Table, t': Table, e: Event)
    requires Inv(t) && Next(t, t', e)
    ensures Inv(t')
  {
    hide Family, Waits, Cpus, Pids, Next;
    FamilyKept(t, t', e);
    WaitsKept(t, t', e);
    CpusKept(t, t', e);
    PidsKept(t, t', e);
  }

  lemma Running(t: Table, cpu: nat)
    requires Inv(t) && cpu < |t.cpus| && t.cpus[cpu].Some?
    ensures t.cpus[cpu].value < |t.procs| && t.procs[t.cpus[cpu].value].state.RUNNING?
  {
    assert CpuAt(t, cpu);
  }

  lemma Building(t: Table, cpu: nat)
    requires Inv(t) && cpu < |t.cpus| && t.cpus[cpu].Some? && t.cpus[cpu].value < |t.procs|
             && t.procs[t.cpus[cpu].value].forking.Some?
    ensures var np := t.procs[t.cpus[cpu].value].forking.value;
            np < |t.procs| && np != t.cpus[cpu].value && t.procs[np].state.EMBRYO?
  {
    assert CpuAt(t, cpu);
    assert ForkAt(t, t.cpus[cpu].value);
  }

  lemma ExitingHasParent(t: Table, cpu: nat)
    requires Inv(t) && cpu < |t.cpus| && t.cpus[cpu].Some? && t.cpus[cpu].value < |t.procs|
             && t.cpus[cpu].value != t.init
    ensures t.procs[t.cpus[cpu].value].parent.Some?
  {
    assert CpuAt(t, cpu);
    assert ParentAt(t, t.cpus[cpu].value);
  }
}
