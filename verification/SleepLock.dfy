/** sleeplock.c over sleep and wakeup of proc.c: any number of processes, stepping in any order,
    at the grain of single spinlock operations. */
module SleepLock {
  import opened Wrappers

  type Pid = nat

  /** Where a process stands in acquiresleep, sleep and releasesleep. */
  datatype Pc =
    | Out          // not using the lock
    | AcqWant      // acquiresleep: about to acquire lk->lk (also after being woken)
    | AcqCheck     // has lk->lk, about to test lk->locked
    | SleepWant    // sleep: has lk->lk, about to acquire ptable.lock
    | SleepRel     // has both, about to release lk->lk
    | SleepGo      // has ptable.lock, about to mark itself SLEEPING and switch away
    | Asleep       // SLEEPING on lk
    | Runnable     // made RUNNABLE by wakeup or kill
    | Resumed      // scheduled again inside sleep, has ptable.lock
    | AcqTook      // has set locked, still has lk->lk
    | Crit         // holds the sleep lock
    | RelWant      // releasesleep: about to acquire lk->lk
    | RelClear     // has lk->lk, about to clear locked
    | RelWake      // wakeup: has lk->lk, about to acquire ptable.lock
    | RelScan      // has both, about to wake the sleepers
    | RelDone      // about to release lk->lk

  predicate HasLk(pc: Pc)
  {
    pc.AcqCheck? || pc.SleepWant? || pc.SleepRel? || pc.AcqTook? || pc.RelClear? || pc.RelWake? || pc.RelScan?
      || pc.RelDone?
  }

  predicate HasPtable(pc: Pc) { pc.SleepRel? || pc.SleepGo? || pc.Resumed? || pc.RelScan? }

  /** The process owns the sleep lock: between setting and clearing locked. */
  predicate Owns(pc: Pc) { pc.AcqTook? || pc.Crit? || pc.RelWant? || pc.RelClear? }

  /** Each spinlock is free or held by a process; `pid` is lk->pid. */
  datatype State = State(lk: set<Pid>, ptable: set<Pid>, locked: bool, pid: Pid, pcs: map<Pid, Pc>)

  datatype Event = Advance(p: Pid) | Enter(p: Pid) | Leave(p: Pid) | Kill(p: Pid)

  function At(s: State, p: Pid): Pc { if p in s.pcs then s.pcs[p] else Out }

  function Move(s: State, p: Pid, pc: Pc): State { s.(pcs := s.pcs[p := pc]) }

  /** wakeup1(lk): every process SLEEPING on lk becomes RUNNABLE. */
  function WakeAll(pcs: map<Pid, Pc>): map<Pid, Pc>
  {
    map p | p in pcs :: if pcs[p].Asleep? then Runnable else pcs[p]
  }

  predicate Enabled(s: State, e: Event)
  {
    e.p in s.pcs &&
    match e
    case Enter(p) => s.pcs[p].Out?
    case Leave(p) => s.pcs[p].Crit?
    case Kill(p) => s.ptable == {}
    case Advance(p) =>
      match s.pcs[p]
      case Out => false
      case Crit => false
      case Asleep => false
      case AcqWant => s.lk == {}
      case RelWant => s.lk == {}
      case SleepWant => s.ptable == {}
      case RelWake => s.ptable == {}
      case Runnable => s.ptable == {}
      case _ => true
  }

  function Step(s: State, e: Event): State
    requires Enabled(s, e)
  {
    match e
    case Enter(p) => Move(s, p, AcqWant)
    case Leave(p) => Move(s, p, RelWant)
    case Kill(p) => if s.pcs[p].Asleep? then Move(s, p, Runnable) else s
    case Advance(p) =>
      match s.pcs[p]
      case AcqWant => Move(s, p, AcqCheck).(lk := {p})
      case AcqCheck => if s.locked then Move(s, p, SleepWant) else Move(s, p, AcqTook).(locked := true, pid := p)
      case SleepWant => Move(s, p, SleepRel).(ptable := {p})
      case SleepRel => Move(s, p, SleepGo).(lk := {})
      case SleepGo => Move(s, p, Asleep).(ptable := {})
      case Runnable => Move(s, p, Resumed).(ptable := {p})
      case Resumed => Move(s, p, AcqWant).(ptable := {})
      case AcqTook => Move(s, p, Crit).(lk := {})
      case RelWant => Move(s, p, RelClear).(lk := {p})
      case RelClear => Move(s, p, RelWake).(locked := false, pid := 0)
      case RelWake => Move(s, p, RelScan).(ptable := {p})
      case RelScan => State(s.lk, {}, s.locked, s.pid, WakeAll(s.pcs)[p := RelDone])
      case RelDone => Move(s, p, Out).(lk := {})
  }

  /** es is a run of the processes in procs, which start outside the lock. */
  ghost predicate IsRun(procs: set<Pid>, states: seq<State>, es: seq<Event>)
  {
    && |states| == |es| + 1
    && states[0] == Init(procs)
    && forall k :: 0 <= k < |es| ==> Enabled(states[k], es[k]) && states[k + 1] == Step(states[k], es[k])
  }

  function Init(procs: set<Pid>): State
  {
    State({}, {}, false, 0, map p | p in procs :: Out)
  }

  // ---------------------------------------------------------------- invariant

  /** lk->lk is held by exactly the process whose step says so. */
  ghost predicate LkOk(s: State)
  {
    && (forall p :: p in s.lk <==> p in s.pcs && HasLk(s.pcs[p]))
    && (forall p, q :: p in s.lk && q in s.lk ==> p == q)
  }

  /** So is ptable.lock. */
  ghost predicate PtableOk(s: State)
  {
    && (forall p :: p in s.ptable <==> p in s.pcs && HasPtable(s.pcs[p]))
    && (forall p, q :: p in s.ptable && q in s.ptable ==> p == q)
  }

  /** locked says that there is an owner; there is at most one, and pid names it, or is 0 without one. */
  ghost predicate OwnerOk(s: State)
  {
    && (s.locked ==> s.pid in s.pcs && Owns(s.pcs[s.pid]))
    && (forall p :: p in s.pcs && Owns(s.pcs[p]) ==> s.locked && p == s.pid)
    && (!s.locked ==> s.pid == 0)
  }

  /** Whoever sleeps, or is about to, does so while locked, or while a release is about to wake it. */
  ghost predicate SleepOk(s: State)
  {
    && (forall p :: p in s.pcs && (s.pcs[p].SleepWant? || s.pcs[p].SleepRel?) ==> s.locked)
    && (forall p :: p in s.pcs && (s.pcs[p].SleepGo? || s.pcs[p].Asleep?) ==>
          s.locked || exists q :: q in s.lk && (At(s, q).RelWake? || At(s, q).RelScan?))
  }

  ghost predicate Inv(s: State) { LkOk(s) && PtableOk(s) && OwnerOk(s) && SleepOk(s) }

  lemma StepKeepsLk(s: State, e: Event)
    requires LkOk(s) && Enabled(s, e)
    ensures LkOk(Step(s, e))
  {
    hide HasPtable, Owns, WakeAll;
    if e.Advance? && s.pcs[e.p].RelScan? {
      ScanKeepsLk(s, e);
    }
  }

  lemma ScanKeepsLk(s: State, e: Event)
    requires LkOk(s) && Enabled(s, e) && e.Advance? && s.pcs[e.p].RelScan?
    ensures LkOk(Step(s, e))
  {
    hide HasPtable, Owns;
  }

  lemma StepKeepsPtable(s: State, e: Event)
    requires PtableOk(s) && Enabled(s, e)
    ensures PtableOk(Step(s, e))
  {
    hide HasLk, Owns, WakeAll;
    if e.Advance? && s.pcs[e.p].RelScan? {
      ScanKeepsPtable(s, e);
    }
  }

  lemma ScanKeepsPtable(s: State, e: Event)
    requires PtableOk(s) && Enabled(s, e) && e.Advance? && s.pcs[e.p].RelScan?
    ensures PtableOk(Step(s, e))
  {
    hide HasLk, Owns;
  }

  lemma StepKeepsOwner(s: State, e: Event)
    requires LkOk(s) && OwnerOk(s) && Enabled(s, e)
    ensures OwnerOk(Step(s, e))
  {
    hide HasPtable;
  }

  lemma StepKeepsSleep(s: State, e: Event)
    requires Inv(s) && Enabled(s, e)
    ensures SleepOk(Step(s, e))
  {
  }

  /** The invariant holds in every state of every run. */
  lemma {:induction false} RunInv(procs: set<Pid>, states: seq<State>, es: seq<Event>, k: nat)
    requires IsRun(procs, states, es) && k <= |es|
    ensures Inv(states[k])
  {
    if k > 0 {
      RunInv(procs, states, es, k - 1);
      hide LkOk, PtableOk, OwnerOk, SleepOk, Step, Enabled;
      StepKeepsLk(states[k - 1], es[k - 1]);
      StepKeepsPtable(states[k - 1], es[k - 1]);
      StepKeepsOwner(states[k - 1], es[k - 1]);
      StepKeepsSleep(states[k - 1], es[k - 1]);
    }
  }

  // ---------------------------------------------------------------- main results

  /** At most one process holds the sleep lock. */
  lemma MutualExclusion(procs: set<Pid>, states: seq<State>, es: seq<Event>, k: nat, p: Pid, q: Pid)
    requires IsRun(procs, states, es) && k <= |es|
    requires At(states[k], p).Crit? && At(states[k], q).Crit?
    ensures p == q
  {
    RunInv(procs, states, es, k);
  }

  /** No wakeup is lost: when lk->lk is free, whoever sleeps on the lock sees it locked, by a live owner. */
  lemma NoLostWakeup(procs: set<Pid>, states: seq<State>, es: seq<Event>, k: nat, p: Pid)
    requires IsRun(procs, states, es) && k <= |es|
    requires states[k].lk == {} && At(states[k], p).Asleep?
    ensures states[k].locked
    ensures At(states[k], states[k].pid).Crit? || At(states[k], states[k].pid).RelWant?
  {
    RunInv(procs, states, es, k);
  }

  /** pid is 0 while the lock is free, and otherwise its owner's. */
  lemma PidOfOwner(procs: set<Pid>, states: seq<State>, es: seq<Event>, k: nat)
    requires IsRun(procs, states, es) && k <= |es|
    ensures if states[k].locked then Owns(At(states[k], states[k].pid)) else states[k].pid == 0
  {
    RunInv(procs, states, es, k);
  }

  /** holdingsleep, evaluated under lk->lk by a process that is not in acquiresleep or releasesleep,
      tells whether that process holds the lock. */
  lemma HoldingSleep(procs: set<Pid>, states: seq<State>, es: seq<Event>, k: nat, p: Pid)
    requires IsRun(procs, states, es) && k <= |es|
    requires At(states[k], p).Out? || At(states[k], p).Crit?
    ensures states[k].locked && states[k].pid == p <==> At(states[k], p).Crit?
  {
    RunInv(procs, states, es, k);
  }

  /** No deadlock: unless some process is in its critical section, whoever is inside acquiresleep or
      releasesleep leaves some process able to step. */
  lemma NoDeadlock(procs: set<Pid>, states: seq<State>, es: seq<Event>, k: nat, p: Pid)
    requires IsRun(procs, states, es) && k <= |es|
    requires !At(states[k], p).Out? && forall q :: q in states[k].pcs ==> !states[k].pcs[q].Crit?
    ensures exists q :: Enabled(states[k], Advance(q))
  {
    RunInv(procs, states, es, k);
    var s := states[k];
    if q :| q in s.ptable {
      assert Enabled(s, Advance(q));
    } else {
      assert s.ptable == {};
      if q :| q in s.lk {
        assert Enabled(s, Advance(q));
      } else {
        assert s.lk == {};
        var q := if s.pcs[p].Asleep? then s.pid else p;
        assert Enabled(s, Advance(q));
      }
    }
  }

  // ---------------------------------------------------------------- the calls, run through

  /** p takes n steps in a row.  None: it cannot. */
  function Alone(s: State, p: Pid, n: nat): Option<State>
    decreases n
  {
    if n == 0 then Some(s)
    else if !Enabled(s, Advance(p)) then None
    else Alone(Step(s, Advance(p)), p, n - 1)
  }

  /** No spinlock is held. */
  predicate Quiet(s: State) { s.lk == {} && s.ptable == {} }

  lemma Once(s: State, s': State, p: Pid, n: nat)
    requires n > 0 && Enabled(s, Advance(p)) && Step(s, Advance(p)) == s'
    ensures Alone(s, p, n) == Alone(s', p, n - 1)
  {
  }

  lemma Done(s: State, p: Pid)
    ensures Alone(s, p, 0) == Some(s)
  {
  }

  /** Only the last step's place counts. */
  lemma Moves(pcs: map<Pid, Pc>, p: Pid, a: Pc, b: Pc)
    ensures pcs[p := a][p := b] == pcs[p := b]
    ensures WakeAll(pcs[p := a])[p := b] == WakeAll(pcs)[p := b]
  {
  }

  lemma Woken(pcs: map<Pid, Pc>, p: Pid)
    ensures WakeAll(pcs).Keys == pcs.Keys
    ensures forall q :: q in pcs && q != p ==> WakeAll(pcs)[p := Out][q] == if pcs[q].Asleep? then Runnable else pcs[q]
  {
  }

  /** acquiresleep of a free lock takes it, and changes nothing else. */
  lemma AcquireFree(s: State, p: Pid)
    requires Quiet(s) && !s.locked && p in s.pcs && s.pcs[p].AcqWant?
    ensures Alone(s, p, 3) == Some(State({}, {}, true, p, s.pcs[p := Crit]))
  {
    hide Alone, WakeAll;
    var s1 := State({p}, {}, false, s.pid, s.pcs[p := AcqCheck]);
    var s2 := State({p}, {}, true, p, s.pcs[p := AcqTook]);
    var s3 := State({}, {}, true, p, s.pcs[p := Crit]);
    Moves(s.pcs, p, AcqCheck, AcqTook);
    Moves(s.pcs, p, AcqTook, Crit);
    Once(s, s1, p, 3);
    Once(s1, s2, p, 2);
    Once(s2, s3, p, 1);
    Done(s3, p);
  }

  /** acquiresleep of a lock that is held goes to sleep, and changes nothing else. */
  lemma AcquireHeld(s: State, p: Pid)
    requires Quiet(s) && s.locked && p in s.pcs && s.pcs[p].AcqWant?
    ensures Alone(s, p, 5) == Some(s.(pcs := s.pcs[p := Asleep]))
  {
    hide Alone, WakeAll;
    var s1 := State({p}, {}, true, s.pid, s.pcs[p := AcqCheck]);
    var s2 := State({p}, {}, true, s.pid, s.pcs[p := SleepWant]);
    var s3 := State({p}, {p}, true, s.pid, s.pcs[p := SleepRel]);
    var s4 := State({}, {p}, true, s.pid, s.pcs[p := SleepGo]);
    var s5 := State({}, {}, true, s.pid, s.pcs[p := Asleep]);
    Moves(s.pcs, p, AcqCheck, SleepWant);
    Moves(s.pcs, p, SleepWant, SleepRel);
    Moves(s.pcs, p, SleepRel, SleepGo);
    Moves(s.pcs, p, SleepGo, Asleep);
    Once(s, s1, p, 5);
    Once(s1, s2, p, 4);
    Once(s2, s3, p, 3);
    Once(s3, s4, p, 2);
    Once(s4, s5, p, 1);
    Done(s5, p);
  }

  /** releasesleep frees the lock and makes every process asleep on it RUNNABLE, and changes nothing else. */
  lemma Release(s: State, p: Pid)
    requires Quiet(s) && p in s.pcs && s.pcs[p].RelWant?
    ensures Alone(s, p, 5) == Some(State({}, {}, false, 0, WakeAll(s.pcs)[p := Out]))
    ensures forall q :: q in s.pcs && q != p ==>
              WakeAll(s.pcs)[p := Out][q] == if s.pcs[q].Asleep? then Runnable else s.pcs[q]
  {
    hide Alone, WakeAll, Step, Enabled;
    Woken(s.pcs, p);
    Cleared(s, p);
    Scanned(s.pcs, p);
  }

  lemma Cleared(s: State, p: Pid)
    requires Quiet(s) && p in s.pcs && s.pcs[p].RelWant?
    ensures Alone(s, p, 5) == Alone(State({p}, {p}, false, 0, s.pcs[p := RelScan]), p, 2)
  {
    hide Alone, WakeAll;
    var s1 := State({p}, {}, s.locked, s.pid, s.pcs[p := RelClear]);
    var s2 := State({p}, {}, false, 0, s.pcs[p := RelWake]);
    var s3 := State({p}, {p}, false, 0, s.pcs[p := RelScan]);
    Moves(s.pcs, p, RelClear, RelWake);
    Moves(s.pcs, p, RelWake, RelScan);
    Once(s, s1, p, 5);
    Once(s1, s2, p, 4);
    Once(s2, s3, p, 3);
  }

  lemma Scanned(pcs: map<Pid, Pc>, p: Pid)
    ensures Alone(State({p}, {p}, false, 0, pcs[p := RelScan]), p, 2) ==
            Some(State({}, {}, false, 0, WakeAll(pcs)[p := Out]))
  {
    hide Alone, WakeAll;
    var s3 := State({p}, {p}, false, 0, pcs[p := RelScan]);
    var s4 := State({p}, {}, false, 0, WakeAll(pcs)[p := RelDone]);
    var s5 := State({}, {}, false, 0, WakeAll(pcs)[p := Out]);
    Moves(pcs, p, RelScan, RelDone);
    Moves(WakeAll(pcs), p, RelDone, Out);
    Once(s3, s4, p, 2);
    Once(s4, s5, p, 1);
    Done(s5, p);
  }

  /** A process that was woken goes back to test the lock. */
  lemma Retry(s: State, p: Pid)
    requires Quiet(s) && p in s.pcs && s.pcs[p].Runnable?
    ensures Alone(s, p, 2) == Some(s.(pcs := s.pcs[p := AcqWant]))
  {
    hide Alone, WakeAll;
    var s1 := State({}, {p}, s.locked, s.pid, s.pcs[p := Resumed]);
    var s2 := State({}, {}, s.locked, s.pid, s.pcs[p := AcqWant]);
    Moves(s.pcs, p, Resumed, AcqWant);
    Once(s, s1, p, 2);
    Once(s1, s2, p, 1);
    Done(s2, p);
  }
}
