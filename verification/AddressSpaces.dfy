/** What vm.c's operations do to the frames of one directory, and the proofs on values. */
module AddressSpaces {
  import opened Pages

  /** Directory d maps n pages from page a to the frames from f0 on, and is otherwise as before. */
  ghost predicate MapsTo(m: Phys, m': Phys, d: nat, a: nat, n: nat, f0: nat, perm: nat)
  {
    forall v: nat :: Lookup(m', d, v) == if a <= v < a + n then Pte(f0 + (v - a), perm) else Lookup(m, d, v)
  }

  // ---------------------------------------------------------------- walkpgdir and mappages

  /** User pages keep their frames and contents; loose pages keep their contents, and become user
      pages of d only as the pages from f0 on. */
  predicate KeepsAt(m: Phys, m': Phys, d: nat, f0: nat, n: nat, f: nat)
  {
    f < |m.mem| == |m'.mem| == |m.owner| == |m'.owner| &&
    match m.owner[f]
    case Free(_) => m'.owner[f].Free? || (m'.owner[f].Table? && m'.owner[f].d == d)
    case User(_, _) => m'.owner[f] == m.owner[f] && m'.mem[f] == m.mem[f]
    case Held(e) =>
      && m'.mem[f] == m.mem[f]
      && (m'.owner[f] == Held(e) || (e == d && m'.owner[f].User? && m'.owner[f].d == d && f0 <= f < f0 + n))
    case _ => m'.owner[f] == m.owner[f]
  }

  ghost predicate Keeps(m: Phys, m': Phys, d: nat, f0: nat, n: nat)
  {
    forall f: nat {:trigger KeepsAt(m, m', d, f0, n, f)} :: f < |m.mem| ==> KeepsAt(m, m', d, f0, n, f)
  }

  /** Nothing but page tables was added to directory d. */
  ghost predicate Walked(m: Phys, m': Phys, lo: nat, d: nat)
  {
    && Inv(m', lo) && OwnedBy(m', d, Dir) && Within(m, m', d) && Keeps(m, m', d, 0, 0)
    && forall v: nat :: Lookup(m', d, v) == Lookup(m, d, v)
  }

  /** Page v is unmapped, and if it is a user page its new frame, counted from f0 at page a, is held. */
  predicate Ready(m: Phys, lo: nat, d: nat, a: nat, f0: nat, v: nat)
    requires a <= v
  {
    !Present(Lookup(m, d, v)) && (v < USERPAGES ==> lo <= f0 + (v - a) && OwnedBy(m, f0 + (v - a), Held(d)))
  }

  /** n pages have been mapped since m. */
  ghost predicate Mapping(m: Phys, m': Phys, lo: nat, d: nat, a: nat, n: nat, f0: nat, perm: nat)
  {
    Inv(m', lo) && OwnedBy(m', d, Dir) && Within(m, m', d) && Keeps(m, m', d, f0, n) && MapsTo(m, m', d, a, n, f0, perm)
  }

  lemma NotWalked(m: Phys, lo: nat, d: nat)
    requires Inv(m, lo) && OwnedBy(m, d, Dir)
    ensures Walked(m, m, lo, d)
  {
    forall f: nat | f < |m.mem|
      ensures WithinAt(m, m, d, f) && KeepsAt(m, m, d, 0, 0, f)
    {
    }
  }

  lemma NewTable(m: Phys, lo: nat, d: nat, i: nat)
    requires Inv(m, lo) && OwnedBy(m, d, Dir) && InRange(m, d) && i < NENTRIES && !Present(m.mem[d][i]) && m.free != []
    ensures var f := m.free[|m.free| - 1];
            lo <= f < |m.mem| == |m.owner| && HasTable(AddTable(Take(m, Held(d)), d, i, f), d, i)
            && Walked(m, AddTable(Take(m, Held(d)), d, i, f), lo, d) && Frame(Pte(f, 7)) == f
  {
    var f := m.free[|m.free| - 1];
    TakeInv(m, lo, Held(d));
    AddTableInv(Take(m, Held(d)), lo, d, i, f);
    PteParts(f, 7);
    NewTableKeeps(m, lo, d, i);
  }

  lemma NewTableKeeps(m: Phys, lo: nat, d: nat, i: nat)
    requires Inv(m, lo) && OwnedBy(m, d, Dir) && InRange(m, d) && i < NENTRIES && m.free != []
             && m.free[|m.free| - 1] < |m.mem|
    ensures var m' := AddTable(Take(m, Held(d)), d, i, m.free[|m.free| - 1]);
            Within(m, m', d) && Keeps(m, m', d, 0, 0) && OwnedBy(m', d, Dir)
  {
    var f := m.free[|m.free| - 1];
    assert FrameOk(m, f);
    var m' := AddTable(Take(m, Held(d)), d, i, f);
    forall g: nat | g < |m.mem|
      ensures WithinAt(m, m', d, g) && KeepsAt(m, m', d, 0, 0, g)
    {
    }
  }

  lemma NoneMapped(m: Phys, lo: nat, d: nat, a: nat, f0: nat, perm: nat)
    requires Inv(m, lo) && OwnedBy(m, d, Dir)
    ensures Mapping(m, m, lo, d, a, 0, f0, perm)
  {
    forall f: nat | f < |m.mem|
      ensures WithinAt(m, m, d, f) && KeepsAt(m, m, d, f0, 0, f)
    {
    }
  }

  /** Mapping one more page after a walk for it. */
  lemma MapOne(m: Phys, m1: Phys, m2: Phys, lo: nat, d: nat, a: nat, n: nat, f0: nat, perm: nat)
    requires Mapping(m, m1, lo, d, a, n, f0, perm) && Walked(m1, m2, lo, d) && HasTable(m2, d, Pdx(a + n))
             && perm < PGSIZE
    requires Ready(m, lo, d, a, f0, a + n)
    ensures a + n < USERPAGES ==> f0 + n < |m2.owner|
    ensures Mapping(m, PutPte(m2, d, a + n, f0 + n, perm), lo, d, a, n + 1, f0, perm)
  {
    hide Inv, Lookup;
    HeldStill(m, m1, m2, d, a, n, f0);
    PutPteInv(m2, lo, d, a + n, f0 + n, perm);
    MapOneKeeps(m, m1, m2, lo, d, a, n, f0, perm);
  }

  lemma HeldStill(m: Phys, m1: Phys, m2: Phys, d: nat, a: nat, n: nat, f0: nat)
    requires Within(m, m1, d) && Keeps(m, m1, d, f0, n) && Within(m1, m2, d) && Keeps(m1, m2, d, 0, 0)
    ensures f0 + n < |m.owner| && m.owner[f0 + n] == Held(d) ==> OwnedBy(m2, f0 + n, Held(d))
  {
    if f0 + n < |m.mem| {
      assert KeepsAt(m, m1, d, f0, n, f0 + n) && KeepsAt(m1, m2, d, 0, 0, f0 + n);
    }
  }

  lemma MapOneKeeps(m: Phys, m1: Phys, m2: Phys, lo: nat, d: nat, a: nat, n: nat, f0: nat, perm: nat)
    requires Within(m, m1, d) && Keeps(m, m1, d, f0, n) && Within(m1, m2, d) && Keeps(m1, m2, d, 0, 0)
    requires Inv(m2, lo) && OwnedBy(m2, d, Dir) && HasTable(m2, d, Pdx(a + n))
    requires a + n < USERPAGES ==> OwnedBy(m, f0 + n, Held(d)) && OwnedBy(m2, f0 + n, Held(d))
    ensures var m3 := PutPte(m2, d, a + n, f0 + n, perm);
            Within(m, m3, d) && Keeps(m, m3, d, f0, n + 1) && OwnedBy(m3, d, Dir)
  {
    var m3 := PutPte(m2, d, a + n, f0 + n, perm);
    TableOwned(m2, lo, d, Pdx(a + n));
    var n' := n + 1;
    forall f: nat | f < |m.mem|
      ensures WithinAt(m, m3, d, f) && KeepsAt(m, m3, d, f0, n', f)
    {
      assert WithinAt(m, m1, d, f) && WithinAt(m1, m2, d, f) && KeepsAt(m, m1, d, f0, n, f)
             && KeepsAt(m1, m2, d, 0, 0, f);
    }
  }

  lemma MappingDir(m: Phys, m': Phys, lo: nat, d: nat, a: nat, n: nat, f0: nat, perm: nat)
    requires Mapping(m, m', lo, d, a, n, f0, perm)
    ensures Inv(m', lo) && OwnedBy(m', d, Dir)
  {
  }

  // ---------------------------------------------------------------- deallocuvm

  /** Frame f was freed if d mapped it in [from, to); otherwise its owner, and its contents unless it
      is a page table of d, are as before. */
  predicate TrimmedAt(m: Phys, m': Phys, d: nat, from: nat, to: nat, f: nat)
  {
    f < |m.mem| == |m'.mem| == |m.owner| == |m'.owner| &&
    if m.owner[f].User? && m.owner[f].d == d && from <= m.owner[f].v < to then m'.owner[f].Free?
    else m'.owner[f] == m.owner[f] && ((m.owner[f].Table? && m.owner[f].d == d) || m'.mem[f] == m.mem[f])
  }

  /** Exactly the pages of [from, to) that d mapped are unmapped and freed. */
  ghost predicate Trimmed(m: Phys, m': Phys, lo: nat, d: nat, from: nat, to: nat)
  {
    && Inv(m', lo) && |m.mem| == |m'.mem| == |m.owner| == |m'.owner|
    && (forall f: nat {:trigger TrimmedAt(m, m', d, from, to, f)} :: f < |m.mem| ==> TrimmedAt(m, m', d, from, to, f))
    && (forall v: nat :: Lookup(m', d, v) == if from <= v < to && Present(Lookup(m, d, v)) then 0 else Lookup(m, d, v))
  }

  lemma TrimNone(m: Phys, lo: nat, d: nat, from: nat, to: nat)
    requires Inv(m, lo) && to <= from
    ensures Trimmed(m, m, lo, d, from, to)
  {
    forall f: nat | f < |m.mem|
      ensures TrimmedAt(m, m, d, from, to, f)
    {
    }
  }

  /** Pages without a present entry need no visit. */
  lemma TrimSkip(m: Phys, m': Phys, lo: nat, d: nat, from: nat, k: nat, to: nat)
    requires Inv(m, lo) && Trimmed(m, m', lo, d, from, k) && from <= k <= to
    requires forall v: nat :: k <= v < to ==> !Present(Lookup(m', d, v))
    ensures Trimmed(m, m', lo, d, from, to)
  {
    forall f: nat | f < |m.mem|
      ensures TrimmedAt(m, m', d, from, to, f)
    {
      assert TrimmedAt(m, m', d, from, k, f);
      assert FrameOk(m, f);
    }
  }

  lemma TrimOne(m: Phys, m': Phys, lo: nat, d: nat, from: nat, k: nat)
    requires Inv(m, lo) && Trimmed(m, m', lo, d, from, k) && OwnedBy(m, d, Dir) && from <= k < USERPAGES
             && Present(Lookup(m', d, k))
    ensures OwnedBy(m', d, Dir) && HasTable(m', d, Pdx(k)) && lo <= Frame(Lookup(m', d, k)) < |m'.mem|
    ensures Trimmed(m, Unmap(m', d, k), lo, d, from, k + 1)
  {
    assert TrimmedAt(m, m', d, from, k, d);
    UnmapInv(m', lo, d, k);
    UserPage(m', lo, d, k);
    UserPage(m, lo, d, k);
    TrimOneFrames(m, m', lo, d, from, k);
  }

  lemma TrimOneFrames(m: Phys, m': Phys, lo: nat, d: nat, from: nat, k: nat)
    requires Inv(m, lo) && Trimmed(m, m', lo, d, from, k) && OwnedBy(m, d, Dir) && from <= k < USERPAGES
             && Present(Lookup(m', d, k))
    requires HasTable(m', d, Pdx(k)) && OwnedBy(m', Frame(m'.mem[d][Pdx(k)]), Table(d, Pdx(k)))
    requires OwnedBy(m', Frame(Lookup(m', d, k)), User(d, k)) && Frame(Lookup(m, d, k)) == Frame(Lookup(m', d, k))
    ensures forall f: nat {:trigger TrimmedAt(m, Unmap(m', d, k), d, from, k + 1, f)} :: f < |m.mem| ==>
              TrimmedAt(m, Unmap(m', d, k), d, from, k + 1, f)
  {
    hide Inv, Lookup;
    var m1, k1 := Unmap(m', d, k), k + 1;
    forall f: nat | f < |m.mem|
      ensures TrimmedAt(m, m1, d, from, k1, f)
    {
      assert TrimmedAt(m, m', d, from, k, f);
      if OwnedBy(m', f, User(d, k)) {
        UserOnce(m', lo, d, k, f);
      }
    }
  }

  lemma UserOnce(m: Phys, lo: nat, d: nat, v: nat, f: nat)
    requires Inv(m, lo) && OwnedBy(m, f, User(d, v))
    ensures f == Frame(Lookup(m, d, v)) && Present(Lookup(m, d, v))
  {
    assert FrameOk(m, f);
  }

  lemma TrimmedWithin(m: Phys, m': Phys, lo: nat, d: nat, from: nat, to: nat)
    requires Trimmed(m, m', lo, d, from, to) && OwnedBy(m, d, Dir)
    ensures Within(m, m', d) && OwnedBy(m', d, Dir)
  {
    assert d < |m.mem| ==> TrimmedAt(m, m', d, from, to, d);
    forall f: nat | f < |m.mem|
      ensures WithinAt(m, m', d, f)
    {
      assert TrimmedAt(m, m', d, from, to, f);
    }
  }

  // ---------------------------------------------------------------- freevm

  predicate NoHeld(m: Phys, d: nat)
  {
    forall f: nat :: f < |m.owner| ==> m.owner[f] != Held(d)
  }

  lemma TrimmedNoUser(m: Phys, m': Phys, lo: nat, d: nat)
    requires Inv(m, lo) && Trimmed(m, m', lo, d, 0, USERPAGES) && NoHeld(m, d)
    ensures NoUser(m', d)
  {
    forall f: nat | f < |m'.owner|
      ensures m'.owner[f] != Held(d) && !(m'.owner[f].User? && m'.owner[f].d == d)
    {
      assert TrimmedAt(m, m', d, 0, USERPAGES, f);
      assert FrameOk(m, f);
    }
  }

  /** While freevm frees page tables: those of the first i entries are free, the rest and d loose. */
  predicate TornAt(m: Phys, m': Phys, d: nat, i: nat, f: nat)
  {
    f < |m.mem| == |m'.mem| == |m.owner| == |m'.owner| &&
    if f == d then m'.owner[f] == Other && m'.mem[f] == m.mem[f]
    else if m.owner[f].Table? && m.owner[f].d == d then
      if m.owner[f].i < i then m'.owner[f].Free? else m'.owner[f] == Other
    else m'.owner[f] == m.owner[f] && m'.mem[f] == m.mem[f]
  }

  ghost predicate Torn(m: Phys, m': Phys, lo: nat, d: nat, i: nat)
  {
    && Inv(m', lo) && |m.mem| == |m'.mem| == |m.owner| == |m'.owner|
    && (forall f: nat {:trigger TornAt(m, m', d, i, f)} :: f < |m.mem| ==> TornAt(m, m', d, i, f))
  }

  lemma TornNone(m: Phys, lo: nat, d: nat)
    requires Inv(m, lo) && OwnedBy(m, d, Dir) && NoUser(m, d)
    ensures Torn(m, Dismantle(m, d), lo, d, 0)
  {
    DismantleInv(m, lo, d);
    var m' := Dismantle(m, d);
    forall f: nat | f < |m.mem|
      ensures TornAt(m, m', d, 0, f)
    {
    }
  }

  lemma TornOne(m: Phys, m': Phys, lo: nat, d: nat, i: nat)
    requires Inv(m, lo) && Torn(m, m', lo, d, i) && OwnedBy(m, d, Dir) && InRange(m, d) && i < NENTRIES
    ensures |m'.mem| == |m.mem| && InRange(m', d) && m'.mem[d] == m.mem[d]
    ensures Present(m.mem[d][i]) ==>
              lo <= Frame(m.mem[d][i]) < |m.mem| && Torn(m, Release(m', Frame(m.mem[d][i])), lo, d, i + 1)
    ensures !Present(m.mem[d][i]) ==> Torn(m, m', lo, d, i + 1)
  {
    assert TornAt(m, m', d, i, d);
    var m1, i1 := m', i + 1;
    if Present(m.mem[d][i]) {
      TableOwned(m, lo, d, i);
      var t := Frame(m.mem[d][i]);
      assert TornAt(m, m', d, i, t);
      ReleaseInv(m', lo, t);
      m1 := Release(m', t);
    }
    forall f: nat | f < |m.mem|
      ensures TornAt(m, m1, d, i1, f)
    {
      assert TornAt(m, m', d, i, f);
      assert FrameOk(m, f);
    }
  }

  /** Frame f is free now if d owned it, and as before if not. */
  predicate ReturnedAt(m: Phys, m': Phys, d: nat, f: nat)
  {
    f < |m.mem| == |m'.mem| == |m.owner| == |m'.owner| &&
    if Mine(m, d, f) then m'.owner[f].Free? else m'.owner[f] == m.owner[f] && m'.mem[f] == m.mem[f]
  }

  /** The free list gained exactly what d owned. */
  ghost predicate Returned(m: Phys, m': Phys, lo: nat, d: nat)
  {
    && Inv(m', lo) && |m.mem| == |m'.mem| == |m.owner| == |m'.owner|
    && (forall f: nat {:trigger ReturnedAt(m, m', d, f)} :: f < |m.mem| ==> ReturnedAt(m, m', d, f))
  }

  lemma TornAll(m: Phys, m1: Phys, m2: Phys, lo: nat, d: nat)
    requires Inv(m, lo) && OwnedBy(m, d, Dir) && NoHeld(m, d) && Trimmed(m, m1, lo, d, 0, USERPAGES)
             && Torn(m1, m2, lo, d, NENTRIES)
    ensures lo <= d < |m2.mem| == |m2.owner| && Returned(m, Release(m2, d), lo, d)
  {
    assert TrimmedAt(m, m1, d, 0, USERPAGES, d) && TornAt(m1, m2, d, NENTRIES, d);
    ReleaseInv(m2, lo, d);
    var m3 := Release(m2, d);
    forall f: nat | f < |m.mem|
      ensures ReturnedAt(m, m3, d, f)
    {
      assert TrimmedAt(m, m1, d, 0, USERPAGES, f) && TornAt(m1, m2, d, NENTRIES, f);
      assert FrameOk(m, f);
    }
  }

  // ---------------------------------------------------------------- giving everything back

  /** The same frames are free, and the others are untouched. */
  predicate RestoredAt(m: Phys, m': Phys, f: nat)
  {
    f < |m.mem| == |m'.mem| == |m.owner| == |m'.owner| &&
    if m.owner[f].Free? then m'.owner[f].Free? else m'.owner[f] == m.owner[f] && m'.mem[f] == m.mem[f]
  }

  ghost predicate Restored(m: Phys, m': Phys)
  {
    && |m.mem| == |m'.mem| == |m.owner| == |m'.owner|
    && (forall f: nat {:trigger RestoredAt(m, m', f)} :: f < |m.mem| ==> RestoredAt(m, m', f))
  }

  function FreeSet(m: Phys): set<nat> { set f: nat | f < |m.owner| && m.owner[f].Free? }

  lemma RestoredFree(m: Phys, m': Phys)
    requires Restored(m, m')
    ensures FreeSet(m') == FreeSet(m)
  {
    forall f: nat | f < |m.mem|
      ensures m.owner[f].Free? <==> m'.owner[f].Free?
    {
      assert RestoredAt(m, m', f);
    }
  }

  /** Building a directory out of free pages and then freeing it restores the free set. */
  lemma BuiltAndFreed(m: Phys, m1: Phys, m2: Phys, lo: nat, d: nat)
    requires Inv(m, lo) && d < |m.owner| && m.owner[d].Free? && Within(m, m1, d) && Returned(m1, m2, lo, d)
    ensures Restored(m, m2)
  {
    forall f: nat | f < |m.mem|
      ensures RestoredAt(m, m2, f)
    {
      assert FrameOk(m, f) && FrameOk(m, d);
      assert WithinAt(m, m1, d, f) && ReturnedAt(m1, m2, d, f);
    }
  }

  // ---------------------------------------------------------------- allocuvm and copyuvm

  /** Frame f, if it was free, is free or a page table of d or a page of d with its planned contents or
      held for d; if it was not, its owner is as before. */
  predicate GrownAt(m: Phys, m': Phys, d: nat, from: nat, k: nat, src: seq<seq<nat>>, held: set<nat>, f: nat)
  {
    f < |m.mem| == |m'.mem| == |m.owner| == |m'.owner| &&
    if m.owner[f].Free? then
      || m'.owner[f].Free? || (m'.owner[f].Table? && m'.owner[f].d == d) || (f in held && m'.owner[f] == Held(d))
      || (m'.owner[f].User? && m'.owner[f].d == d && from <= m'.owner[f].v < k && m'.owner[f].v < |src|
          && m'.mem[f] == src[m'.owner[f].v])
    else
      m'.owner[f] == m.owner[f] && (m.owner[f].User? ==> m'.mem[f] == m.mem[f])
  }

  /** Pages [from, k) of d were added with the contents src and the permissions perms. */
  ghost predicate Grown(m: Phys, m': Phys, lo: nat, d: nat, from: nat, k: nat, src: seq<seq<nat>>, perms: seq<nat>,
                        held: set<nat>)
  {
    && Inv(m', lo) && OwnedBy(m', d, Dir) && Within(m, m', d) && k <= |src| == |perms|
    && (forall f: nat {:trigger GrownAt(m, m', d, from, k, src, held, f)} :: f < |m.mem| ==>
          GrownAt(m, m', d, from, k, src, held, f))
    && (forall v: nat :: from <= v < k ==> Present(Lookup(m', d, v)) && Flags(Lookup(m', d, v)) == WithP(perms[v]))
    && (forall v: nat :: !(from <= v < k) ==> Lookup(m', d, v) == Lookup(m, d, v))
  }

  lemma GrownNone(m: Phys, lo: nat, d: nat, from: nat, src: seq<seq<nat>>, perms: seq<nat>)
    requires Inv(m, lo) && OwnedBy(m, d, Dir) && from <= |src| == |perms|
    ensures Grown(m, m, lo, d, from, from, src, perms, {})
  {
    forall f: nat | f < |m.mem|
      ensures GrownAt(m, m, d, from, from, src, {}, f) && WithinAt(m, m, d, f)
    {
    }
  }

  /** kalloc, then fill the page. */
  function Fill(m: Phys, d: nat, page: seq<nat>): Phys
    requires m.free != [] && m.free[|m.free| - 1] < |m.owner| == |m.mem|
  {
    var m1 := Take(m, Held(d));
    m1.(mem := m1.mem[m.free[|m.free| - 1] := page])
  }

  lemma FillInv(m: Phys, lo: nat, d: nat, page: seq<nat>)
    requires Inv(m, lo) && m.free != [] && OwnedBy(m, d, Dir) && |page| == NENTRIES
    ensures lo <= m.free[|m.free| - 1] < |m.owner|
    ensures Inv(Fill(m, d, page), lo) && OwnedBy(Fill(m, d, page), d, Dir)
    ensures forall v: nat :: Lookup(Fill(m, d, page), d, v) == Lookup(m, d, v)
  {
    var f := m.free[|m.free| - 1];
    assert FrameOk(m, f);
    TakeInv(m, lo, Held(d));
    var m1, m2 := Take(m, Held(d)), Fill(m, d, page);
    forall e: nat, v: nat | OwnedBy(m1, e, Dir)
      ensures Lookup(m2, e, v) == Lookup(m1, e, v)
    {
      SameLookup(m1, m2, lo, e, v);
    }
    forall g: nat | g < |m2.mem|
      ensures FrameOk(m2, g)
    {
      assert FrameOk(m1, g);
    }
  }

  /** Add page k: n is 1 if mappages succeeded, 0 if it left the page held. */
  lemma GrowOne(m: Phys, m1: Phys, m3: Phys, lo: nat, d: nat, from: nat, k: nat, src: seq<seq<nat>>, perms: seq<nat>,
                n: nat)
    requires Inv(m1, lo) && Grown(m, m1, lo, d, from, k, src, perms, {}) && m1.free != [] && from <= k < |src|
             && k < USERPAGES && perms[k] < PGSIZE
    requires n <= 1 && m1.free[|m1.free| - 1] < |m1.owner|
    requires Mapping(Fill(m1, d, src[k]), m3, lo, d, k, n, m1.free[|m1.free| - 1], perms[k])
    requires forall v: nat :: Lookup(Fill(m1, d, src[k]), d, v) == Lookup(m1, d, v)
    ensures Grown(m, m3, lo, d, from, k + n, src, perms, if n == 1 then {} else {m1.free[|m1.free| - 1]})
  {
    hide Inv, Lookup;
    var f := m1.free[|m1.free| - 1];
    PteParts(f, perms[k]);
    GrowFrames(m, m1, m3, lo, d, from, k, src, n, f, if n == 1 then {} else {f}, perms[k]);
  }

  lemma GrowFrames(m: Phys, m1: Phys, m3: Phys, lo: nat, d: nat, from: nat, k: nat, src: seq<seq<nat>>, n: nat, f: nat,
                   held: set<nat>, perm: nat)
    requires Inv(m1, lo) && Inv(m3, lo) && Within(m, m1, d) && m1.free != [] && f == m1.free[|m1.free| - 1]
             && f < |m1.owner|
    requires forall g: nat {:trigger GrownAt(m, m1, d, from, k, src, {}, g)} :: g < |m.mem| ==>
               GrownAt(m, m1, d, from, k, src, {}, g)
    requires from <= k < |src| && k < USERPAGES && n <= 1 && held == if n == 1 then {} else {f}
    requires Mapping(Fill(m1, d, src[k]), m3, lo, d, k, n, f, perm) && perm < PGSIZE
    ensures Within(m, m3, d)
    ensures forall g: nat {:trigger GrownAt(m, m3, d, from, k + n, src, held, g)} :: g < |m.mem| ==>
              GrownAt(m, m3, d, from, k + n, src, held, g)
  {
    hide Lookup;
    var m2, k1 := Fill(m1, d, src[k]), k + n;
    assert FrameOk(m1, f) && KeepsAt(m2, m3, d, f, n, f);
    MappedOwner(m2, m3, lo, d, k, n, f, perm);
    forall g: nat | g < |m.mem|
      ensures GrownAt(m, m3, d, from, k1, src, held, g) && WithinAt(m, m3, d, g)
    {
      assert GrownAt(m, m1, d, from, k, src, {}, g) && WithinAt(m, m1, d, g);
      assert KeepsAt(m2, m3, d, f, n, g) && WithinAt(m2, m3, d, g);
    }
  }

  /** The mapped frame is page a's, and no frame is mapped if none was. */
  lemma MappedOwner(m: Phys, m': Phys, lo: nat, d: nat, a: nat, n: nat, f: nat, perm: nat)
    requires Mapping(m, m', lo, d, a, n, f, perm) && n <= 1 && a < USERPAGES && perm < PGSIZE && OwnedBy(m, f, Held(d))
             && f < |m.mem|
    ensures OwnedBy(m', f, if n == 1 then User(d, a) else Held(d))
  {
    PteParts(f, perm);
    assert KeepsAt(m, m', d, f, n, f);
    if n == 1 {
      assert Lookup(m', d, a) == Pte(f, perm);
      UserPage(m', lo, d, a);
    }
  }

  /** A failed allocuvm: no page of [from, to) is mapped, nothing else changed, and of the frames that
      were free only page tables of d and held pages are not. */
  ghost predicate Undone(m: Phys, m': Phys, lo: nat, d: nat, from: nat, to: nat, held: set<nat>)
  {
    && Inv(m', lo) && OwnedBy(m', d, Dir) && Within(m, m', d)
    && (forall f: nat {:trigger GrownAt(m, m', d, from, from, [], held, f)} :: f < |m.mem| ==>
          GrownAt(m, m', d, from, from, [], held, f))
    && (forall v: nat :: if from <= v < to then !Present(Lookup(m', d, v)) else Lookup(m', d, v) == Lookup(m, d, v))
  }

  lemma GrownUndone(m: Phys, m1: Phys, m2: Phys, lo: nat, d: nat, from: nat, k: nat, to: nat, src: seq<seq<nat>>,
                    perms: seq<nat>, held: set<nat>)
    requires Inv(m, lo) && Grown(m, m1, lo, d, from, k, src, perms, held) && Trimmed(m1, m2, lo, d, from, to)
             && from <= k <= to
    requires forall v: nat :: from <= v < to ==> !Present(Lookup(m, d, v))
    ensures Undone(m, m2, lo, d, from, to, held)
  {
    hide Inv, Lookup;
    TrimmedWithin(m1, m2, lo, d, from, to);
    WithinTrans(m, m1, m2, d);
    forall f: nat | f < |m.mem|
      ensures GrownAt(m, m2, d, from, from, [], held, f)
    {
      assert GrownAt(m, m1, d, from, k, src, held, f) && TrimmedAt(m1, m2, d, from, to, f);
      if m.owner[f].User? {
        UserOnce(m, lo, m.owner[f].d, m.owner[f].v, f);
      }
    }
    assert !Present(0);
  }

  lemma ReleaseHeld(m: Phys, m': Phys, lo: nat, d: nat, from: nat, k: nat, src: seq<seq<nat>>, f: nat)
    requires Inv(m', lo) && OwnedBy(m', d, Dir) && Within(m, m', d) && f < |m.owner| && m.owner[f].Free?
             && m'.owner[f] == Held(d)
    requires forall g: nat {:trigger GrownAt(m, m', d, from, k, src, {f}, g)} :: g < |m.mem| ==>
               GrownAt(m, m', d, from, k, src, {f}, g)
    ensures lo <= f && Inv(Release(m', f), lo) && OwnedBy(Release(m', f), d, Dir) && Within(m, Release(m', f), d)
    ensures forall g: nat {:trigger GrownAt(m, Release(m', f), d, from, k, src, {}, g)} :: g < |m.mem| ==>
              GrownAt(m, Release(m', f), d, from, k, src, {}, g)
    ensures forall v: nat :: Lookup(Release(m', f), d, v) == Lookup(m', d, v)
  {
    ReleaseInv(m', lo, f);
    var m1 := Release(m', f);
    forall g: nat | g < |m.mem|
      ensures GrownAt(m, m1, d, from, k, src, {}, g) && WithinAt(m, m1, d, g)
    {
      assert GrownAt(m, m', d, from, k, src, {f}, g) && WithinAt(m, m', d, g);
    }
  }

  /** What GrownAt promises of a page, read through the page table. */
  lemma GrownPage(m: Phys, m': Phys, lo: nat, d: nat, from: nat, k: nat, src: seq<seq<nat>>, perms: seq<nat>, v: nat)
    requires Inv(m, lo) && Grown(m, m', lo, d, from, k, src, perms, {}) && from <= v < k && v < USERPAGES
             && !Present(Lookup(m, d, v))
    ensures var f := Frame(Lookup(m', d, v));
              f < |m.mem| == |m'.mem| && m.owner[f].Free? && OwnedBy(m', f, User(d, v)) && m'.mem[f] == src[v]
  {
    UserPage(m', lo, d, v);
    var f := Frame(Lookup(m', d, v));
    assert GrownAt(m, m', d, from, k, src, {}, f);
    assert FrameOk(m, f);
  }

  lemma GrownNoHeld(m: Phys, m': Phys, lo: nat, d: nat, from: nat, k: nat, src: seq<seq<nat>>, perms: seq<nat>)
    requires Grown(m, m', lo, d, from, k, src, perms, {}) && NoHeld(m, d)
    ensures NoHeld(m', d)
  {
    forall f: nat | f < |m'.owner|
      ensures m'.owner[f] != Held(d)
    {
      assert GrownAt(m, m', d, from, k, src, {}, f);
    }
  }

  /** The filled page can be mapped. */
  lemma Fillable(m: Phys, m1: Phys, lo: nat, d: nat, from: nat, k: nat, src: seq<seq<nat>>, perms: seq<nat>)
    requires Grown(m, m1, lo, d, from, k, src, perms, {}) && m1.free != [] && from <= k < |src| && |src[k]| == NENTRIES
    requires !Present(Lookup(m, d, k))
    ensures var f := m1.free[|m1.free| - 1];
            lo <= f < |m1.owner| == |m1.mem| && OwnedBy(Fill(m1, d, src[k]), f, Held(d)) && Inv(Fill(m1, d, src[k]), lo)
            && OwnedBy(Fill(m1, d, src[k]), d, Dir) && Ready(Fill(m1, d, src[k]), lo, d, k, f, k)
            && forall v: nat :: Lookup(Fill(m1, d, src[k]), d, v) == Lookup(m1, d, v)
  {
    FillInv(m1, lo, d, src[k]);
  }

  /** A page that mappages failed to map was free before, and is still held. */
  lemma HeldPage(m: Phys, m1: Phys, m2: Phys, lo: nat, d: nat, from: nat, k: nat, src: seq<seq<nat>>, perms: seq<nat>,
                 f: nat)
    requires Grown(m, m1, lo, d, from, k, src, perms, {}) && m1.free != [] && f == m1.free[|m1.free| - 1]
             && f < |m1.owner|
    requires from <= k < |src| && k < USERPAGES && perms[k] < PGSIZE
             && Mapping(Fill(m1, d, src[k]), m2, lo, d, k, 0, f, perms[k])
    ensures f < |m.owner| && m.owner[f].Free? && OwnedBy(m2, f, Held(d))
  {
    assert FrameOk(m1, f) && GrownAt(m, m1, d, from, k, src, {}, f);
    MappedOwner(Fill(m1, d, src[k]), m2, lo, d, k, 0, f, perms[k]);
  }

  lemma GrownRelease(m: Phys, m2: Phys, lo: nat, d: nat, from: nat, k: nat, src: seq<seq<nat>>, perms: seq<nat>, f: nat)
    requires Grown(m, m2, lo, d, from, k, src, perms, {f}) && f < |m.owner| && m.owner[f].Free?
             && OwnedBy(m2, f, Held(d))
    ensures lo <= f < |m2.mem| == |m2.owner| && Grown(m, Release(m2, f), lo, d, from, k, src, perms, {})
  {
    hide Inv, Lookup;
    ReleaseHeld(m, m2, lo, d, from, k, src, f);
  }

  lemma UndoneRelease(m: Phys, m2: Phys, m3: Phys, lo: nat, d: nat, from: nat, to: nat, f: nat)
    requires Undone(m, m3, lo, d, from, to, {f}) && Trimmed(m2, m3, lo, d, from, to)
    requires f < |m.owner| && m.owner[f].Free? && OwnedBy(m2, f, Held(d))
    ensures lo <= f < |m3.mem| == |m3.owner| && Undone(m, Release(m3, f), lo, d, from, to, {})
  {
    hide Inv, Lookup;
    assert TrimmedAt(m2, m3, d, from, to, f);
    ReleaseHeld(m, m3, lo, d, from, from, [], f);
  }
}
