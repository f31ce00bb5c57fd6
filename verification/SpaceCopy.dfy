/** setupkvm and copyuvm: what a directory built out of free pages holds. */
module SpaceCopy {
  import opened Pages
  import opened KernelMap
  import opened AddressSpaces

  /** Directory d, free in m, holds the first n kernel entries and no user page. */
  ghost predicate Built(m: Phys, m': Phys, lo: nat, d: nat, data: nat, n: nat)
    requires DataOk(data) && n <= 4
  {
    && Inv(m', lo) && OwnedBy(m', d, Dir) && Within(m, m', d) && NoUser(m', d)
    && forall v: nat :: Lookup(m', d, v) == EntryAfter(data, n, v)
  }

  lemma BuiltDir(m: Phys, lo: nat, data: nat)
    requires Inv(m, lo) && m.free != [] && DataOk(data)
    ensures var d := m.free[|m.free| - 1];
            lo <= d < |m.owner| == |m.mem| && m.owner[d].Free? && Built(m, MakeDir(Take(m, Other), d), lo, d, data, 0)
  {
    var d := m.free[|m.free| - 1];
    assert FrameOk(m, d);
    TakeInv(m, lo, Other);
    MakeDirInv(Take(m, Other), lo, d);
    var m' := MakeDir(Take(m, Other), d);
    forall f: nat | f < |m.mem|
      ensures WithinAt(m, m', d, f) && m'.owner[f] != Held(d) && !(m'.owner[f].User? && m'.owner[f].d == d)
    {
      assert FrameOk(m, f);
    }
  }

  /** mappages for kernel entry n; if it failed, the directory can still be freed. */
  lemma BuiltStep(m: Phys, m1: Phys, m2: Phys, lo: nat, d: nat, data: nat, n: nat, k: nat)
    requires DataOk(data) && n < 4 && Built(m, m1, lo, d, data, n)
    requires var e := Entries(data)[n]; Mapping(m1, m2, lo, d, e.virt / PGSIZE, k, e.physStart / PGSIZE, e.perm)
    ensures Inv(m2, lo) && OwnedBy(m2, d, Dir) && Within(m, m2, d) && NoUser(m2, d) && NoHeld(m2, d)
    ensures var e := Entries(data)[n];
            k == (e.virt + Size(e) - 1) / PGSIZE - e.virt / PGSIZE + 1 && Size(e) > 0 ==>
                Built(m, m2, lo, d, data, n + 1)
  {
    hide Inv, Lookup, Size;
    WithinTrans(m, m1, m2, d);
    var f0 := Entries(data)[n].physStart / PGSIZE;
    forall f: nat | f < |m2.owner|
      ensures m2.owner[f] != Held(d) && !(m2.owner[f].User? && m2.owner[f].d == d)
    {
      assert KeepsAt(m1, m2, d, f0, k, f);
    }
  }

  lemma BuiltReady(m: Phys, m1: Phys, lo: nat, d: nat, data: nat, n: nat)
    requires DataOk(data) && n < 4 && Built(m, m1, lo, d, data, n)
    ensures var e := Entries(data)[n]; Size(e) > 0 && forall v: nat ::
              e.virt / PGSIZE <= v <= (e.virt + Size(e) - 1) / PGSIZE ==>
              Ready(m1, lo, d, e.virt / PGSIZE, e.physStart / PGSIZE, v)
  {
    EntrySizes(data, n);
    var e := Entries(data)[n];
    forall v: nat | e.virt / PGSIZE <= v <= (e.virt + Size(e) - 1) / PGSIZE
      ensures Ready(m1, lo, d, e.virt / PGSIZE, e.physStart / PGSIZE, v)
    {
      EntryApart(data, n, v);
    }
  }

  lemma BuiltKernel(m: Phys, m': Phys, lo: nat, d: nat, data: nat)
    requires DataOk(data) && Built(m, m', lo, d, data, 4)
    ensures forall v: nat :: Lookup(m', d, v) == KernelPte(data, v)
    ensures NoHeld(m', d) && Inv(m', lo) && OwnedBy(m', d, Dir) && Within(m, m', d)
  {
    forall v: nat
      ensures Lookup(m', d, v) == KernelPte(data, v)
    {
      EntriesMapKernel(data, v);
    }
  }

  // ---------------------------------------------------------------- copyuvm

  /** The contents and the flags of the first n pages under directory d. */
  ghost function PageContents(m: Phys, d: nat, n: nat): seq<seq<nat>>
  {
    seq(n, v requires 0 <= v < n => if Frame(Lookup(m, d, v)) < |m.mem| then m.mem[Frame(Lookup(m, d, v))] else [])
  }

  ghost function PageFlags(m: Phys, d: nat, n: nat): seq<nat>
  {
    seq(n, v requires 0 <= v < n => Flags(Lookup(m, d, v)))
  }

  /** Page v of d is a fresh frame with the contents and flags of page v of e. */
  predicate CopiedPage(m: Phys, m': Phys, e: nat, d: nat, v: nat)
  {
    var w, w' := Lookup(m, e, v), Lookup(m', d, v);
    && Present(w') && Flags(w') == Flags(w)
    && Frame(w) < |m.mem| && Frame(w') < |m'.mem| == |m.owner| && m.owner[Frame(w')].Free?
    && m'.mem[Frame(w')] == m.mem[Frame(w)]
  }

  /** Page v of e is as it was: same entry, and same contents if it is a user page. */
  predicate SamePage(m: Phys, m': Phys, e: nat, v: nat)
  {
    var w := Lookup(m, e, v);
    && Lookup(m', e, v) == w
    && (v < USERPAGES && Present(w) ==> Frame(w) < |m.mem| == |m'.mem| && m'.mem[Frame(w)] == m.mem[Frame(w)])
  }

  /** d is a new address space with copies of the first n pages of e, and the kernel's half; e and every
      other address space are unchanged. */
  ghost predicate Copied(m: Phys, m': Phys, e: nat, d: nat, data: nat, n: nat)
  {
    && d < |m.owner| && m.owner[d].Free? && OwnedBy(m', d, Dir) && Within(m, m', d)
    && (forall v: nat :: v < n ==> CopiedPage(m, m', e, d, v))
    && (forall v: nat :: v >= n ==> Lookup(m', d, v) == KernelPte(data, v))
    && (forall v: nat :: SamePage(m, m', e, v))
  }

  lemma GrownCopied(m: Phys, m1: Phys, m2: Phys, lo: nat, e: nat, d: nat, data: nat, n: nat)
    requires Inv(m, lo) && DataOk(data) && OwnedBy(m, e, Dir) && d < |m.owner| && m.owner[d].Free? && n <= USERPAGES
    requires Inv(m1, lo) && Within(m, m1, d) && forall v: nat :: Lookup(m1, d, v) == KernelPte(data, v)
    requires forall v: nat :: v < n ==> Present(Lookup(m, e, v))
    requires Grown(m1, m2, lo, d, 0, n, PageContents(m, e, n), PageFlags(m, e, n), {})
    ensures Copied(m, m2, e, d, data, n)
  {
    WithinTrans(m, m1, m2, d);
    forall v: nat
      ensures SamePage(m, m2, e, v)
    {
      OtherSpaces(m, m2, lo, d, e, v);
    }
    forall v: nat | v < n
      ensures CopiedPage(m, m2, e, d, v)
    {
      CopyOne(m, m1, m2, lo, e, d, data, n, v);
    }
  }

  lemma CopyOne(m: Phys, m1: Phys, m2: Phys, lo: nat, e: nat, d: nat, data: nat, n: nat, v: nat)
    requires Inv(m, lo) && DataOk(data) && OwnedBy(m, e, Dir) && d < |m.owner| && m.owner[d].Free? && v < n <= USERPAGES
    requires Inv(m1, lo) && Within(m, m1, d) && Lookup(m1, d, v) == KernelPte(data, v) && Present(Lookup(m, e, v))
    requires Grown(m1, m2, lo, d, 0, n, PageContents(m, e, n), PageFlags(m, e, n), {})
    ensures CopiedPage(m, m2, e, d, v)
  {
    hide Inv, Lookup;
    assert !Present(0);
    GrownPage(m1, m2, lo, d, 0, n, PageContents(m, e, n), PageFlags(m, e, n), v);
    UserPage(m, lo, e, v);
    FreeBefore(m, m1, lo, d, Frame(Lookup(m2, d, v)));
    assert PageFlags(m, e, n)[v] == Flags(Lookup(m, e, v)) == WithP(Flags(Lookup(m, e, v)));
  }

  /** While d is built, a frame free later was free before. */
  lemma FreeBefore(m: Phys, m1: Phys, lo: nat, d: nat, f: nat)
    requires Inv(m, lo) && d < |m.owner| && m.owner[d].Free? && Within(m, m1, d) && f < |m1.owner| && m1.owner[f].Free?
    ensures f < |m.owner| && m.owner[f].Free?
  {
    assert WithinAt(m, m1, d, f);
    assert FrameOk(m, f) && FrameOk(m, d);
  }

  /** The entry and the contents copyuvm reads are the parent's at the call. */
  lemma ParentPage(m: Phys, m1: Phys, m2: Phys, lo: nat, e: nat, d: nat, n: nat, v: nat)
    requires Inv(m, lo) && OwnedBy(m, e, Dir) && d < |m.owner| && m.owner[d].Free? && v < n <= USERPAGES
    requires Within(m, m1, d) && Within(m1, m2, d) && Present(Lookup(m, e, v))
    ensures OwnedBy(m2, e, Dir) && Lookup(m2, e, v) == Lookup(m, e, v) && Frame(Lookup(m, e, v)) < |m2.mem| == |m.mem|
    ensures |PageContents(m, e, n)| == |PageFlags(m, e, n)| == n
    ensures m2.mem[Frame(Lookup(m, e, v))] == PageContents(m, e, n)[v] && |PageContents(m, e, n)[v]| == NENTRIES
    ensures PageFlags(m, e, n)[v] == Flags(Lookup(m2, e, v)) < PGSIZE
  {
    WithinTrans(m, m1, m2, d);
    OtherSpaces(m, m2, lo, d, e, v);
  }
}
