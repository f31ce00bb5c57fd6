/** kalloc.c and vm.c: the page allocator, and page tables built, grown, copied and freed through it. */
module Vm {
  import opened Wrappers
  import opened Pages
  import opened KernelMap
  import opened AddressSpaces
  import opened SpaceCopy

  const PTE_U := 4

  function PgRoundUp(sz: nat): nat { (sz + PGSIZE - 1) / PGSIZE * PGSIZE }

  /** The number of pages that hold sz bytes. */
  function PagesOf(sz: nat): nat { (sz + PGSIZE - 1) / PGSIZE }

  /** The processor lets user code read and write page v of d, and finds zeros there. */
  predicate ZeroPage(m: Phys, d: nat, v: nat)
  {
    match Translate(m, d, v)
    case None => false
    case Some(a) => a.writable && a.user && a.frame < |m.mem| && |m.mem[a.frame]| == 1024 &&
                    forall j :: 0 <= j < 1024 ==> m.mem[a.frame][j] == 0
  }

  /** Page v of d in m' has the rights and the contents of page v of e in m, at a frame that was free. */
  predicate SameAccess(m: Phys, m': Phys, e: nat, d: nat, v: nat)
  {
    match (Translate(m, e, v), Translate(m', d, v))
    case (Some(a), Some(b)) =>
      && b.writable == a.writable && b.user == a.user && a.frame < |m.mem| && b.frame < |m'.mem| == |m.owner|
      && m'.mem[b.frame] == m.mem[a.frame] && m.owner[b.frame].Free?
    case (_, _) => false
  }

  /** The pages [from, to) of d are zero pages, and every other page of d is as it was. */
  ghost predicate ZerosAdded(m: Phys, m': Phys, d: nat, from: nat, to: nat)
  {
    && (forall v: nat :: from <= v < to ==> ZeroPage(m', d, v))
    && (forall v: nat :: !(from <= v < to) ==> Translate(m', d, v) == Translate(m, d, v))
  }

  /** A page that allocuvm added. */
  lemma GrownZero(m: Phys, m': Phys, lo: nat, d: nat, from: nat, to: nat, v: nat)
    requires Inv(m, lo) && Grown(m, m', lo, d, from, to, ZeroPages(to), Perms(to), {}) && from <= v < to <= USERPAGES
    requires !Present(Lookup(m, d, v))
    ensures ZeroPage(m', d, v)
  {
    hide Lookup, Writable, UserBit, Translate;
    GrownPage(m, m', lo, d, from, to, ZeroPages(to), Perms(to), v);
    RightsOfEntry(m', lo, d, v);
    RightsOfFlags(Lookup(m', d, v));
    AllBits(7);
    assert Flags(Lookup(m', d, v)) == WithP(6) == 7;
  }

  /** A page that it did not. */
  lemma GrownSame(m: Phys, m': Phys, lo: nat, d: nat, from: nat, to: nat, src: seq<seq<nat>>, perms: seq<nat>, v: nat)
    requires Inv(m, lo) && OwnedBy(m, d, Dir) && Grown(m, m', lo, d, from, to, src, perms, {}) && !(from <= v < to)
    ensures Translate(m', d, v) == Translate(m, d, v)
  {
    hide Lookup, Writable, UserBit, Translate;
    RightsOfEntry(m, lo, d, v);
    RightsOfEntry(m', lo, d, v);
  }

  /** The processor finds none of the pages [from, to) of d any more, and the others as they were. */
  ghost predicate Gone(m: Phys, m': Phys, d: nat, from: nat, to: nat)
  {
    forall v: nat :: Translate(m', d, v) == if from <= v < to then None else Translate(m, d, v)
  }

  lemma TrimmedSeen(m: Phys, m': Phys, lo: nat, d: nat, from: nat, to: nat)
    requires Inv(m, lo) && OwnedBy(m, d, Dir) && Trimmed(m, m', lo, d, from, to)
    ensures Gone(m, m', d, from, to)
  {
    hide Inv, Lookup, Translate, Writable, UserBit;
    TrimmedDir(m, m', lo, d, from, to);
    forall v: nat
      ensures Translate(m', d, v) == if from <= v < to then None else Translate(m, d, v)
    {
      RightsOfEntry(m, lo, d, v);
      RightsOfEntry(m', lo, d, v);
    }
  }

  lemma CopiedAccess(m: Phys, m': Phys, lo: nat, e: nat, d: nat, data: nat, n: nat, v: nat)
    requires Inv(m, lo) && Inv(m', lo) && OwnedBy(m, e, Dir) && Copied(m, m', e, d, data, n) && v < n
    requires Present(Lookup(m, e, v))
    ensures SameAccess(m, m', e, d, v)
  {
    hide Lookup, Writable, UserBit, Translate;
    assert CopiedPage(m, m', e, d, v);
    RightsOfEntry(m, lo, e, v);
    RightsOfEntry(m', lo, d, v);
    RightsOfFlags(Lookup(m, e, v));
    RightsOfFlags(Lookup(m', d, v));
  }

  /** The kernel's half as the processor sees it: never for user code; text not writable. */
  function KernelHalf(data: nat, v: nat): Option<Access>
  {
    if v < 0x8_0000 then None
    else if v < 0x8_0100 then Some(Access(v - 0x8_0000, true, false))           // I/O space
    else if v < data / 4096 then Some(Access(v - 0x8_0000, false, false))       // kernel text
    else if v < 0x8_E000 then Some(Access(v - 0x8_0000, true, false))           // kernel data and free memory
    else if 0xF_E000 <= v < 0x10_0000 then Some(Access(v, true, false))         // devices
    else None
  }

  lemma KernelAccess(m: Phys, lo: nat, d: nat, data: nat, v: nat)
    requires Inv(m, lo) && OwnedBy(m, d, Dir) && Lookup(m, d, v) == KernelPte(data, v)
    ensures Translate(m, d, v) == KernelHalf(data, v)
  {
    hide Lookup, Translate, UserBit, Writable, Pte, Inv, Present, Frame;
    RightsOfEntry(m, lo, d, v);
    NoEntry();
    if v >= USERPAGES {
      KernelRights(v - USERPAGES);
      KernelRights(v);
    }
  }

  lemma NoEntry()
    ensures !Present(0)
  {
  }

  lemma KernelRights(f: nat)
    ensures Present(Pte(f, PTE_W)) && Frame(Pte(f, PTE_W)) == f && Writable(Pte(f, PTE_W)) && !UserBit(Pte(f, PTE_W))
    ensures Present(Pte(f, 0)) && Frame(Pte(f, 0)) == f && !Writable(Pte(f, 0)) && !UserBit(Pte(f, 0))
  {
    PteParts(f, PTE_W);
    PteParts(f, 0);
    RightsOfFlags(Pte(f, PTE_W));
    RightsOfFlags(Pte(f, 0));
  }

  lemma BuiltSeen(m: Phys, m': Phys, lo: nat, d: nat, data: nat)
    requires DataOk(data) && Built(m, m', lo, d, data, 4)
    ensures forall v: nat :: Translate(m', d, v) == KernelHalf(data, v)
  {
    hide Inv, Lookup, Translate, KernelHalf;
    BuiltKernel(m, m', lo, d, data);
    forall v: nat
      ensures Translate(m', d, v) == KernelHalf(data, v)
    {
      KernelAccess(m', lo, d, data, v);
    }
  }

  class Vm {
    const lo: nat     // the first frame after the kernel image
    const data: nat   // the address of the kernel's writable data
    var mem: seq<seq<nat>>
    var freelist: nat
    ghost var owner: seq<Owner>
    ghost var free: seq<nat>
    ghost var failures: nat   // calls of kalloc that found the free list empty

    ghost function Now(): Phys
      reads this
    {
      Phys(mem, owner, free)
    }

    ghost predicate Valid()
      reads this
    {
      Inv(Now(), lo) && freelist == Link(free, |free|)
    }

    /** Memory before kinit1: no page is free, and none belongs to a page table. */
    constructor (lo: nat, data: nat, mem: seq<seq<nat>>)
      requires 0 < lo <= |mem| && forall f :: 0 <= f < |mem| ==> |mem[f]| == NENTRIES
      ensures Valid() && this.mem == mem && this.lo == lo && this.data == data
      ensures free == [] && forall f :: 0 <= f < |mem| ==> owner[f] == Other
    {
      this.lo, this.data, this.mem := lo, data, mem;
      freelist, free, failures := 0, [], 0;
      owner := seq(|mem|, _ => Other);
      new;
      forall f: nat | f < |mem|
        ensures FrameOk(Now(), f)
      {
      }
    }

    /** kinit1 and kinit2: free the whole pages of [start, end), physical addresses. */
    method Freerange(start: nat, end: nat)
      requires Valid() && lo * PGSIZE <= start && end <= |mem| * PGSIZE
      requires forall f: nat :: PagesOf(start) <= f < end / PGSIZE ==> OwnedBy(Now(), f, Other)
      modifies this`mem, this`freelist, this`owner, this`free
      ensures Valid() && |mem| == |old(mem)| == |old(owner)| == |owner|
      ensures forall f: nat :: f < |mem| ==>
                if PagesOf(start) <= f < end / PGSIZE then owner[f].Free?
                else owner[f] == old(owner)[f] && mem[f] == old(mem)[f]
    {
      hide FrameOk, Link;
      var p := PgRoundUp(start);
      ghost var k := PagesOf(start);
      while p + PGSIZE <= end
        invariant Valid() && p == k * PGSIZE && PagesOf(start) <= k && (k <= end / PGSIZE || k == PagesOf(start))
        invariant |mem| == |old(mem)| == |old(owner)| == |owner|
        invariant forall f: nat :: f < |mem| ==>
                    if PagesOf(start) <= f < k then owner[f].Free?
                    else owner[f] == old(owner)[f] && mem[f] == old(mem)[f]
      {
        assert OwnedBy(old(Now()), k, Other);
        ReleaseInv(Now(), lo, k);
        Kfree(p / PGSIZE);
        p := p + PGSIZE;
        k := k + 1;
      }
    }

    /** Push frame f on the free list; it may still be named by a page table entry about to be cleared. */
    method Kfree(f: nat)
      requires |mem| == |owner| && lo <= f < |mem| && freelist == Link(free, |free|)
      modifies this`mem, this`freelist, this`owner, this`free
      ensures Now() == Release(old(Now()), f) && freelist == Link(free, |free|)
      ensures |mem[f]| == 1024 && forall j :: 1 <= j < 1024 ==> mem[f][j] == 0x01010101
    {
      mem := mem[f := Ones()];
      mem := mem[f := Put(mem[f], 0, freelist)];
      freelist := P2V(f);
      owner := owner[f := Free(|free|)];
      free := free + [f];
    }

    /** None: the free list is empty. */
    method Kalloc(ghost o: Owner) returns (r: Option<nat>)
      requires Valid() && Loose(o) && (o.Held? ==> OwnedBy(Now(), o.d, Dir))
      modifies this`freelist, this`owner, this`free, this`failures
      ensures Valid()
      ensures r.None? <==> old(free) == []
      ensures r.None? ==> Now() == old(Now()) && failures == old(failures) + 1
      ensures r.Some? ==> old(free)[|old(free)| - 1] == r.value && lo <= r.value < |mem|
                          && Now() == Take(old(Now()), o) && failures == old(failures)
    {
      if freelist == 0 {
        failures := failures + 1;
        return None;
      }
      var f := V2Frame(freelist);
      assert f == free[|free| - 1];
      assert FrameOk(Now(), f);
      TakeInv(Now(), lo, o);
      freelist := mem[f][0];
      owner := owner[f := o];
      free := free[..|free| - 1];
      return Some(f);
    }

    /** The page table that holds page v's entry, made if missing and alloc is set.  False: null. */
    method Walkpgdir(d: nat, v: nat, alloc: bool) returns (ok: bool, t: nat)
      requires Valid() && OwnedBy(Now(), d, Dir) && v < VPAGES
      modifies this`mem, this`freelist, this`owner, this`free, this`failures
      ensures Valid() && Walked(old(Now()), Now(), lo, d)
      ensures old(HasTable(Now(), d, Pdx(v))) || !ok || !alloc ==> Now() == old(Now())
      ensures ok <==> old(HasTable(Now(), d, Pdx(v))) || (alloc && old(free) != [])
      ensures ok ==> HasTable(Now(), d, Pdx(v)) && t == Frame(mem[d][Pdx(v)])
      ensures failures == old(failures) + if alloc && !ok then 1 else 0
    {
      hide DirOk, TableOk, Within, Keeps;
      ghost var m := Now();
      PageIndex(v, v);
      assert FrameOk(m, d);
      NotWalked(m, lo, d);
      var i := Pdx(v);
      if Present(mem[d][i]) {
        TableOwned(m, lo, d, i);
        return true, Frame(mem[d][i]);
      }
      if !alloc {
        return false, 0;
      }
      if free != [] {
        NewTable(m, lo, d, i);
      }
      var r := Kalloc(Held(d));
      if r.None? {
        return false, 0;
      }
      t := r.value;
      mem := mem[t := Zeros()];
      mem := mem[d := Put(mem[d], i, Pte(t, 7))];
      owner := owner[t := Table(d, i)];
      assert Now() == AddTable(Take(m, Held(d)), d, i, t);
      ok := true;
    }

    /** Map the pages of [va, va+size) to the frames from pa on; ghost n counts the pages mapped. */
    method Mappages(d: nat, va: nat, size: nat, pa: nat, perm: nat) returns (ok: bool, ghost n: nat)
      requires Valid() && OwnedBy(Now(), d, Dir)
      requires 0 < size && va + size <= UINT && pa % PGSIZE == 0 && perm < PGSIZE
      requires forall v: nat :: va / PGSIZE <= v <= (va + size - 1) / PGSIZE ==>
                 Ready(Now(), lo, d, va / PGSIZE, pa / PGSIZE, v)
      modifies this`mem, this`freelist, this`owner, this`free, this`failures
      ensures Valid() && Mapping(old(Now()), Now(), lo, d, va / PGSIZE, n, pa / PGSIZE, perm)
      ensures if ok then n == (va + size - 1) / PGSIZE - va / PGSIZE + 1
              else n <= (va + size - 1) / PGSIZE - va / PGSIZE
      ensures failures == old(failures) + if ok then 0 else 1
    {
      hide Inv, Mapping, Walked, Lookup, Ready;
      ghost var m, f0 := Now(), pa / PGSIZE;
      var a, pa' := va / PGSIZE, pa;
      var last := (va + size - 1) / PGSIZE;
      n := 0;
      NoneMapped(m, lo, d, a, f0, perm);
      while true
        invariant a == va / PGSIZE + n <= last && pa' == pa + n * PGSIZE
        invariant Valid() && Mapping(m, Now(), lo, d, va / PGSIZE, n, f0, perm) && failures == old(failures)
        decreases last - a
      {
        ghost var m1 := Now();
        MappingDir(m, m1, lo, d, va / PGSIZE, n, f0, perm);
        var t;
        ok, t := Walkpgdir(d, a, true);
        if !ok {
          return;
        }
        ghost var m2 := Now();
        MapOne(m, m1, m2, lo, d, va / PGSIZE, n, f0, perm);
        mem := mem[t := Put(mem[t], Ptx(a), Pte(pa' / PGSIZE, perm))];
        if a < USERPAGES {
          owner := owner[f0 + n := User(d, a)];
        }
        assert Now() == PutPte(m2, d, a, f0 + n, perm);
        n := n + 1;
        MappingDir(m, Now(), lo, d, va / PGSIZE, n, f0, perm);
        if a == last {
          return;
        }
        a, pa' := a + 1, pa' + PGSIZE;
      }
    }

    /** Unmap and free d's pages of [newsz, oldsz), skipping directory entries that have no table. */
    method Deallocuvm(d: nat, oldsz: nat, newsz: nat) returns (r: nat)
      requires Valid() && OwnedBy(Now(), d, Dir) && oldsz <= KERNBASE
      modifies this`mem, this`freelist, this`owner, this`free, this`failures
      ensures Valid() && failures == old(failures)
      ensures Trimmed(old(Now()), Now(), lo, d, PagesOf(newsz), PagesOf(oldsz))
      ensures r == if newsz >= oldsz then oldsz else newsz
      // as the processor sees it: these pages are gone, and every other page is as before
      ensures Gone(old(Now()), Now(), d, (newsz + 4095) / 4096, (oldsz + 4095) / 4096)
    {
      hide Inv, Lookup, Trimmed, Walked, Gone;
      ghost var m, from, to := Now(), PagesOf(newsz), PagesOf(oldsz);
      if newsz >= oldsz {
        TrimNone(m, lo, d, from, to);
        TrimmedSeen(m, Now(), lo, d, from, to);
        return oldsz;
      }
      var a := PgRoundUp(newsz);
      ghost var k := from;
      TrimNone(m, lo, d, from, k);
      while a < oldsz
        invariant Valid() && failures == old(failures) && from <= k <= to && Trimmed(m, Now(), lo, d, from, k)
        invariant if a < oldsz then a == k * PGSIZE else k == to
      {
        ghost var m1 := Now();
        TrimmedDir(m, m1, lo, d, from, k);
        NextDirectory(a, k);
        var ok, t := Walkpgdir(d, a / PGSIZE, false);
        if !ok {
          ghost var k' := if (Pdx(k) + 1) * NENTRIES < to then (Pdx(k) + 1) * NENTRIES else to;
          NoTable(m1, d, k, k');
          TrimSkip(m, m1, lo, d, from, k, k');
          k := k';
          a := (a / (PGSIZE * NENTRIES) + 1) * (PGSIZE * NENTRIES) - PGSIZE;
        } else {
          var pte := EntryOf(d, a / PGSIZE, t);
          if Present(pte) {
            TrimOne(m, m1, lo, d, from, k);
            Kfree(Frame(pte));
            mem := mem[t := Put(mem[t], Ptx(a / PGSIZE), 0)];
            assert Now() == Unmap(m1, d, k);
            TrimmedDir(m, Now(), lo, d, from, k + 1);
          } else {
            TrimSkip(m, m1, lo, d, from, k, k + 1);
          }
          k := k + 1;
        }
        a := a + PGSIZE;
      }
      TrimmedSeen(m, Now(), lo, d, from, to);
      return newsz;
    }

    /** The entry walkpgdir found. */
    method EntryOf(d: nat, v: nat, t: nat) returns (pte: nat)
      requires HasTable(Now(), d, Pdx(v)) && t == Frame(mem[d][Pdx(v)])
      ensures pte == Lookup(Now(), d, v) && |mem[t]| == NENTRIES
    {
      pte := mem[t][Ptx(v)];
    }

    /** Free directory d with its page tables and user pages. */
    method Freevm(d: nat)
      requires Valid() && OwnedBy(Now(), d, Dir) && NoHeld(Now(), d)
      modifies this`mem, this`freelist, this`owner, this`free, this`failures
      ensures Valid() && Returned(old(Now()), Now(), lo, d) && failures == old(failures)
    {
      hide Inv, Lookup, Trimmed, Torn;
      ghost var m := Now();
      var r := Deallocuvm(d, KERNBASE, 0);
      ghost var m1 := Now();
      TrimmedNoUser(m, m1, lo, d);
      TrimmedDir(m, m1, lo, d, 0, USERPAGES);
      TornNone(m1, lo, d);
      owner := Dismantle(m1, d).owner;
      var i := 0;
      while i < NENTRIES
        invariant i <= NENTRIES && Torn(m1, Now(), lo, d, i) && freelist == Link(free, |free|)
                  && failures == old(failures)
      {
        TornOne(m1, Now(), lo, d, i);
        if Present(mem[d][i]) {
          Kfree(Frame(mem[d][i]));
        }
        i := i + 1;
      }
      TornAll(m, m1, Now(), lo, d);
      Kfree(d);
      ReturnedInv(m, Now(), lo, d);
    }

    /** A directory with the kernel's half mapped.  None: out of pages, and all given back. */
    method Setupkvm() returns (r: Option<nat>)
      requires Valid() && DataOk(data)
      modifies this`mem, this`freelist, this`owner, this`free, this`failures
      ensures Valid()
      ensures r.Some? <==> failures == old(failures)
      ensures r.Some? ==> r.value < |old(owner)| && old(owner)[r.value].Free?
                          && Built(old(Now()), Now(), lo, r.value, data, 4)
      ensures r.Some? ==> forall v: nat :: Translate(Now(), r.value, v) == KernelHalf(data, v)
      ensures r.None? ==> Restored(old(Now()), Now()) && FreeSet(Now()) == FreeSet(old(Now()))
    {
      hide Inv, Lookup, Built, Mapping, Translate, KernelHalf;
      ghost var m := Now();
      if free != [] {
        BuiltDir(m, lo, data);
      }
      r := Kalloc(Other);
      if r.None? {
        Unchanged(m, lo);
        return;
      }
      var d := r.value;
      mem := mem[d := Zeros()];
      owner := owner[d := Dir];
      assert Now() == MakeDir(Take(m, Other), d);
      var k := 0;
      BuiltInv(m, Now(), lo, d, data, 0);
      while k < 4
        invariant k <= 4 && Valid() && Built(m, Now(), lo, d, data, k) && failures == old(failures)
      {
        ghost var m1 := Now();
        var e := Entries(data)[k];
        EntrySizes(data, k);
        BuiltReady(m, m1, lo, d, data, k);
        BuiltInv(m, m1, lo, d, data, k);
        var ok, n := Mappages(d, e.virt, Size(e), e.physStart, e.perm);
        BuiltStep(m, m1, Now(), lo, d, data, k, n);
        if !ok {
          ghost var m2 := Now();
          Freevm(d);
          BuiltAndFreed(m, m2, Now(), lo, d);
          RestoredFree(m, Now());
          return None;
        }
        k := k + 1;
      }
      BuiltSeen(m, Now(), lo, d, data);
    }

    /** Grow d from oldsz to newsz bytes with zeroed pages.  A failure, counted in failures, returns 0
        and leaves no page mapped; it may leave page tables. */
    method Allocuvm(d: nat, oldsz: nat, newsz: nat) returns (r: nat)
      requires Valid() && OwnedBy(Now(), d, Dir)
      requires forall v: nat :: PagesOf(oldsz) <= v < PagesOf(newsz) && v < USERPAGES ==> !Present(Lookup(Now(), d, v))
      modifies this`mem, this`freelist, this`owner, this`free, this`failures
      ensures Valid()
      ensures newsz >= KERNBASE ==> r == 0
      ensures newsz < oldsz && newsz < KERNBASE ==> r == oldsz
      ensures newsz >= KERNBASE || newsz < oldsz ==> Now() == old(Now()) && failures == old(failures)
      ensures oldsz <= newsz < KERNBASE && failures == old(failures) ==>
                r == newsz && Grown(old(Now()), Now(), lo, d, PagesOf(oldsz), PagesOf(newsz),
                                    ZeroPages(PagesOf(newsz)), Perms(PagesOf(newsz)), {})
      // as the processor sees it: zeroed pages that user code can write, and every other page as before
      ensures oldsz <= newsz < KERNBASE && failures == old(failures) ==>
                ZerosAdded(old(Now()), Now(), d, (oldsz + 4095) / 4096, (newsz + 4095) / 4096)
      ensures failures != old(failures) ==>
                r == 0 && Undone(old(Now()), Now(), lo, d, PagesOf(oldsz), PagesOf(newsz), {})
    {
      hide Inv, Lookup, Grown, Undone, Mapping, Trimmed, Within, Present, Pte, Pdx, Ready, Release, ZerosAdded,
        Gone;
      if newsz >= KERNBASE {
        return 0;
      }
      if newsz < oldsz {
        return oldsz;
      }
      ghost var m, from, to := Now(), PagesOf(oldsz), PagesOf(newsz);
      ghost var src, perms := ZeroPages(to), Perms(to);
      GrownNone(m, lo, d, from, src, perms);
      var a := PgRoundUp(oldsz);
      ghost var k := from;
      while a < newsz
        invariant from <= k <= to && a == k * PGSIZE && Valid() && failures == old(failures)
        invariant Grown(m, Now(), lo, d, from, k, src, perms, {})
      {
        ghost var m1 := Now();
        GrownDir(m, m1, lo, d, from, k, src, perms, {});
        if free != [] {
          Fillable(m, m1, lo, d, from, k, src, perms);
        }
        var f := Kalloc(Held(d));
        if f.None? {
          r := Deallocuvm(d, newsz, oldsz);
          GrownUndone(m, m1, Now(), lo, d, from, k, to, src, perms, {});
          return 0;
        }
        mem := mem[f.value := Zeros()];
        assert Now() == Fill(m1, d, src[k]);
        var ok, n := Mappages(d, a, PGSIZE, f.value * PGSIZE, PTE_W + PTE_U);
        GrowOne(m, m1, Now(), lo, d, from, k, src, perms, n);
        if !ok {
          ghost var m2 := Now();
          GrownDir(m, m2, lo, d, from, k, src, perms, {f.value});
          HeldPage(m, m1, m2, lo, d, from, k, src, perms, f.value);
          r := Deallocuvm(d, newsz, oldsz);
          GrownUndone(m, m2, Now(), lo, d, from, k, to, src, perms, {f.value});
          UndoneRelease(m, m2, Now(), lo, d, from, to, f.value);
          Kfree(f.value);
          UndoneInv(m, Now(), lo, d, from, to);
          return 0;
        }
        k := k + 1;
        a := a + PGSIZE;
      }
      GrownSeen(m, Now(), lo, d, from, to);
      return newsz;
    }

    /** The body of copyuvm's loop: copy the page at address i of e into d. */
    method CopyPage(e: nat, d: nat, i: nat, ghost n: nat, ghost m: Phys, ghost m1: Phys) returns (ok: bool)
      requires Valid() && Inv(m, lo) && OwnedBy(m, e, Dir) && d < |m.owner| && m.owner[d].Free? && Within(m, m1, d)
      requires i % PGSIZE == 0 && i / PGSIZE < n <= USERPAGES && Present(Lookup(m, e, i / PGSIZE))
               && !Present(Lookup(m1, d, i / PGSIZE))
      requires Grown(m1, Now(), lo, d, 0, i / PGSIZE, PageContents(m, e, n), PageFlags(m, e, n), {})
      modifies this`mem, this`freelist, this`owner, this`free, this`failures
      ensures Valid() && failures == old(failures) + if ok then 0 else 1
      ensures Grown(m1, Now(), lo, d, 0, if ok then i / PGSIZE + 1 else i / PGSIZE, PageContents(m, e, n),
                    PageFlags(m, e, n), {})
    {
      hide Inv, Lookup, Grown, Mapping, Within, PageContents, PageFlags, Present, Pte, Walked, Ready, Release;
      ghost var m2, k, src, perms := Now(), i / PGSIZE, PageContents(m, e, n), PageFlags(m, e, n);
      GrownDir(m1, m2, lo, d, 0, k, src, perms, {});
      ParentPage(m, m1, m2, lo, e, d, n, k);
      HasEntry(m2, lo, e, k);
      var _, t := Walkpgdir(e, i / PGSIZE, false);
      var pte := EntryOf(e, i / PGSIZE, t);
      if free != [] {
        Fillable(m1, m2, lo, d, 0, k, src, perms);
      }
      var f := Kalloc(Held(d));
      if f.None? {
        return false;
      }
      mem := mem[f.value := mem[Frame(pte)]];
      assert Now() == Fill(m2, d, src[k]);
      ghost var c;
      ok, c := Mappages(d, i, PGSIZE, f.value * PGSIZE, Flags(pte));
      GrowOne(m1, m2, Now(), lo, d, 0, k, src, perms, c);
      if !ok {
        HeldPage(m1, m2, Now(), lo, d, 0, k, src, perms, f.value);
        GrownRelease(m1, Now(), lo, d, 0, k, src, perms, f.value);
        Kfree(f.value);
        GrownDir(m1, Now(), lo, d, 0, k, src, perms, {});
      }
    }

    /** A copy of the first sz bytes of address space e.  None: out of pages, and all given back. */
    method Copyuvm(e: nat, sz: nat) returns (r: Option<nat>)
      requires Valid() && DataOk(data) && OwnedBy(Now(), e, Dir) && sz <= KERNBASE
      requires forall v: nat :: v < PagesOf(sz) ==> Present(Lookup(Now(), e, v))
      modifies this`mem, this`freelist, this`owner, this`free, this`failures
      ensures Valid()
      ensures r.Some? <==> failures == old(failures)
      ensures r.Some? ==> Copied(old(Now()), Now(), e, r.value, data, PagesOf(sz))
      // as the processor sees it: the parent's pages, with their rights, and nothing else for user code
      ensures r.Some? ==>
                && (forall v: nat :: v < (sz + 4095) / 4096 ==> SameAccess(old(Now()), Now(), e, r.value, v))
                && (forall v: nat :: v >= (sz + 4095) / 4096 ==> Translate(Now(), r.value, v) == KernelHalf(data, v))
      ensures r.None? ==> Restored(old(Now()), Now()) && FreeSet(Now()) == FreeSet(old(Now()))
    {
      hide Inv, Lookup, Grown, Mapping, Built, Copied, Translate, SameAccess, KernelHalf;
      ghost var m, n := Now(), PagesOf(sz);
      ghost var src, perms := PageContents(m, e, n), PageFlags(m, e, n);
      r := Setupkvm();
      if r.None? {
        return;
      }
      var d := r.value;
      ghost var m1 := Now();
      BuiltKernel(m, m1, lo, d, data);
      GrownNone(m1, lo, d, 0, src, perms);
      var i := 0;
      while i < sz
        invariant i % PGSIZE == 0 && i / PGSIZE <= n && Valid() && failures == old(failures)
        invariant Grown(m1, Now(), lo, d, 0, i / PGSIZE, src, perms, {})
      {
        var ok := CopyPage(e, d, i, n, m, m1);
        if !ok {
          ghost var m2 := Now();
          GrownDir(m1, m2, lo, d, 0, i / PGSIZE, src, perms, {});
          GrownNoHeld(m1, m2, lo, d, 0, i / PGSIZE, src, perms);
          Freevm(d);
          WithinTrans(m, m1, m2, d);
          BuiltAndFreed(m, m2, Now(), lo, d);
          RestoredFree(m, Now());
          return None;
        }
        i := i + PGSIZE;
      }
      GrownCopied(m, m1, Now(), lo, e, d, data, n);
      CopiedSeen(m, Now(), lo, e, d, data, n);
    }
  }

  lemma GrownSeen(m: Phys, m': Phys, lo: nat, d: nat, from: nat, to: nat)
    requires Inv(m, lo) && OwnedBy(m, d, Dir) && Grown(m, m', lo, d, from, to, ZeroPages(to), Perms(to), {})
    requires to <= USERPAGES && forall v: nat :: from <= v < to ==> !Present(Lookup(m, d, v))
    ensures ZerosAdded(m, m', d, from, to)
  {
    hide Inv, Lookup, Translate, Grown, ZeroPage;
    forall v: nat | from <= v < to
      ensures ZeroPage(m', d, v)
    {
      GrownZero(m, m', lo, d, from, to, v);
    }
    forall v: nat | !(from <= v < to)
      ensures Translate(m', d, v) == Translate(m, d, v)
    {
      GrownSame(m, m', lo, d, from, to, ZeroPages(to), Perms(to), v);
    }
  }

  lemma CopiedSeen(m: Phys, m': Phys, lo: nat, e: nat, d: nat, data: nat, n: nat)
    requires Inv(m, lo) && Inv(m', lo) && OwnedBy(m, e, Dir) && Copied(m, m', e, d, data, n)
    requires forall v: nat :: v < n ==> Present(Lookup(m, e, v))
    ensures forall v: nat :: v < n ==> SameAccess(m, m', e, d, v)
    ensures forall v: nat :: v >= n ==> Translate(m', d, v) == KernelHalf(data, v)
  {
    hide Inv, Lookup, Translate, SameAccess, KernelHalf;
    forall v: nat | v < n
      ensures SameAccess(m, m', e, d, v)
    {
      CopiedAccess(m, m', lo, e, d, data, n, v);
    }
    forall v: nat | v >= n
      ensures Translate(m', d, v) == KernelHalf(data, v)
    {
      KernelAccess(m', lo, d, data, v);
    }
  }

  ghost function ZeroPages(n: nat): seq<seq<nat>> { seq(n, _ => Zeros()) }

  ghost function Perms(n: nat): seq<nat> { seq(n, _ => PTE_W + PTE_U) }

  lemma Unchanged(m: Phys, lo: nat)
    requires Inv(m, lo)
    ensures Restored(m, m)
  {
    forall f: nat | f < |m.mem|
      ensures RestoredAt(m, m, f)
    {
    }
  }

  lemma HasEntry(m: Phys, lo: nat, d: nat, v: nat)
    requires Inv(m, lo) && OwnedBy(m, d, Dir) && v < USERPAGES && Present(Lookup(m, d, v))
    ensures HasTable(m, d, Pdx(v)) && Frame(Lookup(m, d, v)) < |m.mem|
  {
    UserPage(m, lo, d, v);
  }

  lemma UndoneInv(m: Phys, m': Phys, lo: nat, d: nat, from: nat, to: nat)
    requires Undone(m, m', lo, d, from, to, {})
    ensures Inv(m', lo) && OwnedBy(m', d, Dir)
  {
  }

  lemma BuiltInv(m: Phys, m': Phys, lo: nat, d: nat, data: nat, n: nat)
    requires DataOk(data) && n <= 4 && Built(m, m', lo, d, data, n)
    ensures Inv(m', lo) && OwnedBy(m', d, Dir)
  {
  }

  lemma GrownDir(m: Phys, m': Phys, lo: nat, d: nat, from: nat, k: nat, src: seq<seq<nat>>, perms: seq<nat>,
                 held: set<nat>)
    requires Grown(m, m', lo, d, from, k, src, perms, held)
    ensures Inv(m', lo) && OwnedBy(m', d, Dir) && Within(m, m', d)
  {
  }

  lemma TrimmedDir(m: Phys, m': Phys, lo: nat, d: nat, from: nat, to: nat)
    requires Trimmed(m, m', lo, d, from, to) && OwnedBy(m, d, Dir)
    ensures Inv(m', lo) && OwnedBy(m', d, Dir) && InRange(m', d)
  {
    TrimmedWithin(m, m', lo, d, from, to);
    assert FrameOk(m', d);
  }

  lemma ReturnedInv(m: Phys, m': Phys, lo: nat, d: nat)
    requires Returned(m, m', lo, d)
    ensures Inv(m', lo)
  {
  }

  lemma NextDirectory(a: nat, k: nat)
    requires a == k * PGSIZE
    ensures a / PGSIZE == k && (a / (PGSIZE * NENTRIES) + 1) * (PGSIZE * NENTRIES) == (Pdx(k) + 1) * NENTRIES * PGSIZE
    ensures k < (Pdx(k) + 1) * NENTRIES
  {
  }

  /** The pages of a directory entry without a table have no entries. */
  lemma NoTable(m: Phys, d: nat, k: nat, to: nat)
    requires !HasTable(m, d, Pdx(k)) && to <= (Pdx(k) + 1) * NENTRIES
    ensures forall v: nat :: k <= v < to ==> !Present(Lookup(m, d, v))
  {
    forall v: nat | k <= v < to
      ensures Pdx(v) == Pdx(k)
    {
    }
  }
}
