/** Physical page frames, the free list threaded through them and the two-level page tables stored in
    them (kalloc.c, vm.c, mmu.h), with a ghost owner for every frame.  Frames hold 1024 words. */
module Pages {
  import opened Wrappers

  const NENTRIES := 1024            // NPDENTRIES, NPTENTRIES: words in a page
  const PGSIZE := 4096
  const KERNBASE := 0x8000_0000
  const USERPAGES := 0x8_0000       // KERNBASE / PGSIZE
  const USERDIRS := 512             // directory entries below KERNBASE
  const VPAGES := 0x10_0000         // virtual pages

  // ---------------------------------------------------------------- page table words

  predicate Present(w: nat) { w % 2 == 1 }
  function Frame(w: nat): nat { w / PGSIZE }
  function Flags(w: nat): nat { w % PGSIZE }

  /** perm | PTE_P */
  function WithP(perm: nat): nat { if perm % 2 == 1 then perm else perm + 1 }

  /** pa | perm | PTE_P for the page-aligned address pa of frame f. */
  function Pte(f: nat, perm: nat): nat { f * PGSIZE + WithP(perm) }

  lemma PteParts(f: nat, perm: nat)
    requires perm < PGSIZE
    ensures Present(Pte(f, perm)) && Frame(Pte(f, perm)) == f && Flags(Pte(f, perm)) == WithP(perm)
  {
  }

  function Pdx(v: nat): nat { v / NENTRIES }
  function Ptx(v: nat): (j: nat) ensures j < NENTRIES { v % NENTRIES }

  /** A page number is its directory index and its table index. */
  lemma PageIndex(v: nat, w: nat)
    ensures Pdx(v) == Pdx(w) && Ptx(v) == Ptx(w) ==> v == w
    ensures v == Pdx(v) * NENTRIES + Ptx(v)
    ensures v < USERPAGES <==> Pdx(v) < USERDIRS
    ensures v < VPAGES <==> Pdx(v) < NENTRIES
  {
  }

  // ---------------------------------------------------------------- frames and their owners

  datatype Owner =
    | Free(i: nat)            // element i of the free list
    | Dir                     // a page directory
    | Table(d: nat, i: nat)   // the page table of entry i of directory d
    | User(d: nat, v: nat)    // mapped at user page v by directory d
    | Held(d: nat)            // allocated to become a user page of d, not yet mapped
    | Other                   // in use elsewhere in the kernel

  /** free[|free|-1] is the list's head: kfree pushes and kalloc pops there. */
  datatype Phys = Phys(mem: seq<seq<nat>>, owner: seq<Owner>, free: seq<nat>)

  function P2V(f: nat): nat { KERNBASE + f * PGSIZE }
  function V2Frame(a: nat): nat requires a >= KERNBASE { (a - KERNBASE) / PGSIZE }

  /** What points at the i most deeply buried free pages: 0 at the end of the list. */
  function Link(free: seq<nat>, i: nat): nat
    requires i <= |free|
  {
    if i == 0 then 0 else P2V(free[i - 1])
  }

  function Zeros(): (z: seq<nat>)
    ensures |z| == NENTRIES && forall j :: 0 <= j < NENTRIES ==> z[j] == 0
  {
    seq(NENTRIES, _ => 0)
  }

  function Ones(): (z: seq<nat>) ensures |z| == NENTRIES { seq(NENTRIES, _ => 0x01010101) }

  function Put(p: seq<nat>, j: nat, w: nat): seq<nat> requires j < |p| { p[j := w] }

  predicate InRange(m: Phys, f: nat) { f < |m.owner| == |m.mem| && |m.mem[f]| == NENTRIES }

  predicate OwnedBy(m: Phys, f: nat, o: Owner) { f < |m.owner| && m.owner[f] == o }

  predicate HasTable(m: Phys, d: nat, i: nat)
  {
    InRange(m, d) && i < NENTRIES && Present(m.mem[d][i]) && InRange(m, Frame(m.mem[d][i]))
  }

  /** The page table entry of page v under directory d; 0 where there is no page table. */
  function Lookup(m: Phys, d: nat, v: nat): nat
  {
    if HasTable(m, d, Pdx(v)) then m.mem[Frame(m.mem[d][Pdx(v)])][Ptx(v)] else 0
  }

  predicate DirOk(m: Phys, f: nat)
    requires InRange(m, f)
  {
    forall i: nat :: i < NENTRIES && Present(m.mem[f][i]) ==>
      OwnedBy(m, Frame(m.mem[f][i]), Table(f, i)) && Flags(m.mem[f][i]) == 7
  }

  predicate TableOk(m: Phys, f: nat, d: nat, i: nat)
    requires InRange(m, f)
  {
    && OwnedBy(m, d, Dir) && HasTable(m, d, i) && Frame(m.mem[d][i]) == f
    && (i < USERDIRS ==>
          forall j: nat :: j < NENTRIES && Present(m.mem[f][j]) ==>
              OwnedBy(m, Frame(m.mem[f][j]), User(d, i * NENTRIES + j)))
  }

  /** The owner of frame f is what the memory says it is. */
  predicate FrameOk(m: Phys, f: nat)
  {
    InRange(m, f) &&
    match m.owner[f]
    case Free(i) => i < |m.free| && m.free[i] == f && m.mem[f][0] == Link(m.free, i)
    case Dir => DirOk(m, f)
    case Table(d, i) => TableOk(m, f, d, i)
    case User(d, v) => OwnedBy(m, d, Dir) && v < USERPAGES && Present(Lookup(m, d, v)) && Frame(Lookup(m, d, v)) == f
    case Held(d) => OwnedBy(m, d, Dir)
    case Other => true
  }

  /** Every frame has one owner; the free list, the directories, their page tables and their user
      pages are exactly the frames owned so.  Frames below lo belong to the kernel image. */
  ghost predicate Inv(m: Phys, lo: nat)
  {
    && |m.owner| == |m.mem| && 0 < lo <= |m.mem|
    && (forall f: nat {:trigger FrameOk(m, f)} :: f < |m.mem| ==> FrameOk(m, f))
    && (forall i: nat {:trigger m.free[i]} :: i < |m.free| ==> OwnedBy(m, m.free[i], Free(i)))
    && (forall f: nat :: f < lo ==> m.owner[f] == Other)
  }

  /** A present user entry names a frame owned by that very page. */
  lemma UserPage(m: Phys, lo: nat, d: nat, v: nat)
    requires Inv(m, lo) && OwnedBy(m, d, Dir) && v < USERPAGES && Present(Lookup(m, d, v))
    ensures OwnedBy(m, Frame(Lookup(m, d, v)), User(d, v)) && InRange(m, Frame(Lookup(m, d, v)))
    ensures HasTable(m, d, Pdx(v)) && OwnedBy(m, Frame(m.mem[d][Pdx(v)]), Table(d, Pdx(v)))
  {
    PageIndex(v, v);
    assert FrameOk(m, d);
    var t := Frame(m.mem[d][Pdx(v)]);
    assert FrameOk(m, t);
    assert FrameOk(m, Frame(m.mem[t][Ptx(v)]));
  }

  lemma TableOwned(m: Phys, lo: nat, d: nat, i: nat)
    requires Inv(m, lo) && OwnedBy(m, d, Dir) && InRange(m, d) && i < NENTRIES && Present(m.mem[d][i])
    ensures HasTable(m, d, i) && OwnedBy(m, Frame(m.mem[d][i]), Table(d, i))
  {
    assert FrameOk(m, d);
    assert FrameOk(m, Frame(m.mem[d][i]));
  }

  /** The ghost owner of a frame is where the memory itself has it: on the free list once, or the page
      table of one directory entry, or the frame of one user page, and never two of these. */
  lemma OwnerIsReal(m: Phys, lo: nat, f: nat, d: nat, i: nat, v: nat)
    requires Inv(m, lo) && f < |m.mem| && OwnedBy(m, d, Dir) && v < USERPAGES
    ensures f in m.free <==> m.owner[f].Free?
    ensures i < |m.free| && m.free[i] == f <==> m.owner[f] == Free(i)
    ensures HasTable(m, d, i) && Frame(m.mem[d][i]) == f <==> m.owner[f] == Table(d, i)
    ensures Present(Lookup(m, d, v)) && Frame(Lookup(m, d, v)) == f <==> m.owner[f] == User(d, v)
  {
    assert FrameOk(m, f) && FrameOk(m, d);
    if Present(Lookup(m, d, v)) {
      UserPage(m, lo, d, v);
    }
    if HasTable(m, d, i) {
      TableOwned(m, lo, d, i);
    }
  }

  // ---------------------------------------------------------------- what the processor makes of it

  predicate Writable(w: nat) { w / 2 % 2 == 1 }   // PTE_W
  predicate UserBit(w: nat) { w / 4 % 2 == 1 }    // PTE_U

  /** Where a page is, and what user code and writes may do there. */
  datatype Access = Access(frame: nat, writable: bool, user: bool)

  /** The translation of page v under directory d: two words, both present; a right needs both. */
  function Translate(m: Phys, d: nat, v: nat): Option<Access>
  {
    if d < |m.mem| && v / 1024 < |m.mem[d]| then
      var pde := m.mem[d][v / 1024];
      if pde % 2 == 1 && pde / 4096 < |m.mem| && v % 1024 < |m.mem[pde / 4096]| then
        var pte := m.mem[pde / 4096][v % 1024];
        if pte % 2 == 1 then
          Some(Access(pte / 4096, Writable(pde) && Writable(pte), UserBit(pde) && UserBit(pte)))
        else None
      else None
    else None
  }

  /** Directory entries restrict nothing: a page has exactly the rights of its table entry. */
  lemma RightsOfEntry(m: Phys, lo: nat, d: nat, v: nat)
    requires Inv(m, lo) && OwnedBy(m, d, Dir)
    ensures var w := Lookup(m, d, v);
            Translate(m, d, v) == if Present(w) then Some(Access(Frame(w), Writable(w), UserBit(w))) else None
  {
    PageIndex(v, v);
    assert FrameOk(m, d);
    if Pdx(v) < NENTRIES && Present(m.mem[d][Pdx(v)]) {
      TableOwned(m, lo, d, Pdx(v));
      AllBits(m.mem[d][Pdx(v)]);
    }
  }

  lemma AllBits(w: nat)
    requires Flags(w) == 7
    ensures Present(w) && Writable(w) && UserBit(w)
  {
    hide Flags;
    RightsOfFlags(w);
  }

  /** The rights are among the flags. */
  lemma RightsOfFlags(w: nat)
    ensures Present(w) == Present(Flags(w)) && Writable(w) == Writable(Flags(w)) && UserBit(w) == UserBit(Flags(w))
  {
    hide Writable, UserBit;
    assert w == 4096 * (w / PGSIZE) + Flags(w);
    SameRights(w / PGSIZE, Flags(w));
  }

  lemma SameRights(q: nat, r: nat)
    ensures Present(4096 * q + r) == Present(r)
    ensures Writable(4096 * q + r) == Writable(r) && UserBit(4096 * q + r) == UserBit(r)
  {
    Twice(2048 * q, r);
    Twice(1024 * q, r / 2);
    Twice(512 * q, r / 4);
    Quarter(1024 * q, r);
  }

  lemma Twice(a: nat, r: nat)
    ensures (2 * a + r) % 2 == r % 2 && (2 * a + r) / 2 == a + r / 2
  {
  }

  lemma Quarter(a: nat, r: nat)
    ensures (4 * a + r) / 4 == a + r / 4
  {
  }

  // ---------------------------------------------------------------- kalloc and kfree

  /** kalloc: the head of the free list goes to owner o. */
  function Take(m: Phys, o: Owner): Phys
    requires m.free != [] && m.free[|m.free| - 1] < |m.owner|
  {
    var f := m.free[|m.free| - 1];
    m.(owner := m.owner[f := o], free := m.free[..|m.free| - 1])
  }

  /** kfree: junk, linked in front of the list. */
  function Release(m: Phys, f: nat): Phys
    requires f < |m.mem| == |m.owner|
  {
    Phys(m.mem[f := Put(Ones(), 0, Link(m.free, |m.free|))], m.owner[f := Free(|m.free|)], m.free + [f])
  }

  predicate Loose(o: Owner) { o.Held? || o.Other? }

  /** Lookup reads only directories and tables. */
  lemma SameLookup(m: Phys, m': Phys, lo: nat, d: nat, v: nat)
    requires Inv(m, lo) && OwnedBy(m, d, Dir) && |m'.mem| == |m'.owner| == |m.mem|
    requires m'.mem[d] == m.mem[d]
    requires forall f: nat :: f < |m.mem| && m.owner[f] == Table(d, Pdx(v)) ==> m'.mem[f] == m.mem[f]
    ensures Lookup(m', d, v) == Lookup(m, d, v)
  {
    PageIndex(v, v);
    assert FrameOk(m, d);
    if Pdx(v) < NENTRIES && Present(m.mem[d][Pdx(v)]) {
      TableOwned(m, lo, d, Pdx(v));
    }
  }

  lemma TakeInv(m: Phys, lo: nat, o: Owner)
    requires Inv(m, lo) && m.free != [] && Loose(o) && (o.Held? ==> OwnedBy(m, o.d, Dir))
    ensures m.free[|m.free| - 1] < |m.owner|
    ensures Inv(Take(m, o), lo)
    ensures forall d: nat, v: nat :: OwnedBy(m, d, Dir) ==> Lookup(Take(m, o), d, v) == Lookup(m, d, v)
  {
    var f := m.free[|m.free| - 1];
    var m' := Take(m, o);
    assert FrameOk(m, f);
    assert forall d: nat, v: nat :: Lookup(m', d, v) == Lookup(m, d, v);
    forall g: nat | g < |m'.mem|
      ensures FrameOk(m', g)
    {
      assert FrameOk(m, g);
    }
  }

  lemma ReleaseInv(m: Phys, lo: nat, f: nat)
    requires Inv(m, lo) && lo <= f < |m.mem| && Loose(m.owner[f])
    ensures Inv(Release(m, f), lo)
    ensures forall d: nat, v: nat :: OwnedBy(m, d, Dir) ==> Lookup(Release(m, f), d, v) == Lookup(m, d, v)
  {
    var m' := Release(m, f);
    forall d: nat, v: nat | OwnedBy(m, d, Dir)
      ensures Lookup(m', d, v) == Lookup(m, d, v)
    {
      SameLookup(m, m', lo, d, v);
    }
    forall g: nat | g < |m'.mem|
      ensures FrameOk(m', g)
    {
      assert FrameOk(m, g);
    }
  }

  // ---------------------------------------------------------------- page table updates

  /** A loose frame becomes an empty directory. */
  function MakeDir(m: Phys, f: nat): Phys
    requires f < |m.mem| == |m.owner|
  {
    m.(mem := m.mem[f := Zeros()], owner := m.owner[f := Dir])
  }

  /** walkpgdir's new page table, of a frame just taken. */
  function AddTable(m: Phys, d: nat, i: nat, f: nat): Phys
    requires InRange(m, d) && i < NENTRIES && f < |m.mem|
  {
    m.(mem := m.mem[f := Zeros()][d := Put(m.mem[d], i, Pte(f, 7))], owner := m.owner[f := Table(d, i)])
  }

  /** Write page v's entry; a user entry takes over its frame. */
  function PutPte(m: Phys, d: nat, v: nat, f: nat, perm: nat): Phys
    requires HasTable(m, d, Pdx(v)) && (v < USERPAGES ==> f < |m.owner|)
  {
    var t := Frame(m.mem[d][Pdx(v)]);
    m.(mem := m.mem[t := Put(m.mem[t], Ptx(v), Pte(f, perm))],
       owner := if v < USERPAGES then m.owner[f := User(d, v)] else m.owner)
  }

  /** deallocuvm's step: free page v's frame, then clear its entry. */
  function Unmap(m: Phys, d: nat, v: nat): Phys
    requires HasTable(m, d, Pdx(v)) && Frame(Lookup(m, d, v)) < |m.mem|
  {
    var t := Frame(m.mem[d][Pdx(v)]);
    var m1 := Release(m, Frame(Lookup(m, d, v)));
    m1.(mem := m1.mem[t := Put(m1.mem[t], Ptx(v), 0)])
  }

  lemma MakeDirInv(m: Phys, lo: nat, f: nat)
    requires Inv(m, lo) && lo <= f < |m.mem| && m.owner[f].Other?
    ensures Inv(MakeDir(m, f), lo)
    ensures forall d: nat, v: nat :: OwnedBy(m, d, Dir) ==> Lookup(MakeDir(m, f), d, v) == Lookup(m, d, v)
    ensures forall v: nat :: Lookup(MakeDir(m, f), f, v) == 0
  {
    var m' := MakeDir(m, f);
    forall d: nat, v: nat | OwnedBy(m, d, Dir)
      ensures Lookup(m', d, v) == Lookup(m, d, v)
    {
      SameLookup(m, m', lo, d, v);
    }
    forall g: nat | g < |m'.mem|
      ensures FrameOk(m', g)
    {
      assert FrameOk(m, g);
    }
  }

  lemma AddTableInv(m: Phys, lo: nat, d: nat, i: nat, f: nat)
    requires Inv(m, lo) && OwnedBy(m, d, Dir) && i < NENTRIES && InRange(m, d) && !Present(m.mem[d][i])
    requires lo <= f < |m.mem| && m.owner[f].Held?
    ensures Inv(AddTable(m, d, i, f), lo) && HasTable(AddTable(m, d, i, f), d, i)
    ensures forall d1: nat, v: nat :: OwnedBy(m, d1, Dir) ==> Lookup(AddTable(m, d, i, f), d1, v) == Lookup(m, d1, v)
  {
    var m' := AddTable(m, d, i, f);
    PteParts(f, 7);
    assert FrameOk(m, d);
    forall d1: nat, v: nat | OwnedBy(m, d1, Dir)
      ensures Lookup(m', d1, v) == Lookup(m, d1, v)
    {
      if d1 == d {
        NewTableLookup(m, lo, d, i, f, v);
      } else {
        assert FrameOk(m, d1);
        SameLookup(m, m', lo, d1, v);
      }
    }
    forall g: nat | g < |m'.mem|
      ensures FrameOk(m', g)
    {
      assert FrameOk(m, g);
    }
  }

  lemma NewTableLookup(m: Phys, lo: nat, d: nat, i: nat, f: nat, v: nat)
    requires Inv(m, lo) && OwnedBy(m, d, Dir) && i < NENTRIES && InRange(m, d) && !Present(m.mem[d][i])
    requires lo <= f < |m.mem| && m.owner[f].Held?
    ensures Lookup(AddTable(m, d, i, f), d, v) == Lookup(m, d, v)
  {
    PteParts(f, 7);
    PageIndex(v, v);
    if Pdx(v) < NENTRIES && Present(m.mem[d][Pdx(v)]) {
      TableOwned(m, lo, d, Pdx(v));
    }
  }

  lemma PutPteInv(m: Phys, lo: nat, d: nat, v: nat, f: nat, perm: nat)
    requires Inv(m, lo) && OwnedBy(m, d, Dir) && HasTable(m, d, Pdx(v)) && !Present(Lookup(m, d, v)) && perm < PGSIZE
    requires v < USERPAGES ==> lo <= f && OwnedBy(m, f, Held(d))
    ensures Inv(PutPte(m, d, v, f, perm), lo)
    ensures forall d1: nat, v1: nat :: OwnedBy(m, d1, Dir) ==>
              Lookup(PutPte(m, d, v, f, perm), d1, v1) == if d1 == d && v1 == v then Pte(f, perm) else Lookup(m, d1, v1)
  {
    var m' := PutPte(m, d, v, f, perm);
    var t := Frame(m.mem[d][Pdx(v)]);
    PteParts(f, perm);
    PageIndex(v, v);
    TableOwned(m, lo, d, Pdx(v));
    forall d1: nat, v1: nat | OwnedBy(m, d1, Dir)
      ensures Lookup(m', d1, v1) == if d1 == d && v1 == v then Pte(f, perm) else Lookup(m, d1, v1)
    {
      EntryLookup(m, m', lo, d, v, t, d1, v1);
    }
    forall g: nat | g < |m'.mem|
      ensures FrameOk(m', g)
    {
      assert FrameOk(m, g);
    }
  }

  /** Writing one entry of one table changes one lookup. */
  lemma EntryLookup(m: Phys, m': Phys, lo: nat, d: nat, v: nat, t: nat, d1: nat, v1: nat)
    requires Inv(m, lo) && OwnedBy(m, d, Dir) && OwnedBy(m, d1, Dir) && HasTable(m, d, Pdx(v))
             && |m'.owner| == |m'.mem| == |m.mem|
    requires t == Frame(m.mem[d][Pdx(v)]) && |m'.mem[t]| == NENTRIES
             && m'.mem[t] == Put(m.mem[t], Ptx(v), m'.mem[t][Ptx(v)])
    requires forall g: nat :: g < |m.mem| && g != t && (m.owner[g].Dir? || m.owner[g].Table?) ==> m'.mem[g] == m.mem[g]
    ensures Lookup(m', d1, v1) == if d1 == d && v1 == v then m'.mem[t][Ptx(v)] else Lookup(m, d1, v1)
  {
    PageIndex(v, v1);
    TableOwned(m, lo, d, Pdx(v));
    PageIndex(v1, v1);
    assert FrameOk(m, d1) && FrameOk(m, d);
    if Pdx(v1) < NENTRIES && Present(m.mem[d1][Pdx(v1)]) {
      TableOwned(m, lo, d1, Pdx(v1));
    }
  }

  /** Page v's entry cleared, its frame loose: half of an unmapping. */
  function Detach(m: Phys, d: nat, v: nat): Phys
    requires HasTable(m, d, Pdx(v)) && Frame(Lookup(m, d, v)) < |m.mem|
  {
    var t := Frame(m.mem[d][Pdx(v)]);
    m.(mem := m.mem[t := Put(m.mem[t], Ptx(v), 0)], owner := m.owner[Frame(Lookup(m, d, v)) := Held(d)])
  }

  lemma DetachInv(m: Phys, lo: nat, d: nat, v: nat)
    requires Inv(m, lo) && OwnedBy(m, d, Dir) && v < USERPAGES && Present(Lookup(m, d, v))
    ensures HasTable(m, d, Pdx(v)) && Frame(Lookup(m, d, v)) < |m.mem|
    ensures Inv(Detach(m, d, v), lo)
    ensures forall d1: nat, v1: nat :: OwnedBy(m, d1, Dir) ==>
              Lookup(Detach(m, d, v), d1, v1) == if d1 == d && v1 == v then 0 else Lookup(m, d1, v1)
  {
    UserPage(m, lo, d, v);
    PageIndex(v, v);
    var m' := Detach(m, d, v);
    var t := Frame(m.mem[d][Pdx(v)]);
    forall d1: nat, v1: nat | OwnedBy(m, d1, Dir)
      ensures Lookup(m', d1, v1) == if d1 == d && v1 == v then 0 else Lookup(m, d1, v1)
    {
      EntryLookup(m, m', lo, d, v, t, d1, v1);
    }
    forall g: nat | g < |m'.mem|
      ensures FrameOk(m', g)
    {
      assert FrameOk(m, g);
    }
  }

  lemma UnmapInv(m: Phys, lo: nat, d: nat, v: nat)
    requires Inv(m, lo) && OwnedBy(m, d, Dir) && v < USERPAGES && Present(Lookup(m, d, v))
    ensures HasTable(m, d, Pdx(v)) && lo <= Frame(Lookup(m, d, v)) < |m.mem| == |m.owner|
    ensures Inv(Unmap(m, d, v), lo)
    ensures forall d1: nat, v1: nat :: OwnedBy(m, d1, Dir) ==>
              Lookup(Unmap(m, d, v), d1, v1) == if d1 == d && v1 == v then 0 else Lookup(m, d1, v1)
  {
    hide Inv, Lookup;
    DetachInv(m, lo, d, v);
    UnmapDetach(m, lo, d, v);
    ReleaseInv(Detach(m, d, v), lo, Frame(Lookup(m, d, v)));
  }

  lemma UnmapDetach(m: Phys, lo: nat, d: nat, v: nat)
    requires Inv(m, lo) && OwnedBy(m, d, Dir) && v < USERPAGES && Present(Lookup(m, d, v))
    ensures HasTable(m, d, Pdx(v)) && lo <= Frame(Lookup(m, d, v)) < |m.mem| == |m.owner|
    ensures Unmap(m, d, v) == Release(Detach(m, d, v), Frame(Lookup(m, d, v)))
    ensures |Detach(m, d, v).mem| == |m.mem| && Loose(Detach(m, d, v).owner[Frame(Lookup(m, d, v))])
    ensures forall d1: nat :: OwnedBy(m, d1, Dir) ==> OwnedBy(Detach(m, d, v), d1, Dir)
  {
    UserPage(m, lo, d, v);
  }

  // ---------------------------------------------------------------- what an operation on one address space may touch

  predicate Mine(m: Phys, d: nat, f: nat)
  {
    f < |m.owner| &&
    (f == d || (m.owner[f].Table? && m.owner[f].d == d) || (m.owner[f].User? && m.owner[f].d == d)
     || m.owner[f] == Held(d))
  }

  predicate FreeOrMine(m: Phys, d: nat, f: nat) { f < |m.owner| && (m.owner[f].Free? || Mine(m, d, f)) }

  /** Frame f came from the free list or directory d and went there, or is as it was. */
  predicate WithinAt(m: Phys, m': Phys, d: nat, f: nat)
  {
    f < |m.mem| == |m'.mem| == |m.owner| == |m'.owner| &&
    if FreeOrMine(m, d, f) then FreeOrMine(m', d, f) else m'.owner[f] == m.owner[f] && m'.mem[f] == m.mem[f]
  }

  ghost predicate Within(m: Phys, m': Phys, d: nat)
  {
    && |m.mem| == |m'.mem| == |m.owner| == |m'.owner|
    && forall f: nat {:trigger WithinAt(m, m', d, f)} :: f < |m.mem| ==> WithinAt(m, m', d, f)
  }

  lemma WithinTrans(m1: Phys, m2: Phys, m3: Phys, d: nat)
    requires Within(m1, m2, d) && Within(m2, m3, d)
    ensures Within(m1, m3, d)
  {
    forall f: nat | f < |m1.mem|
      ensures WithinAt(m1, m3, d, f)
    {
      assert WithinAt(m1, m2, d, f) && WithinAt(m2, m3, d, f);
    }
  }

  /** The other address spaces do not notice. */
  lemma OtherSpaces(m: Phys, m': Phys, lo: nat, d: nat, e: nat, v: nat)
    requires Inv(m, lo) && Within(m, m', d) && e != d && OwnedBy(m, e, Dir) && d < |m.owner|
             && (m.owner[d].Dir? || m.owner[d].Free?)
    ensures OwnedBy(m', e, Dir) && Lookup(m', e, v) == Lookup(m, e, v)
    ensures v < USERPAGES && Present(Lookup(m, e, v)) ==>
              InRange(m, Frame(Lookup(m, e, v))) && m'.mem[Frame(Lookup(m, e, v))] == m.mem[Frame(Lookup(m, e, v))]
  {
    assert WithinAt(m, m', d, e);
    forall f: nat | f < |m.mem| && m.owner[f] == Table(e, Pdx(v))
      ensures m'.mem[f] == m.mem[f]
    {
      assert WithinAt(m, m', d, f);
    }
    SameLookup(m, m', lo, e, v);
    if v < USERPAGES && Present(Lookup(m, e, v)) {
      UserPage(m, lo, e, v);
      assert WithinAt(m, m', d, Frame(Lookup(m, e, v)));
    }
  }

  // ---------------------------------------------------------------- taking an address space apart

  /** Directory d and its tables become loose, ready to be freed. */
  function Dismantle(m: Phys, d: nat): Phys
  {
    m.(owner := seq(|m.owner|, f requires 0 <= f < |m.owner| =>
                      if f == d || (m.owner[f].Table? && m.owner[f].d == d) then Other else m.owner[f]))
  }

  predicate NoUser(m: Phys, d: nat)
  {
    forall f: nat :: f < |m.owner| ==> m.owner[f] != Held(d) && !(m.owner[f].User? && m.owner[f].d == d)
  }

  lemma DismantleInv(m: Phys, lo: nat, d: nat)
    requires Inv(m, lo) && OwnedBy(m, d, Dir) && NoUser(m, d)
    ensures Inv(Dismantle(m, d), lo)
  {
    var m' := Dismantle(m, d);
    forall g: nat | g < |m'.mem|
      ensures FrameOk(m', g)
    {
      assert FrameOk(m, g);
      if m.owner[g].User? {
        SameLookup(m, m', lo, m.owner[g].d, m.owner[g].v);
      }
    }
  }
}
