/** The kernel half of every page table (vm.c, memlayout.h). */
module KernelMap {
  import opened Pages

  const UINT := 0x1_0000_0000
  const PTE_W := 2
  const EXTMEM := 0x10_0000
  const PHYSTOP := 0xE00_0000
  const DEVSPACE := 0xFE00_0000
  const KERNLINK := KERNBASE + EXTMEM

  /** Addresses; physEnd - physStart is a 32-bit difference. */
  datatype Kmap = Kmap(virt: nat, physStart: nat, physEnd: nat, perm: nat)

  function Size(k: Kmap): nat { (k.physEnd - k.physStart) % UINT }

  /** Where the linker may put the kernel's writable data. */
  predicate DataOk(data: nat) { data % PGSIZE == 0 && KERNLINK < data < P2V(PHYSTOP / PGSIZE) }

  function Entries(data: nat): (ks: seq<Kmap>)
    requires DataOk(data)
    ensures |ks| == 4
  {
    [Kmap(KERNBASE, 0, EXTMEM, PTE_W),
     Kmap(KERNLINK, EXTMEM, data - KERNBASE, 0),
     Kmap(data, data - KERNBASE, PHYSTOP, PTE_W),
     Kmap(DEVSPACE, DEVSPACE, 0, PTE_W)]
  }

  predicate Covers(k: Kmap, v: nat) { Size(k) > 0 && k.virt / PGSIZE <= v <= (k.virt + Size(k) - 1) / PGSIZE }

  /** Page v's entry after the first n entries of the table were mapped. */
  function EntryAfter(data: nat, n: nat, v: nat): nat
    requires DataOk(data) && n <= 4
  {
    if n == 0 then 0
    else
      var k := Entries(data)[n - 1];
      if Covers(k, v) then Pte(k.physStart / PGSIZE + (v - k.virt / PGSIZE), k.perm) else EntryAfter(data, n - 1, v)
  }

  /** The kernel address space: I/O space and data writable, text not, devices mapped directly, and
      nothing in the user half. */
  function KernelPte(data: nat, v: nat): nat
  {
    if v < USERPAGES then 0
    else if v < KERNLINK / PGSIZE then Pte(v - USERPAGES, PTE_W)
    else if v < data / PGSIZE then Pte(v - USERPAGES, 0)
    else if v < P2V(PHYSTOP / PGSIZE) / PGSIZE then Pte(v - USERPAGES, PTE_W)
    else if DEVSPACE / PGSIZE <= v < VPAGES then Pte(v, PTE_W)
    else 0
  }

  /** The pages of the table's four entries, one after the other. */
  lemma CoveredPages(data: nat, v: nat)
    requires DataOk(data)
    ensures Covers(Entries(data)[0], v) <==> USERPAGES <= v < KERNLINK / PGSIZE
    ensures Covers(Entries(data)[1], v) <==> KERNLINK / PGSIZE <= v < data / PGSIZE
    ensures Covers(Entries(data)[2], v) <==> data / PGSIZE <= v < P2V(PHYSTOP / PGSIZE) / PGSIZE
    ensures Covers(Entries(data)[3], v) <==> DEVSPACE / PGSIZE <= v < VPAGES
    ensures USERPAGES < KERNLINK / PGSIZE < data / PGSIZE < P2V(PHYSTOP / PGSIZE) / PGSIZE < DEVSPACE / PGSIZE
  {
  }

  lemma {:induction false} EntryWhereCovered(data: nat, n: nat, i: nat, v: nat)
    requires DataOk(data) && n <= 4
    requires forall j :: 0 <= j < n && j != i ==> !Covers(Entries(data)[j], v)
    ensures EntryAfter(data, n, v) ==
            var e := Entries(data)[if i < n then i else 0];
            if i < n && Covers(e, v) then Pte(e.physStart / PGSIZE + (v - e.virt / PGSIZE), e.perm) else 0
  {
    if n > 0 {
      EntryWhereCovered(data, n - 1, i, v);
    }
  }

  /** The table's entries map the kernel address space. */
  lemma EntriesMapKernel(data: nat, v: nat)
    requires DataOk(data)
    ensures EntryAfter(data, 4, v) == KernelPte(data, v)
  {
    hide Covers, EntryAfter;
    CoveredPages(data, v);
    var i := if v < KERNLINK / PGSIZE then 0
             else if v < data / PGSIZE then 1
             else if v < P2V(PHYSTOP / PGSIZE) / PGSIZE then 2 else 3;
    EntryWhereCovered(data, 4, i, v);
  }

  /** No entry maps a page that an earlier one mapped, or a user page. */
  lemma EntryApart(data: nat, n: nat, v: nat)
    requires DataOk(data) && n < 4 && Covers(Entries(data)[n], v)
    ensures EntryAfter(data, n, v) == 0 && v >= USERPAGES
  {
    hide Covers, EntryAfter;
    CoveredPages(data, v);
    EntryWhereCovered(data, n, n, v);
  }

  lemma EntrySizes(data: nat, n: nat)
    requires DataOk(data) && n < 4
    ensures var k := Entries(data)[n];
              0 < Size(k) && k.virt + Size(k) <= UINT && k.physStart % PGSIZE == 0 && k.perm < PGSIZE
  {
  }
}
