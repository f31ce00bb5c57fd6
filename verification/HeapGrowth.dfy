/** umalloc.c over sysproc.c: what morecore's request for memory comes to in the kernel. */
module HeapGrowth {
  import opened Wrappers
  import opened Umalloc
  import opened Vm
  import opened Growproc

  /** The call of sbrk that malloc(nbytes) makes when no free block is large enough.  Where it succeeds, the process
      has the units asked for at the address returned exactly for requests below 2 GB, and for those that wrap
      around; between these it has nothing there that it did not have before. */
  method Refill(p: Process, nbytes: nat) returns (addr: Option<nat>)
    requires p.Sized() && nbytes < 0x1_0000_0000
    modifies p, p.vm
    ensures addr.None? ==> p.sz == old(p.sz)
    ensures addr.Some? ==> p.Sized() && addr.value == old(p.sz)
    ensures addr.Some? ==>
              (p.sz >= addr.value + Asked(nbytes) * 8 <==> nbytes <= 0x7FFF_FFF0 || nbytes > 0xFFFF_FFF8)
    ensures addr.Some? && 0x7FFF_FFF0 < nbytes <= 0xFFFF_FFF8 ==> p.sz <= addr.value
  {
    hide SbrkArg;
    AskedFor(nbytes);
    addr := p.Sbrk(SbrkArg(Asked(nbytes)));
  }

  /** malloc(2 GB) in any process of up to a megabyte: sbrk is asked to shrink the process by almost 2 GB, and
      reports success without adding a byte. */
  method TwoGigabytes(p: Process) returns (addr: Option<nat>)
    requires p.Sized() && 0 < p.sz <= 0x10_0000
    modifies p, p.vm
    ensures addr == Some(old(p.sz)) && p.sz == old(p.sz)
  {
    assert NUnits(0x8000_0000) == 0x1000_0001;
    assert SbrkArg(Asked(0x8000_0000)) == -0x7FFF_FFF8;
    addr := p.Sbrk(SbrkArg(Asked(0x8000_0000)));
  }

  /** malloc of just under 4 GB takes a page from a process of three. */
  method TakesAway(p: Process) returns (addr: Option<nat>)
    requires p.Sized() && p.sz == 0x3000
    modifies p, p.vm
    ensures addr == Some(0x3000) && p.sz == 0x1FF8
  {
    assert NUnits(0xFFFF_EFF0) == 0x1FFF_FDFF;
    assert SbrkArg(Asked(0xFFFF_EFF0)) == -0x1008;
    addr := p.Sbrk(SbrkArg(Asked(0xFFFF_EFF0)));
  }
}
