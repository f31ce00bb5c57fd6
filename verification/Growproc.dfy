/** growproc of proc.c, behind the sbrk system call: a process's size against the pages it has mapped. */
module Growproc {
  import opened Wrappers
  import opened Pages
  import opened KernelMap
  import opened AddressSpaces
  import opened SpaceCopy
  import opened Vm

  /** Directory d maps exactly the user pages that hold sz bytes. */
  ghost predicate Spans(m: Phys, d: nat, sz: nat)
  {
    forall v: nat :: v < USERPAGES ==> (Present(Lookup(m, d, v)) <==> v < PagesOf(sz))
  }

  /** The first n pages are as they were. */
  ghost predicate KeepsFirst(m: Phys, m': Phys, d: nat, n: nat)
  {
    forall v: nat :: v < n && v < USERPAGES ==> SamePage(m, m', d, v)
  }

  lemma NotGrown(m: Phys, lo: nat, d: nat, sz: nat)
    requires Inv(m, lo) && OwnedBy(m, d, Dir)
    ensures KeepsFirst(m, m, d, PagesOf(sz))
  {
    forall v: nat | v < PagesOf(sz) && v < USERPAGES
      ensures SamePage(m, m, d, v)
    {
      if Present(Lookup(m, d, v)) {
        UserPage(m, lo, d, v);
      }
    }
  }

  /** What is mapped above the size, and that a size other than 0 cannot go with no pages. */
  lemma SpansAbove(m: Phys, d: nat, sz: nat)
    requires Spans(m, d, sz)
    ensures forall v: nat :: PagesOf(sz) <= v < USERPAGES ==> !Present(Lookup(m, d, v))
    ensures sz == 0 ==> forall other: nat :: 0 < other ==> !Spans(m, d, other)
  {
    if sz == 0 {
      assert !Present(Lookup(m, d, 0));
    }
  }

  lemma GrownSpans(m: Phys, m': Phys, lo: nat, d: nat, sz: nat, newsz: nat)
    requires Inv(m, lo) && OwnedBy(m, d, Dir) && Spans(m, d, sz) && sz <= newsz < KERNBASE
    requires Grown(m, m', lo, d, PagesOf(sz), PagesOf(newsz), ZeroPages(PagesOf(newsz)), Perms(PagesOf(newsz)), {})
    ensures Spans(m', d, newsz) && KeepsFirst(m, m', d, PagesOf(sz))
    ensures OwnedBy(m', d, Dir)
  {
    var from, to := PagesOf(sz), PagesOf(newsz);
    forall v: nat | v < from && v < USERPAGES
      ensures SamePage(m, m', d, v)
    {
      UserPage(m, lo, d, v);
      assert GrownAt(m, m', d, from, to, ZeroPages(to), {}, Frame(Lookup(m, d, v)));
    }
  }

  lemma UndoneSpans(m: Phys, m': Phys, lo: nat, d: nat, sz: nat, newsz: nat)
    requires Inv(m, lo) && OwnedBy(m, d, Dir) && Spans(m, d, sz) && sz <= newsz < KERNBASE
    requires Undone(m, m', lo, d, PagesOf(sz), PagesOf(newsz), {})
    ensures Spans(m', d, sz) && KeepsFirst(m, m', d, PagesOf(sz))
    ensures OwnedBy(m', d, Dir)
  {
    forall v: nat | v < PagesOf(sz) && v < USERPAGES
      ensures SamePage(m, m', d, v)
    {
      UserPage(m, lo, d, v);
      assert GrownAt(m, m', d, PagesOf(sz), PagesOf(sz), [], {}, Frame(Lookup(m, d, v)));
    }
  }

  lemma TrimmedSpans(m: Phys, m': Phys, lo: nat, d: nat, sz: nat, newsz: nat)
    requires Inv(m, lo) && OwnedBy(m, d, Dir) && Spans(m, d, sz) && sz < KERNBASE
    requires Trimmed(m, m', lo, d, PagesOf(newsz), PagesOf(sz))
    ensures newsz <= sz ==> Spans(m', d, newsz) && KeepsFirst(m, m', d, PagesOf(newsz))
    ensures newsz > sz ==> Spans(m', d, sz) && KeepsFirst(m, m', d, PagesOf(sz))
  {
    var n := if newsz <= sz then PagesOf(newsz) else PagesOf(sz);
    forall v: nat | v < n && v < USERPAGES
      ensures SamePage(m, m', d, v)
    {
      UserPage(m, lo, d, v);
      assert TrimmedAt(m, m', d, PagesOf(newsz), PagesOf(sz), Frame(Lookup(m, d, v)));
    }
  }

  class Process {
    const vm: Vm
    const pgdir: nat
    var sz: nat

    constructor (vm: Vm, pgdir: nat, sz: nat)
      ensures this.vm == vm && this.pgdir == pgdir && this.sz == sz
    {
      this.vm, this.pgdir, this.sz := vm, pgdir, sz;
    }

    /** The process has a directory, and its size is what is mapped. */
    ghost predicate Sized()
      reads this, vm
    {
      vm.Valid() && OwnedBy(vm.Now(), pgdir, Dir) && sz < KERNBASE && Spans(vm.Now(), pgdir, sz)
    }

    /** Grow by n bytes, or shrink.  Shrinking to nothing frees every page and then reports failure, with the
        old size left in place: exactly then size and mapping part. */
    method Growproc(n: int) returns (ok: bool)
      requires Sized() && -0x8000_0000 <= n < 0x8000_0000
      modifies this`sz, vm
      ensures vm.Valid() && OwnedBy(vm.Now(), pgdir, Dir)
      ensures Sized() <==> !(n < 0 && old(sz) + n == 0)
      ensures ok ==> sz == if old(sz) + n < 0 then old(sz) else old(sz) + n
      ensures !ok ==> sz == old(sz)
      ensures ok <==> n == 0 || (n > 0 && old(sz) + n < KERNBASE && vm.failures == old(vm.failures))
                      || (n < 0 && old(sz) > 0 && old(sz) + n != 0)
      ensures Sized() ==> KeepsFirst(old(vm.Now()), vm.Now(), pgdir, PagesOf(if sz < old(sz) then sz else old(sz)))
      // the processor finds zeros in the pages added, and the pages given up not at all
      ensures ok && n > 0 ==> ZerosAdded(old(vm.Now()), vm.Now(), pgdir, (old(sz) + 4095) / 4096, (sz + 4095) / 4096)
      ensures ok && n < 0 && old(sz) + n >= 0 ==>
                Gone(old(vm.Now()), vm.Now(), pgdir, (sz + 4095) / 4096, (old(sz) + 4095) / 4096)
    {
      hide Inv, Lookup, Grown, Undone, Trimmed, SamePage, Spans, KeepsFirst, PagesOf, Present, Gone, ZerosAdded;
      ghost var m := vm.Now();
      NotGrown(m, vm.lo, pgdir, sz);
      SpansAbove(m, pgdir, sz);
      var size := sz;
      if n > 0 {
        size := vm.Allocuvm(pgdir, sz, (sz + n) % UINT);
        if sz + n < KERNBASE {
          if vm.failures == old(vm.failures) {
            GrownSpans(m, vm.Now(), vm.lo, pgdir, sz, sz + n);
          } else {
            UndoneSpans(m, vm.Now(), vm.lo, pgdir, sz, sz + n);
          }
        }
        if size == 0 {
          return false;
        }
      } else if n < 0 {
        size := vm.Deallocuvm(pgdir, sz, (sz + n) % UINT);
        TrimmedDir(m, vm.Now(), vm.lo, pgdir, PagesOf((sz + n) % UINT), PagesOf(sz));
        TrimmedSpans(m, vm.Now(), vm.lo, pgdir, sz, (sz + n) % UINT);
        if sz + n == 0 {
          SpansAbove(vm.Now(), pgdir, 0);
        }
        if size == 0 {
          return false;
        }
      }
      sz := size;
      return true;
    }

    /** The sbrk system call: the old size, which is where the memory asked for begins; None if growproc fails. */
    method Sbrk(n: int) returns (addr: Option<nat>)
      requires Sized() && -0x8000_0000 <= n < 0x8000_0000
      modifies this`sz, vm
      ensures addr.None? ==> sz == old(sz)
      ensures addr.Some? ==>
                addr.value == old(sz) && Sized() && sz == if old(sz) + n < 0 then old(sz) else old(sz) + n
      ensures addr.Some? <==> n == 0 || (n > 0 && old(sz) + n < KERNBASE && vm.failures == old(vm.failures))
                              || (n < 0 && old(sz) > 0 && old(sz) + n != 0)
    {
      hide Inv, Spans;
      var was := sz;
      var ok := Growproc(n);
      if !ok {
        return None;
      }
      return Some(was);
    }
  }

  /** The size and the mapping of any process part when it gives up all its memory. */
  method ShrinkToNothing(p: Process) returns (ok: bool)
    requires p.Sized() && p.sz > 0
    modifies p, p.vm
    ensures !ok && p.sz == old(p.sz) && !p.Sized()
  {
    var all: int := p.sz;
    ok := p.Growproc(-all);
  }
}
