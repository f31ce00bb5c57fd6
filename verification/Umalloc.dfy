/** umalloc.c: malloc and free over the ring of free blocks. */
module Umalloc {
  import opened Arith
  import opened Wrappers
  import opened HeapRing

  const MORECORE := 4096   // least number of units asked of sbrk

  /** What malloc comes to.  Stray: morecore took an address from sbrk and stored a header there, although sbrk was
      asked to add nothing; what follows is not the heap's any more. */
  datatype Answer = Allocated(p: int) | Null | Stray

  /** The argument that sbrk, which takes an int, receives for n units. */
  function SbrkArg(n: nat): int
  {
    var bytes := n * 8 % 0x1_0000_0000;
    if bytes < 0x8000_0000 then bytes else bytes - 0x1_0000_0000
  }

  /** The units that malloc(nbytes) asks sbrk for. */
  function Asked(nbytes: nat): nat
    requires nbytes < 0x1_0000_0000
  {
    Max(NUnits(nbytes), MORECORE)
  }

  /** sbrk is asked to add memory, and then as much as is needed, exactly for requests below 2 GB, and for those so
      large that counting their units wraps around. */
  lemma AskedFor(nbytes: nat)
    requires nbytes < 0x1_0000_0000
    ensures SbrkArg(Asked(nbytes)) > 0 <==> nbytes <= 0x7FFF_FFF0 || nbytes > 0xFFFF_FFF8
    ensures SbrkArg(Asked(nbytes)) > 0 ==> SbrkArg(Asked(nbytes)) == Asked(nbytes) * 8
    ensures -0x8000_0000 <= SbrkArg(Asked(nbytes)) < 0x8000_0000
  {
    if nbytes <= 0xFFFF_FFF8 {
      var q := (nbytes + 7) / 8;
      assert NUnits(nbytes) == q + 1;
    } else {
      assert NUnits(nbytes) == 1;
    }
  }

  // ---------------------------------------------------------------- walking the ring

  /** The free blocks met on the way from p round to t, both included. */
  ghost function Arc(free: set<int>, p: int, t: int): set<int>
  {
    set x | x in free && (if p <= t then p <= x <= t else x >= p || x <= t)
  }

  /** One step along the ring leaves one block less to meet. */
  lemma ArcStep(base: int, mem: Memory, free: set<int>, p: int, t: int)
    requires Ring(base, mem, free) && p in free && t in free && p != t
    ensures mem[p].ptr in free && p in Arc(free, p, t)
    ensures Arc(free, mem[p].ptr, t) == Arc(free, p, t) - {p}
  {
    assert LinkedAt(base, mem, free, p);
  }

  /** After a whole turn every block has been met. */
  lemma ArcWhole(base: int, mem: Memory, free: set<int>, f: int)
    requires Ring(base, mem, free) && f in free
    ensures mem[f].ptr in free
    ensures forall x :: x in free ==> x in Arc(free, mem[f].ptr, f)
  {
    assert LinkedAt(base, mem, free, f);
  }

  function Walk(mem: Memory, p: int, n: nat): int
    decreases n
  {
    if n == 0 then p else if p in mem then Walk(mem, mem[p].ptr, n - 1) else p
  }

  /** The free list is a single ring: from any free block, following ptr reaches any other. */
  lemma SingleRing(base: int, mem: Memory, free: set<int>, p: int, t: int)
    requires Ring(base, mem, free) && p in free && t in free
    ensures exists n :: 0 <= n < |free| && Walk(mem, p, n) == t
  {
    SingleRingArc(base, mem, free, p, t);
    var n :| 0 <= n < |Arc(free, p, t)| && Walk(mem, p, n) == t;
    var rest := free - Arc(free, p, t);
    assert Arc(free, p, t) + rest == free;
  }

  lemma {:induction false} SingleRingArc(base: int, mem: Memory, free: set<int>, p: int, t: int)
    requires Ring(base, mem, free) && p in free && t in free
    ensures exists n :: 0 <= n < |Arc(free, p, t)| && Walk(mem, p, n) == t
    decreases |Arc(free, p, t)|
  {
    if p == t {
      assert t in Arc(free, p, t);
      assert Walk(mem, p, 0) == t;
    } else {
      ArcStep(base, mem, free, p, t);
      SingleRingArc(base, mem, free, mem[p].ptr, t);
      var n :| 0 <= n < |Arc(free, mem[p].ptr, t)| && Walk(mem, mem[p].ptr, n) == t;
      assert Walk(mem, p, n + 1) == t;
    }
  }

  /** The last free block below bp. */
  ghost predicate Last(free: set<int>, bp: int, t: int)
  {
    t in free && t < bp && forall x :: x in free ==> x <= t || x > bp
  }

  lemma {:induction false} LastBelow(free: set<int>, bp: int, low: int) returns (t: int)
    requires low in free && low < bp && bp !in free
    ensures Last(free, bp, t)
    decreases |free|
  {
    if y :| y in free && low < y < bp {
      t := LastBelow(free - {low}, bp, y);
      assert y in free - {low} && y <= t;
      assert forall x :: x in free && x != low ==> x in free - {low};
    } else {
      t := low;
    }
  }

  /** At the last block below bp the search of free stops, and where it stops bp fits. */
  lemma SearchStops(base: int, mem: Memory, free: set<int>, p: int, bp: int, t: int)
    requires Ring(base, mem, free) && p in free && base < bp && bp !in free && Last(free, bp, t)
    ensures p == t ==> Fits(mem, p, bp)
    ensures Fits(mem, p, bp) <==> (p < bp < mem[p].ptr) || (p >= mem[p].ptr && (bp > p || bp < mem[p].ptr))
  {
    assert LinkedAt(base, mem, free, p);
  }

  // ---------------------------------------------------------------- what the operations leave alone

  /** Blocks in `kept` keep their units, and their units keep their contents. */
  ghost predicate Untouched(H: Heap, H': Heap, kept: set<int>)
  {
    forall c :: c in H.own && c in H.mem && H.own[c] in kept ==>
      c in H'.own && H'.own[c] == H.own[c] && c in H'.mem && H'.mem[c] == H.mem[c]
  }

  lemma UntouchedTrans(H: Heap, H1: Heap, H2: Heap, kept: set<int>)
    requires Untouched(H, H1, kept) && Untouched(H1, H2, kept)
    ensures Untouched(H, H2, kept)
  {
  }

  lemma UntouchedSame(H: Heap, kept: set<int>)
    ensures Untouched(H, H, kept)
  {
  }

  lemma JoinedUntouched(base: int, H: Heap, h: int, kept: set<int>)
    requires RingOwned(base, H) && h in H.free && kept <= H.live
    ensures Untouched(H, Joined(base, H, h), kept)
  {
    HeaderUnit(base, H, h);
    assert LinkedAt(base, H.mem, H.free, h);
    hide In, LinkedAt;
  }

  /** A free block's header lies in no live block. */
  lemma HeaderUnit(base: int, H: Heap, h: int)
    requires RingOwned(base, H) && h in H.free
    ensures h in H.own ==> H.own[h] !in H.live
  {
    hide LinkedAt;
    assert h != base ==> In(H.mem, h, h);
  }

  lemma FreedUntouched(base: int, H: Heap, p: int, bp: int)
    requires HeapOk(base, H) && p in H.free && bp in H.live && Fits(H.mem, p, bp)
    ensures bp in H.mem && Untouched(H, Freed(base, H, p, bp), H.live - {bp})
  {
    hide LinkedAt, Owned, Coalesced, InsertMem, Joined;
    InsertFacts(base, H, p, bp);
    var H1 := Inserted(H, p, bp);
    InsertKeeps(base, H, p, bp);
    InsertUntouched(base, H, p, bp);
    var H2 := Joined(base, H1, bp);
    JoinKeeps(base, H1, bp);
    JoinedApart(base, H1, bp, {p});
    JoinedUntouched(base, H1, bp, H.live - {bp});
    JoinedUntouched(base, H2, p, H.live - {bp});
  }

  lemma InsertUntouched(base: int, H: Heap, p: int, bp: int)
    requires HeapOk(base, H) && p in H.free && bp in H.live
    ensures bp in H.mem && Untouched(H, Inserted(H, p, bp), H.live - {bp})
  {
    hide LinkedAt;
    HeaderUnit(base, H, p);
    assert In(H.mem, bp, bp);
  }

  lemma WholeUntouched(base: int, H: Heap, prevp: int, p: int)
    requires HeapOk(base, H) && prevp in H.free && p in H.free
    ensures Untouched(H, TakeWhole(H, prevp, p), H.live)
  {
    hide LinkedAt, In, Owned;
    HeaderUnit(base, H, prevp);
  }

  lemma TailUntouched(base: int, H: Heap, p: int, n: nat)
    requires HeapOk(base, H) && p in H.free && 0 < n < H.mem[p].size && p + H.mem[p].size - n in H.mem
    ensures Untouched(H, TakeTail(H, p, n), H.live)
  {
    hide LinkedAt;
    var q := p + H.mem[p].size - n;
    HeaderUnit(base, H, p);
    assert In(H.mem, p, q);
  }

  // ---------------------------------------------------------------- sbrk

  function Units(a: int, n: nat): (s: set<int>)
    ensures forall c :: c in s <==> a <= c < a + n
  {
    if n == 0 then {} else Units(a, n - 1) + {a + n - 1}
  }

  /** The heap with the n units at a, fresh from sbrk, as one live block. */
  ghost function Grown(H: Heap, a: int, n: nat): Heap
  {
    Heap(GrownMem(H.mem, a, n), H.free, H.live + {a}, H.own + (map c | c in Units(a, n) :: a))
  }

  /** Memory with the zeroed units at [a, a + n), the first of which records their number. */
  function GrownMem(mem: Memory, a: int, n: nat): Memory
  {
    mem + (map c | c in Units(a, n) :: Header(0, if c == a then n else 0))
  }

  /** The units at [a, a + n) are above base and were never obtained before. */
  ghost predicate FreshUnits(base: int, H: Heap, a: int, n: nat)
  {
    base < a && forall c :: a <= c < a + n ==> c !in H.own && c !in H.mem
  }

  lemma GrownOk(base: int, H: Heap, a: int, n: nat)
    requires HeapOk(base, H) && n > 0 && FreshUnits(base, H, a, n)
    ensures HeapOk(base, Grown(H, a, n)) && Untouched(H, Grown(H, a, n), H.live)
    ensures Grown(H, a, n).own.Keys == H.own.Keys + Units(a, n)
  {
    hide LinkedAt, Owned, Coalesced, In;
    GrownRing(base, H, a, n);
    GrownOwned(base, H, a, n);
    GrownFresh(base, H, a, n);
  }

  lemma GrownRing(base: int, H: Heap, a: int, n: nat)
    requires HeapOk(base, H) && n > 0 && FreshUnits(base, H, a, n)
    ensures Ring(base, Grown(H, a, n).mem, H.free) && Coalesced(base, Grown(H, a, n).mem, H.free, {})
  {
    hide Owned;
    var mem' := Grown(H, a, n).mem;
    assert forall h :: h in H.mem ==> h in mem' && mem'[h] == H.mem[h];
    forall h | h in H.free
      ensures LinkedAt(base, mem', H.free, h)
    {
      assert LinkedAt(base, H.mem, H.free, h);
    }
  }

  lemma GrownFresh(base: int, H: Heap, a: int, n: nat)
    requires HeapOk(base, H) && n > 0 && FreshUnits(base, H, a, n)
    ensures a !in H.free && a !in H.live
  {
    assert a !in H.mem;
  }

  lemma GrownOwned(base: int, H: Heap, a: int, n: nat)
    requires HeapOk(base, H) && n > 0 && FreshUnits(base, H, a, n)
    ensures var H' := Grown(H, a, n); Owned(base, H'.mem, H'.free, H'.live, H'.own)
  {
    hide LinkedAt, Coalesced;
    var H' := Grown(H, a, n);
    GrownFresh(base, H, a, n);
    forall h, c | (h in H.free || h in H.live) && In(H'.mem, h, c)
      ensures c in H'.own && H'.own[c] == h
    {
      assert In(H.mem, h, c);
    }
  }

  /** The heap of one program. */
  class Umalloc {
    const base: int             // address of the static header `base`
    var mem: Memory
    var freep: Option<int>      // None before the first malloc
    ghost var free: set<int>
    ghost var live: set<int>
    ghost var own: map<int, int>

    ghost function View(): Heap
      reads this
    {
      Heap(mem, free, live, own)
    }

    ghost predicate Valid()
      reads this
    {
      if freep.None? then free == {} && live == {} && own == map[] && mem.Keys == {base}
      else HeapOk(base, View()) && freep.value in free
    }

    constructor (base: int)
      ensures Valid() && freep.None? && this.base == base
    {
      this.base := base;
      mem := map[base := Header(0, 0)];
      freep := None;
      free := {};
      live := {};
      own := map[];
    }

    /** Give block bp back to the free list. */
    method Free(bp: int)
      requires Valid() && freep.Some? && bp in live
      modifies this`mem, this`freep, this`free, this`live, this`own
      ensures Valid() && freep.Some?
      ensures live == old(live) - {bp} && own.Keys == old(own).Keys
      ensures Untouched(old(View()), View(), live)
      ensures bp in old(mem) && HasRoom(mem, free, old(mem)[bp].size)
    {
      hide LinkedAt, Owned, Coalesced, Follows, Freed, Untouched, Fits, FirstStore, SecondStore, HeapOk;
      ghost var H := View();
      var p := FindPlace(bp);
      FreedFacts(base, H, p, bp);
      LinkIn(p, bp);
      freep := Some(p);
      free, live, own := Freed(base, H, p, bp).free, Freed(base, H, p, bp).live, Freed(base, H, p, bp).own;
      assert View() == Freed(base, H, p, bp);
    }

    /** The free block after which bp belongs. */
    method FindPlace(bp: int) returns (p: int)
      requires Valid() && freep.Some? && bp in live
      ensures p in free && Fits(mem, p, bp)
    {
      hide LinkedAt, Owned, Coalesced, Follows;
      LiveFacts(base, View(), bp);
      ghost var t := LastBelow(free, bp, base);
      p := freep.value;
      while !(bp > p && bp < mem[p].ptr)
        invariant p in free
        decreases |Arc(free, p, t)|
      {
        SearchStops(base, mem, free, p, bp, t);
        if p >= mem[p].ptr && (bp > p || bp < mem[p].ptr) {
          break;
        }
        ArcStep(base, mem, free, p, t);
        p := mem[p].ptr;
      }
      SearchStops(base, mem, free, p, bp, t);
    }

    /** Put bp after p, joining neighbours that touch. */
    method LinkIn(p: int, bp: int)
      requires p in mem && bp in mem && mem[p].ptr in mem && p != bp
      modifies this`mem
      ensures mem == SecondStore(FirstStore(old(mem), p, bp), p, bp)
    {
      if bp + mem[bp].size == mem[p].ptr {
        mem := mem[bp := Header(mem[mem[p].ptr].ptr, mem[bp].size + mem[mem[p].ptr].size)];
      } else {
        mem := mem[bp := mem[bp].(ptr := mem[p].ptr)];
      }
      if p + mem[p].size == bp {
        mem := mem[p := Header(mem[bp].ptr, mem[p].size + mem[bp].size)];
      } else {
        mem := mem[p := mem[p].(ptr := bp)];
      }
    }

    /** Ask sbrk for at least nu units and free them.  Null: sbrk fails.  Allocated: where the units are. */
    method Morecore(nu: nat, sbrk: Option<int>) returns (r: Answer)
      requires Valid() && freep.Some? && nu > 0
      requires Gives(base, View(), sbrk, Max(nu, MORECORE))
      modifies this`mem, this`freep, this`free, this`live, this`own
      ensures r.Null? <==> sbrk.None?
      ensures r.Stray? <==> sbrk.Some? && SbrkArg(Max(nu, MORECORE)) <= 0
      ensures !r.Stray? ==> Valid() && freep.Some? && live == old(live) && Untouched(old(View()), View(), live)
      ensures r.Null? ==> View() == old(View()) && freep == old(freep)
      ensures r.Allocated? ==> r.p == sbrk.value && HasRoom(mem, free, nu)
                               && own.Keys == old(own).Keys + Units(sbrk.value, Max(nu, MORECORE))
    {
      hide LinkedAt, Owned, Coalesced, Follows, HeapOk, Grown, GrownMem, FreshUnits, Untouched, Units, SbrkArg;
      ghost var H := View();
      var n := Max(nu, MORECORE);
      if sbrk.None? {
        UntouchedSame(H, H.live);
        return Null;
      }
      if SbrkArg(n) <= 0 {
        return Stray;
      }
      var a := sbrk.value;
      GrownOk(base, H, a, n);
      GrownFields(base, H, a, n);
      mem := GrownMem(mem, a, n);
      live, own := Grown(H, a, n).live, Grown(H, a, n).own;
      assert View() == Grown(H, a, n);
      Free(a);
      UntouchedTrans(H, Grown(H, a, n), View(), H.live);
      return Allocated(a);
    }

    /** Hand out n units of block p, which follows prevp: all of it, or its tail. */
    method Take(prevp: int, p: int, n: nat) returns (h: int)
      requires Valid() && freep.Some? && prevp in free && p in free && mem[prevp].ptr == p && 0 < n <= mem[p].size
      modifies this`mem, this`freep, this`free, this`live, this`own
      ensures Valid() && freep == Some(prevp)
      ensures h !in old(live) && live == old(live) + {h} && own.Keys == old(own).Keys
      ensures h in mem && mem[h].size == n
      ensures Untouched(old(View()), View(), old(live))
    {
      hide LinkedAt, Owned, Coalesced, Follows, Untouched, SplitOwn;
      ghost var H := View();
      NotBase(base, H, p);
      if mem[p].size == n {
        TakeWholeOk(base, H, prevp, p);
        WholeUntouched(base, H, prevp, p);
        mem := mem[prevp := mem[prevp].(ptr := mem[p].ptr)];
        free, live := free - {p}, live + {p};
        h := p;
      } else {
        TakeTailOk(base, H, p, n);
        TailUntouched(base, H, p, n);
        mem := mem[p := mem[p].(size := mem[p].size - n)];
        h := p + mem[p].size;
        mem := mem[h := mem[h].(size := n)];
        live, own := live + {h}, SplitOwn(own, p, h);
      }
      freep := Some(prevp);
    }

    /** Allocate nbytes; sbrk is what the system would answer to a request for more. */
    method Malloc(nbytes: nat, sbrk: Option<int>) returns (r: Answer, ghost calls: nat)
      requires Valid() && nbytes < 0x1_0000_0000
      requires Gives(base, View(), sbrk, Asked(nbytes))
      modifies this`mem, this`freep, this`free, this`live, this`own
      ensures calls == if HasRoom(old(mem), old(free), NUnits(nbytes)) then 0 else 1
      ensures r.Null? <==> calls == 1 && sbrk.None?
      ensures r.Stray? <==> calls == 1 && sbrk.Some? && 0x7FFF_FFF0 < nbytes <= 0xFFFF_FFF8
      ensures !r.Stray? ==> Valid() && freep.Some? && Untouched(old(View()), View(), old(live))
      ensures r.Null? ==> live == old(live)
      ensures r.Allocated? ==> r.p - 1 !in old(live) && live == old(live) + {r.p - 1}
                               && r.p - 1 in mem && mem[r.p - 1].size == NUnits(nbytes)
      // the caller gets a block that holds the request beside its header
      ensures r.Allocated? && r.p - 1 in mem && (mem[r.p - 1].size - 1) * 8 >= nbytes <==>
              if calls == 0 then nbytes <= 0xFFFF_FFF8 else sbrk.Some? && nbytes <= 0x7FFF_FFF0
      // and less than one unit more
      ensures r.Allocated? ==> (mem[r.p - 1].size - 1) * 8 < nbytes + 8
      ensures !r.Stray? ==>
                own.Keys == if calls == 1 && sbrk.Some?
                            then old(own).Keys + Units(sbrk.value, Max(NUnits(nbytes), 4096)) else old(own).Keys
    {
      hide LinkedAt, Owned, Coalesced, Follows, Untouched, Units, Arc, HasRoom, FreshUnits, HeapOk, Behind, SbrkArg;
      var nunits := NUnits(nbytes);
      AskedFor(nbytes);
      calls := 0;
      ghost var H0 := View();
      if freep.None? {
        mem := mem[base := Header(base, 0)];
        freep := Some(base);
        free := {base};
        FirstHeap(base, H0, View(), nunits, sbrk);
      } else {
        UntouchedSame(H0, live);
      }
      var prevp := freep.value;
      RingStep(base, View(), prevp);
      BehindStart(base, View(), prevp, nunits);
      var p := mem[prevp].ptr;
      while true
        invariant Valid() && freep.Some? && live == old(live)
        invariant prevp in free && p in free && prevp in mem && p in mem && mem[prevp].ptr == p
        invariant Behind(mem, free, p, freep.value, nunits)
        invariant calls <= 1 && (calls == 1 ==>
                                   HasRoom(mem, free, nunits) && !HasRoom(H0.mem, H0.free, nunits) && sbrk.Some?)
        invariant calls == 0 ==> (HasRoom(mem, free, nunits) <==> HasRoom(H0.mem, H0.free, nunits))
        invariant calls == 0 ==> Gives(base, View(), sbrk, Max(nunits, MORECORE))
        invariant calls == 1 ==> SbrkArg(Max(nunits, MORECORE)) > 0
        invariant own.Keys == if calls == 1 then H0.own.Keys + Units(sbrk.value, Max(nunits, MORECORE)) else H0.own.Keys
        invariant Untouched(H0, View(), live)
        decreases 1 - calls, |Arc(free, p, freep.value)|
      {
        ghost var H := View();
        if mem[p].size >= nunits {
          RoomAt(mem, free, p, nunits);
          var h := Take(prevp, p, nunits);
          UntouchedTrans(H0, H, View(), H.live);
          return Allocated(h + 1), calls;
        }
        if p == freep.value {
          BehindEnd(base, H, p, nunits);
          calls := calls + 1;
          var more := Morecore(nunits, sbrk);
          if more.Null? {
            return Null, calls;
          }
          if more.Stray? {
            return Stray, calls;
          }
          UntouchedTrans(H0, H, View(), H.live);
          p := freep.value;
          RingStep(base, View(), p);
          BehindStart(base, View(), p, nunits);
        } else {
          BehindOn(base, H, p, freep.value, nunits);
        }
        prevp := p;
        p := mem[p].ptr;
      }
    }
  }

  /** Units for nbytes and their header, in 32-bit arithmetic. */
  function NUnits(nbytes: nat): (n: nat)
    requires nbytes < 0x1_0000_0000
    ensures n >= 1 && ((n - 1) * 8 >= nbytes <==> nbytes <= 0xFFFF_FFF8) && (n - 1) * 8 < nbytes + 8
  {
    (nbytes + 8 - 1) % 0x1_0000_0000 / 8 + 1
  }

  /** Every free block not still ahead of the search is too small. */
  ghost predicate Behind(mem: Memory, free: set<int>, p: int, f: int, n: nat)
  {
    forall x :: x in free && x !in Arc(free, p, f) ==> x in mem && mem[x].size < n
  }

  lemma NotBase(base: int, H: Heap, p: int)
    requires HeapOk(base, H) && p in H.free && H.mem[p].size > 0
    ensures p != base && p !in H.live
  {
  }

  lemma RingStep(base: int, H: Heap, p: int)
    requires HeapOk(base, H) && p in H.free
    ensures p in H.mem && H.mem[p].ptr in H.free && H.mem[p].ptr in H.mem
  {
    assert LinkedAt(base, H.mem, H.free, p);
  }

  lemma BehindStart(base: int, H: Heap, f: int, n: nat)
    requires HeapOk(base, H) && f in H.free && f in H.mem
    ensures Behind(H.mem, H.free, H.mem[f].ptr, f, n)
  {
    hide Owned, Coalesced, Arc, LinkedAt;
    ArcWhole(base, H.mem, H.free, f);
  }

  lemma BehindOn(base: int, H: Heap, p: int, f: int, n: nat)
    requires HeapOk(base, H) && p in H.free && f in H.free && p != f && p in H.mem && H.mem[p].size < n
    requires Behind(H.mem, H.free, p, f, n)
    ensures H.mem[p].ptr in H.free && H.mem[p].ptr in H.mem
    ensures Behind(H.mem, H.free, H.mem[p].ptr, f, n)
    ensures |Arc(H.free, H.mem[p].ptr, f)| < |Arc(H.free, p, f)|
  {
    hide Owned, Coalesced, Arc, LinkedAt;
    ArcStep(base, H.mem, H.free, p, f);
  }

  lemma BehindEnd(base: int, H: Heap, f: int, n: nat)
    requires HeapOk(base, H) && f in H.free && f in H.mem && H.mem[f].size < n && Behind(H.mem, H.free, f, f, n)
    ensures !HasRoom(H.mem, H.free, n)
  {
    hide Owned, Coalesced, LinkedAt;
  }

  /** The first call of malloc starts from an empty ring. */
  lemma FirstHeap(base: int, H0: Heap, H: Heap, n: nat, sbrk: Option<int>)
    requires H0.free == {} && H0.live == {} && H0.own == map[] && H0.mem.Keys == {base} && n > 0
    requires H == Heap(H0.mem[base := Header(base, 0)], {base}, {}, map[])
    ensures HeapOk(base, H) && Untouched(H0, H, {})
    ensures !HasRoom(H.mem, H.free, n) && !HasRoom(H0.mem, H0.free, n)
    ensures Gives(base, H0, sbrk, Max(n, MORECORE)) ==> Gives(base, H, sbrk, Max(n, MORECORE))
  {
    assert LinkedAt(base, H.mem, H.free, base);
  }

  /** The system's answer to a request for n units: where it was asked to add memory and agrees, the memory is new. */
  ghost predicate Gives(base: int, H: Heap, sbrk: Option<int>, n: nat)
  {
    sbrk.Some? && SbrkArg(n) > 0 ==> FreshUnits(base, H, sbrk.value, n)
  }

  lemma RoomAt(mem: Memory, free: set<int>, x: int, n: nat)
    requires x in free && x in mem && mem[x].size >= n
    ensures HasRoom(mem, free, n)
  {
  }

  /** Some free block has at least n units. */
  ghost predicate HasRoom(mem: Memory, free: set<int>, n: nat)
  {
    exists x :: x in free && x in mem && mem[x].size >= n
  }

  lemma GrownFields(base: int, H: Heap, a: int, n: nat)
    requires HeapOk(base, H) && n > 0 && FreshUnits(base, H, a, n)
    ensures var H' := Grown(H, a, n);
            && H'.mem == GrownMem(H.mem, a, n)
            && H'.free == H.free && H'.live == H.live + {a} && a in H'.mem && H'.mem[a].size == n && a !in H.live
  {
    hide LinkedAt, Owned, Coalesced;
    GrownFresh(base, H, a, n);
    assert a in Units(a, n);
  }

  lemma FreedFacts(base: int, H: Heap, p: int, bp: int)
    requires HeapOk(base, H) && p in H.free && bp in H.live && Fits(H.mem, p, bp)
    ensures p in H.mem && bp in H.mem && H.mem[p].ptr in H.mem && p != bp
    ensures var H' := Freed(base, H, p, bp);
            && H'.mem == SecondStore(FirstStore(H.mem, p, bp), p, bp)
            && HeapOk(base, H') && p in H'.free
            && H'.live == H.live - {bp} && H'.own.Keys == H.own.Keys
            && Untouched(H, H', H'.live)
            && HasRoom(H'.mem, H'.free, H.mem[bp].size)
  {
    hide LinkedAt, Owned, Coalesced, Follows, Freed, Untouched, FirstStore, SecondStore;
    LiveFacts(base, H, bp);
    FreedMem(base, H, p, bp);
    FreedOk(base, H, p, bp);
    FreedUntouched(base, H, p, bp);
  }

  lemma LiveFacts(base: int, H: Heap, bp: int)
    requires HeapOk(base, H) && bp in H.live
    ensures bp in H.mem && bp !in H.free && bp > base && base in H.free
  {
  }

  /** The first store of free: bp takes p's successor, joined to it if they touch. */
  function FirstStore(mem: Memory, p: int, bp: int): Memory
    requires p in mem && bp in mem && mem[p].ptr in mem
  {
    if bp + mem[bp].size == mem[p].ptr
    then mem[bp := Header(mem[mem[p].ptr].ptr, mem[bp].size + mem[mem[p].ptr].size)]
    else mem[bp := mem[bp].(ptr := mem[p].ptr)]
  }

  /** The second: p takes bp for its successor, joined to it if they touch. */
  function SecondStore(mem: Memory, p: int, bp: int): Memory
    requires p in mem && bp in mem
  {
    if p + mem[p].size == bp then mem[p := Header(mem[bp].ptr, mem[p].size + mem[bp].size)]
    else mem[p := mem[p].(ptr := bp)]
  }

  lemma FirstStoreOf(base: int, H: Heap, p: int, bp: int)
    requires HeapOk(base, H) && p in H.free && bp in H.live && Fits(H.mem, p, bp)
    ensures bp in H.mem && H.mem[p].ptr in H.mem && H.mem[p].ptr in H.free
    ensures Joined(base, Inserted(H, p, bp), bp).mem == FirstStore(H.mem, p, bp)[p := H.mem[p].(ptr := bp)]
  {
    hide Owned, Coalesced, JoinOwn;
    LiveFacts(base, H, bp);
    assert LinkedAt(base, H.mem, H.free, p);
    var n := H.mem[p].ptr;
    var mem1 := Inserted(H, p, bp).mem;
    assert mem1[bp] == Header(n, H.mem[bp].size);
    if bp + H.mem[bp].size == n {
      assert mem1[n] == H.mem[n];
    }
  }

  lemma FreedMem(base: int, H: Heap, p: int, bp: int)
    requires HeapOk(base, H) && p in H.free && bp in H.live && Fits(H.mem, p, bp)
    ensures bp in H.mem && H.mem[p].ptr in H.mem && H.mem[p].ptr in H.free
    ensures Freed(base, H, p, bp).mem == SecondStore(FirstStore(H.mem, p, bp), p, bp)
  {
    hide Owned, Coalesced, JoinOwn, LinkedAt;
    LiveFacts(base, H, bp);
    FirstStoreOf(base, H, p, bp);
    hide Inserted;
  }
}
