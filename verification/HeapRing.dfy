/** umalloc.c: the free list as a ring of blocks in memory, and what inserting and joining blocks
    does to it.  Addresses count units of one header. */
module HeapRing {

  /** What a unit of memory holds when read as a header. */
  datatype Header = Header(ptr: int, size: nat)

  type Memory = map<int, Header>

  /** Unit c lies in the block that starts at h. */
  predicate In(mem: Memory, h: int, c: int)
  {
    h in mem && h <= c < h + mem[h].size
  }

  /** n follows h in the ring of free blocks: the next one up, or base after the last. */
  predicate Follows(base: int, free: set<int>, h: int, n: int)
  {
    && n in free
    && if h < n then forall x :: x in free ==> x <= h || n <= x
       else n == base && forall x :: x in free ==> x <= h
  }

  predicate LinkedAt(base: int, mem: Memory, free: set<int>, h: int)
  {
    h in mem && Follows(base, free, h, mem[h].ptr)
  }

  /** The free list: base (which is empty) and the free blocks above it, each linked to the next. */
  ghost predicate Ring(base: int, mem: Memory, free: set<int>)
  {
    && base in free && base in mem && mem[base].size == 0
    && (forall h :: h in free ==> base <= h && h in mem)
    && (forall h :: h in free && h != base ==> mem[h].size > 0)
    && (forall h {:trigger LinkedAt(base, mem, free, h)} :: h in free ==> LinkedAt(base, mem, free, h))
  }

  /** own names, for each unit obtained from sbrk, the one block, free or live, that it lies in. */
  ghost predicate Owned(base: int, mem: Memory, free: set<int>, live: set<int>, own: map<int, int>)
  {
    && (forall c :: c in own ==> c in mem && (own[c] in free || own[c] in live) && In(mem, own[c], c))
    && (forall h, c :: (h in free || h in live) && In(mem, h, c) ==> c in own && own[c] == h)
    && (forall h :: h in live ==> h in mem && h !in free && h > base && mem[h].size > 0)
  }

  /** The heap: memory, the free blocks, the live ones, and which block each unit lies in. */
  datatype Heap = Heap(mem: Memory, free: set<int>, live: set<int>, own: map<int, int>)

  /** No two free blocks touch, except perhaps those in `but` and their successors. */
  ghost predicate Coalesced(base: int, mem: Memory, free: set<int>, but: set<int>)
  {
    forall h :: h in free && h in mem && h != base && h !in but ==> h + mem[h].size != mem[h].ptr
  }

  ghost predicate HeapOk(base: int, H: Heap)
  {
    Ring(base, H.mem, H.free) && Owned(base, H.mem, H.free, H.live, H.own) && Coalesced(base, H.mem, H.free, {})
  }

  // ---------------------------------------------------------------- inserting a block

  function InsertMem(mem: Memory, p: int, bp: int): Memory
    requires p in mem && bp in mem
  {
    mem[bp := mem[bp].(ptr := mem[p].ptr)][p := mem[p].(ptr := bp)]
  }

  lemma InsertMemAt(mem: Memory, p: int, bp: int, h: int)
    requires p in mem && bp in mem && p != bp
    ensures h in InsertMem(mem, p, bp) <==> h in mem
    ensures h in mem ==> InsertMem(mem, p, bp)[h] ==
                           Header(if h == p then bp else if h == bp then mem[p].ptr else mem[h].ptr, mem[h].size)
  {
  }

  /** bp belongs right after p. */
  predicate Fits(mem: Memory, p: int, bp: int)
  {
    p in mem && p < bp && (bp < mem[p].ptr || mem[p].ptr <= p)
  }

  lemma InsertRing(base: int, mem: Memory, free: set<int>, p: int, bp: int)
    requires Ring(base, mem, free) && p in free && bp in mem && bp !in free && mem[bp].size > 0 && Fits(mem, p, bp)
    ensures Ring(base, InsertMem(mem, p, bp), free + {bp})
  {
    hide InsertMem;
    var mem', free' := InsertMem(mem, p, bp), free + {bp};
    assert LinkedAt(base, mem, free, p);
    InsertMemAt(mem, p, bp, base);
    forall h | h in free'
      ensures base <= h && h in mem' && (h != base ==> mem'[h].size > 0) && LinkedAt(base, mem', free', h)
    {
      InsertMemAt(mem, p, bp, h);
      if h != bp && h != p {
        assert LinkedAt(base, mem, free, h);
      }
    }
  }

  lemma InsertOwned(base: int, mem: Memory, free: set<int>, live: set<int>, own: map<int, int>, p: int, bp: int)
    requires p in mem && Owned(base, mem, free, live, own) && p in free && bp in live
    ensures Owned(base, InsertMem(mem, p, bp), free + {bp}, live - {bp}, own)
  {
    hide InsertMem;
    var mem' := InsertMem(mem, p, bp);
    forall h, c
      ensures In(mem', h, c) <==> In(mem, h, c)
    {
      InsertMemAt(mem, p, bp, h);
    }
    forall h
      ensures h in mem <==> h in mem'
      ensures h in mem ==> mem'[h].size == mem[h].size
    {
      InsertMemAt(mem, p, bp, h);
    }
  }

  // ---------------------------------------------------------------- joining two blocks

  /** Absorb the block after q into q. */
  function JoinMem(mem: Memory, q: int): Memory
    requires q in mem && mem[q].ptr in mem
  {
    var n := mem[q].ptr;
    mem[q := Header(mem[n].ptr, mem[q].size + mem[n].size)]
  }

  function JoinOwn(own: map<int, int>, q: int, n: int): map<int, int>
  {
    map c | c in own :: if own[c] == n then q else own[c]
  }

  lemma JoinRing(base: int, mem: Memory, free: set<int>, q: int)
    requires Ring(base, mem, free) && q in free && q != base && q + mem[q].size == mem[q].ptr
    ensures mem[q].ptr in free
    ensures Ring(base, JoinMem(mem, q), free - {mem[q].ptr})
  {
    assert LinkedAt(base, mem, free, q);
    var n := mem[q].ptr;
    assert LinkedAt(base, mem, free, n);
    var mem', free' := JoinMem(mem, q), free - {n};
    forall h | h in free'
      ensures LinkedAt(base, mem', free', h)
    {
      if h != q {
        assert LinkedAt(base, mem, free, h);
      }
    }
  }

  lemma JoinOwned(base: int, mem: Memory, free: set<int>, live: set<int>, own: map<int, int>, q: int)
    requires Ring(base, mem, free) && Owned(base, mem, free, live, own)
    requires q in free && q != base && q + mem[q].size == mem[q].ptr
    ensures mem[q].ptr in free
    ensures Owned(base, JoinMem(mem, q), free - {mem[q].ptr}, live, JoinOwn(own, q, mem[q].ptr))
    ensures JoinOwn(own, q, mem[q].ptr).Keys == own.Keys
  {
    assert LinkedAt(base, mem, free, q);
    var n := mem[q].ptr;
    var mem', own' := JoinMem(mem, q), JoinOwn(own, q, n);
    forall h, c | (h in free - {n} || h in live) && In(mem', h, c)
      ensures c in own' && own'[c] == h
    {
      assert h != q ==> In(mem, h, c);
      assert h == q ==> In(mem, q, c) || In(mem, n, c);
    }
  }

  function Join(H: Heap, q: int): Heap
    requires q in H.mem && H.mem[q].ptr in H.mem
  {
    var n := H.mem[q].ptr;
    Heap(JoinMem(H.mem, q), H.free - {n}, H.live, JoinOwn(H.own, q, n))
  }

  // ---------------------------------------------------------------- free

  /** bp, linked in after p. */
  function Inserted(H: Heap, p: int, bp: int): Heap
    requires p in H.mem && bp in H.mem
  {
    Heap(InsertMem(H.mem, p, bp), H.free + {bp}, H.live - {bp}, H.own)
  }

  /** H without its block h touching the next. */
  function Joined(base: int, H: Heap, h: int): Heap
  {
    if h in H.mem && h != base && H.mem[h].ptr in H.mem && h + H.mem[h].size == H.mem[h].ptr then Join(H, h) else H
  }

  /** The heap after free of block bp, whose place is after p. */
  function Freed(base: int, H: Heap, p: int, bp: int): Heap
    requires p in H.mem && bp in H.mem
  {
    Joined(base, Joined(base, Inserted(H, p, bp), bp), p)
  }

  ghost predicate RingOwned(base: int, H: Heap)
  {
    Ring(base, H.mem, H.free) && Owned(base, H.mem, H.free, H.live, H.own)
  }

  lemma InsertKeeps(base: int, H: Heap, p: int, bp: int)
    requires RingOwned(base, H) && p in H.free && bp in H.live && Fits(H.mem, p, bp)
    ensures RingOwned(base, Inserted(H, p, bp))
  {
    hide LinkedAt, InsertMem;
    InsertRing(base, H.mem, H.free, p, bp);
    InsertOwned(base, H.mem, H.free, H.live, H.own, p, bp);
  }

  lemma JoinKeeps(base: int, H: Heap, h: int)
    requires RingOwned(base, H) && h in H.free
    ensures RingOwned(base, Joined(base, H, h))
    ensures Joined(base, H, h).own.Keys == H.own.Keys && Joined(base, H, h).live == H.live
  {
    hide LinkedAt, In, JoinMem, JoinOwn;
    if h != base && h + H.mem[h].size == H.mem[h].ptr {
      JoinRing(base, H.mem, H.free, h);
      JoinOwned(base, H.mem, H.free, H.live, H.own, h);
    }
  }

  lemma JoinedApart(base: int, H: Heap, h: int, but: set<int>)
    requires RingOwned(base, H) && h in H.free && Coalesced(base, H.mem, H.free, but + {h})
    requires h + H.mem[h].size == H.mem[h].ptr ==> H.mem[h].ptr !in but
    ensures var H' := Joined(base, H, h);
            && Coalesced(base, H'.mem, H'.free, but)
            && h in H'.free && h in H'.mem && H'.mem[h].size >= H.mem[h].size
            && (forall x :: x in H.mem ==> x in H'.mem && (x != h ==> H'.mem[x] == H.mem[x]))
            && (forall x :: x in H.free && x <= h ==> x in H'.free)
            && H.mem[h].ptr in H.mem && (H.mem[h].ptr in H'.free || H'.mem[h].size >= H.mem[H.mem[h].ptr].size)
  {
    hide JoinOwn, Owned;
    assert LinkedAt(base, H.mem, H.free, h);
  }

  /** free keeps the heap: one ordered ring, fully coalesced, every unit in exactly one block. */
  lemma FreedOk(base: int, H: Heap, p: int, bp: int)
    requires HeapOk(base, H) && p in H.free && bp in H.live && Fits(H.mem, p, bp)
    ensures HeapOk(base, Freed(base, H, p, bp))
    ensures Freed(base, H, p, bp).live == H.live - {bp} && Freed(base, H, p, bp).own.Keys == H.own.Keys
    ensures p in Freed(base, H, p, bp).free
    ensures exists x :: x in Freed(base, H, p, bp).free && x in Freed(base, H, p, bp).mem
                        && Freed(base, H, p, bp).mem[x].size >= H.mem[bp].size
    ensures forall x :: x in H.mem && x != p && x != bp ==>
              x in Freed(base, H, p, bp).mem && Freed(base, H, p, bp).mem[x] == H.mem[x]
  {
    hide LinkedAt, Owned, InsertMem, JoinMem, Joined, Coalesced;
    InsertFacts(base, H, p, bp);
    var H1 := Inserted(H, p, bp);
    InsertKeeps(base, H, p, bp);
    var H2 := Joined(base, H1, bp);
    JoinKeeps(base, H1, bp);
    JoinedApart(base, H1, bp, {p});
    var H3 := Joined(base, H2, p);
    JoinKeeps(base, H2, p);
    assert {} + {p} == {p};
    JoinedApart(base, H2, p, {});
    assert (bp in H3.free && H3.mem[bp].size >= H.mem[bp].size) || H3.mem[p].size >= H.mem[bp].size;
  }

  lemma InsertFacts(base: int, H: Heap, p: int, bp: int)
    requires HeapOk(base, H) && p in H.free && bp in H.live && Fits(H.mem, p, bp)
    ensures p in H.mem && bp in H.mem && H.mem[bp].size > 0
    ensures bp + H.mem[bp].size == H.mem[p].ptr ==> H.mem[p].ptr != p
    ensures var H1 := Inserted(H, p, bp);
            && H1.mem[p].ptr == bp && H1.mem[bp] == Header(H.mem[p].ptr, H.mem[bp].size)
            && Coalesced(base, H1.mem, H1.free, {p} + {bp})
            && (forall x :: x in H.mem ==> x in H1.mem && (x != p && x != bp ==> H1.mem[x] == H.mem[x]))
  {
    hide LinkedAt, In;
  }

  // ---------------------------------------------------------------- malloc

  /** Unlink block p, which follows prevp, and hand it out whole. */
  function TakeWhole(H: Heap, prevp: int, p: int): Heap
    requires prevp in H.mem && p in H.mem
  {
    Heap(H.mem[prevp := H.mem[prevp].(ptr := H.mem[p].ptr)], H.free - {p}, H.live + {p}, H.own)
  }

  /** Blocks do not overlap. */
  lemma NoOverlap(base: int, H: Heap, a: int, b: int)
    requires RingOwned(base, H) && (a in H.free || a in H.live) && (b in H.free || b in H.live) && base <= a < b
    ensures a in H.mem && a + H.mem[a].size <= b
  {
    hide LinkedAt;
    assert In(H.mem, b, b);
    assert b < a + H.mem[a].size ==> In(H.mem, a, b);
  }

  /** No free block ends where another begins: free memory lies in blocks as large as they can be. */
  lemma NoNeighbours(base: int, H: Heap, a: int, b: int)
    requires HeapOk(base, H) && a in H.free && b in H.free && a in H.mem && H.mem[a].size > 0
    ensures a + H.mem[a].size != b
  {
    assert LinkedAt(base, H.mem, H.free, a);
    if a < b && H.mem[a].ptr < b {
      NoOverlap(base, H, a, H.mem[a].ptr);
    }
  }

  lemma TakeWholeOk(base: int, H: Heap, prevp: int, p: int)
    requires HeapOk(base, H) && prevp in H.free && p in H.free && p != base && H.mem[prevp].ptr == p
    ensures HeapOk(base, TakeWhole(H, prevp, p)) && prevp in TakeWhole(H, prevp, p).free
  {
    hide LinkedAt, Owned;
    WholeOrder(base, H, prevp, p);
    TakeWholeRing(base, H, prevp, p);
    TakeWholeOwned(base, H, prevp, p);
  }

  lemma WholeOrder(base: int, H: Heap, prevp: int, p: int)
    requires HeapOk(base, H) && prevp in H.free && p in H.free && p != base && H.mem[prevp].ptr == p
    ensures prevp < p && prevp + H.mem[prevp].size < p && (p < H.mem[p].ptr || H.mem[p].ptr == base || prevp == base)
  {
    assert LinkedAt(base, H.mem, H.free, prevp);
    assert LinkedAt(base, H.mem, H.free, p);
    NoOverlap(base, H, prevp, p);
  }

  lemma TakeWholeRing(base: int, H: Heap, prevp: int, p: int)
    requires Ring(base, H.mem, H.free) && prevp in H.free && p in H.free && p != base && H.mem[prevp].ptr == p
    ensures Ring(base, TakeWhole(H, prevp, p).mem, TakeWhole(H, prevp, p).free)
  {
    var H' := TakeWhole(H, prevp, p);
    assert LinkedAt(base, H.mem, H.free, prevp);
    assert LinkedAt(base, H.mem, H.free, p);
    forall h | h in H'.free
      ensures LinkedAt(base, H'.mem, H'.free, h)
    {
      assert LinkedAt(base, H.mem, H.free, h);
    }
  }

  lemma TakeWholeOwned(base: int, H: Heap, prevp: int, p: int)
    requires Ring(base, H.mem, H.free) && Owned(base, H.mem, H.free, H.live, H.own)
    requires prevp in H.free && p in H.free && p != base
    ensures Owned(base, TakeWhole(H, prevp, p).mem, H.free - {p}, H.live + {p}, H.own)
  {
    hide LinkedAt;
    var mem' := TakeWhole(H, prevp, p).mem;
    forall h, c
      ensures In(mem', h, c) <==> In(H.mem, h, c)
    {
    }
  }

  /** Hand out the last n units of block p. */
  function TakeTail(H: Heap, p: int, n: nat): Heap
    requires p in H.mem && n < H.mem[p].size && p + H.mem[p].size - n in H.mem
  {
    var q := p + H.mem[p].size - n;
    Heap(H.mem[p := H.mem[p].(size := H.mem[p].size - n)][q := H.mem[q].(size := n)],
         H.free, H.live + {q}, SplitOwn(H.own, p, q))
  }

  function SplitOwn(own: map<int, int>, p: int, q: int): map<int, int>
  {
    map c | c in own :: if own[c] == p && c >= q then q else own[c]
  }

  lemma TakeTailAt(H: Heap, p: int, n: nat, h: int)
    requires p in H.mem && 0 < n < H.mem[p].size && p + H.mem[p].size - n in H.mem
    ensures var q := p + H.mem[p].size - n;
            var mem' := TakeTail(H, p, n).mem;
            && (h in mem' <==> h in H.mem)
            && (h in H.mem ==> mem'[h] == Header(H.mem[h].ptr, if h == p then H.mem[p].size - n else if h == q then n
                                                 else H.mem[h].size))
  {
  }

  lemma TakeTailOk(base: int, H: Heap, p: int, n: nat)
    requires HeapOk(base, H) && p in H.free && 0 < n < H.mem[p].size
    ensures p + H.mem[p].size - n in H.mem
    ensures HeapOk(base, TakeTail(H, p, n)) && TakeTail(H, p, n).own.Keys == H.own.Keys
    ensures p + H.mem[p].size - n !in H.live && p + H.mem[p].size - n !in H.free
  {
    hide LinkedAt, Owned, In;
    TailUnused(base, H, p, p + H.mem[p].size - n);
    TakeTailRing(base, H, p, n);
    TakeTailOwned(base, H, p, n);
  }

  lemma TailUnused(base: int, H: Heap, p: int, q: int)
    requires HeapOk(base, H) && p in H.free && p < q < p + H.mem[p].size
    ensures q in H.mem && q !in H.live && q !in H.free && q > base
  {
    hide LinkedAt;
    assert In(H.mem, p, q);
    assert q in H.live || q in H.free ==> In(H.mem, q, q);
  }

  lemma TakeTailRing(base: int, H: Heap, p: int, n: nat)
    requires HeapOk(base, H) && p in H.free && 0 < n < H.mem[p].size && p + H.mem[p].size - n in H.mem
    requires p + H.mem[p].size - n !in H.free
    ensures Ring(base, TakeTail(H, p, n).mem, H.free) && Coalesced(base, TakeTail(H, p, n).mem, H.free, {})
  {
    hide Owned, TakeTail;
    var mem' := TakeTail(H, p, n).mem;
    TailBelow(base, H, p);
    forall h | h in H.free
      ensures h in mem' && (h != base ==> mem'[h].size > 0) && LinkedAt(base, mem', H.free, h)
      ensures h != base ==> h + mem'[h].size != mem'[h].ptr
    {
      TakeTailAt(H, p, n, h);
      assert LinkedAt(base, H.mem, H.free, h);
    }
    TakeTailAt(H, p, n, base);
  }

  lemma TailBelow(base: int, H: Heap, p: int)
    requires HeapOk(base, H) && p in H.free && p != base
    ensures p + H.mem[p].size <= H.mem[p].ptr || H.mem[p].ptr == base
  {
    assert LinkedAt(base, H.mem, H.free, p);
    if p < H.mem[p].ptr {
      NoOverlap(base, H, p, H.mem[p].ptr);
    }
  }

  lemma TakeTailOwned(base: int, H: Heap, p: int, n: nat)
    requires HeapOk(base, H) && p in H.free && 0 < n < H.mem[p].size && p + H.mem[p].size - n in H.mem
    requires p + H.mem[p].size - n !in H.free && p + H.mem[p].size - n !in H.live
    ensures var H' := TakeTail(H, p, n); Owned(base, H'.mem, H'.free, H'.live, H'.own)
  {
    hide LinkedAt, TakeTail;
    var H' := TakeTail(H, p, n);
    var q := p + H.mem[p].size - n;
    TailFields(H, p, n);
    forall h | h in H.free || h in H.live || h == q
      ensures h in H'.mem && H'.mem[h].size == if h == p then H.mem[p].size - n else if h == q then n else H.mem[h].size
    {
      TakeTailAt(H, p, n, h);
    }
    forall c | c in H.own
      ensures c in H'.mem && (H'.own[c] in H.free || H'.own[c] in H'.live) && In(H'.mem, H'.own[c], c)
    {
      TakeTailAt(H, p, n, c);
    }
    forall h, c | (h in H.free || h in H'.live) && In(H'.mem, h, c)
      ensures c in H'.own && H'.own[c] == h
    {
      assert h != q ==> In(H.mem, h, c);
      assert h == q ==> In(H.mem, p, c);
    }
  }

  lemma TailFields(H: Heap, p: int, n: nat)
    requires p in H.mem && 0 < n < H.mem[p].size && p + H.mem[p].size - n in H.mem
    ensures var q := p + H.mem[p].size - n;
            var H' := TakeTail(H, p, n);
            H'.free == H.free && H'.live == H.live + {q} && H'.own == SplitOwn(H.own, p, q)
  {
  }

  /** Conservation: the units obtained from sbrk are exactly those of the free and live blocks, and
      each lies in just one block. */
  lemma EachUnitOnce(base: int, H: Heap)
    requires HeapOk(base, H)
    ensures forall c :: c in H.own <==> exists h :: (h in H.free || h in H.live) && In(H.mem, h, c)
    ensures forall h, h', c :: ((h in H.free || h in H.live) && (h' in H.free || h' in H.live)
                                && In(H.mem, h, c) && In(H.mem, h', c)) ==> h == h'
  {
    hide LinkedAt, Coalesced, In;
    forall c | c in H.own
      ensures exists h :: (h in H.free || h in H.live) && In(H.mem, h, c)
    {
      assert In(H.mem, H.own[c], c);
    }
  }
}
