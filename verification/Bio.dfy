/** bio.c over the disk driver's contract: the buffer cache.  Each method is one section under
    bcache.lock or under a buffer's sleep lock, so any interleaving of processes is a sequence of
    calls, and what every method keeps holds in every interleaving. */
module Bio {
  import opened Wrappers
  import opened Blocks
  import opened LruList

  const ROOTDEV := 1

  datatype Buf = Buf(dev: nat, blockno: nat, valid: bool, dirty: bool, refcnt: nat, holder: Option<nat>, data: Block)

  /** Who holds references to a buffer, and whether its holder changed data not yet handed to
      log_write or bwrite. */
  datatype Use = Use(refs: multiset<nat>, edited: bool)

  /** `latest` is what was last stored in each block through any buffer. */
  datatype Cache = Cache(bufs: seq<Buf>, uses: seq<Use>, disk: seq<Block>, latest: seq<Block>)

  predicate Caches(b: Buf, blockno: nat) { b.dev == ROOTDEV && b.blockno == blockno }

  predicate BufOk(c: Cache, x: nat)
  {
    x < |c.bufs| == |c.uses| &&
    var b, u := c.bufs[x], c.uses[x];
    && b.refcnt == |u.refs|
    && (b.holder.Some? ==> b.holder.value in u.refs)
    && (u.edited ==> b.holder.Some? && b.valid)
    && (b.dirty ==> b.valid)
    && (b.valid ==> b.dev == ROOTDEV && b.blockno < |c.latest| && b.data == c.latest[b.blockno])
  }

  /** Buffer x holds data for block n that the disk lacks. */
  predicate Ahead(c: Cache, x: nat, n: nat)
  {
    x < |c.bufs| == |c.uses| && Caches(c.bufs[x], n) && (c.bufs[x].dirty || c.uses[x].edited)
  }

  /** At most one buffer caches a block; a valid buffer holds the latest data of its block; a block
      that no dirty or edited buffer holds is up to date on disk. */
  ghost predicate CacheOk(c: Cache)
  {
    && |c.bufs| == |c.uses| && |c.disk| == |c.latest|
    && (forall x: nat {:trigger BufOk(c, x)} :: x < |c.bufs| ==> BufOk(c, x))
    && (forall x: nat, y: nat :: x < y < |c.bufs| && c.bufs[x].dev == ROOTDEV ==> !Caches(c.bufs[y], c.bufs[x].blockno))
    && (forall n: nat :: n < |c.disk| && c.disk[n] != c.latest[n] ==> exists x: nat :: Ahead(c, x, n))
  }

  /** Only buffer x changed, and of the blocks only the one it caches now. */
  predicate OnlyAt(c: Cache, c': Cache, x: nat)
  {
    && x < |c.bufs| == |c'.bufs| == |c.uses| == |c'.uses|
    && |c.disk| == |c'.disk| == |c.latest| == |c'.latest|
    && (forall y: nat :: y < |c.bufs| && y != x ==> c'.bufs[y] == c.bufs[y] && c'.uses[y] == c.uses[y])
    && (forall n: nat :: n < |c.disk| && !Caches(c'.bufs[x], n) ==>
          c'.disk[n] == c.disk[n] && c'.latest[n] == c.latest[n])
  }

  /** What a change of one buffer owes the others: it stays the only buffer of its block, and if it
      was ahead of the disk it still is, or the disk caught up. */
  lemma OneChange(c: Cache, c': Cache, x: nat)
    requires CacheOk(c) && OnlyAt(c, c', x) && BufOk(c', x)
    requires c'.bufs[x].dev == ROOTDEV ==> forall y: nat :: y < |c.bufs| && y != x ==>
               !Caches(c.bufs[y], c'.bufs[x].blockno)
    requires forall n: nat :: n < |c.disk| && Ahead(c, x, n) ==> Ahead(c', x, n) || c'.disk[n] == c'.latest[n]
    requires forall n: nat :: n < |c.disk| && Caches(c'.bufs[x], n) ==>
               Ahead(c', x, n) || c'.disk[n] == c'.latest[n] || (c'.disk[n] == c.disk[n] && c'.latest[n] == c.latest[n])
    ensures CacheOk(c')
  {
    forall y: nat | y < |c'.bufs|
      ensures BufOk(c', y)
    {
      assert BufOk(c, y);
      assert y != x && c.bufs[y].valid ==> !Caches(c'.bufs[x], c.bufs[y].blockno);
    }
    forall n: nat | n < |c'.disk| && c'.disk[n] != c'.latest[n]
      ensures exists y: nat :: Ahead(c', y, n)
    {
      if !Ahead(c', x, n) {
        var y: nat :| Ahead(c, y, n);
        assert Ahead(c', y, n);
      }
    }
  }

  /** The buffers before b in the list: all of them, if b is the head reached again. */
  ghost function Front(rank: seq<int>, b: nat): set<nat>
  {
    set y: nat | y < |rank| && (b < |rank| ==> rank[y] < rank[b])
  }

  ghost function Back(rank: seq<int>, b: nat): set<nat>
  {
    set y: nat | y < |rank| && (b < |rank| ==> rank[y] > rank[b])
  }

  /** Following next passes the buffers one at a time. */
  lemma NextStep(l: List, rank: seq<int>, b: nat)
    requires ListOk(l, rank) && b <= |rank|
    ensures |l.next| == |rank| + 1 && l.next[b] <= |rank|
    ensures Front(rank, l.next[b]) == if b == |rank| then {} else Front(rank, b) + {b}
    ensures b < |rank| ==> b !in Front(rank, b) && b in Front(rank, |rank|)
  {
    assert NodeOk(l, rank, b);
    var m := l.next[b];
    forall y: nat | y < |rank|
      ensures y in Front(rank, m) <==> b < |rank| && (y in Front(rank, b) || y == b)
    {
      assert Less(rank, b, y) <==> !(b < |rank| && (y in Front(rank, b) || y == b));
    }
  }

  /** Following prev passes them in the opposite order. */
  lemma PrevStep(l: List, rank: seq<int>, b: nat)
    requires ListOk(l, rank) && b <= |rank|
    ensures |l.prev| == |rank| + 1 && l.prev[b] <= |rank|
    ensures Back(rank, l.prev[b]) == if b == |rank| then {} else Back(rank, b) + {b}
    ensures b < |rank| ==> b !in Back(rank, b) && b in Back(rank, |rank|)
  {
    assert NodeOk(l, rank, b);
    var m := l.prev[b];
    assert NodeOk(l, rank, m);
    forall y: nat | y < |rank|
      ensures y in Back(rank, m) <==> b < |rank| && (y in Back(rank, b) || y == b)
    {
      assert Less(rank, m, y) <==> y in Back(rank, m);
    }
  }

  class Bcache {
    var bufs: seq<Buf>
    var list: List
    var disk: seq<Block>
    ghost var rank: seq<int>
    ghost var uses: seq<Use>
    ghost var latest: seq<Block>

    ghost function Now(): Cache
      reads this
    {
      Cache(bufs, uses, disk, latest)
    }

    ghost predicate Valid()
      reads this
    {
      |rank| == |bufs| && ListOk(list, rank) && CacheOk(Now())
    }

    /** binit: push each buffer in front of those before it. */
    constructor (nbuf: nat, disk: seq<Block>)
      ensures Valid() && |bufs| == nbuf && this.disk == disk && latest == disk
      ensures forall x :: 0 <= x < nbuf ==> bufs[x].refcnt == 0 && !bufs[x].dirty && !bufs[x].valid
    {
      var next := seq(nbuf + 1, _ => nbuf);
      var prev := seq(nbuf + 1, _ => nbuf);
      var b := 0;
      while b < nbuf
        invariant 0 <= b <= nbuf && |next| == |prev| == nbuf + 1
        invariant forall x :: 0 <= x < b ==> next[x] == if x == 0 then nbuf else x - 1
        invariant forall x :: 0 <= x < b ==> prev[x] == if x == b - 1 then nbuf else x + 1
        invariant next[nbuf] == (if b == 0 then nbuf else b - 1) && prev[nbuf] == (if b == 0 then nbuf else 0)
      {
        next := next[b := next[nbuf]];
        prev := prev[b := nbuf];
        prev := prev[next[nbuf] := b];
        next := next[nbuf := b];
        b := b + 1;
      }
      FreshOk(List(next, prev), nbuf);
      list := List(next, prev);
      rank := FreshRank(nbuf);
      bufs := seq(nbuf, _ => Buf(0, 0, false, false, 0, None, ZeroBlock()));
      uses := seq(nbuf, _ => Use(multiset{}, false));
      this.disk := disk;
      latest := disk;
    }

    /** bget up to its sleep lock: process p takes a reference to the buffer of a block, recycling the
        least recently used free buffer if none caches it.  None: panic, no buffers. */
    method Bget(p: nat, blockno: nat) returns (r: Option<nat>)
      requires Valid()
      modifies this`bufs, this`uses
      ensures Valid()
      ensures r.None? ==> bufs == old(bufs) && uses == old(uses)
      // it fails exactly if every buffer is in use or dirty, and none is the block's
      ensures r.None? <==>
              forall x :: 0 <= x < |old(bufs)| ==>
                && (old(bufs)[x].refcnt > 0 || old(bufs)[x].dirty)
                && !(old(bufs)[x].dev == ROOTDEV && old(bufs)[x].blockno == blockno)
      ensures r.Some? ==>
                && r.value < |bufs| == |old(bufs)| == |uses| == |old(uses)|
                && bufs == old(bufs)[r.value := bufs[r.value]] && uses == old(uses)[r.value := uses[r.value]]
      // a cached block is found where it is, with its contents
      ensures r.Some? && old(bufs)[r.value].dev == ROOTDEV && old(bufs)[r.value].blockno == blockno ==>
                && bufs[r.value] == old(bufs)[r.value].(refcnt := old(bufs)[r.value].refcnt + 1)
                && uses[r.value] == old(uses)[r.value].(refs := old(uses)[r.value].refs + multiset{p})
      // otherwise no buffer was the block's, and the victim was the last clean one in the list that nobody used
      ensures r.Some? && !(old(bufs)[r.value].dev == ROOTDEV && old(bufs)[r.value].blockno == blockno) ==>
                && old(bufs)[r.value].refcnt == 0 && !old(bufs)[r.value].dirty
                && bufs[r.value] == old(bufs)[r.value].(dev := ROOTDEV, blockno := blockno, valid := false, refcnt := 1)
                && uses[r.value] == Use(multiset{p}, false)
                && (forall x :: 0 <= x < |bufs| ==> !(old(bufs)[x].dev == ROOTDEV && old(bufs)[x].blockno == blockno))
                && (forall x :: 0 <= x < |bufs| && old(bufs)[x].refcnt == 0 && !old(bufs)[x].dirty ==>
                      rank[x] <= rank[r.value])
    {
      hide ListOk, BufOk, Front, Back, FreshRank;
      Covered(rank);
      var h := |bufs|;
      NextStep(list, rank, h);
      var b: nat := list.next[h];
      while b != h
        invariant b <= h == |bufs| && bufs == old(bufs) && uses == old(uses)
        invariant forall x: nat :: x in Front(rank, b) ==> !Caches(bufs[x], blockno)
        decreases Front(rank, h) - Front(rank, b)
      {
        if bufs[b].dev == ROOTDEV && bufs[b].blockno == blockno {
          TakeRef(Now(), b, p);
          bufs := bufs[b := bufs[b].(refcnt := bufs[b].refcnt + 1)];
          uses := uses[b := uses[b].(refs := uses[b].refs + multiset{p})];
          return Some(b);
        }
        NextStep(list, rank, b);
        b := list.next[b];
      }
      PrevStep(list, rank, h);
      b := list.prev[h];
      while b != h
        invariant b <= h == |bufs| && bufs == old(bufs) && uses == old(uses)
        invariant forall x: nat :: x in Back(rank, b) ==> bufs[x].refcnt > 0 || bufs[x].dirty
        decreases Back(rank, h) - Back(rank, b)
      {
        if bufs[b].refcnt == 0 && !bufs[b].dirty {
          Recycle(Now(), b, p, blockno);
          bufs := bufs[b := bufs[b].(dev := ROOTDEV, blockno := blockno, valid := false, dirty := false, refcnt := 1)];
          uses := uses[b := Use(multiset{p}, false)];
          return Some(b);
        }
        PrevStep(list, rank, b);
        b := list.prev[b];
      }
      return None;
    }

    /** The end of bget: p's acquiresleep gets the free sleep lock of a buffer it refers to. */
    method Lock(p: nat, x: nat)
      requires Valid() && x < |bufs| && p in uses[x].refs && bufs[x].holder.None?
      modifies this`bufs
      ensures Valid() && bufs == old(bufs)[x := old(bufs)[x].(holder := Some(p))]
    {
      ghost var c := Now();
      assert BufOk(c, x);
      bufs := bufs[x := bufs[x].(holder := Some(p))];
      OneChange(c, Now(), x);
    }

    /** iderw: write a dirty buffer, or read an invalid one.  False: panic. */
    method Iderw(p: nat, x: nat) returns (ok: bool)
      requires Valid() && x < |bufs|
      modifies this`bufs, this`disk, this`uses
      ensures Valid() && OnlyAt(old(Now()), Now(), x)
      ensures ok <==> old(bufs)[x].holder == Some(p) && (!old(bufs)[x].valid || old(bufs)[x].dirty)
                      && old(bufs)[x].dev == ROOTDEV && old(bufs)[x].blockno < |old(disk)|
      ensures !ok ==> Now() == old(Now())
      ensures ok ==> |bufs| == |old(bufs)| && bufs[x].valid && bufs[x].blockno < |latest|
                     && bufs[x].data == latest[bufs[x].blockno]
                     && bufs[x] == old(bufs)[x].(valid := true, dirty := false, data := bufs[x].data)
      ensures ok && !old(bufs)[x].dirty ==> disk == old(disk)
      ensures ok ==> |disk| == |latest| && disk[bufs[x].blockno] == latest[bufs[x].blockno]
    {
      ghost var c := Now();
      assert BufOk(c, x);
      var b := bufs[x];
      if b.holder != Some(p) || (b.valid && !b.dirty) || b.dev != ROOTDEV || b.blockno >= |disk| {
        return false;
      }
      if b.dirty {
        disk := disk[b.blockno := b.data];
        bufs := bufs[x := b.(valid := true, dirty := false)];
        uses := uses[x := uses[x].(edited := false)];
      } else {
        UpToDate(c, x);
        bufs := bufs[x := b.(valid := true, data := disk[b.blockno])];
      }
      OneChange(c, Now(), x);
      ok := true;
    }

    /** bread after bget: the holder gets the block's latest data, cached or not.  False: panic. */
    method Bread(p: nat, x: nat) returns (ok: bool)
      requires Valid() && x < |bufs| && bufs[x].holder == Some(p) && bufs[x].dev == ROOTDEV
      modifies this`bufs, this`disk, this`uses
      ensures Valid() && OnlyAt(old(Now()), Now(), x) && disk == old(disk)
      ensures ok <==> old(bufs)[x].blockno < |disk|
      ensures ok ==> |bufs| == |old(bufs)| && bufs[x].valid && bufs[x].data == latest[old(bufs)[x].blockno]
                     && bufs[x] == old(bufs)[x].(valid := true, data := bufs[x].data)
      ensures !ok ==> Now() == old(Now())
    {
      assert BufOk(Now(), x);
      if !bufs[x].valid {
        ok := Iderw(p, x);
      } else {
        ok := true;
      }
    }

    /** The holder changes the buffer's data. */
    method Store(p: nat, x: nat, data: Block)
      requires Valid() && x < |bufs| && bufs[x].holder == Some(p) && bufs[x].valid
      modifies this`bufs, this`uses, this`latest
      ensures Valid() && OnlyAt(old(Now()), Now(), x)
      ensures bufs == old(bufs)[x := old(bufs)[x].(data := data)]
      ensures old(bufs)[x].blockno < |latest| == |old(latest)| && latest[old(bufs)[x].blockno] == data
      ensures uses == old(uses)[x := old(uses)[x].(edited := true)]
    {
      ghost var c := Now();
      assert BufOk(c, x);
      bufs := bufs[x := bufs[x].(data := data)];
      uses := uses[x := uses[x].(edited := true)];
      latest := latest[bufs[x].blockno := data];
      assert Ahead(Now(), x, bufs[x].blockno);
      OneChange(c, Now(), x);
    }

    /** log_write's hold on the buffer: dirty, so that it stays cached until installed. */
    method Pin(p: nat, x: nat)
      requires Valid() && x < |bufs| && bufs[x].holder == Some(p) && bufs[x].valid
      modifies this`bufs, this`uses
      ensures Valid() && OnlyAt(old(Now()), Now(), x)
      ensures bufs == old(bufs)[x := old(bufs)[x].(dirty := true)]
      ensures uses == old(uses)[x := old(uses)[x].(edited := false)]
    {
      ghost var c := Now();
      assert BufOk(c, x);
      bufs := bufs[x := bufs[x].(dirty := true)];
      uses := uses[x := uses[x].(edited := false)];
      assert Ahead(Now(), x, bufs[x].blockno);
      OneChange(c, Now(), x);
    }

    /** bwrite: the disk gets the holder's data.  False: panic. */
    method Bwrite(p: nat, x: nat) returns (ok: bool)
      requires Valid() && x < |bufs| && bufs[x].valid
      modifies this`bufs, this`uses, this`disk
      ensures Valid() && OnlyAt(old(Now()), Now(), x)
      ensures ok <==> old(bufs)[x].holder == Some(p)
      ensures ok ==> bufs == old(bufs)[x := old(bufs)[x].(dirty := false)]
      ensures ok ==> old(bufs)[x].blockno < |old(disk)| && disk == old(disk)[old(bufs)[x].blockno := old(bufs)[x].data]
      ensures !ok ==> Now() == old(Now())
    {
      if bufs[x].holder != Some(p) {
        return false;
      }
      assert BufOk(Now(), x);
      Pin(p, x);
      ok := Iderw(p, x);
    }

    /** brelse's releasesleep, after any change was handed over.  False: panic. */
    method Unlock(p: nat, x: nat) returns (ok: bool)
      requires Valid() && x < |bufs|
      requires bufs[x].holder == Some(p) ==> !uses[x].edited
      modifies this`bufs
      ensures Valid() && (ok <==> old(bufs)[x].holder == Some(p))
      ensures bufs == if ok then old(bufs)[x := old(bufs)[x].(holder := None)] else old(bufs)
    {
      if bufs[x].holder != Some(p) {
        return false;
      }
      ghost var c := Now();
      assert BufOk(c, x);
      bufs := bufs[x := bufs[x].(holder := None)];
      OneChange(c, Now(), x);
      ok := true;
    }

    /** brelse's section under bcache.lock: drop p's reference; the last one moves the buffer to the
        front of the list and leaves the order of the others.  Another process may hold the buffer's
        sleep lock by now. */
    method Drop(p: nat, x: nat)
      requires Valid() && x < |bufs| && p in uses[x].refs && bufs[x].holder != Some(p)
      modifies this`bufs, this`uses, this`list, this`rank
      ensures Valid() && OnlyAt(old(Now()), Now(), x)
      ensures old(bufs)[x].refcnt > 0 && bufs == old(bufs)[x := old(bufs)[x].(refcnt := old(bufs)[x].refcnt - 1)]
      ensures uses == old(uses)[x := old(uses)[x].(refs := old(uses)[x].refs - multiset{p})]
      ensures bufs[x].refcnt > 0 ==> list == old(list) && rank == old(rank)
      ensures bufs[x].refcnt == 0 ==> |rank| == |old(rank)| && rank == old(rank)[x := rank[x]]
                                      && forall y :: 0 <= y < |rank| && y != x ==> rank[x] < rank[y]
    {
      hide NodeOk, Follows, FreshRank;
      ghost var c := Now();
      assert BufOk(c, x);
      bufs := bufs[x := bufs[x].(refcnt := bufs[x].refcnt - 1)];
      uses := uses[x := uses[x].(refs := uses[x].refs - multiset{p})];
      OneChange(c, Now(), x);
      if bufs[x].refcnt == 0 {
        ghost var r := LowRank(rank);
        MoveFrontOk(list, rank, x, r);
        list := MoveFront(list, x, |bufs|);
        rank := rank[x := r];
      }
    }
  }

  lemma Covered(rank: seq<int>)
    ensures forall x: nat :: x < |rank| ==> x in Front(rank, |rank|) && x in Back(rank, |rank|)
    ensures forall b: nat, x: nat :: b < |rank| && x < |rank| && x !in Back(rank, b) ==> rank[x] <= rank[b]
    ensures forall b: nat, x: nat :: x in Back(rank, b) || x in Front(rank, b) ==> x < |rank|
  {
  }

  lemma TakeRef(c: Cache, b: nat, p: nat)
    requires CacheOk(c) && b < |c.bufs|
    ensures CacheOk(c.(bufs := c.bufs[b := c.bufs[b].(refcnt := c.bufs[b].refcnt + 1)],
                       uses := c.uses[b := c.uses[b].(refs := c.uses[b].refs + multiset{p})]))
  {
    var c' := c.(bufs := c.bufs[b := c.bufs[b].(refcnt := c.bufs[b].refcnt + 1)],
                 uses := c.uses[b := c.uses[b].(refs := c.uses[b].refs + multiset{p})]);
    assert BufOk(c, b);
    OneChange(c, c', b);
  }

  lemma Recycle(c: Cache, b: nat, p: nat, blockno: nat)
    requires CacheOk(c) && b < |c.bufs| && c.bufs[b].refcnt == 0 && !c.bufs[b].dirty
    requires forall x: nat :: x < |c.bufs| ==> !Caches(c.bufs[x], blockno)
    ensures CacheOk(c.(bufs := c.bufs[b := c.bufs[b].(dev := ROOTDEV, blockno := blockno, valid := false,
                                                      dirty := false, refcnt := 1)],
                       uses := c.uses[b := Use(multiset{p}, false)]))
  {
    var c' := c.(bufs := c.bufs[b := c.bufs[b].(dev := ROOTDEV, blockno := blockno, valid := false, dirty := false,
                                                refcnt := 1)],
                 uses := c.uses[b := Use(multiset{p}, false)]);
    assert BufOk(c, b);
    OneChange(c, c', b);
  }

  /** The disk has the latest data of a block whose buffer is neither dirty nor being edited. */
  lemma UpToDate(c: Cache, x: nat)
    requires CacheOk(c) && x < |c.bufs| && Caches(c.bufs[x], c.bufs[x].blockno) && c.bufs[x].blockno < |c.disk|
    requires !c.bufs[x].dirty && !c.uses[x].edited
    ensures c.disk[c.bufs[x].blockno] == c.latest[c.bufs[x].blockno]
  {
    var n := c.bufs[x].blockno;
    forall y: nat
      ensures !Ahead(c, y, n)
    {
      if y < |c.bufs| && y != x {
        assert !Caches(c.bufs[y], n);
      }
    }
  }

  /** A valid buffer that is clean and not being edited holds what is on disk. */
  lemma CleanIsOnDisk(c: Cache, x: nat)
    requires CacheOk(c) && x < |c.bufs| && c.bufs[x].valid && !c.bufs[x].dirty && !c.uses[x].edited
    ensures c.bufs[x].blockno < |c.disk| && c.bufs[x].data == c.disk[c.bufs[x].blockno]
  {
    assert BufOk(c, x);
    UpToDate(c, x);
  }
}
