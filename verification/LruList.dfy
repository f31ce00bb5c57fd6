/** bio.c: the buffers' circular doubly linked list.  Nodes 0..n-1 are the buffers, node n is the head;
    `rank` gives each buffer's place, the most recently used lowest. */
module LruList {

  datatype List = List(next: seq<nat>, prev: seq<nat>)

  predicate Sized(l: List, rank: seq<int>)
  {
    |l.next| == |l.prev| == |rank| + 1
  }

  /** a comes before b in the list; the head comes before every buffer. */
  predicate Less(rank: seq<int>, a: nat, b: nat)
  {
    b < |rank| && (a == |rank| || (a < |rank| && rank[a] < rank[b]))
  }

  /** m follows x: the nearest buffer after x, or the head after the last. */
  predicate Follows(rank: seq<int>, x: nat, m: nat)
  {
    && m <= |rank|
    && (m < |rank| ==> Less(rank, x, m))
    && (forall y: nat :: y < |rank| && Less(rank, x, y) ==> m < |rank| && (y == m || Less(rank, m, y)))
  }

  predicate NodeOk(l: List, rank: seq<int>, x: nat)
    requires Sized(l, rank)
  {
    x <= |rank| ==> l.next[x] <= |rank| && l.prev[x] <= |rank| && Follows(rank, x, l.next[x])
                    && l.prev[l.next[x]] == x && l.next[l.prev[x]] == x
  }

  /** One circular list of the head and all the buffers, in order of rank. */
  ghost predicate ListOk(l: List, rank: seq<int>)
  {
    && Sized(l, rank)
    && (forall a: nat, b: nat :: a < b < |rank| ==> rank[a] != rank[b])
    && (forall x: nat {:trigger NodeOk(l, rank, x)} :: NodeOk(l, rank, x))
  }

  // ---------------------------------------------------------------- the code's pointer updates

  /** Take b out of the list. */
  function Unlink(l: List, b: nat): List
    requires |l.next| == |l.prev| && b < |l.next| && l.next[b] < |l.next| && l.prev[b] < |l.next|
  {
    var prev' := l.prev[l.next[b] := l.prev[b]];
    List(l.next[prev'[b] := l.next[b]], prev')
  }

  /** Put b right after the head h. */
  function PushFront(l: List, b: nat, h: nat): List
    requires |l.next| == |l.prev| && b < |l.next| && h < |l.next| && l.next[h] < |l.next|
  {
    var next1 := l.next[b := l.next[h]];
    var prev1 := l.prev[b := h];
    var prev2 := prev1[next1[h] := b];
    List(next1[h := b], prev2)
  }

  function MoveFront(l: List, b: nat, h: nat): List
    requires |l.next| == |l.prev| && b < h < |l.next| && l.next[b] < |l.next| && l.prev[b] < |l.next|
    requires Unlink(l, b).next[h] < |l.next|
  {
    PushFront(Unlink(l, b), b, h)
  }

  lemma {:induction false} LowRank(rank: seq<int>) returns (r: int)
    ensures forall y :: 0 <= y < |rank| ==> r < rank[y]
  {
    if rank == [] {
      r := 0;
    } else {
      var r1 := LowRank(rank[1..]);
      r := if r1 < rank[0] then r1 else rank[0] - 1;
      assert forall y :: 1 <= y < |rank| ==> rank[y] == rank[1..][y - 1];
    }
  }

  /** Moving b to the front gives it the lowest rank and keeps the list in order. */
  lemma MoveFrontOk(l: List, rank: seq<int>, b: nat, r: int)
    requires ListOk(l, rank) && b < |rank| && forall y :: 0 <= y < |rank| ==> r < rank[y]
    ensures l.next[b] <= |rank| && l.prev[b] <= |rank| && Unlink(l, b).next[|rank|] <= |rank|
    ensures ListOk(MoveFront(l, b, |rank|), rank[b := r])
  {
    var h := |rank|;
    assert NodeOk(l, rank, b) && NodeOk(l, rank, h);
    var l' := MoveFront(l, b, h);
    var rank' := rank[b := r];
    forall x: nat
      ensures NodeOk(l', rank', x)
    {
      assert NodeOk(l, rank, x);
      if x <= h {
        MovedFollows(l, rank, b, r, x);
      }
    }
  }

  lemma MovedFollows(l: List, rank: seq<int>, b: nat, r: int, x: nat)
    requires ListOk(l, rank) && b < |rank| && (forall y :: 0 <= y < |rank| ==> r < rank[y]) && x <= |rank|
    requires l.next[b] <= |rank| && l.prev[b] <= |rank| && Unlink(l, b).next[|rank|] <= |rank|
    ensures Follows(rank[b := r], x, MoveFront(l, b, |rank|).next[x])
  {
    var h := |rank|;
    var rank' := rank[b := r];
    var m := MoveFront(l, b, h).next[x];
    assert NodeOk(l, rank, x) && NodeOk(l, rank, b) && NodeOk(l, rank, h) && NodeOk(l, rank, l.prev[b]);
    forall y: nat | y < |rank| && Less(rank', x, y)
      ensures m < |rank| && (y == m || Less(rank', m, y))
    {
      assert y != b && x != b ==> Less(rank, x, y);
      assert y != b ==> Less(rank, h, y);
      assert Less(rank, x, b) && Less(rank, b, y) ==> Less(rank, x, y);
    }
  }

  // ---------------------------------------------------------------- the initial list, and reaching every buffer

  /** The list binit builds: each buffer was pushed in front of the one before it. */
  ghost predicate Fresh(l: List, n: nat)
  {
    && |l.next| == |l.prev| == n + 1
    && (forall x :: 0 <= x < n ==> l.next[x] == if x == 0 then n else x - 1)
    && (forall x :: 0 <= x < n ==> l.prev[x] == if x == n - 1 then n else x + 1)
    && l.next[n] == (if n == 0 then n else n - 1) && l.prev[n] == (if n == 0 then n else 0)
  }

  ghost function FreshRank(n: nat): (r: seq<int>)
    ensures |r| == n && forall x :: 0 <= x < n ==> r[x] == -x
  {
    if n == 0 then [] else FreshRank(n - 1) + [1 - n]
  }

  lemma FreshOk(l: List, n: nat)
    requires Fresh(l, n)
    ensures ListOk(l, FreshRank(n))
  {
    hide FreshRank;
    forall x: nat
      ensures NodeOk(l, FreshRank(n), x)
    {
    }
  }

  function Walk(l: List, x: nat, k: nat): nat
  {
    if k == 0 then x else
    var y := Walk(l, x, k - 1); if y < |l.next| then l.next[y] else y
  }

  /** The buffers before x. */
  ghost function Before(rank: seq<int>, x: nat): set<nat>
    requires x < |rank|
  {
    set y: nat | y < |rank| && rank[y] < rank[x]
  }

  /** Following next from the head reaches every buffer. */
  lemma {:induction false} Reachable(l: List, rank: seq<int>, x: nat)
    requires ListOk(l, rank) && x < |rank|
    ensures exists k :: 0 < k && Walk(l, |rank|, k) == x
    decreases Before(rank, x)
  {
    assert NodeOk(l, rank, x);
    var p := l.prev[x];
    assert NodeOk(l, rank, p);
    if p == |rank| {
      assert Walk(l, |rank|, 0) == p;
      assert Walk(l, |rank|, 1) == x;
    } else {
      assert p in Before(rank, x) && p !in Before(rank, p) && Before(rank, p) <= Before(rank, x);
      Reachable(l, rank, p);
      var k :| 0 < k && Walk(l, |rank|, k) == p;
      assert Walk(l, |rank|, k + 1) == x;
    }
  }
}
