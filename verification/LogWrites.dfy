/** What an operation hands to the log: its log_write calls, in order, and why they account for every change. */
module LogWrites {
  import opened Blocks

  /** One call of log_write: the block, and what its buffer holds. */
  datatype Logged = Logged(block: nat, data: Block)

  /** The blocks as they are after the calls ws. */
  function Apply(disk: seq<Block>, ws: seq<Logged>): (d: seq<Block>)
    ensures |d| == |disk|
  {
    if ws == [] then disk else
    var d := Apply(disk, ws[..|ws| - 1]);
    var w := ws[|ws| - 1];
    if w.block < |d| then d[w.block := w.data] else d
  }

  function Targets(ws: seq<Logged>): set<nat> { set k | 0 <= k < |ws| :: ws[k].block }

  /** The blocks as read through the cache, the calls of log_write so far, and the blocks they named. */
  datatype Cache = Cache(disk: seq<Block>, writes: seq<Logged>, logged: set<nat>)

  /** Going from c to c' called log_write for ws, blocks from lo up, and changed nothing that ws does not record. */
  predicate Extends(lo: nat, c: Cache, c': Cache, ws: seq<Logged>)
  {
    && c' == Cache(Apply(c.disk, ws), c.writes + ws, c.logged + Targets(ws))
    && forall k :: 0 <= k < |ws| ==> lo <= ws[k].block < |c.disk|
  }

  ghost predicate Journaled(lo: nat, c: Cache, c': Cache)
  {
    exists ws: seq<Logged> :: Extends(lo, c, c', ws)
  }

  lemma {:induction false} ApplyMore(disk: seq<Block>, a: seq<Logged>, b: seq<Logged>)
    ensures Apply(disk, a + b) == Apply(Apply(disk, a), b)
    decreases |b|
  {
    if b == [] {
      assert a + b == a;
    } else {
      var b' := b[..|b| - 1];
      ApplyMore(disk, a, b');
      assert (a + b)[..|a + b| - 1] == a + b';
    }
  }

  /** Nothing happened. */
  lemma JournaledSame(lo: nat, c: Cache)
    ensures Journaled(lo, c, c)
  {
    assert c.writes + [] == c.writes && c.logged + Targets([]) == c.logged;
    assert Extends(lo, c, c, []);
  }

  /** One buffer was changed and logged. */
  lemma JournaledOne(lo: nat, c: Cache, b: nat, data: Block)
    requires lo <= b < |c.disk|
    ensures Journaled(lo, c, Cache(c.disk[b := data], c.writes + [Logged(b, data)], c.logged + {b}))
  {
    var ws := [Logged(b, data)];
    assert ws[..0] == [];
    assert Apply(c.disk, []) == c.disk;
    assert Targets(ws) == {b} by { assert ws[0].block == b; }
    assert Extends(lo, c, Cache(c.disk[b := data], c.writes + ws, c.logged + {b}), ws);
  }

  lemma JournaledTrans(lo: nat, c: Cache, c1: Cache, c2: Cache)
    requires Journaled(lo, c, c1) && Journaled(lo, c1, c2)
    ensures Journaled(lo, c, c2)
  {
    var a: seq<Logged> :| Extends(lo, c, c1, a);
    var b: seq<Logged> :| Extends(lo, c1, c2, b);
    ApplyMore(c.disk, a, b);
    TargetsMore(a, b);
    assert c.writes + (a + b) == c.writes + a + b;
    assert Extends(lo, c, c2, a + b);
  }

  /** Since a transaction began, the calls are all there are. */
  lemma JournaledAll(lo: nat, c: Cache, c': Cache)
    requires Journaled(lo, c, c') && c.writes == []
    ensures Extends(lo, c, c', c'.writes)
  {
    var ws: seq<Logged> :| Extends(lo, c, c', ws);
    assert [] + ws == ws;
  }

  lemma TargetsMore(a: seq<Logged>, b: seq<Logged>)
    ensures Targets(a + b) == Targets(a) + Targets(b)
  {
    var ab := a + b;
    assert forall k :: 0 <= k < |a| ==> ab[k].block == a[k].block;
    assert forall k :: 0 <= k < |b| ==> ab[|a| + k].block == b[k].block;
    forall x | x in Targets(ab)
      ensures x in Targets(a) + Targets(b)
    {
      var k :| 0 <= k < |ab| && ab[k].block == x;
      assert k < |a| ==> a[k].block == x;
      assert k >= |a| ==> b[k - |a|].block == x;
    }
  }

  /** Every block that changed was logged. */
  lemma ChangedIsLogged(lo: nat, c: Cache, c': Cache, b: nat)
    requires Journaled(lo, c, c') && b < |c.disk|
    ensures |c'.disk| == |c.disk|
    ensures c'.disk[b] != c.disk[b] ==> b in c'.logged
  {
    var ws: seq<Logged> :| Extends(lo, c, c', ws);
    if b !in Targets(ws) {
      Untouched(c.disk, ws, b);
    }
  }

  lemma {:induction false} Untouched(disk: seq<Block>, ws: seq<Logged>, b: nat)
    requires b < |disk| && b !in Targets(ws)
    ensures Apply(disk, ws)[b] == disk[b]
  {
    if ws != [] {
      var ws' := ws[..|ws| - 1];
      forall x | x in Targets(ws')
        ensures x in Targets(ws)
      {
        var k :| 0 <= k < |ws'| && ws'[k].block == x;
        assert ws[k].block == x;
      }
      assert ws[|ws| - 1].block in Targets(ws);
      Untouched(disk, ws', b);
    }
  }
}
