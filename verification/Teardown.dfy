/** What exactly is left up by a teardown, at any count of the named interface, on any graph. */
module Teardown {
  import opened Graphs
  import opened Worlds
  import opened Lifecycle
  import opened Coherence
  import opened Settling
  import opened Draining
  import opened Exactness

  /** A reason to stay up without x: asked for, or on a cycle that does not go through x. */
  ghost predicate HeldUp(g: Graph, w: World, x: Name, r: Name)
    requires x in g.ifs
  {
    r in w.configured && r != x && (r in w.isExplicit || Reaches(Without(g, x), r, r))
  }

  /** y is held up, or required, not through x, by somebody who is. */
  ghost predicate Stays(g: Graph, w: World, x: Name, y: Name)
    requires x in g.ifs
  {
    y != x && exists r :: HeldUp(g, w, x, r) && (r == y || Reaches(Without(g, x), r, y))
  }

  lemma WithoutClosed(g: Graph, w: World, x: Name)
    requires Settled(g, w) && x in g.ifs
    ensures forall p, c :: p in w.configured && Edge(Without(g, x), p, c) ==> c in w.configured
  {
    SettledSupplied(g, w);
    forall p, c | p in w.configured && Edge(Without(g, x), p, c)
      ensures c in w.configured
    {
      WithoutEdge(g, x, p, c);
    }
  }

  lemma StaysConfigured(g: Graph, w: World, x: Name, y: Name)
    requires Settled(g, w) && x in g.ifs && Stays(g, w, x, y)
    ensures y in w.configured
  {
    var r :| HeldUp(g, w, x, r) && (r == y || Reaches(Without(g, x), r, y));
    if r != y {
      WithoutClosed(g, w, x);
      ClosedUnderReach(Without(g, x), w.configured, r, y);
    }
  }

  /** Who stays was asked for, or is required by another who stays. */
  lemma StaysBy(g: Graph, w: World, x: Name, y: Name) returns (q: Name)
    requires Settled(g, w) && x in g.ifs && Stays(g, w, x, y) && y !in w.isExplicit
    ensures Stays(g, w, x, q) && Edge(g, q, y)
  {
    var h := Without(g, x);
    var r :| HeldUp(g, w, x, r) && (r == y || Reaches(h, r, y));
    q := ReachesLast(h, r, y);
    WithoutEdge(g, x, q, y);
  }

  ghost function Keepers(g: Graph, w: World, x: Name): set<Name>
    requires x in g.ifs
  {
    set y | y in w.configured && Stays(g, w, x, y)
  }

  lemma KeepersProtected(g: Graph, w: World, x: Name)
    requires Settled(g, w) && x in g.ifs
    ensures Protected(g, w, x, Keepers(g, w, x))
  {
    forall c | c in Keepers(g, w, x) && c !in w.isExplicit
      ensures exists q :: q in Keepers(g, w, x) && Edge(g, q, c)
    {
      var q := StaysBy(g, w, x, c);
      StaysConfigured(g, w, x, q);
    }
  }

  /** What the ledger says of who is still up. */
  lemma UpStays(g: Graph, w: World, x: Name, v: World, y: Name)
    requires x in g.ifs && Drained(g, v, {x}) && v.configured <= w.configured - {x} && v.isExplicit == w.isExplicit
    requires y in v.configured
    ensures Stays(g, w, x, y)
  {
    var h := Without(g, x);
    forall z | z in v.configured && z !in v.isExplicit
      ensures exists q :: q in v.configured && Edge(h, q, z)
    {
      var q := SomebodyNeeds(g, v, z);
      WithoutEdge(g, x, q, z);
    }
    var r := Climb(h, v.configured, v.isExplicit, y, {});
    assert HeldUp(g, w, x, r);
  }

  /** Teardown exactness. After a successful teardown of a configured interface, at any count,
      on any graph, exactly those are up that something else holds up. */
  lemma TakeDownExact(g: Graph, w: World, x: Name, ok: Outcome, y: Name)
    requires Settled(g, w) && x in w.configured
    ensures var s := TakeDown(g, w, x, ok); s.ok ==> (y in s.w.configured <==> Stays(g, w, x, y))
  {
    KeepersProtected(g, w, x);
    RootDrained(g, w, x, ok, {}, Keepers(g, w, x));
    var s := TakeDown(g, w, x, ok);
    if s.ok {
      assert {} + {x} == {x};
      if y in s.w.configured {
        UpStays(g, w, x, s.w, y);
      }
      if Stays(g, w, x, y) {
        StaysConfigured(g, w, x, y);
        assert y in Keepers(g, w, x);
      }
    }
  }

  lemma AloneDrained(g: Graph, w: World, x: Name, ok: Outcome)
    requires Settled(g, w) && x in w.configured
    ensures var s := TakeDown(g, w, x, ok);
            s.ok ==> Drained(g, s.w, {x}) && s.w.isExplicit == w.isExplicit && s.w.configured <= w.configured - {x}
  {
    RootDrained(g, w, x, ok, {}, {});
    assert {} + {x} == {x};
  }

  lemma TakeDownLeaves(g: Graph, w: World, x: Name, ok: Outcome)
    requires Settled(g, w) && x in w.configured
    ensures var s := TakeDown(g, w, x, ok);
            s.ok ==> && Coherent(g, s.w) && Drained(g, s.w, {x}) && s.w.isExplicit == w.isExplicit
                     && s.w.configured <= w.configured - {x}
                     && forall y :: y in s.w.configured <==> Stays(g, w, x, y)
  {
    var s := TakeDown(g, w, x, ok);
    if s.ok {
      assert Coherent(g, s.w) by {
        TakeDownCoherent(g, w, x, ok);
      }
      AloneDrained(g, w, x, ok);
      forall y
        ensures y in s.w.configured <==> Stays(g, w, x, y)
      {
        TakeDownExact(g, w, x, ok, y);
      }
    }
  }

  /** When only its own reference holds x, nothing that is up leads through it. */
  lemma AloneAround(g: Graph, w: World, x: Name, a: Name, b: Name)
    requires Settled(g, w) && x in w.configured && w.refcount[x] == 1
    requires a in w.configured && a != x && Reaches(g, a, b)
    ensures Reaches(Without(g, x), a, b) && b != x
  {
    SettledSupplied(g, w);
    OwedEdges(g, w.configured, x);
    ReachesInside(g, x, w.configured, a, b);
  }

  /** At count 1: exactly those are up that another interface, asked for or on a cycle, is or
      requires. */
  lemma TakeDownExactAlone(g: Graph, w: World, x: Name, ok: Outcome, y: Name)
    requires Settled(g, w) && x in w.configured && w.refcount[x] == 1
    ensures var s := TakeDown(g, w, x, ok);
            s.ok ==> (y in s.w.configured <==> exists r :: r != x && Root(g, w, r) && (r == y || Reaches(g, r, y)))
  {
    TakeDownExact(g, w, x, ok, y);
    if Stays(g, w, x, y) {
      var r := StaysRoot(g, w, x, y);
    }
    if r :| r != x && Root(g, w, r) && (r == y || Reaches(g, r, y)) {
      RootStays(g, w, x, y, r);
    }
  }

  lemma StaysRoot(g: Graph, w: World, x: Name, y: Name) returns (r: Name)
    requires x in g.ifs && Stays(g, w, x, y)
    ensures r != x && Root(g, w, r) && (r == y || Reaches(g, r, y))
  {
    r :| HeldUp(g, w, x, r) && (r == y || Reaches(Without(g, x), r, y));
    if Reaches(Without(g, x), r, r) {
      WithoutReaches(g, x, r, r);
    }
    if r != y {
      WithoutReaches(g, x, r, y);
    }
  }

  lemma RootStays(g: Graph, w: World, x: Name, y: Name, r: Name)
    requires Settled(g, w) && x in w.configured && w.refcount[x] == 1
    requires r != x && Root(g, w, r) && (r == y || Reaches(g, r, y))
    ensures Stays(g, w, x, y)
  {
    if Reaches(g, r, r) {
      AloneAround(g, w, x, r, r);
    }
    if r != y {
      AloneAround(g, w, x, r, y);
    }
    assert HeldUp(g, w, x, r);
  }

  // --- when the invariant survives ---------------------------------------------------------

  /** Somebody who stays up requires x. */
  ghost predicate HeldFromOutside(g: Graph, w: World, x: Name)
    requires x in g.ifs
  {
    exists r :: HeldUp(g, w, x, r) && Reaches(Without(g, x), r, x)
  }

  lemma HeldByStaying(g: Graph, w: World, x: Name)
    requires Settled(g, w) && x in g.ifs
    ensures HeldFromOutside(g, w, x) <==> exists p :: Stays(g, w, x, p) && Edge(g, p, x)
  {
    if r :| HeldUp(g, w, x, r) && Reaches(Without(g, x), r, x) {
      var q := ReachesLast(Without(g, x), r, x);
      WithoutEdge(g, x, q, x);
      assert Stays(g, w, x, q);
    }
    if p :| Stays(g, w, x, p) && Edge(g, p, x) {
      StayingHolds(g, w, x, p);
    }
  }

  lemma StayingHolds(g: Graph, w: World, x: Name, p: Name)
    requires x in g.ifs && Stays(g, w, x, p) && Edge(g, p, x)
    ensures HeldFromOutside(g, w, x)
  {
    var r :| HeldUp(g, w, x, r) && (r == p || Reaches(Without(g, x), r, p));
    WithoutEdge(g, x, p, x);
    ReachesStep(Without(g, x), r, p, x);
  }

  /** Off cycles, somebody outside holds x exactly when its count is not 1. */
  lemma HeldOffCycle(g: Graph, w: World, x: Name)
    requires Settled(g, w) && x in w.configured && !Reaches(g, x, x)
    ensures HeldFromOutside(g, w, x) <==> w.refcount[x] != 1
  {
    HeldByStaying(g, w, x);
    OwedEdges(g, w.configured, x);
    if w.refcount[x] != 1 {
      var p :| p in w.configured && Edge(g, p, x);
      ReachesEdge(g, p, x);
      var r := HasRoot(g, w, p);
      NotBelow(g, x, p, r);
      assert HeldUp(g, w, x, r);
      assert Stays(g, w, x, p);
    } else if HeldFromOutside(g, w, x) {
      var p :| Stays(g, w, x, p) && Edge(g, p, x);
      StaysConfigured(g, w, x, p);
    }
  }

  /** Who reaches a requirer of x, where x is on no cycle, does so around x. */
  lemma NotBelow(g: Graph, x: Name, p: Name, r: Name)
    requires x in g.ifs && !Reaches(g, x, x) && Reaches(g, p, x) && (r == p || Reaches(g, r, p))
    ensures r != x && p != x
    ensures r != p ==> Reaches(Without(g, x), r, p)
    ensures Reaches(g, r, r) ==> Reaches(Without(g, x), r, r)
  {
    if r != p {
      ReachesTransitive(g, r, p, x);
    }
    if Reaches(g, x, p) {
      ReachesTransitive(g, x, p, x);
    }
    if Reaches(g, x, r) {
      ReachesTransitive(g, x, r, x);
    }
    if r != p {
      ReachesAround(g, x, r, p);
    }
    if Reaches(g, r, r) {
      ReachesAround(g, x, r, r);
    }
  }
}
