/** What is configured after whole runs: exactly what somebody asked for, and what that needs. */
module Exactness {
  import opened Graphs
  import opened Worlds
  import opened Lifecycle
  import opened Ledger
  import opened Draining
  import opened Commands
  import opened Settling
  import opened Collector

  /** Reasons to stay up: the administrator asked, or the interface requires itself in a cycle. */
  ghost predicate Root(g: Graph, w: World, r: Name) {
    r in w.configured && (r in w.isExplicit || Reaches(g, r, r))
  }

  ghost predicate Wanted(g: Graph, w: World, x: Name) {
    exists r :: Root(g, w, r) && (r == x || Reaches(g, r, x))
  }

  ghost predicate Requested(g: Graph, w: World, x: Name) {
    exists r :: r in w.configured && r in w.isExplicit && (r == x || Reaches(g, r, x))
  }

  lemma SomebodyNeeds(g: Graph, w: World, x: Name) returns (q: Name)
    requires Fits(g, w) && Balanced(g, w, multiset{}, multiset{}) && Held(g, w, w.isExplicit)
    requires x in w.configured && x !in w.isExplicit
    ensures q in w.configured && Edge(g, q, x)
  {
    OwedEdges(g, w.configured, x);
    assert w.refcount[x] >= 2;
    q :| q in w.configured && Edge(g, q, x);
  }

  /** From x up to whoever requires it, to somebody who was asked for, or around a cycle. */
  lemma HasRoot(g: Graph, w: World, x: Name) returns (r: Name)
    requires Fits(g, w) && Balanced(g, w, multiset{}, multiset{}) && Held(g, w, w.isExplicit)
    requires x in w.configured
    ensures Root(g, w, r) && (r == x || Reaches(g, r, x))
  {
    forall z | z in w.configured && z !in w.isExplicit
      ensures exists q :: q in w.configured && Edge(g, q, z)
    {
      var q := SomebodyNeeds(g, w, z);
    }
    r := Climb(g, w.configured, w.isExplicit, x, {});
  }

  /** On any graph, configured means wanted: nothing leaks but what a cycle holds, and
      nothing that is needed is missing. */
  lemma ConfiguredIsWanted(g: Graph, w: World, x: Name)
    requires Settled(g, w)
    ensures x in w.configured <==> Wanted(g, w, x)
    ensures Acyclic(g) ==> (x in w.configured <==> Requested(g, w, x))
  {
    SettledSupplied(g, w);
    if x in w.configured {
      var r := HasRoot(g, w, x);
    }
    if Wanted(g, w, x) {
      var r :| Root(g, w, r) && (r == x || Reaches(g, r, x));
      if r != x {
        ClosedUnderReach(g, w.configured, r, x);
      }
    }
  }

  /** Nothing configured, nothing recorded. */
  function Fresh(g: Graph): (w: World)
    ensures Coherent(g, w)
  {
    World(map x | x in g.ifs :: 0, AutoNames(g), {}, {}, [], [])
  }

  lemma {:induction false} OwedByNobody(g: Graph, order: seq<Name>)
    requires forall x :: x in order ==> x in g.ifs
    ensures OwedFrom(g, order, {}) == multiset{}
  {
    if order != [] {
      OwedByNobody(g, order[1..]);
    }
  }

  lemma FreshSettled(g: Graph)
    ensures Settled(g, Fresh(g))
  {
    OwedByNobody(g, g.order);
  }

  /** Collector exactness. From nothing configured, after every sequence of successful
      processes whose teardowns respect holders, an interface is configured exactly when an
      explicit configured interface is it or requires it; on a cyclic graph, also when a
      configured cycle is or requires it. Counts and records agree with that. */
  lemma CollectorExact(g: Graph, cmds: seq<Command>, ok: Outcome, x: Name)
    requires Tame(g, Fresh(g), cmds, ok)
    ensures var v := ExecuteAll(g, Fresh(g), cmds, ok);
            && Settled(g, v)
            && (x in v.configured <==> Wanted(g, v, x))
            && (Acyclic(g) ==> (x in v.configured <==> Requested(g, v, x)))
  {
    FreshSettled(g);
    ExecuteAllSettled(g, Fresh(g), cmds, ok);
    ConfiguredIsWanted(g, ExecuteAll(g, Fresh(g), cmds, ok), x);
  }

  lemma PathInside(g: Graph, s: set<Name>, path: seq<Name>)
    requires Supplied(g, s, {}) && IsPath(g, path) && path[0] in s
    ensures forall k :: 0 <= k < |path| ==> path[k] in s
  {
    for i := 1 to |path|
      invariant forall k :: 0 <= k < i ==> path[k] in s
    {
      assert Edge(g, path[i - 1], path[i - 1 + 1]);
    }
  }

  lemma OnWalk(g: Graph, path: seq<Name>, c: Name) returns (q: Name)
    requires IsPath(g, path) && path[0] == path[|path| - 1] && c in path
    ensures q in path && Edge(g, q, c)
  {
    var i :| 0 <= i < |path| && path[i] == c;
    var k := if i == 0 then |path| - 2 else i - 1;
    assert Edge(g, path[k], path[k + 1]);
    q := path[k];
  }

  /** Each on a closed walk is required by another on it, and none is x. */
  lemma CycleProtected(g: Graph, w: World, x: Name, path: seq<Name>)
    requires Settled(g, w) && x in w.configured && w.refcount[x] == 1
    requires IsPath(g, path) && path[0] == path[|path| - 1] && path[0] in w.configured
    ensures Protected(g, w, x, set z | z in path)
  {
    assert forall k :: 0 <= k < |path| ==> path[k] in w.configured by {
      SettledSupplied(g, w);
      PathInside(g, w.configured, path);
    }
    forall c | c in path
      ensures c != x && exists q :: q in path && Edge(g, q, c)
    {
      var q := OnWalk(g, path, c);
      OwedEdges(g, w.configured, c);
    }
  }

  /** A configured cycle is never collected from outside: it survives every teardown of an
      interface that only its own reference holds. */
  lemma CycleStays(g: Graph, w: World, x: Name, ok: Outcome, y: Name)
    requires Settled(g, w) && x in w.configured && w.refcount[x] == 1
    requires y in w.configured && Reaches(g, y, y)
    ensures var s := TakeDown(g, w, x, ok); s.ok ==> y in s.w.configured
  {
    var path :| Links(g, path, y, y);
    CycleProtected(g, w, x, path);
    RootDrained(g, w, x, ok, {}, set z | z in path);
  }
}
