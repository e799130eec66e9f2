/** The interface collection after the dependency pass: a fixed, closed `requires` graph.

    Names are interface names. `order` is the order of the collection's list, which the
    `-a` commands follow. Every name an interface requires is in the collection, because
    looking a name up in the collection creates it. */
module Graphs {
  type Name = string

  datatype Config = Config(
    required: seq<Name>,
    hasConfigError: bool,
    isTemplate: bool,
    isAuto: bool)

  datatype RawGraph = RawGraph(order: seq<Name>, ifs: map<Name, Config>)

  ghost predicate Closed(g: RawGraph) {
    && (forall x :: x in g.order <==> x in g.ifs)
    && (forall i, j :: 0 <= i < j < |g.order| ==> g.order[i] != g.order[j])
    && (forall p, c :: p in g.ifs && c in g.ifs[p].required ==> c in g.ifs)
  }

  type Graph = g: RawGraph | Closed(g) witness RawGraph([], map[])

  /** The tokens of a `requires` value that the dependency loop does not skip. */
  function Effective(g: Graph, tokens: seq<Name>): (r: seq<Name>)
    requires forall c :: c in tokens ==> c in g.ifs
    ensures forall c :: c in r <==> c in tokens && !g.ifs[c].hasConfigError
  {
    if tokens == [] then []
    else if g.ifs[tokens[0]].hasConfigError then Effective(g, tokens[1..])
    else [tokens[0]] + Effective(g, tokens[1..])
  }

  /** The effective edges out of p, with multiplicity. */
  function Needs(g: Graph, p: Name): seq<Name>
    requires p in g.ifs
  {
    Effective(g, g.ifs[p].required)
  }

  ghost predicate Edge(g: Graph, p: Name, c: Name) {
    p in g.ifs && c in Needs(g, p)
  }

  ghost predicate IsPath(g: Graph, path: seq<Name>) {
    |path| >= 2 && forall i :: 0 <= i < |path| - 1 ==> Edge(g, path[i], path[i + 1])
  }

  ghost predicate Links(g: Graph, path: seq<Name>, a: Name, b: Name) {
    IsPath(g, path) && path[0] == a && path[|path| - 1] == b
  }

  /** a requires b, directly or through others. */
  ghost predicate Reaches(g: Graph, a: Name, b: Name) {
    exists path: seq<Name> :: Links(g, path, a, b)
  }

  ghost predicate Acyclic(g: Graph) {
    forall x :: !Reaches(g, x, x)
  }

  lemma ReachesEdge(g: Graph, a: Name, b: Name)
    requires Edge(g, a, b)
    ensures Reaches(g, a, b)
  {
    assert Links(g, [a, b], a, b);
  }

  lemma ReachesTransitive(g: Graph, a: Name, b: Name, c: Name)
    requires Reaches(g, a, b) && Reaches(g, b, c)
    ensures Reaches(g, a, c)
  {
    var p :| Links(g, p, a, b);
    var q :| Links(g, q, b, c);
    var r := p + q[1..];
    forall i | 0 <= i < |r| - 1
      ensures Edge(g, r[i], r[i + 1])
    {
      if i < |p| - 1 {
        assert r[i] == p[i] && r[i + 1] == p[i + 1];
      } else {
        var k := i - (|p| - 1);
        assert r[i] == q[k] && r[i + 1] == q[k + 1];
      }
    }
    assert Links(g, r, a, c);
  }

  lemma ReachesStep(g: Graph, a: Name, b: Name, c: Name)
    requires a == b || Reaches(g, a, b)
    requires Edge(g, b, c)
    ensures Reaches(g, a, c)
  {
    ReachesEdge(g, b, c);
    if a != b {
      ReachesTransitive(g, a, b, c);
    }
  }

  /** A set that is closed under effective edges contains all it reaches. */
  lemma ClosedUnderReach(g: Graph, s: set<Name>, a: Name, b: Name)
    requires forall p, c :: p in s && Edge(g, p, c) ==> c in s
    requires a in s && Reaches(g, a, b)
    ensures b in s
  {
    var path :| Links(g, path, a, b);
    for k := 0 to |path| - 1
      invariant path[k] in s
    {
      assert Edge(g, path[k], path[k + 1]);
    }
  }

  /** What a member of s requires is in s. */
  ghost predicate ClosedSet(g: Graph, s: set<Name>) {
    s <= g.ifs.Keys && forall p, c :: p in s && Edge(g, p, c) ==> c in s
  }

  /** What x requires, and x. */
  ghost function Below(g: Graph, x: Name): set<Name> {
    set y | y in g.ifs && (y == x || Reaches(g, x, y))
  }

  lemma BelowClosed(g: Graph, x: Name)
    requires x in g.ifs
    ensures ClosedSet(g, Below(g, x)) && x in Below(g, x)
  {
    forall p, c | p in Below(g, x) && Edge(g, p, c)
      ensures c in Below(g, x)
    {
      ReachesStep(g, x, p, c);
    }
  }

  /** Who reaches b reaches somebody who requires it directly. */
  lemma ReachesLast(g: Graph, a: Name, b: Name) returns (q: Name)
    requires Reaches(g, a, b)
    ensures Edge(g, q, b) && (q == a || Reaches(g, a, q))
  {
    var path :| Links(g, path, a, b);
    var n := |path| - 2;
    q := path[n];
    assert Edge(g, path[n], path[n + 1]);
    if n > 0 {
      assert Links(g, path[..n + 1], a, q);
    }
  }

  lemma ReachesFirst(g: Graph, a: Name, b: Name) returns (c: Name)
    requires Reaches(g, a, b)
    ensures Edge(g, a, c)
  {
    var path :| Links(g, path, a, b);
    c := path[1];
    assert Edge(g, path[0], path[0 + 1]);
  }

  /** Climb from y to members of s that require it, until a root, or around a cycle; `seen` are
      the names passed. */
  lemma {:induction false} Climb(g: Graph, s: set<Name>, roots: set<Name>, y: Name, seen: set<Name>) returns (r: Name)
    requires forall z :: z in s && z !in roots ==> exists q :: q in s && Edge(g, q, z)
    requires y in s && seen <= s && forall z :: z in seen ==> Reaches(g, y, z)
    ensures r in s && (r in roots || Reaches(g, r, r)) && (r == y || Reaches(g, r, y))
    decreases s - seen
  {
    if y in roots || Reaches(g, y, y) {
      r := y;
    } else {
      var q :| q in s && Edge(g, q, y);
      ReachesEdge(g, q, y);
      forall z | z in seen
        ensures Reaches(g, q, z)
      {
        ReachesTransitive(g, q, y, z);
      }
      r := Climb(g, s, roots, q, seen + {y});
      ReachesStep(g, r, q, y);
    }
  }

  // --- the graph without the requirements of one interface ---------------------------------

  /** The graph in which x requires nothing: its paths are those that do not go through x. */
  function Without(g: Graph, x: Name): (h: Graph)
    requires x in g.ifs
    ensures h.ifs.Keys == g.ifs.Keys && h.order == g.order
    ensures forall c :: c in g.ifs ==> h.ifs[c].hasConfigError == g.ifs[c].hasConfigError
    ensures forall c :: c in g.ifs ==> h.ifs[c].required == if c == x then [] else g.ifs[c].required
  {
    RawGraph(g.order, g.ifs[x := g.ifs[x].(required := [])])
  }

  lemma {:induction false} EffectiveSame(g: Graph, h: Graph, tokens: seq<Name>)
    requires forall c :: c in tokens ==> c in g.ifs && c in h.ifs && g.ifs[c].hasConfigError == h.ifs[c].hasConfigError
    ensures Effective(g, tokens) == Effective(h, tokens)
  {
    if tokens != [] {
      EffectiveSame(g, h, tokens[1..]);
    }
  }

  lemma WithoutEdge(g: Graph, x: Name, p: Name, c: Name)
    requires x in g.ifs
    ensures Edge(Without(g, x), p, c) <==> Edge(g, p, c) && p != x
  {
    if p in g.ifs && p != x {
      EffectiveSame(g, Without(g, x), g.ifs[p].required);
    }
  }

  lemma WithoutReaches(g: Graph, x: Name, a: Name, b: Name)
    requires x in g.ifs && Reaches(Without(g, x), a, b)
    ensures Reaches(g, a, b) && a != x
  {
    var path :| Links(Without(g, x), path, a, b);
    forall i | 0 <= i < |path| - 1
      ensures Edge(g, path[i], path[i + 1]) && path[i] != x
    {
      WithoutEdge(g, x, path[i], path[i + 1]);
    }
    assert Links(g, path, a, b);
  }

  /** Unless a path leads through x, it leads around x. */
  lemma ReachesAround(g: Graph, x: Name, a: Name, b: Name)
    requires x in g.ifs && Reaches(g, a, b) && a != x && !(Reaches(g, a, x) && Reaches(g, x, b))
    ensures Reaches(Without(g, x), a, b)
  {
    var path :| Links(g, path, a, b);
    forall i | 0 <= i < |path| - 1
      ensures Edge(Without(g, x), path[i], path[i + 1])
    {
      assert Edge(g, path[i], path[i + 1]);
      if path[i] == x {
        assert Links(g, path[..i + 1], a, x) && Links(g, path[i..], x, b);
      }
      WithoutEdge(g, x, path[i], path[i + 1]);
    }
    assert Links(Without(g, x), path, a, b);
  }

  /** Inside a closed set in which nobody requires x, everything is reached around x. */
  lemma ReachesInside(g: Graph, x: Name, s: set<Name>, a: Name, b: Name)
    requires x in g.ifs && Reaches(g, a, b) && a in s && a != x
    requires forall p, c :: p in s && Edge(g, p, c) ==> c in s && c != x
    ensures Reaches(Without(g, x), a, b) && b in s && b != x
  {
    var path :| Links(g, path, a, b);
    for k := 1 to |path|
      invariant forall i :: 0 <= i < k ==> path[i] in s && path[i] != x
    {
      assert Edge(g, path[k - 1], path[k - 1 + 1]);
    }
    forall i | 0 <= i < |path| - 1
      ensures Edge(Without(g, x), path[i], path[i + 1])
    {
      assert Edge(g, path[i], path[i + 1]);
      WithoutEdge(g, x, path[i], path[i + 1]);
    }
    assert Links(Without(g, x), path, a, b);
  }

  // --- references owed -------------------------------------------------------------

  ghost function OwedFrom(g: Graph, order: seq<Name>, s: set<Name>): multiset<Name>
    requires forall x :: x in order ==> x in g.ifs
  {
    if order == [] then multiset{}
    else (if order[0] in s then multiset(Needs(g, order[0])) else multiset{})
         + OwedFrom(g, order[1..], s)
  }

  /** The references that the interfaces in s hold on their requirements. */
  ghost function Owed(g: Graph, s: set<Name>): multiset<Name> {
    OwedFrom(g, g.order, s)
  }

  lemma {:induction false} OwedFromUnaffected(g: Graph, order: seq<Name>, s: set<Name>, p: Name)
    requires forall x :: x in order ==> x in g.ifs
    requires p !in order
    ensures OwedFrom(g, order, s + {p}) == OwedFrom(g, order, s)
  {
    if order != [] {
      assert order[0] != p;
      OwedFromUnaffected(g, order[1..], s, p);
    }
  }

  lemma {:induction false} OwedFromAdd(g: Graph, order: seq<Name>, s: set<Name>, p: Name)
    requires forall x :: x in order ==> x in g.ifs
    requires forall i, j :: 0 <= i < j < |order| ==> order[i] != order[j]
    requires p in order && p !in s
    ensures OwedFrom(g, order, s + {p}) == OwedFrom(g, order, s) + multiset(Needs(g, p))
  {
    if order[0] == p {
      assert p !in order[1..];
      OwedFromUnaffected(g, order[1..], s, p);
    } else {
      OwedFromAdd(g, order[1..], s, p);
    }
  }

  lemma OwedAdd(g: Graph, s: set<Name>, p: Name)
    requires p in g.ifs && p !in s
    ensures Owed(g, s + {p}) == Owed(g, s) + multiset(Needs(g, p))
  {
    OwedFromAdd(g, g.order, s, p);
  }

  lemma OwedRemove(g: Graph, s: set<Name>, p: Name)
    requires p in g.ifs && p in s
    ensures Owed(g, s) == Owed(g, s - {p}) + multiset(Needs(g, p))
  {
    assert s - {p} + {p} == s;
    OwedAdd(g, s - {p}, p);
  }

  lemma {:induction false} OwedFromEdges(g: Graph, order: seq<Name>, s: set<Name>, c: Name)
    requires forall x :: x in order ==> x in g.ifs
    ensures OwedFrom(g, order, s)[c] > 0 <==> exists q :: q in order && q in s && Edge(g, q, c)
  {
    if order != [] {
      OwedFromEdges(g, order[1..], s, c);
      assert multiset(Needs(g, order[0]))[c] > 0 <==> c in Needs(g, order[0]);
      if q :| q in order && q in s && Edge(g, q, c) {
        assert q == order[0] || q in order[1..];
      }
    }
  }

  /** A name is owed a reference exactly when a member of s requires it. */
  lemma OwedEdges(g: Graph, s: set<Name>, c: Name)
    ensures Owed(g, s)[c] > 0 <==> exists q :: q in s && Edge(g, q, c)
  {
    OwedFromEdges(g, g.order, s, c);
    if q :| q in s && Edge(g, q, c) {
      assert q in g.order;
    }
  }

  lemma {:induction false} OwedFromSplit(g: Graph, order: seq<Name>, s: set<Name>, t: set<Name>)
    requires forall x :: x in order ==> x in g.ifs
    requires t <= s
    ensures OwedFrom(g, order, s) == OwedFrom(g, order, t) + OwedFrom(g, order, s - t)
  {
    if order != [] {
      OwedFromSplit(g, order[1..], s, t);
    }
  }

  lemma OwedSplit(g: Graph, s: set<Name>, t: set<Name>)
    requires t <= s
    ensures Owed(g, s) == Owed(g, t) + Owed(g, s - t)
  {
    OwedFromSplit(g, g.order, s, t);
  }
}
