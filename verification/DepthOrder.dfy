/** When sorting by depth puts requirers first, and that it does not always. */
module DepthOrder {
  import opened Graphs
  import opened StableSort
  import opened Depth
  import opened AutoTeardown

  ghost function DepthIn(count: map<Name, nat>): Name -> nat {
    x => if x in count then count[x] else 0
  }

  /** The collection as the program re-links it after the depth pass. */
  ghost predicate SortedFrom(g: Graph, broken: set<Name>, sorted: Graph, maxdepth: nat) {
    && sorted.ifs == g.ifs
    && sorted.order == Layers(g.order, DepthIn(Pass(g, broken, Uncounted(g), g.order).count), 0, maxdepth)
  }

  /** Requirers come first exactly when every edge runs forward in the list. */
  lemma RequirersFirstBefore(g: Graph)
    ensures RequirersFirst(g) <==> forall p, c :: Edge(g, p, c) && c in g.ifs ==> Before(g.order, p, c)
  {
    var o := g.order;
    if RequirersFirst(g) {
      forall p, c | Edge(g, p, c) && c in g.ifs
        ensures Before(o, p, c)
      {
        assert p in o && c in o;
        var i :| 0 <= i < |o| && o[i] == p;
        var j :| 0 <= j < |o| && o[j] == c;
        assert i < j;
      }
    }
    if forall p, c :: Edge(g, p, c) && c in g.ifs ==> Before(o, p, c) {
      forall i, j | 0 <= i < |o| && 0 <= j < |o| && Edge(g, o[i], o[j])
        ensures i < j
      {
        assert o[j] in o;
        var a, b :| 0 <= a < b < |o| && o[a] == o[i] && o[b] == o[j];
        assert a == i && b == j;
      }
    }
  }

  /** c is deeper than p, or as deep and listed after it to begin with. */
  ghost predicate Behind(g: Graph, count: map<Name, nat>, p: Name, c: Name)
    requires p in count && c in count
  {
    count[p] < count[c] || (count[p] == count[c] && Before(g.order, p, c))
  }

  /** The sort puts every requirer before what it requires exactly when each requirement is
      deeper than its requirer, or as deep and listed after it to begin with. */
  lemma SortsRequirersFirstIff(g: Graph, broken: set<Name>, sorted: Graph, maxdepth: nat)
    requires SortedFrom(g, broken, sorted, maxdepth)
    requires var count := Pass(g, broken, Uncounted(g), g.order).count; forall x :: x in g.ifs ==> count[x] <= maxdepth
    ensures var count := Pass(g, broken, Uncounted(g), g.order).count;
            RequirersFirst(sorted) <==> forall p, c :: Edge(g, p, c) && c in g.ifs ==> Behind(g, count, p, c)
  {
    var count := Pass(g, broken, Uncounted(g), g.order).count;
    assert RequirersFirst(sorted) <==> forall p, c :: Edge(g, p, c) && c in g.ifs ==> Before(sorted.order, p, c) by {
      RequirersFirstBefore(sorted);
      SameEdges(g, sorted);
    }
    SortedBehind(g, sorted.order, count, maxdepth);
  }

  lemma SortedBehind(g: Graph, sorted: seq<Name>, count: map<Name, nat>, maxdepth: nat)
    requires sorted == Layers(g.order, DepthIn(count), 0, maxdepth) && count.Keys == g.ifs.Keys
    requires forall x :: x in g.ifs ==> count[x] <= maxdepth
    ensures forall p, c :: p in g.ifs && c in g.ifs ==> (Before(sorted, p, c) <==> Behind(g, count, p, c))
  {
    forall p, c | p in g.ifs && c in g.ifs
      ensures Before(sorted, p, c) <==> Behind(g, count, p, c)
    {
      assert p in g.order && c in g.order;
      BeforeInLayers(g.order, DepthIn(count), maxdepth, p, c);
    }
  }

  lemma SameEdges(g: Graph, h: Graph)
    requires g.ifs == h.ifs
    ensures forall p, c :: Edge(g, p, c) <==> Edge(h, p, c)
  {
    forall p, c
      ensures Edge(g, p, c) <==> Edge(h, p, c)
    {
      if p in g.ifs {
        EffectiveSame(g, h, g.ifs[p].required);
      }
    }
  }

  /** In a forest without loops and without self-requirements the sort puts every requirer
      before what it requires, which is what `ifdown -a` relies on. */
  lemma ForestSortsRequirersFirst(g: Graph, broken: set<Name>, sorted: Graph, maxdepth: nat)
    requires Forest(g) && NoLoops(g) && forall p :: p in g.ifs ==> p !in g.ifs[p].required
    requires Pass(g, broken, Uncounted(g), g.order).ok && SortedFrom(g, broken, sorted, maxdepth)
    ensures RequirersFirst(sorted)
  {
    var count := Pass(g, broken, Uncounted(g), g.order).count;
    LayersAscending(g.order, DepthIn(count), 0, maxdepth);
    forall p, c | Edge(sorted, p, c) && c in sorted.ifs
      ensures count[p] < count[c]
    {
      assert Requires(g, p, c);
      DepthStepsInForest(g, broken, p, c);
    }
    forall i, j | 0 <= i < j < |sorted.order|
      ensures count[sorted.order[i]] <= count[sorted.order[j]]
    {
      assert sorted.order[i] in sorted.order && sorted.order[j] in sorted.order;
    }
    SortedByDepth(sorted, count);
  }

  /** a requires b and c, b requires c; the collection lists c, b, a. */
  ghost predicate IsTriangle(g: Graph, a: Name, b: Name, c: Name) {
    && a != b && a != c && b != c && g.order == [c, b, a] && g.ifs.Keys == {a, b, c}
    && g.ifs[a].required == [b, c] && g.ifs[b].required == [c] && g.ifs[c].required == []
  }

  /** The visit of an interface that requires nothing. */
  lemma VisitLeaf(g: Graph, count: map<Name, nat>, pending: set<Name>, x: Name, depth: nat)
    requires count.Keys == g.ifs.Keys && pending <= g.ifs.Keys && x in g.ifs && x !in pending
    requires g.ifs[x].required == []
    ensures Visit(g, {}, count, pending, x, depth) == Counted(count[x := depth], true)
  {
  }

  lemma VisitChain(g: Graph, count: map<Name, nat>, pending: set<Name>, x: Name, c: Name, depth: nat)
    requires count.Keys == g.ifs.Keys && pending <= g.ifs.Keys && x in g.ifs && c in g.ifs
    requires x !in pending && c !in pending && c != x
    requires g.ifs[x].required == [c] && g.ifs[c].required == []
    ensures Visit(g, {}, count, pending, x, depth) == Counted(count[x := depth][c := depth + 1], true)
  {
    var here := count[x := depth];
    VisitLeaf(g, here, pending + {x}, c, depth + 1);
    assert [c][1..] == [];
    var there := here[c := depth + 1];
    assert VisitAll(g, {}, there, pending + {x}, [], depth + 1) == Counted(there, true);
    assert VisitAll(g, {}, here, pending + {x}, [c], depth + 1) == Counted(there, true);
  }

  lemma VisitBoth(g: Graph, count: map<Name, nat>, m: map<Name, nat>, last: map<Name, nat>, pending: set<Name>,
                  s: Name, t: Name, depth: nat)
    requires count.Keys == m.Keys == g.ifs.Keys && pending <= g.ifs.Keys && s in g.ifs && t in g.ifs
    requires Visit(g, {}, count, pending, s, depth) == Counted(m, true)
    requires Visit(g, {}, m, pending, t, depth) == Counted(last, true)
    ensures VisitAll(g, {}, count, pending, [s, t], depth) == Counted(last, true)
  {
    assert [s, t][1..] == [t] && [t][1..] == [];
    assert VisitAll(g, {}, last, pending, [], depth) == Counted(last, true);
    assert VisitAll(g, {}, m, pending, [t], depth) == Counted(last, true);
  }

  lemma TriangleTop(g: Graph, a: Name, b: Name, c: Name, n: map<Name, nat>)
    requires IsTriangle(g, a, b, c) && n == map[a := 0, b := 0, c := 1]
    ensures Visit(g, {}, n, {}, a, 0) == Counted(map[a := 0, b := 1, c := 1], true)
  {
    var last := map[a := 0, b := 1, c := 1];
    TriangleBelow(g, a, b, c, n, n[b := 1][c := 2], last);
    VisitBelow(g, n, a, [b, c], last);
  }

  /** A visit from depth 0 that leaves the depth of x as it is. */
  lemma VisitBelow(g: Graph, count: map<Name, nat>, x: Name, tokens: seq<Name>, last: map<Name, nat>)
    requires count.Keys == g.ifs.Keys && x in g.ifs && g.ifs[x].required == tokens && count[x] == 0
    requires forall c :: c in tokens ==> c in g.ifs
    requires VisitAll(g, {}, count, {x}, tokens, 1) == Counted(last, true)
    ensures Visit(g, {}, count, {}, x, 0) == Counted(last, true)
  {
    assert count[x := 0] == count && {} + {x} == {x};
  }

  lemma TriangleBelow(g: Graph, a: Name, b: Name, c: Name, n: map<Name, nat>, m: map<Name, nat>, last: map<Name, nat>)
    requires IsTriangle(g, a, b, c) && n == map[a := 0, b := 0, c := 1]
    requires m == n[b := 1][c := 2] && last == map[a := 0, b := 1, c := 1]
    ensures VisitAll(g, {}, n, {a}, [b, c], 1) == Counted(last, true)
  {
    assert m[c := 1] == last;
    VisitChain(g, n, {a}, b, c, 1);
    VisitLeaf(g, m, {a}, c, 1);
    VisitBoth(g, n, m, last, {a}, b, c, 1);
  }

  lemma PassThree(g: Graph, a: Name, b: Name, c: Name, n: map<Name, nat>, m: map<Name, nat>, last: map<Name, nat>)
    requires Uncounted(g).Keys == n.Keys == m.Keys == g.ifs.Keys && a in g.ifs && b in g.ifs && c in g.ifs
    requires Visit(g, {}, Uncounted(g), {}, c, 0) == Counted(n, true)
    requires Visit(g, {}, n, {}, b, n[b]) == Counted(m, true)
    requires Visit(g, {}, m, {}, a, m[a]) == Counted(last, true)
    ensures Pass(g, {}, Uncounted(g), [c, b, a]) == Counted(last, true)
  {
    assert [c, b, a][1..] == [b, a] && [b, a][1..] == [a] && [a][1..] == [];
    assert Pass(g, {}, last, []) == Counted(last, true);
    assert Pass(g, {}, m, [a]) == Counted(last, true);
    assert Pass(g, {}, n, [b, a]) == Counted(last, true);
  }

  /** Depths are overwritten, not maximised: the visit of a sets b to 1 and c to 2, and then
      c to 1 again. */
  lemma TrianglePass(g: Graph, a: Name, b: Name, c: Name)
    requires IsTriangle(g, a, b, c)
    ensures Pass(g, {}, Uncounted(g), g.order) == Counted(map[a := 0, b := 1, c := 1], true)
  {
    var n0, n1 := Uncounted(g), map[a := 0, b := 0, c := 1];
    assert Visit(g, {}, n0, {}, c, 0) == Counted(n0, true) by {
      VisitLeaf(g, n0, {}, c, 0);
      assert n0[c := 0] == n0;
    }
    assert Visit(g, {}, n0, {}, b, 0) == Counted(n1, true) by {
      VisitChain(g, n0, {}, b, c, 0);
      assert n0[b := 0][c := 1] == n1;
    }
    TriangleTop(g, a, b, c, n1);
    PassThree(g, a, b, c, n0, n1, map[a := 0, b := 1, c := 1]);
  }

  lemma TriangleLayers(d: Name -> nat, a: Name, b: Name, c: Name)
    requires d(a) == 0 && d(b) == 1 && d(c) == 1
    ensures Layers([c, b, a], d, 0, 1) == [a, c, b]
  {
    assert [c, b, a][1..] == [b, a] && [b, a][1..] == [a] && [a][1..] == [];
    assert Layer([a], d, 0) == [a] && Layer([a], d, 1) == [];
    assert Layer([b, a], d, 0) == [a] && Layer([b, a], d, 1) == [b];
    assert Layer([c, b, a], d, 0) == [a] && Layer([c, b, a], d, 1) == [c, b];
    assert Layers([c, b, a], d, 1, 1) == [c, b];
  }

  /** So the sort may put an interface before one that requires it: in every triangle whose c
      has no configuration error, c before b. */
  lemma TriangleSortsWrong(g: Graph, a: Name, b: Name, c: Name, sorted: Graph)
    requires IsTriangle(g, a, b, c) && !g.ifs[c].hasConfigError && SortedFrom(g, {}, sorted, 1)
    ensures sorted.order == [a, c, b] && Edge(sorted, b, c) && !RequirersFirst(sorted)
  {
    TrianglePass(g, a, b, c);
    TriangleLayers(DepthIn(map[a := 0, b := 1, c := 1]), a, b, c);
    assert Edge(sorted, sorted.order[2], sorted.order[1]);
  }

  /** There are such collections, over any three names. */
  lemma TriangleExists(a: Name, b: Name, c: Name) returns (g: Graph, sorted: Graph)
    requires a != b && a != c && b != c
    ensures IsTriangle(g, a, b, c) && SortedFrom(g, {}, sorted, 1) && !RequirersFirst(sorted)
    ensures sorted == TriangleOf(a, b, c, [a, c, b])
  {
    g := TriangleOf(a, b, c, [c, b, a]);
    sorted := TriangleOf(a, b, c, [a, c, b]);
    assert SortedFrom(g, {}, sorted, 1) by {
      TrianglePass(g, a, b, c);
      TriangleLayers(DepthIn(map[a := 0, b := 1, c := 1]), a, b, c);
    }
    TriangleSortsWrong(g, a, b, c, sorted);
  }

  function TriangleOf(a: Name, b: Name, c: Name, order: seq<Name>): (g: Graph)
    requires a != b && a != c && b != c && (order == [c, b, a] || order == [a, c, b])
    ensures g.order == order && g.ifs.Keys == {a, b, c}
    ensures g.ifs[a].required == [b, c] && g.ifs[b].required == [c] && g.ifs[c].required == []
    ensures forall x :: x in g.ifs ==> g.ifs[x].isAuto && !g.ifs[x].hasConfigError && !g.ifs[x].isTemplate
  {
    RawGraph(order, map[
      a := Config([b, c], false, false, true),
      b := Config([c], false, false, true),
      c := Config([], false, false, true)])
  }
}
