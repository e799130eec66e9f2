/** What the dependency pass makes of a parsed collection: a closed graph, sorted by depth. */
module Loading {
  import opened Graphs
  import opened StableSort
  import opened Depth
  import opened DepthFormula
  import opened DepthOrder
  import opened AutoTeardown
  import opened Growth

  ghost function MaxOf(order: seq<Name>, depth: Name -> nat): nat {
    if order == [] then 0
    else
      var m := MaxOf(order[1..], depth);
      if depth(order[0]) > m then depth(order[0]) else m
  }

  lemma {:induction false} MaxOfBounds(order: seq<Name>, depth: Name -> nat)
    ensures forall x :: x in order ==> depth(x) <= MaxOf(order, depth)
  {
    if order != [] {
      MaxOfBounds(order[1..], depth);
    }
  }

  /** Layers above the deepest interface are empty. */
  lemma LayersAnyBound(order: seq<Name>, depth: Name -> nat, m: nat)
    requires forall x :: x in order ==> depth(x) <= m
    ensures Layers(order, depth, 0, m) == Layers(order, depth, 0, MaxOf(order, depth))
  {
    var top := MaxOf(order, depth);
    var t := Layers(order, depth, 0, m);
    MaxOfBounds(order, depth);
    LayersAscending(order, depth, 0, m);
    forall i | 0 <= i < |t|
      ensures depth(t[i]) <= top
    {
      assert t[i] in t;
      LayersMember(order, depth, 0, m, t[i]);
    }
    forall d: nat | d <= top
      ensures Layer(t, depth, d) == Layer(order, depth, d)
    {
      LayersStable(order, depth, 0, m, d);
      if d > m {
        forall i | 0 <= i < |order|
          ensures depth(order[i]) != d
        {
          assert order[i] in order;
        }
        NoneAt(order, depth, d);
      }
    }
    StableSortUnique(order, t, depth, 0, top);
  }

  ghost function Depths(c: Graph, broken: set<Name>): Name -> nat {
    DepthIn(Pass(c, broken, Uncounted(c), c.order).count)
  }

  ghost function SortedOrder(c: Graph, broken: set<Name>): seq<Name> {
    Layers(c.order, Depths(c, broken), 0, MaxOf(c.order, Depths(c, broken)))
  }

  lemma PermutationDistinct(a: seq<Name>, b: seq<Name>)
    requires multiset(a) == multiset(b) && forall i, j :: 0 <= i < j < |a| ==> a[i] != a[j]
    ensures forall i, j :: 0 <= i < j < |b| ==> b[i] != b[j]
    ensures forall x :: x in a <==> x in b
  {
    forall x
      ensures x in a <==> x in b
      ensures multiset(a)[x] <= 1
    {
      assert x in a <==> x in multiset(a);
      assert x in b <==> x in multiset(b);
      OncePer(a, x);
    }
    forall i, j | 0 <= i < j < |b|
      ensures b[i] != b[j]
    {
      if b[i] == b[j] {
        TwiceIn(b, i, j);
      }
    }
  }

  lemma TwiceIn(b: seq<Name>, i: nat, j: nat)
    requires i < j < |b| && b[i] == b[j]
    ensures multiset(b)[b[j]] >= 2
  {
    assert b == b[..j] + [b[j]] + b[j + 1..];
    assert b[i] == b[..j][i];
  }

  lemma {:induction false} OncePer(a: seq<Name>, x: Name)
    requires forall i, j :: 0 <= i < j < |a| ==> a[i] != a[j]
    ensures multiset(a)[x] <= 1
  {
    if a != [] {
      OncePer(a[1..], x);
      assert a == [a[0]] + a[1..];
      if a[0] == x {
        assert x !in a[1..];
      }
    }
  }

  lemma SortedCloses(c: Graph, broken: set<Name>)
    ensures Closed(RawGraph(SortedOrder(c, broken), c.ifs))
  {
    MaxOfBounds(c.order, Depths(c, broken));
    LayersPermutation(c.order, Depths(c, broken), MaxOf(c.order, Depths(c, broken)));
    PermutationDistinct(c.order, SortedOrder(c, broken));
  }

  /** The pass succeeds: no executor it asks fails. */
  predicate Loads(u: Graph, broken: set<Name>, known: seq<Name>)
    requires Inside(u, known)
  {
    ExplorePass(u, broken, known, Uncounted(u), 0).ok
  }

  /** The collection closed by the lookups of the pass. */
  function ClosedGraph(u: Graph, broken: set<Name>, known: seq<Name>): (c: Graph)
    requires Inside(u, known) && Loads(u, broken, known)
    ensures known <= c.order && Pass(c, broken, Uncounted(c), c.order).ok
  {
    PassCloses(u, broken, known);
    Restricted(u, ExplorePass(u, broken, known, Uncounted(u), 0).known)
  }

  /** That collection in the order the commands walk it. */
  ghost function LoadedGraph(u: Graph, broken: set<Name>, known: seq<Name>): (g: Graph)
    requires Inside(u, known) && Loads(u, broken, known)
    ensures var c := ClosedGraph(u, broken, known);
            && g.ifs == c.ifs && g.order == SortedOrder(c, broken) && multiset(g.order) == multiset(c.order)
            && SortedFrom(c, broken, g, MaxOf(c.order, Depths(c, broken)))
  {
    var c := ClosedGraph(u, broken, known);
    SortedCloses(c, broken);
    MaxOfBounds(c.order, Depths(c, broken));
    LayersPermutation(c.order, Depths(c, broken), MaxOf(c.order, Depths(c, broken)));
    RawGraph(SortedOrder(c, broken), c.ifs)
  }

  /** Where no interface has two requirers, the loaded collection lists requirers first. */
  lemma ForestLoads(u: Graph, broken: set<Name>, known: seq<Name>)
    requires Inside(u, known) && Loads(u, broken, known)
    requires var c := ClosedGraph(u, broken, known);
             Forest(c) && NoLoops(c) && forall p :: p in c.ifs ==> p !in c.ifs[p].required
    ensures RequirersFirst(LoadedGraph(u, broken, known))
  {
    var c := ClosedGraph(u, broken, known);
    ForestSortsRequirersFirst(c, broken, LoadedGraph(u, broken, known), MaxOf(c.order, Depths(c, broken)));
  }

  // --- when a collection loads, and what is then in it ----------------------------------------

  /** What some name in the list is or leads to. */
  ghost predicate LedFrom(u: Graph, known: seq<Name>, y: Name) {
    exists k :: k in known && Leads(u, k, y)
  }

  ghost predicate BrokenBelow(u: Graph, broken: set<Name>, x: Name) {
    exists y :: Leads(u, x, y) && y in broken
  }

  lemma BelowToken(u: Graph, p: Name, c: Name, y: Name)
    requires p in u.ifs && c in u.ifs[p].required && Leads(u, c, y)
    ensures Leads(u, p, y)
  {
    if c != p {
      LeadsBefore(u, p, c, y);
    }
  }

  /** A visit adds only what x leads to; and one that fails has met a broken interface there. */
  lemma {:induction false} ExploreLed(u: Graph, broken: set<Name>, known: seq<Name>, count: map<Name, nat>,
                                      pending: set<Name>, x: Name, depth: nat)
    requires count.Keys == u.ifs.Keys && pending <= u.ifs.Keys && x in u.ifs
    ensures var r := Explore(u, broken, known, count, pending, x, depth);
            && (forall y :: y in r.known ==> y in known || Leads(u, x, y))
            && (!r.ok ==> BrokenBelow(u, broken, x))
    decreases Free(u, pending), 0, 0
  {
    LeadsSelf(u, x);
    if x !in pending && x !in broken {
      BelowReady(u, count, pending, x, depth);
      ExploreAllLed(u, broken, known, count[x := depth], pending + {x}, x, u.ifs[x].required, depth + 1);
    }
  }

  lemma {:induction false} ExploreAllLed(u: Graph, broken: set<Name>, known: seq<Name>, count: map<Name, nat>,
                                         pending: set<Name>, p: Name, tokens: seq<Name>, depth: nat)
    requires count.Keys == u.ifs.Keys && pending <= u.ifs.Keys && Requirements(u, p, tokens)
    requires forall c :: c in tokens ==> c in u.ifs
    ensures var r := ExploreAll(u, broken, known, count, pending, tokens, depth);
            && (forall y :: y in r.known ==> y in known || Leads(u, p, y))
            && (!r.ok ==> BrokenBelow(u, broken, p))
    decreases Free(u, pending), 1, |tokens|
  {
    if tokens != [] {
      var c := tokens[0];
      var found := Find(known, c);
      var r := Explore(u, broken, found, count, pending, c, depth);
      ExploreLed(u, broken, found, count, pending, c, depth);
      LeadsSelf(u, c);
      forall y | Leads(u, c, y)
        ensures Leads(u, p, y)
      {
        BelowToken(u, p, c, y);
      }
      if r.ok {
        ExploreAllLed(u, broken, r.known, r.count, pending, p, tokens[1..], depth);
      }
    }
  }

  lemma {:induction false} PassLed(u: Graph, broken: set<Name>, known: seq<Name>, count: map<Name, nat>, i: nat,
                                   first: seq<Name>)
    requires count.Keys == u.ifs.Keys && Inside(u, known) && i <= |known|
    requires forall x :: x in known ==> LedFrom(u, first, x)
    ensures var r := ExplorePass(u, broken, known, count, i);
            && (forall x :: x in r.known ==> LedFrom(u, first, x))
            && (!r.ok ==> exists y :: LedFrom(u, first, y) && y in broken)
    decreases |u.ifs| - i
  {
    InsideFits(u, known);
    if i < |known| {
      var x := known[i];
      var r := Explore(u, broken, known, count, {}, x, count[x]);
      ExploreKnows(u, broken, known, count, {}, x, count[x]);
      ExploreLed(u, broken, known, count, {}, x, count[x]);
      assert x in known;
      forall y | Leads(u, x, y)
        ensures LedFrom(u, first, y)
      {
        LedThrough(u, first, x, y);
      }
      if r.ok {
        PassLed(u, broken, r.known, r.count, i + 1, first);
      }
    }
  }

  lemma LedThrough(u: Graph, first: seq<Name>, x: Name, y: Name)
    requires LedFrom(u, first, x) && Leads(u, x, y)
    ensures LedFrom(u, first, y)
  {
    var k :| k in first && Leads(u, k, x);
    LeadsTransitive(u, k, x, y);
  }

  lemma LedInside(u: Graph, c: Graph, k: Name, y: Name)
    requires k in c.ifs && Leads(u, k, y) && forall x :: x in c.ifs ==> x in u.ifs && c.ifs[x] == u.ifs[x]
    ensures y in c.ifs
  {
    var walk :| IsWalk(u, walk) && walk[0] == k && walk[|walk| - 1] == y;
    for i := 1 to |walk|
      invariant walk[i - 1] in c.ifs
    {
      assert Requires(u, walk[i - 1], walk[i - 1 + 1]);
    }
  }

  lemma StartsLed(u: Graph, known: seq<Name>)
    requires Inside(u, known)
    ensures forall x :: x in known ==> LedFrom(u, known, x)
  {
    forall x | x in known
      ensures LedFrom(u, known, x)
    {
      LeadsSelf(u, x);
    }
  }

  lemma ClosedIs(u: Graph, broken: set<Name>, known: seq<Name>)
    requires Inside(u, known) && Loads(u, broken, known)
    ensures var c := ClosedGraph(u, broken, known);
            && c.order == ExplorePass(u, broken, known, Uncounted(u), 0).known
            && (forall x :: x in known ==> x in c.ifs)
            && (forall x :: x in c.ifs ==> x in u.ifs && c.ifs[x] == u.ifs[x])
  {
    var c := ClosedGraph(u, broken, known);
    assert forall x :: x in known ==> x in c.order;
  }

  lemma LoadedAsked(u: Graph, broken: set<Name>, known: seq<Name>)
    requires Inside(u, known) && Loads(u, broken, known)
    ensures forall y :: y in ClosedGraph(u, broken, known).ifs ==> y !in broken
  {
    PassSucceedsIff(ClosedGraph(u, broken, known), broken);
  }

  lemma LoadedReaches(u: Graph, c: Graph, known: seq<Name>, y: Name)
    requires LedFrom(u, known, y) && (forall x :: x in known ==> x in c.ifs)
    requires forall x :: x in c.ifs ==> x in u.ifs && c.ifs[x] == u.ifs[x]
    ensures y in c.ifs
  {
    var k :| k in known && Leads(u, k, y);
    LedInside(u, c, k, y);
  }

  /** What a successful pass leaves: exactly what the parsed names are or lead to. */
  lemma LoadedHas(u: Graph, broken: set<Name>, known: seq<Name>, y: Name)
    requires Inside(u, known) && Loads(u, broken, known)
    ensures y in ClosedGraph(u, broken, known).ifs <==> LedFrom(u, known, y)
    ensures LedFrom(u, known, y) ==> y !in broken
  {
    ClosedIs(u, broken, known);
    LoadedAsked(u, broken, known);
    var c := ClosedGraph(u, broken, known);
    if LedFrom(u, known, y) {
      LoadedReaches(u, c, known, y);
    }
    if y in c.ifs {
      assert y in c.order;
      StartsLed(u, known);
      PassLed(u, broken, known, Uncounted(u), 0, known);
    }
  }

  /** The pass succeeds exactly when the executors of every interface that is configured, or that
      one leads to, can tell its dependencies; and then the collection has exactly these. */
  lemma LoadsIff(u: Graph, broken: set<Name>, known: seq<Name>)
    requires Inside(u, known)
    ensures Loads(u, broken, known) <==> forall y :: LedFrom(u, known, y) ==> y !in broken
    ensures Loads(u, broken, known) ==>
              forall y :: y in ClosedGraph(u, broken, known).ifs <==> LedFrom(u, known, y)
  {
    if Loads(u, broken, known) {
      forall y
        ensures y in ClosedGraph(u, broken, known).ifs <==> LedFrom(u, known, y)
        ensures LedFrom(u, known, y) ==> y !in broken
      {
        LoadedHas(u, broken, known, y);
      }
    } else {
      StartsLed(u, known);
      PassLed(u, broken, known, Uncounted(u), 0, known);
    }
  }
}
