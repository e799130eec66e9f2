/** How the collection closes itself: looking up a required interface creates it, at the end of
    the list that the dependency pass is still walking. */
module Growth {
  import opened Graphs
  import opened Depth
  import opened Interfaces

  /** The known interfaces in list order, their depths, and whether all went well. */
  datatype Grown = Grown(known: seq<Name>, count: map<Name, nat>, ok: bool)

  ghost predicate Inside(u: Graph, known: seq<Name>) {
    && (forall x :: x in known ==> x in u.ifs)
    && (forall i, j :: 0 <= i < j < |known| ==> known[i] != known[j])
  }

  /** A lookup never fails: an unknown interface is appended to the collection. */
  function Find(known: seq<Name>, x: Name): (r: seq<Name>)
    ensures known <= r && forall y :: y in r <==> y in known || y == x
  {
    if x in known then known else known + [x]
  }

  /** The collection, changed in place. */
  class Collection {
    var order: seq<Name>
    var byName: map<Name, Interface>

    ghost predicate Valid()
      reads this
    {
      && (forall x :: x in order <==> x in byName)
      && (forall i, j :: 0 <= i < j < |order| ==> order[i] != order[j])
      && (forall x :: x in byName ==> byName[x].ifname == x)
    }

    constructor ()
      ensures Valid() && order == [] && byName == map[]
    {
      order := [];
      byName := map[];
    }

    /** The interface of that name, created at the end of the list if there is none yet. */
    method Lookup(x: Name, blank: Config) returns (iface: Interface)
      requires Valid() && !blank.isAuto
      modifies this
      ensures Valid() && order == Find(old(order), x) && x in byName && iface == byName[x]
      ensures byName == old(byName)[x := iface]
      ensures x in old(byName) ==> iface == old(byName)[x]
      ensures x !in old(byName) ==> fresh(iface) && iface.refcount == 0 && !iface.isExplicit && !iface.isPending
    {
      if x in byName {
        iface := byName[x];
      } else {
        iface := new Interface(x, blank);
        order := order + [x];
        byName := byName[x := iface];
      }
    }
  }

  /** The visit of the depth walk with the lookups it makes. `u` says of every name what its
      configuration is, or would be once the interface is created. */
  function Explore(u: Graph, broken: set<Name>, known: seq<Name>, count: map<Name, nat>, pending: set<Name>,
                   x: Name, depth: nat): (r: Grown)
    requires count.Keys == u.ifs.Keys && pending <= u.ifs.Keys && x in u.ifs
    ensures r.count.Keys == u.ifs.Keys
    decreases Free(u, pending), 0, 0
  {
    if x in pending then Grown(known, count, true)
    else if x in broken then Grown(known, count, false)
    else
      BelowReady(u, count, pending, x, depth);
      ExploreAll(u, broken, known, count[x := depth], pending + {x}, u.ifs[x].required, depth + 1)
  }

  function ExploreAll(u: Graph, broken: set<Name>, known: seq<Name>, count: map<Name, nat>, pending: set<Name>,
                      tokens: seq<Name>, depth: nat): (r: Grown)
    requires count.Keys == u.ifs.Keys && pending <= u.ifs.Keys && forall c :: c in tokens ==> c in u.ifs
    ensures r.count.Keys == u.ifs.Keys
    decreases Free(u, pending), 1, |tokens|
  {
    if tokens == [] then Grown(known, count, true)
    else
      var r := Explore(u, broken, Find(known, tokens[0]), count, pending, tokens[0], depth);
      if !r.ok then r else ExploreAll(u, broken, r.known, r.count, pending, tokens[1..], depth)
  }

  /** Lookups do not change what the walk counts. */
  lemma {:induction false} ExploreCounts(u: Graph, broken: set<Name>, known: seq<Name>, count: map<Name, nat>,
                                         pending: set<Name>, x: Name, depth: nat)
    requires count.Keys == u.ifs.Keys && pending <= u.ifs.Keys && x in u.ifs
    ensures var r := Explore(u, broken, known, count, pending, x, depth);
            Visit(u, broken, count, pending, x, depth) == Counted(r.count, r.ok)
    decreases Free(u, pending), 0, 0
  {
    if x !in pending && x !in broken {
      BelowReady(u, count, pending, x, depth);
      ExploreAllCounts(u, broken, known, count[x := depth], pending + {x}, u.ifs[x].required, depth + 1);
    }
  }

  lemma {:induction false} ExploreAllCounts(u: Graph, broken: set<Name>, known: seq<Name>, count: map<Name, nat>,
                                            pending: set<Name>, tokens: seq<Name>, depth: nat)
    requires count.Keys == u.ifs.Keys && pending <= u.ifs.Keys && forall c :: c in tokens ==> c in u.ifs
    ensures var r := ExploreAll(u, broken, known, count, pending, tokens, depth);
            VisitAll(u, broken, count, pending, tokens, depth) == Counted(r.count, r.ok)
    decreases Free(u, pending), 1, |tokens|
  {
    if tokens != [] {
      var r := Explore(u, broken, Find(known, tokens[0]), count, pending, tokens[0], depth);
      ExploreCounts(u, broken, Find(known, tokens[0]), count, pending, tokens[0], depth);
      if r.ok {
        ExploreAllCounts(u, broken, r.known, r.count, pending, tokens[1..], depth);
      }
    }
  }

  /** A visit only appends to the collection, and when it succeeds what x requires is there. */
  lemma {:induction false} ExploreKnows(u: Graph, broken: set<Name>, known: seq<Name>, count: map<Name, nat>,
                                        pending: set<Name>, x: Name, depth: nat)
    requires count.Keys == u.ifs.Keys && pending <= u.ifs.Keys && x in u.ifs && Inside(u, known)
    ensures var r := Explore(u, broken, known, count, pending, x, depth);
            && known <= r.known && Inside(u, r.known)
            && (r.ok && x !in pending ==> forall c :: c in u.ifs[x].required ==> c in r.known)
    decreases Free(u, pending), 0, 0
  {
    if x !in pending && x !in broken {
      BelowReady(u, count, pending, x, depth);
      ExploreAllKnows(u, broken, known, count[x := depth], pending + {x}, u.ifs[x].required, depth + 1);
    }
  }

  lemma {:induction false} ExploreAllKnows(u: Graph, broken: set<Name>, known: seq<Name>, count: map<Name, nat>,
                                           pending: set<Name>, tokens: seq<Name>, depth: nat)
    requires count.Keys == u.ifs.Keys && pending <= u.ifs.Keys && (forall c :: c in tokens ==> c in u.ifs) && Inside(u, known)
    ensures var r := ExploreAll(u, broken, known, count, pending, tokens, depth);
            && known <= r.known && Inside(u, r.known)
            && (r.ok ==> forall c :: c in tokens ==> c in r.known)
    decreases Free(u, pending), 1, |tokens|
  {
    if tokens != [] {
      var found := Find(known, tokens[0]);
      var r := Explore(u, broken, found, count, pending, tokens[0], depth);
      ExploreKnows(u, broken, found, count, pending, tokens[0], depth);
      assert tokens[0] in r.known by {
        PrefixHas(found, r.known, tokens[0]);
      }
      if r.ok {
        ExploreAllKnows(u, broken, r.known, r.count, pending, tokens[1..], depth);
        var all := ExploreAll(u, broken, r.known, r.count, pending, tokens[1..], depth);
        PrefixHas(r.known, all.known, tokens[0]);
      }
    }
  }

  lemma PrefixHas(a: seq<Name>, b: seq<Name>, x: Name)
    requires a <= b && x in a
    ensures x in b
  {
    var i :| 0 <= i < |a| && a[i] == x;
    assert b[i] == x;
  }

  // --- the pass over the growing list --------------------------------------------------------

  lemma InsideFits(u: Graph, known: seq<Name>)
    requires Inside(u, known)
    ensures |known| <= |u.ifs|
  {
    DistinctFit(known, u.ifs.Keys);
    assert |u.ifs.Keys| == |u.ifs|;
  }

  /** The pass from position i on. It also meets the interfaces created on the way, and ends. */
  function ExplorePass(u: Graph, broken: set<Name>, known: seq<Name>, count: map<Name, nat>, i: nat): (r: Grown)
    requires count.Keys == u.ifs.Keys && Inside(u, known) && i <= |known|
    ensures known <= r.known && Inside(u, r.known) && r.count.Keys == u.ifs.Keys
    decreases |u.ifs| - i
  {
    InsideFits(u, known);
    if i == |known| then Grown(known, count, true)
    else
      var r := Explore(u, broken, known, count, {}, known[i], count[known[i]]);
      ExploreKnows(u, broken, known, count, {}, known[i], count[known[i]]);
      if !r.ok then r else ExplorePass(u, broken, r.known, r.count, i + 1)
  }

  /** What the first interfaces require is in the collection. */
  ghost predicate Supplies(u: Graph, known: seq<Name>, i: nat) {
    forall k, c :: 0 <= k < i && k < |known| && known[k] in u.ifs && c in u.ifs[known[k]].required ==> c in known
  }

  lemma SuppliesMore(u: Graph, known: seq<Name>, more: seq<Name>, i: nat)
    requires known <= more && i < |known| && Supplies(u, known, i)
    requires known[i] in u.ifs && forall c :: c in u.ifs[known[i]].required ==> c in more
    ensures Supplies(u, more, i + 1)
  {
    forall k, c | 0 <= k < i + 1 && more[k] in u.ifs && c in u.ifs[more[k]].required
      ensures c in more
    {
      assert more[k] == known[k];
      if k < i {
        PrefixHas(known, more, c);
      }
    }
  }

  lemma {:induction false} PassSupplies(u: Graph, broken: set<Name>, known: seq<Name>, count: map<Name, nat>, i: nat)
    requires count.Keys == u.ifs.Keys && Inside(u, known) && i <= |known| && Supplies(u, known, i)
    ensures var r := ExplorePass(u, broken, known, count, i); r.ok ==> Supplies(u, r.known, |r.known|)
    decreases |u.ifs| - i
  {
    InsideFits(u, known);
    if i < |known| {
      var r := Explore(u, broken, known, count, {}, known[i], count[known[i]]);
      ExploreKnows(u, broken, known, count, {}, known[i], count[known[i]]);
      if r.ok {
        SuppliesMore(u, known, r.known, i);
        PassSupplies(u, broken, r.known, r.count, i + 1);
      }
    }
  }

  lemma {:induction false} PassCounts(u: Graph, broken: set<Name>, known: seq<Name>, count: map<Name, nat>, i: nat)
    requires count.Keys == u.ifs.Keys && Inside(u, known) && i <= |known|
    ensures var r := ExplorePass(u, broken, known, count, i);
            r.ok ==> Pass(u, broken, count, r.known[i..]) == Counted(r.count, true)
    decreases |u.ifs| - i
  {
    InsideFits(u, known);
    if i < |known| {
      var x := known[i];
      var r := Explore(u, broken, known, count, {}, x, count[x]);
      ExploreKnows(u, broken, known, count, {}, x, count[x]);
      ExploreCounts(u, broken, known, count, {}, x, count[x]);
      if r.ok {
        PassCounts(u, broken, r.known, r.count, i + 1);
        var all := ExplorePass(u, broken, r.known, r.count, i + 1);
        assert all.known[i..][0] == x && all.known[i..][1..] == all.known[i + 1..];
      }
    }
  }

  // --- the collection left behind --------------------------------------------------------------

  ghost predicate PartOf(g: Graph, u: Graph) {
    forall x :: x in g.ifs ==> x in u.ifs && u.ifs[x] == g.ifs[x]
  }

  ghost predicate SameDepths(g: Graph, u: Graph, own: map<Name, nat>, count: map<Name, nat>) {
    own.Keys == g.ifs.Keys && count.Keys == u.ifs.Keys && forall x :: x in own && x in count ==> own[x] == count[x]
  }

  lemma SameDepthsThen(g: Graph, u: Graph, own: map<Name, nat>, count: map<Name, nat>, x: Name, depth: nat)
    requires SameDepths(g, u, own, count) && x in g.ifs && x in u.ifs
    ensures SameDepths(g, u, own[x := depth], count[x := depth])
  {
  }

  /** On a closed part the walk does what it does on the whole. */
  lemma {:induction false} VisitPart(g: Graph, u: Graph, broken: set<Name>, own: map<Name, nat>, count: map<Name, nat>,
                                     pending: set<Name>, x: Name, depth: nat)
    requires PartOf(g, u) && SameDepths(g, u, own, count) && pending <= g.ifs.Keys && x in g.ifs
    ensures pending <= u.ifs.Keys
    ensures var r, s := Visit(g, broken, own, pending, x, depth), Visit(u, broken, count, pending, x, depth);
            r.ok == s.ok && SameDepths(g, u, r.count, s.count)
    decreases Free(g, pending), 0, 0
  {
    if x !in pending && x !in broken {
      BelowReady(g, own, pending, x, depth);
      BelowReady(u, count, pending, x, depth);
      var mine, theirs, tokens := own[x := depth], count[x := depth], g.ifs[x].required;
      SameDepthsThen(g, u, own, count, x, depth);
      VisitAllPart(g, u, broken, mine, theirs, pending + {x}, tokens, depth + 1);
      assert Visit(g, broken, own, pending, x, depth) == VisitAll(g, broken, mine, pending + {x}, tokens, depth + 1);
      assert Visit(u, broken, count, pending, x, depth) == VisitAll(u, broken, theirs, pending + {x}, tokens, depth + 1);
    }
  }

  lemma {:induction false} VisitAllPart(g: Graph, u: Graph, broken: set<Name>, own: map<Name, nat>,
                                        count: map<Name, nat>,
                                        pending: set<Name>, tokens: seq<Name>, depth: nat)
    requires PartOf(g, u) && SameDepths(g, u, own, count) && pending <= g.ifs.Keys
    requires forall c :: c in tokens ==> c in g.ifs
    ensures pending <= u.ifs.Keys && forall c :: c in tokens ==> c in u.ifs
    ensures var r, s := VisitAll(g, broken, own, pending, tokens, depth), VisitAll(u, broken, count, pending, tokens, depth);
            r.ok == s.ok && SameDepths(g, u, r.count, s.count)
    decreases Free(g, pending), 1, |tokens|
  {
    if tokens != [] {
      VisitPart(g, u, broken, own, count, pending, tokens[0], depth);
      var r, s := Visit(g, broken, own, pending, tokens[0], depth), Visit(u, broken, count, pending, tokens[0], depth);
      if r.ok {
        VisitAllPart(g, u, broken, r.count, s.count, pending, tokens[1..], depth);
      }
    }
  }

  lemma {:induction false} PassPart(g: Graph, u: Graph, broken: set<Name>, own: map<Name, nat>, count: map<Name, nat>,
                                    order: seq<Name>)
    requires PartOf(g, u) && SameDepths(g, u, own, count) && forall x :: x in order ==> x in g.ifs
    ensures forall x :: x in order ==> x in u.ifs
    ensures var r, s := Pass(g, broken, own, order), Pass(u, broken, count, order);
            r.ok == s.ok && SameDepths(g, u, r.count, s.count)
    decreases |order|
  {
    if order != [] {
      var x := order[0];
      VisitPart(g, u, broken, own, count, {}, x, own[x]);
      var r, s := Visit(g, broken, own, {}, x, own[x]), Visit(u, broken, count, {}, x, count[x]);
      if r.ok {
        PassPart(g, u, broken, r.count, s.count, order[1..]);
      }
    }
  }

  function Restricted(u: Graph, known: seq<Name>): RawGraph
    requires forall x :: x in known ==> x in u.ifs
  {
    RawGraph(known, map x | x in known :: u.ifs[x])
  }

  /** The closed graph that everything else starts from is what the pass leaves: whatever the
      parsed collection, after a successful pass every required interface is in the collection,
      old interfaces keep their places, and the depths are those of the walk on that graph. */
  lemma PassCloses(u: Graph, broken: set<Name>, known: seq<Name>)
    requires Inside(u, known)
    ensures var r := ExplorePass(u, broken, known, Uncounted(u), 0);
            r.ok ==>
              && known <= r.known && Closed(Restricted(u, r.known))
              && var g: Graph := Restricted(u, r.known);
                 var own := Pass(g, broken, Uncounted(g), g.order);
                 own.ok && forall x :: x in g.ifs ==> own.count[x] == r.count[x]
  {
    var r := ExplorePass(u, broken, known, Uncounted(u), 0);
    PassSupplies(u, broken, known, Uncounted(u), 0);
    PassCounts(u, broken, known, Uncounted(u), 0);
    if r.ok {
      assert Closed(Restricted(u, r.known)) by {
        RestrictedCloses(u, r.known);
      }
      var g: Graph := Restricted(u, r.known);
      PassPart(g, u, broken, Uncounted(g), Uncounted(u), g.order);
      assert r.known[0..] == g.order;
    }
  }

  lemma RestrictedCloses(u: Graph, known: seq<Name>)
    requires Inside(u, known) && Supplies(u, known, |known|)
    ensures Closed(Restricted(u, known))
  {
    var g := Restricted(u, known);
    forall p, c | p in g.ifs && c in g.ifs[p].required
      ensures c in g.ifs
    {
      var k :| 0 <= k < |known| && known[k] == p;
    }
  }
}
