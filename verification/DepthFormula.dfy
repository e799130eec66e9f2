/** Without loops, the depths that the pass ends with, read off the graph and the list. */
module DepthFormula {
  import opened Graphs
  import opened StableSort
  import opened Depth
  import opened AutoTeardown
  import opened DepthOrder

  ghost function Below(g: Graph, x: Name): set<Name> {
    set z | z in g.ifs && Leads(g, x, z)
  }

  ghost function Above(g: Graph, y: Name): set<Name> {
    set z | z in g.ifs && Leads(g, z, y)
  }

  lemma SmallerSet(a: set<Name>, b: set<Name>, x: Name)
    requires a <= b && x in b && x !in a
    ensures |a| < |b|
  {
    assert a <= b - {x};
    SubsetSize(a, b - {x});
  }

  lemma {:induction false} SubsetSize(a: set<Name>, b: set<Name>)
    requires a <= b
    ensures |a| <= |b|
  {
    if a != {} {
      var x :| x in a;
      SubsetSize(a - {x}, b - {x});
    }
  }

  lemma LeadsTransitive(g: Graph, a: Name, b: Name, c: Name)
    requires Leads(g, a, b) && Leads(g, b, c)
    ensures Leads(g, a, c)
  {
    var p :| IsWalk(g, p) && p[0] == a && p[|p| - 1] == b;
    var q :| IsWalk(g, q) && q[0] == b && q[|q| - 1] == c;
    JoinWalks(g, p, q);
  }

  lemma JoinWalks(g: Graph, p: seq<Name>, q: seq<Name>)
    requires IsWalk(g, p) && IsWalk(g, q) && p[|p| - 1] == q[0]
    ensures var w := p + q[1..]; IsWalk(g, w) && w[0] == p[0] && w[|w| - 1] == q[|q| - 1]
  {
    var w := p + q[1..];
    forall i | 0 <= i < |w| - 1
      ensures Requires(g, w[i], w[i + 1])
    {
      if i < |p| - 1 {
        assert Requires(g, p[i], p[i + 1]);
      } else {
        var k := i - (|p| - 1);
        assert w[i] == q[k] && w[i + 1] == q[k + 1];
        assert Requires(g, q[k], q[k + 1]);
      }
    }
  }

  lemma LeadsOneWay(g: Graph, a: Name, b: Name)
    requires NoLoops(g) && Leads(g, a, b) && Leads(g, b, a)
    ensures a == b
  {
    if a != b {
      var c := LeadsFirst(g, a, b);
      LeadsTransitive(g, c, b, a);
      NoWayBack(g, a, c);
    }
  }

  lemma LeadsInside(g: Graph, a: Name, b: Name)
    requires Leads(g, a, b)
    ensures a in g.ifs && b in g.ifs
  {
    var walk :| IsWalk(g, walk) && walk[0] == a && walk[|walk| - 1] == b;
    WalkInside(g, walk);
  }

  // --- the way down -----------------------------------------------------------------------

  /** Some token other than x itself leads to y. */
  ghost predicate AnyTo(g: Graph, x: Name, tokens: seq<Name>, y: Name) {
    exists c :: c in tokens && c != x && Leads(g, c, y)
  }

  /** The last such token. */
  ghost function LastTo(g: Graph, x: Name, tokens: seq<Name>, y: Name): (c: Name)
    requires AnyTo(g, x, tokens, y)
    ensures c in tokens && c != x && Leads(g, c, y)
    decreases |tokens|
  {
    if AnyTo(g, x, tokens[1..], y) then LastTo(g, x, tokens[1..], y) else tokens[0]
  }

  lemma AnyToIff(g: Graph, x: Name, y: Name)
    requires x in g.ifs && x != y
    ensures AnyTo(g, x, g.ifs[x].required, y) <==> Leads(g, x, y)
  {
    if c :| c in g.ifs[x].required && c != x && Leads(g, c, y) {
      assert Requires(g, x, c);
      LeadsBefore(g, x, c, y);
    }
    if Leads(g, x, y) {
      var c := LeadsFirst(g, x, y);
    }
  }

  lemma BelowShrinks(g: Graph, x: Name, c: Name)
    requires NoLoops(g) && Requires(g, x, c)
    ensures |Below(g, c)| < |Below(g, x)|
  {
    NoWayBack(g, x, c);
    LeadsSelf(g, x);
    forall z | z in Below(g, c)
      ensures z in Below(g, x)
    {
      LeadsBefore(g, x, c, z);
    }
    SmallerSet(Below(g, c), Below(g, x), x);
  }

  /** The length of the walk from x to y that always takes the last token leading to y. */
  ghost function Descent(g: Graph, x: Name, y: Name): nat
    requires NoLoops(g) && x in g.ifs && Leads(g, x, y)
    decreases |Below(g, x)|
  {
    if x == y then 0
    else
      AnyToIff(g, x, y);
      var c := LastTo(g, x, g.ifs[x].required, y);
      assert Requires(g, x, c);
      BelowShrinks(g, x, c);
      1 + Descent(g, c, y)
  }

  // --- one visit --------------------------------------------------------------------------

  /** A visit of x sets the depth of everything x leads to, and of nothing else. */
  ghost predicate Swept(g: Graph, count: map<Name, nat>, after: map<Name, nat>, x: Name, depth: nat)
    requires NoLoops(g) && x in g.ifs
  {
    count.Keys == after.Keys == g.ifs.Keys
    && forall y :: y in g.ifs ==> after[y] == if Leads(g, x, y) then depth + Descent(g, x, y) else count[y]
  }

  /** The visits of tokens of x: the last one that leads to an interface sets its depth. */
  ghost predicate SweptAll(g: Graph, count: map<Name, nat>, after: map<Name, nat>, x: Name, tokens: seq<Name>, depth: nat)
    requires NoLoops(g) && Requirements(g, x, tokens)
  {
    count.Keys == after.Keys == g.ifs.Keys
    && forall y :: y in g.ifs ==>
         after[y] == if AnyTo(g, x, tokens, y) then depth + Descent(g, LastTo(g, x, tokens, y), y) else count[y]
  }

  lemma SweptCons(g: Graph, count: map<Name, nat>, mid: map<Name, nat>, after: map<Name, nat>, x: Name,
                  tokens: seq<Name>, depth: nat)
    requires NoLoops(g) && Requirements(g, x, tokens) && tokens != []
    requires if tokens[0] == x then mid == count else Swept(g, count, mid, tokens[0], depth)
    requires SweptAll(g, mid, after, x, tokens[1..], depth)
    ensures SweptAll(g, count, after, x, tokens, depth)
  {
    forall y | y in g.ifs
      ensures after[y] == if AnyTo(g, x, tokens, y) then depth + Descent(g, LastTo(g, x, tokens, y), y) else count[y]
    {
      SweptConsAt(g, count, mid, after, x, tokens, depth, y);
    }
  }

  lemma SweptConsAt(g: Graph, count: map<Name, nat>, mid: map<Name, nat>, after: map<Name, nat>, x: Name,
                    tokens: seq<Name>, depth: nat, y: Name)
    requires NoLoops(g) && Requirements(g, x, tokens) && tokens != [] && y in g.ifs
    requires if tokens[0] == x then mid == count else Swept(g, count, mid, tokens[0], depth)
    requires SweptAll(g, mid, after, x, tokens[1..], depth) && count.Keys == g.ifs.Keys
    ensures after[y] == if AnyTo(g, x, tokens, y) then depth + Descent(g, LastTo(g, x, tokens, y), y) else count[y]
  {
    AnyToCons(g, x, tokens, y);
  }

  lemma AnyToCons(g: Graph, x: Name, tokens: seq<Name>, y: Name)
    requires tokens != []
    ensures AnyTo(g, x, tokens, y) <==> AnyTo(g, x, tokens[1..], y) || (tokens[0] != x && Leads(g, tokens[0], y))
  {
    assert forall d :: d in tokens <==> d == tokens[0] || d in tokens[1..];
  }

  lemma SweptOwn(g: Graph, count: map<Name, nat>, after: map<Name, nat>, x: Name, depth: nat)
    requires NoLoops(g) && x in g.ifs && count.Keys == g.ifs.Keys && Requirements(g, x, g.ifs[x].required)
    requires SweptAll(g, count[x := depth], after, x, g.ifs[x].required, depth + 1)
    ensures Swept(g, count, after, x, depth)
  {
    LeadsSelf(g, x);
    forall y | y in g.ifs
      ensures after[y] == if Leads(g, x, y) then depth + Descent(g, x, y) else count[y]
    {
      if y != x {
        AnyToIff(g, x, y);
      } else if AnyTo(g, x, g.ifs[x].required, x) {
        var c :| c in g.ifs[x].required && c != x && Leads(g, c, x);
        assert Requires(g, x, c);
        NoWayBack(g, x, c);
      }
    }
  }

  lemma {:induction false} VisitSweeps(g: Graph, broken: set<Name>, count: map<Name, nat>, pending: set<Name>, x: Name, depth: nat)
    requires count.Keys == g.ifs.Keys && pending <= g.ifs.Keys && x in g.ifs
    requires NoLoops(g) && NoneAbove(g, pending, x)
    ensures var r := Visit(g, broken, count, pending, x, depth); r.ok ==> Swept(g, count, r.count, x, depth)
    decreases Free(g, pending), 0, 0
  {
    LeadsSelf(g, x);
    if x !in broken {
      BelowReady(g, count, pending, x, depth);
      VisitAllSweeps(g, broken, count[x := depth], pending + {x}, x, g.ifs[x].required, depth + 1);
      var r := VisitAll(g, broken, count[x := depth], pending + {x}, g.ifs[x].required, depth + 1);
      if r.ok {
        SweptOwn(g, count, r.count, x, depth);
      }
    }
  }

  lemma {:induction false} VisitAllSweeps(g: Graph, broken: set<Name>, count: map<Name, nat>, pending: set<Name>,
                                          x: Name, tokens: seq<Name>, depth: nat)
    requires count.Keys == g.ifs.Keys && pending <= g.ifs.Keys && x in pending && Requirements(g, x, tokens)
    requires NoLoops(g) && NoneAbove(g, pending - {x}, x)
    ensures var r := VisitAll(g, broken, count, pending, tokens, depth);
            r.ok ==> SweptAll(g, count, r.count, x, tokens, depth)
    decreases Free(g, pending), 1, |tokens|
  {
    if tokens != [] {
      var c := tokens[0];
      var r := Visit(g, broken, count, pending, c, depth);
      if c != x {
        assert Requires(g, x, c);
        NoneAboveNext(g, pending, x, c);
        VisitSweeps(g, broken, count, pending, c, depth);
      }
      if r.ok {
        VisitAllSweeps(g, broken, r.count, pending, x, tokens[1..], depth);
        var all := VisitAll(g, broken, r.count, pending, tokens[1..], depth);
        if all.ok {
          SweptCons(g, count, r.count, all.count, x, tokens, depth);
        }
      }
    }
  }

  // --- the pass ---------------------------------------------------------------------------

  /** The depth of y after the visits of a list of interfaces. */
  ghost function DepthAfter(g: Graph, order: seq<Name>, y: Name): nat
    requires NoLoops(g) && forall x :: x in order ==> x in g.ifs
    decreases |order|
  {
    if order == [] then 0
    else
      var x, rest := order[|order| - 1], order[..|order| - 1];
      if Leads(g, x, y) then DepthAfter(g, rest, x) + Descent(g, x, y) else DepthAfter(g, rest, y)
  }

  ghost predicate CountedTo(g: Graph, count: map<Name, nat>, done: seq<Name>)
    requires NoLoops(g) && forall x :: x in done ==> x in g.ifs
  {
    count.Keys == g.ifs.Keys && forall y :: y in g.ifs ==> count[y] == DepthAfter(g, done, y)
  }

  lemma CountedNext(g: Graph, count: map<Name, nat>, after: map<Name, nat>, done: seq<Name>, x: Name)
    requires NoLoops(g) && x in g.ifs && forall y :: y in done ==> y in g.ifs
    requires CountedTo(g, count, done) && Swept(g, count, after, x, count[x])
    ensures CountedTo(g, after, done + [x])
  {
    var more := done + [x];
    assert more[..|more| - 1] == done && more[|more| - 1] == x;
  }

  ghost predicate Within(g: Graph, order: seq<Name>) {
    forall x :: x in order ==> x in g.ifs
  }

  lemma ShiftOne(g: Graph, done: seq<Name>, order: seq<Name>)
    requires order != [] && Within(g, done) && Within(g, order)
    ensures done + order == done + [order[0]] + order[1..]
    ensures Within(g, done + [order[0]]) && Within(g, order[1..]) && Within(g, done + order)
  {
  }

  lemma {:induction false} PassCountsTo(g: Graph, broken: set<Name>, count: map<Name, nat>, done: seq<Name>, order: seq<Name>)
    returns (all: seq<Name>)
    requires NoLoops(g) && Within(g, done) && Within(g, order) && CountedTo(g, count, done)
    ensures all == done + order && Within(g, all)
    ensures var r := Pass(g, broken, count, order); r.ok ==> CountedTo(g, r.count, all)
    decreases |order|
  {
    all := done + order;
    if order == [] {
      assert all == done;
    } else {
      var x := order[0];
      ShiftOne(g, done, order);
      VisitSweeps(g, broken, count, {}, x, count[x]);
      var r := Visit(g, broken, count, {}, x, count[x]);
      if r.ok {
        CountedNext(g, count, r.count, done, x);
        all := PassCountsTo(g, broken, r.count, done + [x], order[1..]);
      }
    }
  }

  // --- the formula ------------------------------------------------------------------------

  ghost predicate Led(g: Graph, order: seq<Name>, y: Name) {
    exists r :: r in order && r != y && Leads(g, r, y)
  }

  /** The last interface of the list, other than y, that leads to y. */
  ghost function LastLeader(g: Graph, order: seq<Name>, y: Name): (r: Name)
    requires Led(g, order, y)
    ensures r in order && r != y && Leads(g, r, y)
    decreases |order|
  {
    var x, rest := order[|order| - 1], order[..|order| - 1];
    if x != y && Leads(g, x, y) then x
    else
      assert forall r :: r in order ==> r == x || r in rest;
      LastLeader(g, rest, y)
  }

  lemma AboveShrinks(g: Graph, r: Name, y: Name)
    requires NoLoops(g) && Leads(g, r, y) && r != y
    ensures |Above(g, r)| < |Above(g, y)|
  {
    LeadsInside(g, r, y);
    LeadsSelf(g, y);
    forall z | z in Above(g, r)
      ensures z in Above(g, y) && z != y
    {
      LeadsTransitive(g, z, r, y);
      if z == y {
        LeadsOneWay(g, r, y);
      }
    }
    SmallerSet(Above(g, r), Above(g, y), y);
  }

  /** The depth of y, by graph and list alone: 0 if nothing leads to y; otherwise, from the last
      interface in the list that does, the way down by last tokens. */
  ghost function DepthOf(g: Graph, y: Name): nat
    requires NoLoops(g) && y in g.ifs
    decreases |Above(g, y)|
  {
    if !Led(g, g.order, y) then 0
    else
      var r := LastLeader(g, g.order, y);
      AboveShrinks(g, r, y);
      DepthOf(g, r) + Descent(g, r, y)
  }

  lemma {:induction false} NotLedZero(g: Graph, order: seq<Name>, y: Name)
    requires NoLoops(g) && (forall x :: x in order ==> x in g.ifs) && !Led(g, order, y)
    ensures DepthAfter(g, order, y) == 0
    decreases |order|
  {
    if order != [] {
      var x, rest := order[|order| - 1], order[..|order| - 1];
      assert x in order && forall r :: r in rest ==> r in order;
      NotLedZero(g, rest, y);
    }
  }

  lemma {:induction false} LeaderDecides(g: Graph, order: seq<Name>, y: Name)
    requires NoLoops(g) && (forall x :: x in order ==> x in g.ifs) && Led(g, order, y)
    ensures var r := LastLeader(g, order, y);
            r in g.ifs && DepthAfter(g, order, y) == DepthAfter(g, order, r) + Descent(g, r, y)
    decreases |order|
  {
    var x, rest := order[|order| - 1], order[..|order| - 1];
    assert forall r :: r in order ==> r == x || r in rest;
    if x != y && Leads(g, x, y) {
      LeadsInside(g, x, y);
      LeadsSelf(g, x);
    } else {
      LeaderDecides(g, rest, y);
      var r := LastLeader(g, rest, y);
      if Leads(g, x, r) {
        LeadsTransitive(g, x, r, y);
        LeadsOneWay(g, r, y);
      }
    }
  }

  lemma {:induction false} DepthAfterAll(g: Graph, y: Name)
    requires NoLoops(g) && y in g.ifs && forall x :: x in g.order ==> x in g.ifs
    ensures DepthAfter(g, g.order, y) == DepthOf(g, y)
    decreases |Above(g, y)|
  {
    if !Led(g, g.order, y) {
      NotLedZero(g, g.order, y);
    } else {
      LeaderDecides(g, g.order, y);
      var r := LastLeader(g, g.order, y);
      AboveShrinks(g, r, y);
      DepthAfterAll(g, r);
    }
  }

  /** Without loops a successful pass ends with the depths of the formula. */
  lemma PassDepth(g: Graph, broken: set<Name>, y: Name)
    requires NoLoops(g) && y in g.ifs && Pass(g, broken, Uncounted(g), g.order).ok
    ensures Pass(g, broken, Uncounted(g), g.order).count[y] == DepthOf(g, y)
  {
    var all := PassCountsTo(g, broken, Uncounted(g), [], g.order);
    assert all == g.order;
    DepthAfterAll(g, y);
  }

  /** By the formula c is deeper than p, or as deep and listed later. */
  ghost predicate Deeper(g: Graph, p: Name, c: Name)
    requires NoLoops(g) && p in g.ifs && c in g.ifs
  {
    DepthOf(g, p) < DepthOf(g, c) || (DepthOf(g, p) == DepthOf(g, c) && Before(g.order, p, c))
  }

  /** So, without loops, the sort lists requirers first exactly when for every requirement the
      formula gives more than for its requirer, or as much and the list had it later. */
  lemma SortsRequirersFirstByGraph(g: Graph, broken: set<Name>, sorted: Graph, maxdepth: nat)
    requires NoLoops(g) && Pass(g, broken, Uncounted(g), g.order).ok && SortedFrom(g, broken, sorted, maxdepth)
    requires forall x :: x in g.ifs ==> DepthOf(g, x) <= maxdepth
    ensures RequirersFirst(sorted) <==> forall p, c :: Edge(g, p, c) && c in g.ifs ==> Deeper(g, p, c)
  {
    var count := Pass(g, broken, Uncounted(g), g.order).count;
    forall x | x in g.ifs
      ensures count[x] == DepthOf(g, x)
    {
      PassDepth(g, broken, x);
    }
    SortsRequirersFirstIff(g, broken, sorted, maxdepth);
    assert forall p, c :: p in g.ifs && c in g.ifs ==> (Behind(g, count, p, c) <==> Deeper(g, p, c));
  }
}
