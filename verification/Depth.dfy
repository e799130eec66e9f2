/** The depth walk: how far from a requirer each interface lies, as the program counts it. */
module Depth {
  import opened Graphs

  function Free(g: Graph, pending: set<Name>): nat {
    |g.ifs.Keys - pending|
  }

  datatype Counted = Counted(count: map<Name, nat>, ok: bool)

  /** One visit. `broken` are the interfaces whose executors cannot tell their dependencies;
      an interface still pending is left alone, which breaks loops; a later visit overwrites
      the depth of an earlier one. */
  function Visit(g: Graph, broken: set<Name>, count: map<Name, nat>, pending: set<Name>, x: Name,
                 depth: nat): (r: Counted)
    requires count.Keys == g.ifs.Keys && pending <= g.ifs.Keys && x in g.ifs
    ensures r.count.Keys == g.ifs.Keys
    decreases Free(g, pending), 0, 0
  {
    if x in pending then Counted(count, true)
    else if x in broken then Counted(count, false)
    else
      BelowReady(g, count, pending, x, depth);
      VisitAll(g, broken, count[x := depth], pending + {x}, g.ifs[x].required, depth + 1)
  }

  function VisitAll(g: Graph, broken: set<Name>, count: map<Name, nat>, pending: set<Name>, tokens: seq<Name>,
                    depth: nat): (r: Counted)
    requires count.Keys == g.ifs.Keys && pending <= g.ifs.Keys && forall c :: c in tokens ==> c in g.ifs
    ensures r.count.Keys == g.ifs.Keys
    decreases Free(g, pending), 1, |tokens|
  {
    if tokens == [] then Counted(count, true)
    else
      var r := Visit(g, broken, count, pending, tokens[0], depth);
      if !r.ok then r else VisitAll(g, broken, r.count, pending, tokens[1..], depth)
  }

  /** Tokens of what x requires. */
  ghost predicate Requirements(g: Graph, x: Name, tokens: seq<Name>) {
    x in g.ifs && forall c :: c in tokens ==> c in g.ifs && c in g.ifs[x].required
  }

  /** The tables with which a visit goes on below x. */
  lemma BelowReady(g: Graph, count: map<Name, nat>, pending: set<Name>, x: Name, depth: nat)
    requires count.Keys == g.ifs.Keys && pending <= g.ifs.Keys && x in g.ifs && x !in pending
    ensures count[x := depth].Keys == g.ifs.Keys && pending + {x} <= g.ifs.Keys
    ensures Requirements(g, x, g.ifs[x].required)
    ensures Free(g, pending + {x}) < Free(g, pending)
  {
    PendingGrows(g, pending, x);
  }

  lemma PendingGrows(g: Graph, pending: set<Name>, x: Name)
    requires pending <= g.ifs.Keys && x in g.ifs && x !in pending
    ensures Free(g, pending + {x}) < Free(g, pending)
  {
    assert g.ifs.Keys - (pending + {x}) == g.ifs.Keys - pending - {x};
  }

  /** Visit the collection in order, each interface at the depth it has by then. */
  function Pass(g: Graph, broken: set<Name>, count: map<Name, nat>, order: seq<Name>): (r: Counted)
    requires count.Keys == g.ifs.Keys && forall x :: x in order ==> x in g.ifs
    ensures r.count.Keys == g.ifs.Keys
    decreases |order|
  {
    if order == [] then Counted(count, true)
    else
      var r := Visit(g, broken, count, {}, order[0], count[order[0]]);
      if !r.ok then r else Pass(g, broken, r.count, order[1..])
  }

  function Uncounted(g: Graph): map<Name, nat> {
    map x | x in g.ifs :: 0
  }

  // --- walks -----------------------------------------------------------------------------

  /** p requires another interface c. */
  ghost predicate Requires(g: Graph, p: Name, c: Name) {
    p in g.ifs && c in g.ifs[p].required && c != p
  }

  ghost predicate IsWalk(g: Graph, walk: seq<Name>) {
    |walk| >= 1 && walk[0] in g.ifs && forall i :: 0 <= i < |walk| - 1 ==> Requires(g, walk[i], walk[i + 1])
  }

  ghost predicate EndsAt(g: Graph, walk: seq<Name>, x: Name) {
    IsWalk(g, walk) && walk[|walk| - 1] == x
  }

  /** Some chain of n requirements ends at x. */
  ghost predicate ReachedIn(g: Graph, x: Name, n: nat)
    decreases n
  {
    if n == 0 then x in g.ifs
    else exists p :: Requires(g, p, x) && ReachedIn(g, p, n - 1)
  }

  lemma {:induction false} ReachedWalk(g: Graph, x: Name, n: nat) returns (walk: seq<Name>)
    requires ReachedIn(g, x, n)
    ensures EndsAt(g, walk, x) && |walk| == n + 1
    decreases n
  {
    if n == 0 {
      walk := [x];
    } else {
      var p :| Requires(g, p, x) && ReachedIn(g, p, n - 1);
      var shorter := ReachedWalk(g, p, n - 1);
      walk := shorter + [x];
    }
  }

  /** x requires y, directly or through others, or is y. */
  ghost predicate Leads(g: Graph, x: Name, y: Name) {
    exists walk: seq<Name> :: IsWalk(g, walk) && walk[0] == x && walk[|walk| - 1] == y
  }

  ghost predicate NoLoops(g: Graph) {
    forall walk: seq<Name> :: IsWalk(g, walk) && |walk| > 1 ==> walk[0] != walk[|walk| - 1]
  }

  /** No interface has two requirers. */
  ghost predicate Forest(g: Graph) {
    forall p, q, c :: Requires(g, p, c) && Requires(g, q, c) ==> p == q
  }

  lemma LeadsSelf(g: Graph, x: Name)
    requires x in g.ifs
    ensures Leads(g, x, x)
  {
    assert IsWalk(g, [x]) && [x][0] == x;
  }

  lemma LeadsBefore(g: Graph, p: Name, c: Name, y: Name)
    requires Requires(g, p, c) && Leads(g, c, y)
    ensures Leads(g, p, y)
  {
    var walk :| IsWalk(g, walk) && walk[0] == c && walk[|walk| - 1] == y;
    WalkBefore(g, p, walk);
  }

  lemma WalkBefore(g: Graph, p: Name, walk: seq<Name>)
    requires IsWalk(g, walk) && Requires(g, p, walk[0])
    ensures var longer := [p] + walk;
            IsWalk(g, longer) && longer[0] == p && longer[|longer| - 1] == walk[|walk| - 1]
  {
    var longer := [p] + walk;
    assert forall i :: 0 < i < |longer| ==> longer[i] == walk[i - 1];
  }

  lemma WalkInside(g: Graph, walk: seq<Name>)
    requires IsWalk(g, walk)
    ensures forall i :: 0 <= i < |walk| ==> walk[i] in g.ifs
  {
    forall i | 0 <= i < |walk|
      ensures walk[i] in g.ifs
    {
      if i > 0 {
        assert Requires(g, walk[i - 1], walk[i - 1 + 1]);
      }
    }
  }

  lemma PartWalk(g: Graph, walk: seq<Name>, i: nat, j: nat)
    requires IsWalk(g, walk) && i <= j < |walk|
    ensures IsWalk(g, walk[i..j + 1])
  {
    WalkInside(g, walk);
    var part := walk[i..j + 1];
    forall k | 0 <= k < |part| - 1
      ensures Requires(g, part[k], part[k + 1])
    {
      assert Requires(g, walk[i + k], walk[i + k + 1]);
    }
  }

  /** Whoever leads to another interface leads to a requirer of it. */
  lemma LeadsLast(g: Graph, x: Name, y: Name) returns (q: Name)
    requires Leads(g, x, y) && x != y
    ensures Leads(g, x, q) && Requires(g, q, y)
  {
    var walk :| IsWalk(g, walk) && walk[0] == x && walk[|walk| - 1] == y;
    var shorter := walk[..|walk| - 1];
    q := walk[|walk| - 2];
    assert Requires(g, walk[|walk| - 2], walk[|walk| - 2 + 1]);
    assert IsWalk(g, shorter) && shorter[0] == x && shorter[|shorter| - 1] == q;
  }

  /** Whoever leads to another interface requires one that leads there. */
  lemma LeadsFirst(g: Graph, x: Name, y: Name) returns (c: Name)
    requires Leads(g, x, y) && x != y
    ensures Requires(g, x, c) && Leads(g, c, y)
  {
    var walk :| IsWalk(g, walk) && walk[0] == x && walk[|walk| - 1] == y;
    c := walk[1];
    WalkInside(g, walk);
    assert Requires(g, walk[0], walk[0 + 1]);
    PartWalk(g, walk, 1, |walk| - 1);
    assert walk[1..|walk| - 1 + 1][0] == c;
  }

  lemma NoWayBack(g: Graph, p: Name, c: Name)
    requires NoLoops(g) && Requires(g, p, c)
    ensures !Leads(g, c, p)
  {
    forall walk | IsWalk(g, walk) && walk[0] == c
      ensures walk[|walk| - 1] != p
    {
      WalkBefore(g, p, walk);
    }
  }

  // --- a depth is the length of a walk -----------------------------------------------------

  /** Every depth in the table has the property. */
  ghost predicate Everywhere(count: map<Name, nat>, holds: (Name, nat) -> bool) {
    forall x :: x in count ==> holds(x, count[x])
  }

  ghost predicate Inherited(g: Graph, holds: (Name, nat) -> bool) {
    forall p, c, n: nat :: holds(p, n) && Requires(g, p, c) ==> holds(c, n + 1)
  }

  lemma EverywhereThen(count: map<Name, nat>, x: Name, depth: nat, holds: (Name, nat) -> bool)
    requires Everywhere(count, holds) && holds(x, depth)
    ensures Everywhere(count[x := depth], holds)
  {
  }

  /** A property of depths that holds at the start and passes on along requirements holds
      of every depth a visit writes. */
  lemma {:induction false} VisitKeeps(g: Graph, broken: set<Name>, count: map<Name, nat>, pending: set<Name>, x: Name,
                                      depth: nat, holds: (Name, nat) -> bool)
    requires count.Keys == g.ifs.Keys && pending <= g.ifs.Keys && x in g.ifs
    requires Inherited(g, holds) && Everywhere(count, holds) && holds(x, depth)
    ensures Everywhere(Visit(g, broken, count, pending, x, depth).count, holds)
    decreases Free(g, pending), 0, 0
  {
    if x !in pending && x !in broken {
      BelowReady(g, count, pending, x, depth);
      EverywhereThen(count, x, depth, holds);
      var here, tokens := count[x := depth], g.ifs[x].required;
      VisitAllKeeps(g, broken, here, pending + {x}, x, tokens, depth, holds);
      assert Visit(g, broken, count, pending, x, depth) == VisitAll(g, broken, here, pending + {x}, tokens, depth + 1);
    }
  }

  lemma {:induction false} VisitAllKeeps(g: Graph, broken: set<Name>, count: map<Name, nat>, pending: set<Name>,
                                         p: Name, tokens: seq<Name>, depth: nat, holds: (Name, nat) -> bool)
    requires count.Keys == g.ifs.Keys && pending <= g.ifs.Keys && p in pending && Requirements(g, p, tokens)
    requires Inherited(g, holds) && Everywhere(count, holds) && holds(p, depth)
    ensures Everywhere(VisitAll(g, broken, count, pending, tokens, depth + 1).count, holds)
    decreases Free(g, pending), 1, |tokens|
  {
    if tokens != [] {
      var c := tokens[0];
      var r := Visit(g, broken, count, pending, c, depth + 1);
      if c !in pending {
        assert Requires(g, p, c);
        VisitKeeps(g, broken, count, pending, c, depth + 1, holds);
      }
      if r.ok {
        VisitAllKeeps(g, broken, r.count, pending, p, tokens[1..], depth, holds);
      }
    }
  }

  lemma {:induction false} PassKeeps(g: Graph, broken: set<Name>, count: map<Name, nat>, order: seq<Name>,
                                     holds: (Name, nat) -> bool)
    requires count.Keys == g.ifs.Keys && forall x :: x in order ==> x in g.ifs
    requires Inherited(g, holds) && Everywhere(count, holds)
    ensures Everywhere(Pass(g, broken, count, order).count, holds)
    decreases |order|
  {
    if order != [] {
      VisitKeeps(g, broken, count, {}, order[0], count[order[0]], holds);
      var r := Visit(g, broken, count, {}, order[0], count[order[0]]);
      if r.ok {
        PassKeeps(g, broken, r.count, order[1..], holds);
      }
    }
  }

  lemma DepthReached(g: Graph, broken: set<Name>, x: Name)
    requires x in g.ifs
    ensures ReachedIn(g, x, Pass(g, broken, Uncounted(g), g.order).count[x])
  {
    PassKeeps(g, broken, Uncounted(g), g.order, (y: Name, n: nat) => ReachedIn(g, y, n));
  }

  /** Every depth, whether or not the pass succeeds and on every graph, is the length of an
      actual chain of requirements that ends at the interface. */
  lemma DepthIsWalkLength(g: Graph, broken: set<Name>, x: Name) returns (walk: seq<Name>)
    requires x in g.ifs
    ensures EndsAt(g, walk, x) && |walk| == Pass(g, broken, Uncounted(g), g.order).count[x] + 1
  {
    DepthReached(g, broken, x);
    walk := ReachedWalk(g, x, Pass(g, broken, Uncounted(g), g.order).count[x]);
  }

  // --- depth zero --------------------------------------------------------------------------

  ghost predicate NeverZeroed(count: map<Name, nat>, after: map<Name, nat>) {
    count.Keys == after.Keys && forall y :: y in count && count[y] > 0 ==> after[y] > 0
  }

  lemma {:induction false} VisitNeverZeroes(g: Graph, broken: set<Name>, count: map<Name, nat>, pending: set<Name>,
                                            x: Name, depth: nat)
    requires count.Keys == g.ifs.Keys && pending <= g.ifs.Keys && x in g.ifs
    requires count[x] > 0 ==> depth > 0
    ensures var r := Visit(g, broken, count, pending, x, depth);
            NeverZeroed(count, r.count) && (r.ok && depth > 0 && x !in pending ==> r.count[x] > 0)
    decreases Free(g, pending), 0, 0
  {
    if x !in pending && x !in broken {
      BelowReady(g, count, pending, x, depth);
      var here := count[x := depth];
      VisitAllNeverZeroes(g, broken, here, pending + {x}, g.ifs[x].required, depth + 1);
      assert NeverZeroed(count, here);
    }
  }

  lemma {:induction false} VisitAllNeverZeroes(g: Graph, broken: set<Name>, count: map<Name, nat>,
                                               pending: set<Name>, tokens: seq<Name>, depth: nat)
    requires count.Keys == g.ifs.Keys && pending <= g.ifs.Keys && (forall c :: c in tokens ==> c in g.ifs) && depth > 0
    ensures var r := VisitAll(g, broken, count, pending, tokens, depth);
            NeverZeroed(count, r.count) && (r.ok ==> forall c :: c in tokens && c !in pending ==> r.count[c] > 0)
    decreases Free(g, pending), 1, |tokens|
  {
    if tokens != [] {
      VisitNeverZeroes(g, broken, count, pending, tokens[0], depth);
      var r := Visit(g, broken, count, pending, tokens[0], depth);
      if r.ok {
        VisitAllNeverZeroes(g, broken, r.count, pending, tokens[1..], depth);
      }
    }
  }

  lemma {:induction false} PassNeverZeroes(g: Graph, broken: set<Name>, count: map<Name, nat>, order: seq<Name>)
    requires count.Keys == g.ifs.Keys && forall x :: x in order ==> x in g.ifs
    ensures var r := Pass(g, broken, count, order);
            && NeverZeroed(count, r.count)
            && (r.ok ==> forall q, x :: q in order && Requires(g, q, x) && x in g.ifs ==> r.count[x] > 0)
    decreases |order|
  {
    if order != [] {
      var q := order[0];
      VisitNeverZeroes(g, broken, count, {}, q, count[q]);
      var r := Visit(g, broken, count, {}, q, count[q]);
      if r.ok {
        VisitAllNeverZeroes(g, broken, count[q := count[q]], {q}, g.ifs[q].required, count[q] + 1);
        assert {} + {q} == {q};
        PassNeverZeroes(g, broken, r.count, order[1..]);
      }
    }
  }

  /** After a successful pass, on every graph, an interface has depth 0 exactly when no other
      interface requires it. */
  lemma DepthZeroIff(g: Graph, broken: set<Name>, x: Name)
    requires x in g.ifs && Pass(g, broken, Uncounted(g), g.order).ok
    ensures Pass(g, broken, Uncounted(g), g.order).count[x] == 0 <==> forall q :: !Requires(g, q, x)
  {
    var n := Pass(g, broken, Uncounted(g), g.order).count[x];
    PassNeverZeroes(g, broken, Uncounted(g), g.order);
    DepthReached(g, broken, x);
    assert forall q :: Requires(g, q, x) ==> q in g.order;
  }

  // --- acyclic graphs ----------------------------------------------------------------------

  lemma {:induction false} DistinctFit(walk: seq<Name>, names: set<Name>)
    requires forall i, j :: 0 <= i < j < |walk| ==> walk[i] != walk[j]
    requires forall i :: 0 <= i < |walk| ==> walk[i] in names
    ensures |walk| <= |names|
  {
    if walk != [] {
      DistinctFit(walk[1..], names - {walk[0]});
    }
  }

  lemma WalkFits(g: Graph, walk: seq<Name>)
    requires NoLoops(g) && IsWalk(g, walk)
    ensures |walk| <= |g.ifs|
  {
    WalkInside(g, walk);
    forall i, j | 0 <= i < j < |walk|
      ensures walk[i] != walk[j]
    {
      PartWalk(g, walk, i, j);
    }
    DistinctFit(walk, g.ifs.Keys);
    assert |g.ifs.Keys| == |g.ifs|;
  }

  /** Without loops every depth is below the number of interfaces. */
  lemma DepthBounded(g: Graph, broken: set<Name>, x: Name)
    requires NoLoops(g) && x in g.ifs
    ensures Pass(g, broken, Uncounted(g), g.order).count[x] < |g.ifs|
  {
    var n := Pass(g, broken, Uncounted(g), g.order).count[x];
    var walk := DepthIsWalkLength(g, broken, x);
    WalkFits(g, walk);
  }

  // --- forests ---------------------------------------------------------------------------

  /** Every requirement of p lies one deeper than p. */
  ghost predicate Steps(g: Graph, count: map<Name, nat>, p: Name) {
    forall c :: Requires(g, p, c) ==> p in count && c in count && count[c] == count[p] + 1
  }

  /** In a forest an interface below c but other than c has its requirer below c too. */
  lemma BelowRequirer(g: Graph, c: Name, p: Name, d: Name)
    requires Forest(g) && Leads(g, c, d) && c != d && Requires(g, p, d)
    ensures Leads(g, c, p)
  {
    var q := LeadsLast(g, c, d);
  }

  /** What a visit of x does in a forest: depths change below x only, where they come right. */
  ghost predicate TreeDone(g: Graph, count: map<Name, nat>, after: map<Name, nat>, x: Name, depth: nat) {
    && count.Keys == after.Keys == g.ifs.Keys
    && x in after && after[x] == depth
    && (forall y :: y in g.ifs && !Leads(g, x, y) ==> after[y] == count[y])
    && (forall p :: Leads(g, x, p) ==> Steps(g, after, p))
  }

  /** The same for the trees of the tokens of x. */
  ghost predicate TreesDone(g: Graph, count: map<Name, nat>, after: map<Name, nat>, x: Name, tokens: seq<Name>,
                            depth: nat) {
    && count.Keys == after.Keys == g.ifs.Keys
    && (forall y :: y in g.ifs && (forall c :: c in tokens && c != x ==> !Leads(g, c, y)) ==> after[y] == count[y])
    && (forall c :: c in tokens && c != x ==> c in after && after[c] == depth)
    && (forall c, p :: c in tokens && c != x && Leads(g, c, p) ==> Steps(g, after, p))
  }

  lemma TreesKeepSteps(g: Graph, count: map<Name, nat>, after: map<Name, nat>, x: Name, tokens: seq<Name>,
                       depth: nat, p: Name)
    requires Forest(g) && Requirements(g, x, tokens) && TreesDone(g, count, after, x, tokens, depth)
    requires Steps(g, count, p) && p != x
    ensures Steps(g, after, p)
  {
    if forall c :: c in tokens && c != x ==> !Leads(g, c, p) {
      forall d | Requires(g, p, d)
        ensures d in after && after[d] == after[p] + 1
      {
        forall c | c in tokens && c != x
          ensures !Leads(g, c, d)
        {
          assert Requires(g, x, c);
          if Leads(g, c, d) {
            BelowRequirer(g, c, p, d);
          }
        }
      }
    }
  }

  lemma TreesCons(g: Graph, count: map<Name, nat>, mid: map<Name, nat>, after: map<Name, nat>, x: Name,
                  tokens: seq<Name>, depth: nat)
    requires Forest(g) && NoLoops(g) && Requirements(g, x, tokens) && tokens != [] && tokens[0] != x
    requires TreeDone(g, count, mid, tokens[0], depth)
    requires TreesDone(g, mid, after, x, tokens[1..], depth)
    ensures TreesDone(g, count, after, x, tokens, depth)
  {
    var c, rest := tokens[0], tokens[1..];
    assert Requires(g, x, c);
    NoWayBack(g, x, c);
    assert forall d :: d in tokens <==> d == c || d in rest;
    assert after[c] == depth by {
      if e :| e in rest && e != x && Leads(g, e, c) {
        assert Requires(g, x, e);
        NoWayBack(g, x, e);
        if e != c {
          BelowRequirer(g, e, x, c);
        }
      }
    }
    forall p | Leads(g, c, p)
      ensures Steps(g, after, p)
    {
      TreesKeepSteps(g, mid, after, x, rest, depth, p);
    }
  }

  lemma TreeOfTrees(g: Graph, count: map<Name, nat>, here: map<Name, nat>, after: map<Name, nat>, x: Name, depth: nat)
    requires NoLoops(g) && x in g.ifs && count.Keys == g.ifs.Keys && here == count[x := depth]
    requires forall c :: c in g.ifs[x].required ==> c in g.ifs
    requires TreesDone(g, here, after, x, g.ifs[x].required, depth + 1)
    ensures TreeDone(g, count, after, x, depth)
  {
    forall c | c in g.ifs[x].required && c != x
      ensures !Leads(g, c, x)
    {
      assert Requires(g, x, c);
      NoWayBack(g, x, c);
    }
    LeadsSelf(g, x);
    forall y, c | !Leads(g, x, y) && c in g.ifs[x].required && c != x
      ensures !Leads(g, c, y)
    {
      assert Requires(g, x, c);
      if Leads(g, c, y) {
        LeadsBefore(g, x, c, y);
      }
    }
    forall p | Leads(g, x, p)
      ensures Steps(g, after, p)
    {
      if p != x {
        var c := LeadsFirst(g, x, p);
      }
    }
  }

  ghost predicate NoneAbove(g: Graph, pending: set<Name>, x: Name) {
    forall s :: s in pending ==> !Leads(g, x, s)
  }

  lemma NoneAboveNext(g: Graph, pending: set<Name>, x: Name, c: Name)
    requires NoLoops(g) && Requires(g, x, c) && NoneAbove(g, pending - {x}, x)
    ensures NoneAbove(g, pending, c)
  {
    NoWayBack(g, x, c);
    forall s | s in pending && s != x
      ensures !Leads(g, c, s)
    {
      if Leads(g, c, s) {
        LeadsBefore(g, x, c, s);
      }
    }
  }

  lemma {:induction false} VisitForest(g: Graph, broken: set<Name>, count: map<Name, nat>, pending: set<Name>,
                                       x: Name, depth: nat)
    requires count.Keys == g.ifs.Keys && pending <= g.ifs.Keys && x in g.ifs
    requires Forest(g) && NoLoops(g) && NoneAbove(g, pending, x)
    ensures var r := Visit(g, broken, count, pending, x, depth); r.ok ==> TreeDone(g, count, r.count, x, depth)
    decreases Free(g, pending), 0, 0
  {
    LeadsSelf(g, x);
    if x !in broken {
      PendingGrows(g, pending, x);
      var here := count[x := depth];
      VisitAllForest(g, broken, here, pending + {x}, x, g.ifs[x].required, depth);
      var r := VisitAll(g, broken, here, pending + {x}, g.ifs[x].required, depth + 1);
      if r.ok {
        TreeOfTrees(g, count, here, r.count, x, depth);
      }
    }
  }

  lemma {:induction false} VisitAllForest(g: Graph, broken: set<Name>, count: map<Name, nat>, pending: set<Name>,
                                          x: Name, tokens: seq<Name>, depth: nat)
    requires count.Keys == g.ifs.Keys && pending <= g.ifs.Keys && x in pending && Requirements(g, x, tokens)
    requires Forest(g) && NoLoops(g) && NoneAbove(g, pending - {x}, x)
    ensures var r := VisitAll(g, broken, count, pending, tokens, depth + 1);
            r.ok ==> TreesDone(g, count, r.count, x, tokens, depth + 1)
    decreases Free(g, pending), 1, |tokens|
  {
    if tokens != [] {
      var c := tokens[0];
      var r := Visit(g, broken, count, pending, c, depth + 1);
      if c != x {
        assert Requires(g, x, c);
        NoneAboveNext(g, pending, x, c);
        VisitForest(g, broken, count, pending, c, depth + 1);
      }
      if r.ok {
        VisitAllForest(g, broken, r.count, pending, x, tokens[1..], depth);
        var all := VisitAll(g, broken, r.count, pending, tokens[1..], depth + 1);
        if all.ok && c != x {
          TreesCons(g, count, r.count, all.count, x, tokens, depth + 1);
        }
      }
    }
  }

  lemma TreeKeepsSteps(g: Graph, count: map<Name, nat>, after: map<Name, nat>, x: Name, p: Name)
    requires Forest(g) && count.Keys == g.ifs.Keys && x in count
    requires TreeDone(g, count, after, x, count[x]) && Steps(g, count, p)
    ensures Steps(g, after, p)
  {
    if !Leads(g, x, p) {
      forall d | Requires(g, p, d)
        ensures d in after && p in after && after[d] == after[p] + 1
      {
        if Leads(g, x, d) && d != x {
          BelowRequirer(g, x, p, d);
        }
      }
    }
  }

  lemma {:induction false} PassForest(g: Graph, broken: set<Name>, count: map<Name, nat>, order: seq<Name>,
                                      done: set<Name>)
    requires count.Keys == g.ifs.Keys && forall x :: x in order ==> x in g.ifs
    requires Forest(g) && NoLoops(g) && forall p :: p in done ==> Steps(g, count, p)
    ensures var r := Pass(g, broken, count, order);
            r.ok ==> forall p :: p in done || p in order ==> Steps(g, r.count, p)
    decreases |order|
  {
    if order != [] {
      var x := order[0];
      VisitForest(g, broken, count, {}, x, count[x]);
      var r := Visit(g, broken, count, {}, x, count[x]);
      if r.ok {
        LeadsSelf(g, x);
        forall p | p in done
          ensures Steps(g, r.count, p)
        {
          TreeKeepsSteps(g, count, r.count, x, p);
        }
        PassForest(g, broken, r.count, order[1..], done + {x});
      }
    }
  }

  /** In a forest without loops, after a successful pass every requirement lies exactly one
      deeper than its requirer. */
  lemma DepthStepsInForest(g: Graph, broken: set<Name>, p: Name, c: Name)
    requires Forest(g) && NoLoops(g) && Requires(g, p, c) && c in g.ifs
    requires Pass(g, broken, Uncounted(g), g.order).ok
    ensures var count := Pass(g, broken, Uncounted(g), g.order).count; count[c] == count[p] + 1
  {
    PassForest(g, broken, Uncounted(g), g.order, {});
    assert p in g.order;
  }

  // --- when the pass succeeds --------------------------------------------------------------

  /** A visit that succeeds has asked x, unless x is pending; one that fails has met an interface
      whose executors cannot tell. */
  lemma {:induction false} VisitAsks(g: Graph, broken: set<Name>, count: map<Name, nat>, pending: set<Name>, x: Name,
                                     depth: nat)
    requires count.Keys == g.ifs.Keys && pending <= g.ifs.Keys && x in g.ifs
    ensures Visit(g, broken, count, pending, x, depth).ok ==> x in pending || x !in broken
    ensures !Visit(g, broken, count, pending, x, depth).ok ==> exists y :: y in broken && y in g.ifs
    decreases Free(g, pending), 0, 0
  {
    if x !in pending && x !in broken {
      BelowReady(g, count, pending, x, depth);
      VisitAllAsks(g, broken, count[x := depth], pending + {x}, g.ifs[x].required, depth + 1);
    }
  }

  lemma {:induction false} VisitAllAsks(g: Graph, broken: set<Name>, count: map<Name, nat>, pending: set<Name>,
                                        tokens: seq<Name>, depth: nat)
    requires count.Keys == g.ifs.Keys && pending <= g.ifs.Keys && forall c :: c in tokens ==> c in g.ifs
    ensures !VisitAll(g, broken, count, pending, tokens, depth).ok ==> exists y :: y in broken && y in g.ifs
    decreases Free(g, pending), 1, |tokens|
  {
    if tokens != [] {
      var r := Visit(g, broken, count, pending, tokens[0], depth);
      VisitAsks(g, broken, count, pending, tokens[0], depth);
      if r.ok {
        VisitAllAsks(g, broken, r.count, pending, tokens[1..], depth);
      }
    }
  }

  lemma {:induction false} PassAsks(g: Graph, broken: set<Name>, count: map<Name, nat>, order: seq<Name>)
    requires count.Keys == g.ifs.Keys && forall x :: x in order ==> x in g.ifs
    ensures Pass(g, broken, count, order).ok ==> forall x :: x in order ==> x !in broken
    ensures !Pass(g, broken, count, order).ok ==> exists y :: y in broken && y in g.ifs
    decreases |order|
  {
    if order != [] {
      var r := Visit(g, broken, count, {}, order[0], count[order[0]]);
      VisitAsks(g, broken, count, {}, order[0], count[order[0]]);
      if r.ok {
        PassAsks(g, broken, r.count, order[1..]);
      }
    }
  }

  /** The pass succeeds exactly when the executors of every interface can tell its dependencies. */
  lemma PassSucceedsIff(g: Graph, broken: set<Name>)
    ensures Pass(g, broken, Uncounted(g), g.order).ok <==> forall x :: x in g.ifs ==> x !in broken
  {
    PassAsks(g, broken, Uncounted(g), g.order);
    if x :| x in g.ifs && x in broken {
      assert x in g.order;
    }
  }
}
