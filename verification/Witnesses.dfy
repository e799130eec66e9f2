/** Configurations, over any names, in which the program does what its users may not expect,
    from nothing configured. */
module Witnesses {
  import opened Graphs
  import opened Worlds
  import opened Lifecycle
  import opened Commands
  import opened Settling
  import opened Collector
  import opened Exactness
  import opened Teardown
  import opened Safety
  import opened Failures
  import opened RoundTrip
  import opened Success
  import opened AutoTeardown
  import opened DepthOrder
  import opened StableSort
  import opened Draining
  import opened Requests

  /** a requires b. */
  function Pair(a: Name, b: Name, bIsAuto: bool): (g: Graph)
    requires a != b
    ensures g.ifs.Keys == {a, b} && NoTemplates(g)
    ensures g.ifs[a] == Config([b], false, false, false) && g.ifs[b] == Config([], false, false, bIsAuto)
  {
    RawGraph([a, b], map[a := Config([b], false, false, false), b := Config([], false, false, bIsAuto)])
  }

  /** a and b require each other. */
  function Mutual(a: Name, b: Name): (g: Graph)
    requires a != b
    ensures g.ifs.Keys == {a, b} && NoTemplates(g)
    ensures g.ifs[a] == Config([b], false, false, false) && g.ifs[b] == Config([a], false, false, false)
  {
    RawGraph([a, b], map[a := Config([b], false, false, false), b := Config([a], false, false, false)])
  }

  /** c requires a, and a and b require each other. */
  function Tail(a: Name, b: Name, c: Name): (g: Graph)
    requires a != b && a != c && b != c
    ensures g.ifs.Keys == {a, b, c} && NoTemplates(g)
    ensures g.ifs[a] == Config([b], false, false, false) && g.ifs[b] == Config([a], false, false, false)
    ensures g.ifs[c] == Config([a], false, false, false)
  {
    RawGraph([a, b, c], map[a := Config([b], false, false, false), b := Config([a], false, false, false),
                            c := Config([a], false, false, false)])
  }

  lemma OneNeed(g: Graph, p: Name, c: Name)
    requires p in g.ifs && c in g.ifs && g.ifs[p].required == [c] && !g.ifs[c].hasConfigError
    ensures Needs(g, p) == [c] && Edge(g, p, c)
  {
    assert [c][1..] == [];
    assert Effective(g, [c]) == [c] + Effective(g, [c][1..]);
  }

  /** After a successful ifup from nothing, as the next process reads it. */
  lemma UpFromFresh(g: Graph, x: Name) returns (b: World)
    requires x in g.ifs && !g.ifs[x].hasConfigError && NoTemplates(g)
    ensures var u := Execute(g, Fresh(g), IfUp([x]), Always());
            && u.ok && Settled(g, u.w) && b == Boot(g, u.w) && Settled(g, b)
            && b.configured == u.w.configured && b.refcount == u.w.refcount
            && (forall y :: y in b.configured <==> y == x || Reaches(g, x, y))
            && (forall y :: y in b.configured && y != x ==> (y in b.isExplicit <==> g.ifs[y].isAuto))
  {
    FreshSettled(g);
    var w := Fresh(g);
    BootEffect(g, w);
    ArgsOfOne(g, Boot(g, w), x, true, Always());
    BringUpSucceeds(g, Boot(g, w), x);
    ExecuteSettled(g, w, IfUp([x]), Always());
    b := Between(g, w, x, Always());
    BetweenEffect(g, w, x, Always());
    BootEffect(g, Execute(g, w, IfUp([x]), Always()).w);
  }

  /** One interface taken down by the next process. */
  lemma DownNext(g: Graph, w: World, x: Name, ok: Outcome)
    requires Settled(g, w) && Settled(g, Boot(g, w)) && x in Boot(g, w).configured
    ensures Execute(g, w, IfDown([x]), ok) == TakeDown(g, Boot(g, w), x, ok)
    ensures Execute(g, w, IfDown([x]), ok) == ChangeInterface(g, Boot(g, w), x, false, true, ok)
  {
    BootEffect(g, w);
    ArgsOfOne(g, Boot(g, w), x, false, ok);
  }

  lemma NobodyReaches(g: Graph, x: Name, y: Name)
    requires x in g.ifs && g.ifs[x].required == []
    ensures !Reaches(g, x, y)
  {
    if Reaches(g, x, y) {
      var c := ReachesFirst(g, x, y);
    }
  }

  /** Taking b down under a. */
  lemma Overrun(g: Graph, a: Name, b: Name, w: World)
    requires a != b && g.ifs.Keys == {a, b} && NoTemplates(g) && Settled(g, w) && w.configured == {a, b}
    requires Needs(g, a) == [b] && g.ifs[b].required == []
    ensures var s := TakeDown(g, w, b, Always());
            s.ok && !Settled(g, s.w) && b !in s.w.configured && a in s.w.configured && w.refcount[b] == 2
  {
    PairCounts(g, a, b, w);
    NobodyReaches(g, b, b);
    NobodyReaches(g, b, a);
    TakeDownSucceeds(g, w, b);
    TakeDownCosts(g, w, b, Always());
    TakeDownUntouched(g, w, b, Always(), a);
  }

  /** `ifup a; ifdown b`, where a requires b: b is met at count 2, goes down all the same, and
      the invariant is gone. */
  lemma OverrunWitness(a: Name, b: Name) returns (g: Graph)
    requires a != b
    ensures var u := Execute(g, Fresh(g), IfUp([a]), Always());
            var d := Execute(g, u.w, IfDown([b]), Always());
            && b in g.ifs && u.ok && Settled(g, u.w) && u.w.refcount[b] == 2
            && d.ok && !Settled(g, d.w) && b !in d.w.configured && a in d.w.configured && Edge(g, a, b)
  {
    g := Pair(a, b, false);
    OneNeed(g, a, b);
    ReachesEdge(g, a, b);
    var w := UpFromFresh(g, a);
    Overrun(g, a, b, w);
    DownNext(g, Execute(g, Fresh(g), IfUp([a]), Always()).w, b, Always());
  }

  /** The counts of the pair when both are up. */
  lemma PairCounts(g: Graph, a: Name, b: Name, w: World)
    requires a != b && g.ifs.Keys == {a, b} && Settled(g, w) && w.configured == {a, b}
    requires Needs(g, a) == [b] && Needs(g, b) == []
    ensures w.refcount[a] == 1 && w.refcount[b] == 2
  {
    OwedByNobody(g, g.order);
    OwedAdd(g, {}, b);
    OwedAdd(g, {} + {b}, a);
    assert {} + {b} + {a} == w.configured;
  }

  /** `ifup a` whose phases fail, where a requires b: b stays counted for nobody. */
  lemma FailedUpWitness(a: Name, b: Name) returns (g: Graph)
    requires a != b
    ensures var u := Execute(g, Fresh(g), IfUp([a]), Never()); Settled(g, Fresh(g)) && !u.ok && !Settled(g, u.w)
  {
    g := Pair(a, b, false);
    OneNeed(g, a, b);
    FreshSettled(g);
    var w := Boot(g, Fresh(g));
    BootEffect(g, Fresh(g));
    BootSettled(g, Fresh(g));
    ArgsOfOne(g, w, a, true, Never());
    BringUpFails(g, w, a);
    FailedUpIff(g, w, a, Never());
  }

  /** `ifup a; ifdown a`, where a requires b and the phases of b fail on the way down. */
  lemma FailedDownWitness(a: Name, b: Name) returns (g: Graph, ok: Outcome)
    requires a != b
    ensures var u := Execute(g, Fresh(g), IfUp([a]), Always());
            var d := Execute(g, u.w, IfDown([a]), ok);
            u.ok && Settled(g, u.w) && !d.ok && !Settled(g, d.w)
  {
    g := Pair(a, b, false);
    OneNeed(g, a, b);
    ReachesEdge(g, a, b);
    var w := UpFromFresh(g, a);
    var u := Execute(g, Fresh(g), IfUp([a]), Always());
    PairCounts(g, a, b, w);
    assert Exposed(g, w, a, b);
    DownCanBreakIff(g, w, a);
    ok :| !ChangeInterface(g, w, a, false, true, ok).ok && !Settled(g, ChangeInterface(g, w, a, false, true, ok).w);
    DownNext(g, u.w, a, ok);
  }

  /** `ifup a; ifdown a`, where a requires an auto b: b stays up. */
  lemma AutoStaysWitness(a: Name, b: Name) returns (g: Graph)
    requires a != b
    ensures var u := Execute(g, Fresh(g), IfUp([a]), Always());
            var d := Execute(g, u.w, IfDown([a]), Always());
            u.ok && d.ok && !Restored(Fresh(g), d.w)
  {
    g := Pair(a, b, true);
    OneNeed(g, a, b);
    ReachesEdge(g, a, b);
    var w := UpFromFresh(g, a);
    var u := Execute(g, Fresh(g), IfUp([a]), Always());
    DownNext(g, u.w, a, Always());
    TakeDownSucceeds(g, w, a);
    FreshSettled(g);
    UpDownIff(g, Fresh(g), a, Always());
    assert Survivor(g, Fresh(g), a, b);
  }

  lemma OnlyOwn(g: Graph, w: World, c: Name)
    requires Settled(g, w) && c in w.configured && forall q :: !Edge(g, q, c)
    ensures w.refcount[c] == 1
  {
    OwedEdges(g, w.configured, c);
  }

  lemma BothReach(g: Graph, a: Name, b: Name)
    requires Edge(g, a, b) && Edge(g, b, a)
    ensures Reaches(g, a, a) && Reaches(g, b, b)
  {
    ReachesEdge(g, a, b);
    ReachesStep(g, a, b, a);
    ReachesEdge(g, b, a);
    ReachesStep(g, b, a, b);
  }

  /** Taking the tail down leaves the cycle, which nobody asked for. */
  lemma CycleLeft(g: Graph, a: Name, b: Name, c: Name, w: World)
    requires c in g.ifs && NoTemplates(g) && Settled(g, w) && w.configured == {a, b, c} && a != c && b != c
    requires Edge(g, a, b) && Edge(g, b, a) && forall q :: !Edge(g, q, c)
    requires a !in w.isExplicit && b !in w.isExplicit
    ensures var s := TakeDown(g, w, c, Always());
            && s.ok && Settled(g, s.w) && s.w.configured == {a, b}
            && !Requested(g, s.w, a) && !Requested(g, s.w, b)
  {
    var v := TakeDown(g, w, c, Always()).w;
    OnlyOwn(g, w, c);
    DownAlone(g, w, c);
    CycleKept(g, a, b, c, w);
    BothLeft(g, w, v, a, b, c);
  }

  lemma BothLeft(g: Graph, w: World, v: World, a: Name, b: Name, c: Name)
    requires w.configured == {a, b, c} && v.configured <= w.configured - {c} && a in v.configured && b in v.configured
    requires a !in w.isExplicit && b !in w.isExplicit && v.isExplicit == w.isExplicit
    ensures v.configured == {a, b} && !Requested(g, v, a) && !Requested(g, v, b)
  {
  }

  lemma CycleKept(g: Graph, a: Name, b: Name, c: Name, w: World)
    requires Settled(g, w) && w.configured == {a, b, c} && w.refcount[c] == 1 && Edge(g, a, b) && Edge(g, b, a)
    ensures var s := TakeDown(g, w, c, Always()); s.ok ==> a in s.w.configured && b in s.w.configured
  {
    BothReach(g, a, b);
    CycleStays(g, w, c, Always(), a);
    CycleStays(g, w, c, Always(), b);
  }

  lemma DownAlone(g: Graph, w: World, c: Name)
    requires NoTemplates(g) && Settled(g, w) && c in w.configured && w.refcount[c] == 1
    ensures var s := TakeDown(g, w, c, Always());
            s.ok && Settled(g, s.w) && s.w.isExplicit == w.isExplicit && s.w.configured <= w.configured - {c}
  {
    TakeDownSucceeds(g, w, c);
    IfDownSettled(g, w, c, true, Always());
    assert ChangeInterface(g, w, c, false, true, Always()) == TakeDown(g, w, c, Always());
  }

  /** `ifup c; ifdown c`, where c requires a, and a and b require each other: a and b stay up
      though nobody asked for them. */
  lemma CycleLeaksWitness(a: Name, b: Name, c: Name) returns (g: Graph)
    requires a != b && a != c && b != c
    ensures var u := Execute(g, Fresh(g), IfUp([c]), Always());
            var d := Execute(g, u.w, IfDown([c]), Always());
            && u.ok && d.ok && Settled(g, d.w) && d.w.configured == {a, b}
            && !Requested(g, d.w, a) && !Requested(g, d.w, b)
  {
    g := Tail(a, b, c);
    OneNeed(g, a, b);
    OneNeed(g, b, a);
    OneNeed(g, c, a);
    ReachesEdge(g, c, a);
    ReachesStep(g, c, a, b);
    var w := UpFromFresh(g, c);
    assert w.configured == {a, b, c} by {
      WithinKeys(g, c, w);
    }
    assert forall q :: !Edge(g, q, c) by {
      TailEnds(g, a, b, c);
    }
    CycleLeft(g, a, b, c, w);
    DownNext(g, Execute(g, Fresh(g), IfUp([c]), Always()).w, c, Always());
  }

  lemma TailEnds(g: Graph, a: Name, b: Name, c: Name)
    requires a != c && b != c && g.ifs.Keys == {a, b, c} && Needs(g, a) == [b] && Needs(g, b) == [a] && Needs(g, c) == [a]
    ensures forall q :: !Edge(g, q, c)
  {
  }

  lemma WithinKeys(g: Graph, x: Name, w: World)
    requires Fits(g, w) && (forall y :: y in w.configured <==> y == x || Reaches(g, x, y))
    requires forall y :: y in g.ifs ==> y == x || Reaches(g, x, y)
    ensures w.configured == g.ifs.Keys
  {
  }

  /** Taking a down where b requires it in turn. */
  lemma MutualDown(g: Graph, a: Name, b: Name, w: World)
    requires a != b && g.ifs.Keys == {a, b} && NoTemplates(g) && Settled(g, w) && w.configured == {a, b}
    requires Needs(g, a) == [b] && Needs(g, b) == [a] && b !in w.isExplicit
    ensures var s := TakeDown(g, w, a, Always());
            s.ok && Settled(g, s.w) && s.w.configured == {} && w.refcount[a] == 2
  {
    TakeDownSucceeds(g, w, a);
    TakeDownSafeIff(g, w, a, Always());
    MutualAround(g, a, b, w);
    MutualCount(g, a, b, w);
    var s := TakeDown(g, w, a, Always());
    assert ChangeInterface(g, w, a, false, true, Always()) == s;
    forall y
      ensures y !in s.w.configured
    {
      TakeDownExact(g, w, a, Always(), y);
    }
  }

  /** `ifup a; ifdown a`, where a and b require each other: a is met at count 2, and all the
      same everything comes down and the invariant holds. */
  lemma MutualComesDown(a: Name, b: Name) returns (g: Graph)
    requires a != b
    ensures var u := Execute(g, Fresh(g), IfUp([a]), Always());
            var d := Execute(g, u.w, IfDown([a]), Always());
            a in g.ifs && u.ok && u.w.refcount[a] == 2 && d.ok && Settled(g, d.w) && d.w.configured == {}
  {
    g := Mutual(a, b);
    OneNeed(g, a, b);
    OneNeed(g, b, a);
    ReachesEdge(g, a, b);
    var w := UpFromFresh(g, a);
    MutualDown(g, a, b, w);
    DownNext(g, Execute(g, Fresh(g), IfUp([a]), Always()).w, a, Always());
  }

  lemma MutualCount(g: Graph, a: Name, b: Name, w: World)
    requires a != b && g.ifs.Keys == {a, b} && Settled(g, w) && w.configured == {a, b}
    requires Needs(g, a) == [b] && Needs(g, b) == [a]
    ensures w.refcount[a] == 2
  {
    OwedByNobody(g, g.order);
    OwedAdd(g, {}, b);
    OwedAdd(g, {} + {b}, a);
    assert {} + {b} + {a} == w.configured;
  }

  /** Around a, b reaches nothing but a. */
  lemma MutualAround(g: Graph, a: Name, b: Name, w: World)
    requires a != b && g.ifs.Keys == {a, b} && w.configured == {a, b} && b !in w.isExplicit
    requires Needs(g, b) == [a]
    ensures !HeldFromOutside(g, w, a) && forall y :: !Stays(g, w, a, y)
  {
    var h := Without(g, a);
    forall r
      ensures !HeldUp(g, w, a, r)
    {
      if Reaches(h, b, b) {
        var q := ReachesLast(h, b, b);
        WithoutEdge(g, a, q, b);
      }
    }
  }

  // --- ifdown -a overruns a holder -----------------------------------------------------------

  lemma TriangleEdges(g: Graph, a: Name, b: Name, c: Name)
    requires g.ifs.Keys == {a, b, c} && forall x :: x in g.ifs ==> !g.ifs[x].hasConfigError
    requires g.ifs[a].required == [b, c] && g.ifs[b].required == [c] && g.ifs[c].required == []
    ensures Needs(g, a) == [b, c] && Needs(g, b) == [c] && Needs(g, c) == []
  {
    assert [b, c][1..] == [c] && [c][1..] == [];
    assert Effective(g, [c]) == [c] + Effective(g, [c][1..]);
    assert Effective(g, [b, c]) == [b] + Effective(g, [b, c][1..]);
  }

  lemma TriangleAcyclic(g: Graph, a: Name, b: Name, c: Name)
    requires g.ifs.Keys == {a, b, c} && a != b && a != c && b != c
    requires Needs(g, a) == [b, c] && Needs(g, b) == [c] && Needs(g, c) == [] && g.ifs[c].required == []
    ensures Acyclic(g)
  {
    forall x
      ensures !Reaches(g, x, x)
    {
      if Reaches(g, x, x) {
        NobodyReaches(g, c, x);
        var q := ReachesLast(g, x, x);
        if Reaches(g, b, a) {
          var p := ReachesLast(g, b, a);
        }
      }
    }
  }

  /** Every auto interface, and with them every interface, is up. */
  lemma AllAutoUp(g: Graph) returns (w: World)
    requires NoTemplates(g) && forall x :: x in g.ifs ==> g.ifs[x].isAuto && !g.ifs[x].hasConfigError
    ensures var u := Execute(g, Fresh(g), IfUpAuto(g.ifs.Keys), Always());
            u.ok && w == u.w && Settled(g, w) && w.configured == g.ifs.Keys && RootsAuto(g, w)
  {
    FreshSettled(g);
    var cmd := IfUpAuto(g.ifs.Keys);
    ExecuteSucceeds(g, Fresh(g), cmd);
    ExecuteSettled(g, Fresh(g), cmd, Always());
    w := Execute(g, Fresh(g), cmd, Always()).w;
    forall y | y in g.ifs
      ensures y in w.configured
    {
      IfUpAutoExact(g, Fresh(g), g.ifs.Keys, Always(), y);
    }
  }

  /** `ifup -a; ifdown -a` in a collection that the dependency pass leaves: a requires b and c,
      b requires c, all auto. The pass sorts c before b; so c is taken down while b holds it. */
  lemma OverrunAutoWitness(a: Name, b: Name, c: Name) returns (g: Graph, sorted: Graph)
    requires a != b && a != c && b != c
    ensures IsTriangle(g, a, b, c) && SortedFrom(g, {}, sorted, 1)
    ensures var cmd := IfDownAuto(sorted.ifs.Keys);
            var u := Execute(sorted, Fresh(sorted), IfUpAuto(sorted.ifs.Keys), Always());
            var d := Execute(sorted, u.w, cmd, Always());
            u.ok && Settled(sorted, u.w) && d.ok && !TameCommand(sorted, u.w, cmd, Always())
  {
    g, sorted := TriangleExists(a, b, c);
    TriangleEdges(sorted, a, b, c);
    var w := AllAutoUp(sorted);
    assert Acyclic(sorted) by {
      TriangleAcyclic(sorted, a, b, c);
    }
    ReachesEdge(sorted, b, c);
    ExecuteSucceeds(sorted, w, IfDownAuto(sorted.ifs.Keys));
    assert !AutosInOrder(sorted, w) by {
      assert AutoUp(sorted, w, b) && AutoUp(sorted, w, c) && !Before(sorted.order, b, c);
    }
    IfDownAutoTameIff(sorted, w, Always());
  }

  // --- persistence is not transparent ------------------------------------------------------

  /** An interface that requires nothing goes down with its own phases only. */
  lemma LeafDown(g: Graph, w: World, c: Name, n: nat)
    requires Fits(g, w) && c in g.ifs && g.ifs[c] == Config([], false, false, false) && w.isPending == {}
    requires |w.trace| + 4 <= n && w.refcount[c] > 0
    ensures var s := ChangeInterface(g, w, c, false, true, Until(n));
            && s.ok && |s.w.trace| == |w.trace| + 4 && s.w.isExplicit == w.isExplicit
            && s.w.refcount == w.refcount[c := w.refcount[c] - 1] && s.w.configured == w.configured - {c}
  {
    LeafFinishes(g, w, c, n);
    PhasesUntil(w, c, n);
    assert ChangeInterface(g, w, c, false, true, Until(n)) == TakeDown(g, w, c, Until(n));
  }

  lemma LeafFinishes(g: Graph, w: World, c: Name, n: nat)
    requires Fits(g, w) && c in g.ifs && g.ifs[c] == Config([], false, false, false) && w.isPending == {}
    requires |w.trace| + 4 <= n
    ensures TakeDown(g, w, c, Until(n)) == FinishDown(g, RunPhases(w, c, DOWN_PHASES, Until(n)).w, c)
  {
    PhasesUntil(w, c, n);
    TakeDownUnfolds(g, w, c, Until(n));
    var p := RunPhases(w, c, DOWN_PHASES, Until(n));
    assert Leave(Enter(p.w, c), c) == p.w;
  }

  /** Giving back a reference on c, which is not counted: a flag of c that is set stops there;
      otherwise c is taken down, which fails when no phase succeeds any more. */
  lemma SpentReleased(g: Graph, v: World, c: Name, n: nat)
    requires Fits(g, v) && c in g.ifs && g.ifs[c] == Config([], false, false, false) && c !in v.isPending
    requires v.refcount[c] == 0 && |v.trace| >= n
    ensures var r := ReleaseRequired(g, v, [c], Until(n));
            if c in v.isExplicit then r == Step(v, true) else !r.ok && r.w == v.(trace := r.w.trace)
  {
    assert [c][1..] == [] && Unref(v, c) == v;
    if c in v.isExplicit {
      assert Release(g, v, c, Until(n)) == Step(v, true);
      assert ReleaseRequired(g, v, [], Until(n)) == Step(v, true);
    } else {
      TakeDownUnfolds(g, v, c, Until(n));
      assert Release(g, v, c, Until(n)) == TakeDown(g, v, c, Until(n));
    }
  }

  /** Taking down a, which requires c. */
  lemma LastHolder(g: Graph, w: World, a: Name, c: Name, n: nat)
    requires UpBoth(g, w, a, c) && |w.trace| + 4 == n && w.refcount[c] == 0
    ensures var s := ChangeInterface(g, w, a, false, true, Until(n));
            if c in w.isExplicit then s.ok && s.w.refcount[a] == 0
            else !s.ok && s.w.refcount[a] == 1 && s.w.configured == w.configured
  {
    PhasesUntil(w, a, n);
    TakeDownUnfolds(g, w, a, Until(n));
    var p := RunPhases(w, a, DOWN_PHASES, Until(n));
    SpentReleased(g, Enter(p.w, a), c, n);
    assert ChangeInterface(g, w, a, false, true, Until(n)) == TakeDown(g, w, a, Until(n));
  }

  /** Two interfaces that are up and asked for, a and, required by it, c. */
  ghost predicate UpBoth(g: Graph, w: World, a: Name, c: Name) {
    && Coherent(g, w) && w.isPending == {} && a != c && a in g.ifs && c in g.ifs
    && g.ifs[a] == Config([c], false, false, false) && g.ifs[c] == Config([], false, false, false)
    && a in w.configured && w.refcount[a] == 1
  }

  lemma NamedLeaf(g: Graph, w: World, a: Name, c: Name, n: nat) returns (v: World)
    requires UpBoth(g, w, a, c) && w.refcount[c] > 0 && |w.trace| + 4 <= n
    ensures ChangeInterface(g, w, c, false, true, Until(n)) == Step(v, true)
    ensures UpBoth(g, v, a, c) && v.refcount[c] == w.refcount[c] - 1 && v.isExplicit == w.isExplicit
    ensures |v.trace| == |w.trace| + 4
  {
    LeafDown(g, w, c, n);
    ChangeResting(g, w, c, false, true, Until(n));
    v := ChangeInterface(g, w, c, false, true, Until(n)).w;
  }

  lemma ArgsStep(g: Graph, w: World, args: seq<Name>, ok: Outcome, v: World)
    requires Fits(g, w) && args != [] && args[0] in g.ifs
    requires ChangeInterface(g, w, args[0], false, true, ok) == Step(v, true)
    ensures Fits(g, v) && ChangeArgs(g, w, args, false, ok) == ChangeArgs(g, v, args[1..], false, ok)
  {
  }

  /** `ifdown c c a`: all succeed. */
  lemma OneProcessDown(g: Graph, w: World, a: Name, c: Name, n: nat)
    requires UpBoth(g, w, a, c) && w.refcount[c] == 2 && c in w.isExplicit && |w.trace| + 12 == n
    ensures var s := ChangeArgs(g, w, [c, c, a], false, Until(n)); s.ok && s.w.refcount[a] == 0
  {
    assert [c, c, a][1..] == [c, a] && [c, a][1..] == [a];
    var v := NamedLeaf(g, w, a, c, n);
    ArgsStep(g, w, [c, c, a], Until(n), v);
    var u := NamedLeaf(g, v, a, c, n);
    ArgsStep(g, v, [c, a], Until(n), u);
    LastHolder(g, u, a, c, n);
    ArgsOfOne(g, u, a, false, Until(n));
  }

  lemma NextProcess(g: Graph, w: World, a: Name, c: Name, n: nat) returns (v: World)
    requires UpBoth(g, w, a, c) && w.refcount[c] > 0 && |w.trace| + 4 <= n
    ensures Execute(g, w, IfDown([c]), Until(n)) == Step(v, true)
    ensures UpBoth(g, v, a, c) && v.refcount[c] == w.refcount[c] - 1 && |v.trace| == |w.trace| + 4
  {
    BootEffect(g, w);
    v := NamedLeaf(g, Boot(g, w), a, c, n);
    ArgsOfOne(g, Boot(g, w), c, false, Until(n));
  }

  /** `ifdown c; ifdown c; ifdown a`: the last fails. */
  lemma ThreeProcesses(g: Graph, w: World, a: Name, c: Name, n: nat)
    requires UpBoth(g, w, a, c) && w.refcount[c] == 2 && |w.trace| + 12 == n
    ensures var s := Execute(g, w, IfDown([c]), Until(n));
            var t := Execute(g, s.w, IfDown([c]), Until(n));
            var r := Execute(g, t.w, IfDown([a]), Until(n));
            s.ok && t.ok && !r.ok && r.w.refcount[a] == 1 && a in r.w.configured
  {
    var v := NextProcess(g, w, a, c, n);
    var u := NextProcess(g, v, a, c, n);
    BootEffect(g, u);
    LastHolder(g, Boot(g, u), a, c, n);
    ArgsOfOne(g, Boot(g, u), a, false, Until(n));
  }

  lemma UpInOrder(g: Graph, a: Name, c: Name) returns (w: World)
    requires g.ifs.Keys == {a, c} && a != c && NoTemplates(g)
    requires g.ifs[a] == Config([c], false, false, false) && g.ifs[c] == Config([], false, false, false)
    ensures var u := Execute(g, Fresh(g), IfUp([c, a]), Always()); u.ok && w == u.w && Settled(g, w)
    ensures w.configured == {a, c} && a in w.isExplicit && c in w.isExplicit
  {
    FreshSettled(g);
    var cmd := IfUp([c, a]);
    ExecuteSucceeds(g, Fresh(g), cmd);
    ExecuteSettled(g, Fresh(g), cmd, Always());
    ExecuteShows(g, Fresh(g), cmd, Always(), {}, {});
    w := Execute(g, Fresh(g), cmd, Always()).w;
    BothAsked(g, a, c);
  }

  lemma BothAsked(g: Graph, a: Name, c: Name)
    requires a in g.ifs && c in g.ifs && !g.ifs[a].hasConfigError && !g.ifs[c].hasConfigError
    ensures {a, c} <= AskedAll(g, {}, ChangesOf(g, IfUp([c, a])))
  {
    assert [c, a][1..] == [a] && [a][1..] == [];
    assert Changes([a], true) == [Raise(a)] + Changes([], true) == [Raise(a)];
    assert Changes([c, a], true) == [Raise(c)] + Changes([a], true) == [Raise(c), Raise(a)];
    assert [Raise(c), Raise(a)][1..] == [Raise(a)] && [Raise(a)][1..] == [];
    var first := Asked(g, {}, Raise(c));
    assert AskedAll(g, first, [Raise(a)]) == AskedAll(g, Asked(g, first, Raise(a)), [Raise(a)][1..]);
  }

  /** `ifup c a`, where a requires c, then c, c and a down. In one process all succeed. In a
      process each, the second has deleted the record of c, so the third does not know that c
      was asked for, takes it down once more under a, and fails if phases do not succeed any
      more; a stays up. */
  lemma StaleFlagWitness(a: Name, c: Name) returns (g: Graph, ok: Outcome)
    requires a != c
    ensures var u := Execute(g, Fresh(g), IfUp([c, a]), Always());
            var one := Execute(g, u.w, IfDown([c, c, a]), ok);
            var s := Execute(g, u.w, IfDown([c]), ok);
            var t := Execute(g, s.w, IfDown([c]), ok);
            var r := Execute(g, t.w, IfDown([a]), ok);
            && a in g.ifs && u.ok && Settled(g, u.w)
            && one.ok && one.w.refcount[a] == 0
            && s.ok && t.ok && !r.ok && r.w.refcount[a] == 1 && a in r.w.configured
  {
    g := Pair(a, c, false);
    OneNeed(g, a, c);
    var w := UpInOrder(g, a, c);
    PairCounts(g, a, c, w);
    var n := |w.trace| + 12;
    ok := Until(n);
    BootEffect(g, w);
    OneProcessDown(g, Boot(g, w), a, c, n);
    ThreeProcesses(g, w, a, c, n);
  }
}
