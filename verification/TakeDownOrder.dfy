/** The order in which a teardown runs phases, whatever the count of the interface it is called
    for: one block each, and those that need an interface before it. */
module TakeDownOrder {
  import opened Graphs
  import opened Worlds
  import opened Lifecycle
  import opened Ledger
  import opened Draining
  import opened BringUpOrder

  /** Whatever configured interface needs order[i] is on the stack or was stopped earlier. */
  ghost predicate NeedersFirst(g: Graph, configured: set<Name>, stack: set<Name>, order: seq<Name>) {
    forall i, q :: 0 <= i < |order| && q in configured && Edge(g, q, order[i]) ==> q in stack || q in order[..i]
  }

  /** The teardown started at x stopped exactly these interfaces, in this order. */
  ghost predicate Stopped(g: Graph, w: World, s: Step, order: seq<Name>) {
    && Distinct(order)
    && (forall y :: y in order ==> y in w.configured && y !in w.isPending)
    && NeedersFirst(g, w.configured, w.isPending, order)
    && Executed(w.trace, s.w.trace, Blocks(order, DOWN_PHASES))
    && (s.ok ==> s.w.trace == w.trace + Blocks(order, DOWN_PHASES)
                 && s.w.configured == w.configured - (set y | y in order))
  }

  lemma StoppedNothing(g: Graph, w: World, s: Step)
    requires s.w.trace == w.trace && s.w.configured == w.configured
    ensures Stopped(g, w, s, [])
  {
  }

  lemma StoppedThen(g: Graph, w: World, s: Step, t: Step, a: seq<Name>, b: seq<Name>)
    requires s.ok && Stopped(g, w, s, a) && Stopped(g, s.w, t, b)
    requires s.w.isPending == w.isPending
    ensures Stopped(g, w, t, a + b)
  {
    DistinctAppend(a, b);
    BlocksAppend(a, b, DOWN_PHASES);
    ExecutedThen(w.trace, s.w.trace, t.w.trace, Blocks(a, DOWN_PHASES), Blocks(b, DOWN_PHASES));
    var o := a + b;
    forall i, q | 0 <= i < |o| && q in w.configured && Edge(g, q, o[i])
      ensures q in w.isPending || q in o[..i]
    {
      if i < |a| {
        assert o[i] == a[i] && o[..i] == a[..i];
      } else {
        assert o[i] == b[i - |a|] && o[..i] == a + b[..i - |a|];
      }
    }
    assert t.ok ==> t.w.configured == w.configured - (set y | y in o);
  }

  lemma StoppedFrom(g: Graph, w: World, v: World, s: Step, order: seq<Name>)
    requires v.configured == w.configured && v.isPending == w.isPending && v.trace == w.trace
    requires Stopped(g, v, s, order)
    ensures Stopped(g, w, s, order)
  {
  }

  /** x is stopped first; then, with x on the stack, the interfaces in `rest`. */
  lemma StoppedUnder(g: Graph, w: World, x: Name, p: World, d: Step, rest: seq<Name>, t: Step)
    requires x in w.configured && x !in w.isPending
    requires p == w.(trace := w.trace + Block(x, DOWN_PHASES))
    requires forall q :: q in w.configured && Edge(g, q, x) ==> q in w.isPending
    requires Stopped(g, Enter(p, x), d, rest)
    requires t.w.trace == d.w.trace && t.ok == d.ok
    requires d.ok ==> t.w.configured == d.w.configured - {x}
    ensures Stopped(g, w, t, [x] + rest)
  {
    var o := [x] + rest;
    DistinctAppend([x], rest);
    assert Blocks(o, DOWN_PHASES) == Block(x, DOWN_PHASES) + Blocks(rest, DOWN_PHASES);
    ExecutedThen(w.trace, p.trace, t.w.trace, Block(x, DOWN_PHASES), Blocks(rest, DOWN_PHASES));
    forall i, q | 0 <= i < |o| && q in w.configured && Edge(g, q, o[i])
      ensures q in w.isPending || q in o[..i]
    {
      if i > 0 {
        assert o[i] == rest[i - 1] && o[..i] == [x] + rest[..i - 1];
      }
    }
    assert t.ok ==> t.w.configured == w.configured - (set y | y in o);
  }

  /** With only its own reference left, x is needed by nobody but the stack. */
  lemma LastReference(g: Graph, w: World, x: Name, released: multiset<Name>, root: Name, spent: set<Name>)
    requires DrainInv(g, w, released, {x}, root, spent, {}) && x in w.configured && w.refcount[x] == 1
    ensures forall q :: q in w.configured && Edge(g, q, x) ==> q in w.isPending
  {
    forall q | q in w.configured && Edge(g, q, x)
      ensures q in w.isPending
    {
      OwedSplit(g, w.configured, w.isPending);
      OwedEdges(g, w.configured - w.isPending, x);
    }
  }

  lemma StoppedAlone(g: Graph, w: World, x: Name, ok: Outcome)
    requires Fits(g, w) && x in w.configured && x !in w.isPending && !g.ifs[x].isTemplate
    requires forall q :: q in w.configured && Edge(g, q, x) ==> q in w.isPending
    requires !RunPhases(w, x, DOWN_PHASES, ok).ok
    ensures Stopped(g, w, TakeDown(g, w, x, ok), [x])
  {
    RunPhasesExecuted(w, x, DOWN_PHASES, ok);
    assert Blocks([x], DOWN_PHASES) == Block(x, DOWN_PHASES) + Blocks([], DOWN_PHASES) == Block(x, DOWN_PHASES);
  }

  lemma TakeDownParts(g: Graph, w: World, x: Name, ok: Outcome)
    requires Fits(g, w) && x in g.ifs && x !in w.isPending && !g.ifs[x].isTemplate
    requires RunPhases(w, x, DOWN_PHASES, ok).ok
    ensures var p := RunPhases(w, x, DOWN_PHASES, ok).w;
            var r := ReleaseRequired(g, Enter(p, x), g.ifs[x].required, ok);
            var t := TakeDown(g, w, x, ok);
            && t.ok == r.ok && t.w.trace == r.w.trace
            && (r.ok ==> t.w.configured == r.w.configured - {x})
  {
  }

  lemma StoppedWithRest(g: Graph, w: World, x: Name, ok: Outcome, rest: seq<Name>)
    requires Fits(g, w) && x in w.configured && x !in w.isPending && !g.ifs[x].isTemplate
    requires forall q :: q in w.configured && Edge(g, q, x) ==> q in w.isPending
    requires RunPhases(w, x, DOWN_PHASES, ok).ok
    requires var p := RunPhases(w, x, DOWN_PHASES, ok).w;
             Stopped(g, Enter(p, x), ReleaseRequired(g, Enter(p, x), g.ifs[x].required, ok), rest)
    ensures Stopped(g, w, TakeDown(g, w, x, ok), [x] + rest)
  {
    RunPhasesExecuted(w, x, DOWN_PHASES, ok);
    TakeDownParts(g, w, x, ok);
    var p := RunPhases(w, x, DOWN_PHASES, ok).w;
    StoppedUnder(g, w, x, p, ReleaseRequired(g, Enter(p, x), g.ifs[x].required, ok), rest, TakeDown(g, w, x, ok));
  }

  lemma HeadFirst(g: Graph, w: World, x: Name, rest: seq<Name>) returns (order: seq<Name>)
    requires forall y :: y in rest ==> Reaches(g, x, y) && y !in w.isExplicit
    ensures order == [x] + rest
    ensures forall y :: y in order ==> y == x || (Reaches(g, x, y) && y !in w.isExplicit)
  {
    order := [x] + rest;
  }

  /** Below the interface that the teardown was called for. */
  lemma {:induction false} TakeDownStops(g: Graph, w: World, x: Name, ok: Outcome, released: multiset<Name>,
                                         root: Name, spent: set<Name>)
    returns (order: seq<Name>)
    requires DrainInv(g, w, released, {x}, root, spent, {})
    requires x in w.configured && x !in w.isPending && w.refcount[x] == 1
    ensures Stopped(g, w, TakeDown(g, w, x, ok), order)
    ensures forall y :: y in order ==> y == x || (Reaches(g, x, y) && y !in w.isExplicit)
    decreases Idle(g, w), 1, 0
  {
    LastReference(g, w, x, released, root, spent);
    if RunPhases(w, x, DOWN_PHASES, ok).ok {
      var rest := BelowStops(g, w, x, ok, released, root, spent);
      StoppedWithRest(g, w, x, ok, rest);
      order := HeadFirst(g, w, x, rest);
    } else {
      StoppedAlone(g, w, x, ok);
      order := [x];
    }
  }

  /** What stops while x waits for it on the stack. */
  lemma {:induction false} BelowStops(g: Graph, w: World, x: Name, ok: Outcome, released: multiset<Name>,
                                      root: Name, spent: set<Name>)
    returns (rest: seq<Name>)
    requires DrainInv(g, w, released, {x}, root, spent, {}) && RunPhases(w, x, DOWN_PHASES, ok).ok
    requires x in w.configured && x !in w.isPending && (x == root || w.refcount[x] == 1)
    ensures var v := Enter(RunPhases(w, x, DOWN_PHASES, ok).w, x);
            Stopped(g, v, ReleaseRequired(g, v, g.ifs[x].required, ok), rest)
    ensures forall y :: y in rest ==> Reaches(g, x, y) && y !in w.isExplicit
    decreases Idle(g, w), 0, 0
  {
    var p := RunPhases(w, x, DOWN_PHASES, ok);
    PhasesDrain(g, w, x, ok, released, {x}, root, spent, {});
    EnterShrinks(g, p.w, x);
    EnterDrain(g, p.w, x, released, root, spent, {});
    rest := ReleaseRequiredStops(g, Enter(p.w, x), x, g.ifs[x].required, ok, released, root, spent);
  }

  lemma {:induction false} ReleaseRequiredStops(g: Graph, w: World, p: Name, tokens: seq<Name>, ok: Outcome,
                                                released: multiset<Name>, root: Name, spent: set<Name>)
    returns (order: seq<Name>)
    requires DrainInv(g, w, released, {}, root, spent, {}) && forall c :: c in tokens ==> c in g.ifs
    requires released + multiset(Effective(g, tokens)) <= Owed(g, w.isPending)
    requires forall c :: c in Effective(g, tokens) ==> Edge(g, p, c)
    ensures Stopped(g, w, ReleaseRequired(g, w, tokens, ok), order)
    ensures forall y :: y in order ==> Reaches(g, p, y) && y !in w.isExplicit
    decreases Idle(g, w), 3, |tokens|
  {
    order := [];
    if tokens == [] {
      StoppedNothing(g, w, ReleaseRequired(g, w, tokens, ok));
    } else if g.ifs[tokens[0]].hasConfigError {
      order := ReleaseRequiredStops(g, w, p, tokens[1..], ok, released, root, spent);
    } else {
      var c, rest := tokens[0], Effective(g, tokens[1..]);
      assert c in Effective(g, tokens);
      MultisetCons(c, rest, released);
      ReleaseDrain(g, w, c, ok, released, root, spent, {});
      order := ReleaseStops(g, w, p, c, ok, released, root, spent);
      var s := Release(g, w, c, ok);
      if s.ok {
        var more := ReleaseRequiredStops(g, s.w, p, tokens[1..], ok, released + multiset{c}, root, spent);
        StoppedThen(g, w, s, ReleaseRequired(g, s.w, tokens[1..], ok), order, more);
        order := order + more;
      }
    }
  }

  lemma {:induction false} ReleaseStops(g: Graph, w: World, p: Name, c: Name, ok: Outcome, released: multiset<Name>,
                                        root: Name, spent: set<Name>)
    returns (order: seq<Name>)
    requires DrainInv(g, w, released, {}, root, spent, {}) && Edge(g, p, c) && c in g.ifs
    requires released + multiset{c} <= Owed(g, w.isPending)
    ensures Stopped(g, w, Release(g, w, c, ok), order)
    ensures forall y :: y in order ==> Reaches(g, p, y) && y !in w.isExplicit
    decreases Idle(g, w), 2, 0
  {
    var v := Unref(w, c);
    assert v == w.(refcount := v.refcount, state := v.state);
    UnrefDrain(g, w, c, released, root, spent, {});
    if v.refcount[c] > 1 || c in v.isExplicit || c in v.isPending {
      order := [];
      StoppedNothing(g, w, Step(v, true));
      assert Release(g, w, c, ok) == Step(v, true);
    } else {
      order := TakeDownStops(g, v, c, ok, released + multiset{c}, root, spent);
      ReachesThrough(g, p, c, order);
      StoppedFrom(g, w, v, TakeDown(g, v, c, ok), order);
      assert Release(g, w, c, ok) == TakeDown(g, v, c, ok);
    }
  }

  // --- the interface that the command names ---------------------------------------------------

  /** Whatever configured interface needs order[i] was stopped earlier; but for the first. */
  ghost predicate NeedersBefore(g: Graph, configured: set<Name>, order: seq<Name>) {
    forall i, q :: 0 < i < |order| && q in configured && Edge(g, q, order[i]) ==> q in order[..i]
  }

  /** The teardown called for x stopped these interfaces, x first, each once. */
  ghost predicate RootStopped(g: Graph, w: World, s: Step, x: Name, order: seq<Name>) {
    && Distinct(order) && |order| > 0 && order[0] == x
    && (forall y :: y in order ==> y in w.configured && (y == x || (Reaches(g, x, y) && y !in w.isExplicit)))
    && NeedersBefore(g, w.configured, order)
    && Executed(w.trace, s.w.trace, Blocks(order, DOWN_PHASES))
    && (s.ok ==> s.w.trace == w.trace + Blocks(order, DOWN_PHASES)
                 && s.w.configured == w.configured - (set y | y in order))
  }

  lemma RootAlone(g: Graph, w: World, x: Name, ok: Outcome)
    requires Fits(g, w) && x in w.configured && x !in w.isPending && !g.ifs[x].isTemplate
    requires !RunPhases(w, x, DOWN_PHASES, ok).ok
    ensures RootStopped(g, w, TakeDown(g, w, x, ok), x, [x])
  {
    RunPhasesExecuted(w, x, DOWN_PHASES, ok);
    assert Blocks([x], DOWN_PHASES) == Block(x, DOWN_PHASES) + Blocks([], DOWN_PHASES) == Block(x, DOWN_PHASES);
  }

  /** x first; then, with x on the stack, the interfaces in `rest`. */
  lemma RootUnder(g: Graph, w: World, x: Name, p: World, d: Step, rest: seq<Name>, t: Step)
    requires x in w.configured && w.isPending == {}
    requires p == w.(trace := w.trace + Block(x, DOWN_PHASES)) && Stopped(g, Enter(p, x), d, rest)
    requires forall y :: y in rest ==> Reaches(g, x, y) && y !in w.isExplicit
    requires t.w.trace == d.w.trace && t.ok == d.ok && (d.ok ==> t.w.configured == d.w.configured - {x})
    ensures RootStopped(g, w, t, x, [x] + rest)
  {
    var o := [x] + rest;
    DistinctAppend([x], rest);
    assert Blocks(o, DOWN_PHASES) == Block(x, DOWN_PHASES) + Blocks(rest, DOWN_PHASES);
    ExecutedThen(w.trace, p.trace, t.w.trace, Block(x, DOWN_PHASES), Blocks(rest, DOWN_PHASES));
    forall i, q | 0 < i < |o| && q in w.configured && Edge(g, q, o[i])
      ensures q in o[..i]
    {
      assert o[i] == rest[i - 1] && o[..i] == [x] + rest[..i - 1];
    }
    assert t.ok ==> t.w.configured == w.configured - (set y | y in o);
  }

  /** Called for an interface at any count, in a ledger in which interfaces that were asked for
      may be down and still counted. */
  lemma RootStops(g: Graph, w: World, x: Name, ok: Outcome, spent: set<Name>) returns (order: seq<Name>)
    requires Drained(g, w, spent) && spent <= w.isExplicit && x in w.configured
    ensures RootStopped(g, w, TakeDown(g, w, x, ok), x, order)
  {
    var p := RunPhases(w, x, DOWN_PHASES, ok);
    if p.ok {
      DrainStarts(g, w, x, spent, {});
      var rest := BelowStops(g, w, x, ok, multiset{}, x, spent);
      RunPhasesExecuted(w, x, DOWN_PHASES, ok);
      TakeDownParts(g, w, x, ok);
      RootUnder(g, w, x, p.w, ReleaseRequired(g, Enter(p.w, x), g.ifs[x].required, ok), rest, TakeDown(g, w, x, ok));
      order := [x] + rest;
    } else {
      RootAlone(g, w, x, ok);
      order := [x];
    }
  }
}
