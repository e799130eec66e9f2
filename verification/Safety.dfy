/** Order and safety of single runs, and exactly when the program keeps its invariant. */
module Safety {
  import opened Graphs
  import opened Worlds
  import opened Lifecycle
  import opened Ledger
  import opened BringUpOrder
  import opened TakeDownOrder
  import opened Commands
  import opened Settling
  import opened Draining
  import opened Teardown

  /** Blocks of a bring-up, from every world, on every graph, for every outcome of the phases.
      The interfaces that start are x and some it requires that were not counted before, each in
      one block of create, pre-up, up, post-up, none twice. Whatever an interface requires was
      counted before the run, has started before it, or is on the recursion stack when it
      starts; who is on the stack starts later, if the run succeeds. A failure cuts the last
      block short and ends the run. */
  lemma BringUpBlocks(g: Graph, w: World, x: Name, ok: Outcome) returns (order: seq<Name>, stacks: seq<set<Name>>)
    requires Fits(g, w) && x in g.ifs
    ensures var s := BringUp(g, w, x, ok);
            && Distinct(order) && |stacks| == |order|
            && (forall y :: y in order ==> y == x || (Reaches(g, x, y) && !Counted(w, y)))
            && Executed(w.trace, s.w.trace, Blocks(order, [Create, PreUp, Up, PostUp]))
            && (forall i :: 0 <= i < |order| ==> Waits(g, w, s.ok, {x}, order, stacks, i))
            && (s.ok ==> (x in order || x in w.isPending) && s.w.configured == w.configured + (set y | y in order)
                         && s.w.trace == w.trace + Blocks(order, [Create, PreUp, Up, PostUp]))
  {
    order, stacks := BringUpBegins(g, w, x, ok);
  }

  /** What order[i] requires is configured before the run, started before it, or waits for it. */
  ghost predicate StartsReady(g: Graph, w: World, order: seq<Name>, stacks: seq<set<Name>>, i: nat)
    requires i < |order| == |stacks|
  {
    forall c :: Edge(g, order[i], c) ==>
      c in w.configured || c in order[..i] || (!Acyclic(g) && (c == order[i] || c in stacks[i]))
  }

  /** Bring-up order, in the ledger. Each interface starts after all it requires, or while that
      waits for it on the stack, which an acyclic graph excludes. */
  lemma BringUpSafety(g: Graph, w: World, x: Name, ok: Outcome) returns (order: seq<Name>, stacks: seq<set<Name>>)
    requires Settled(g, w) && x in g.ifs && x !in w.configured
    ensures Begun(g, w, BringUp(g, w, x, ok), {x}, order, stacks)
    ensures forall y :: y in order ==> y !in w.configured && (y == x || Reaches(g, x, y))
    ensures forall i :: 0 <= i < |order| ==> StartsReady(g, w, order, stacks, i)
    ensures BringUp(g, w, x, ok).ok ==>
              x in order && forall y, c :: y in order && Edge(g, y, c) ==> c in w.configured || c in order
  {
    order, stacks := BringUpBegins(g, w, x, ok);
    forall i | 0 <= i < |order|
      ensures StartsReady(g, w, order, stacks, i)
    {
      forall c | Edge(g, order[i], c)
        ensures c in w.configured || c in order[..i] || (!Acyclic(g) && (c == order[i] || c in stacks[i]))
      {
        RequirementAtStart(g, w, BringUp(g, w, x, ok), x, order, stacks, i, c);
      }
    }
    forall y, c | y in order && Edge(g, y, c) && BringUp(g, w, x, ok).ok
      ensures c in w.configured || c in order
    {
      var i :| 0 <= i < |order| && order[i] == y;
      RequirementAtStart(g, w, BringUp(g, w, x, ok), x, order, stacks, i, c);
    }
  }

  lemma RequirementAtStart(g: Graph, w: World, s: Step, x: Name, order: seq<Name>, stacks: seq<set<Name>>, i: nat, c: Name)
    requires Settled(g, w) && Begun(g, w, s, {x}, order, stacks) && i < |order| && Edge(g, order[i], c)
    ensures c in w.configured || c in order[..i] || (!Acyclic(g) && (c == order[i] || c in stacks[i]))
    ensures s.ok ==> c in w.configured || c in order
  {
    assert Waits(g, w, s.ok, {x}, order, stacks, i);
    assert Counted(w, c) ==> c in w.configured;
    assert order[..i + 1] == order[..i] + [order[i]];
    if c == order[i] || c in stacks[i] {
      ReachesEdge(g, order[i], c);
      if c != order[i] {
        ReachesTransitive(g, c, order[i], c);
      }
    }
  }

  /** Teardown safety, at every count, on every graph, for every outcome of the phases. Taking
      down a configured interface runs one block of phases per interface that stops, none twice;
      beyond x only interfaces that x requires and nobody asked for are stopped, each after all
      configured interfaces that require it. If only its own reference holds x, nobody requires
      x either, and on success whatever stays configured has all it requires. */
  lemma TeardownSafety(g: Graph, w: World, x: Name, ok: Outcome) returns (order: seq<Name>)
    requires Settled(g, w) && x in w.configured
    ensures var s := TakeDown(g, w, x, ok);
            && Distinct(order) && |order| > 0 && order[0] == x
            && Executed(w.trace, s.w.trace, Blocks(order, [PreDown, Down, PostDown, Destroy]))
            && (forall y :: y in order ==> y in w.configured && (y == x || (Reaches(g, x, y) && y !in w.isExplicit)))
            && (forall i, q :: 0 < i < |order| && q in w.configured && Edge(g, q, order[i]) ==> q in order[..i])
            && (s.ok ==> s.w.trace == w.trace + Blocks(order, [PreDown, Down, PostDown, Destroy])
                         && s.w.configured == w.configured - (set y | y in order))
            && (w.refcount[x] == 1 ==> forall q :: q in w.configured ==> !Edge(g, q, x))
            && (w.refcount[x] == 1 && s.ok ==> Settled(g, s.w) && Supplied(g, s.w.configured, {}))
  {
    order := RootStops(g, w, x, ok, {});
    if w.refcount[x] == 1 {
      OwedEdges(g, w.configured, x);
      IfDownSettled(g, w, x, true, ok);
      assert ChangeInterface(g, w, x, false, true, ok) == TakeDown(g, w, x, ok);
      if TakeDown(g, w, x, ok).ok {
        SettledSupplied(g, TakeDown(g, w, x, ok).w);
      }
    }
  }

  ghost predicate Untouched(g: Graph, w: World, v: World, y: Name)
    requires Fits(g, w) && Fits(g, v) && y in g.ifs
  {
    v.refcount[y] == w.refcount[y] && (y in v.configured <==> y in w.configured)
  }

  /** Whatever x does not require stays as it was, on every path. */
  lemma {:induction false} TakeDownUntouched(g: Graph, w: World, x: Name, ok: Outcome, y: Name)
    requires Fits(g, w) && x in g.ifs && y in g.ifs && y != x && !Reaches(g, x, y)
    ensures Untouched(g, w, TakeDown(g, w, x, ok).w, y)
    decreases Idle(g, w), 1, 0
  {
    var p := RunPhases(w, x, DOWN_PHASES, ok);
    if x !in w.isPending && !g.ifs[x].isTemplate && p.ok {
      EnterShrinks(g, p.w, x);
      ReleaseRequiredUntouched(g, Enter(p.w, x), x, g.ifs[x].required, ok, y);
      var d := ReleaseDependents(g, p.w, x, ok);
      assert Untouched(g, w, d.w, y);
      if d.ok {
        UnrefUntouched(g, d.w, x, y);
      }
    }
  }

  lemma UnrefUntouched(g: Graph, w: World, x: Name, y: Name)
    requires Fits(g, w) && x in g.ifs && y in g.ifs && y != x
    ensures Fits(g, Unref(w, x)) && Untouched(g, w, Unref(w, x), y)
    ensures Untouched(g, w, FinishDown(g, w, x).w, y)
  {
  }

  lemma {:induction false} ReleaseRequiredUntouched(g: Graph, w: World, p: Name, tokens: seq<Name>, ok: Outcome,
                                                    y: Name)
    requires Fits(g, w) && (forall c :: c in tokens ==> c in g.ifs) && y in g.ifs && !Reaches(g, p, y)
    requires forall c :: c in Effective(g, tokens) ==> Edge(g, p, c)
    ensures Untouched(g, w, ReleaseRequired(g, w, tokens, ok).w, y)
    decreases Idle(g, w), 3, |tokens|
  {
    if tokens != [] {
      var c := tokens[0];
      if g.ifs[c].hasConfigError {
        ReleaseRequiredUntouched(g, w, p, tokens[1..], ok, y);
      } else {
        assert c in Effective(g, tokens);
        ReleaseUntouched(g, w, p, c, ok, y);
        var s := Release(g, w, c, ok);
        if s.ok {
          ReleaseRequiredUntouched(g, s.w, p, tokens[1..], ok, y);
        }
      }
    }
  }

  lemma {:induction false} ReleaseUntouched(g: Graph, w: World, p: Name, c: Name, ok: Outcome, y: Name)
    requires Fits(g, w) && c in g.ifs && y in g.ifs && Edge(g, p, c) && !Reaches(g, p, y)
    ensures Untouched(g, w, Release(g, w, c, ok).w, y)
    decreases Idle(g, w), 2, 0
  {
    assert c != y && !Reaches(g, c, y) by {
      ReachesEdge(g, p, c);
      if Reaches(g, c, y) {
        ReachesTransitive(g, p, c, y);
      }
    }
    var v := Unref(w, c);
    UnrefUntouched(g, w, c, y);
    if !(v.refcount[c] > 1 || c in v.isExplicit) {
      TakeDownUntouched(g, v, c, ok, y);
      assert Release(g, w, c, ok) == TakeDown(g, v, c, ok);
    }
  }

  lemma FinishDownCosts(g: Graph, w: World, x: Name)
    requires Fits(g, w) && x in g.ifs && w.refcount[x] > 0
    ensures var v := FinishDown(g, w, x).w; v.refcount[x] == w.refcount[x] - 1 && x !in v.configured
  {
  }

  /** Off cycles, taking x down costs it exactly one reference. */
  lemma TakeDownCosts(g: Graph, w: World, x: Name, ok: Outcome)
    requires Fits(g, w) && x in g.ifs && x !in w.isPending && !Reaches(g, x, x) && w.refcount[x] > 0
    ensures var s := TakeDown(g, w, x, ok);
            s.ok ==> s.w.refcount[x] == w.refcount[x] - 1 && x !in s.w.configured
  {
    var p := RunPhases(w, x, DOWN_PHASES, ok);
    if !g.ifs[x].isTemplate && p.ok {
      EnterShrinks(g, p.w, x);
      ReleaseRequiredUntouched(g, Enter(p.w, x), x, g.ifs[x].required, ok, x);
      assert Untouched(g, w, ReleaseRequired(g, Enter(p.w, x), g.ifs[x].required, ok).w, x);
      var d := ReleaseDependents(g, p.w, x, ok);
      FinishDownCosts(g, d.w, x);
      assert TakeDown(g, w, x, ok) == if d.ok then FinishDown(g, d.w, x) else d;
    }
  }

  /** A successful ifdown of a configured interface keeps the invariant exactly when nobody who
      stays up without it requires it. With such a holder the phases run all the same, the
      record stays, and what the holder needs is gone. Off cycles that is exactly a count other
      than 1, read before the call. */
  lemma TakeDownSafeIff(g: Graph, w: World, x: Name, ok: Outcome)
    requires Settled(g, w) && x in w.configured
    ensures var s := ChangeInterface(g, w, x, false, true, ok);
            s.ok ==> (Settled(g, s.w) <==> !HeldFromOutside(g, w, x))
    ensures !Reaches(g, x, x) ==> (HeldFromOutside(g, w, x) <==> w.refcount[x] != 1)
  {
    if !Reaches(g, x, x) {
      HeldOffCycle(g, w, x);
    }
    var s := TakeDown(g, w, x, ok);
    assert ChangeInterface(g, w, x, false, true, ok) == s;
    if s.ok {
      TakeDownLeaves(g, w, x, ok);
      SettledButOne(g, s.w, x);
      HeldByStaying(g, w, x);
      OwedEdges(g, s.w.configured, x);
    }
  }

  lemma SettledButOne(g: Graph, v: World, x: Name)
    requires Coherent(g, v) && Drained(g, v, {x}) && AutoExplicit(g, v) && x in g.ifs && x !in v.configured
    ensures Settled(g, v) <==> v.refcount[x] == 0
  {
  }
}
