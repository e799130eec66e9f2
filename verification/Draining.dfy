/** What a teardown keeps whatever the count of the interface it was called for, on any graph. */
module Draining {
  import opened Graphs
  import opened Worlds
  import opened Lifecycle
  import opened Ledger

  /** Interfaces that a teardown called for `root` cannot reach: each was asked for, or is
      required by another one of them. */
  ghost predicate Protected(g: Graph, w: World, root: Name, kept: set<Name>) {
    && kept <= w.configured && kept !! w.isPending && root !in kept
    && forall c :: c in kept && c !in w.isExplicit ==> exists q :: q in kept && Edge(g, q, c)
  }

  /** The ledger in the middle of a teardown called for `root`. The interfaces that went down
      below it had only their own reference left; root itself may have more. `spent` are
      explicit interfaces that are down while others still count them. */
  ghost predicate DrainInv(g: Graph, w: World, released: multiset<Name>, leaving: set<Name>,
                           root: Name, spent: set<Name>, kept: set<Name>)
  {
    && Fits(g, w)
    && Balanced(g, w, multiset{}, released)
    && Healthy(g, w.configured)
    && w.isPending <= w.configured && root in w.isPending + leaving
    && (forall s :: s in w.isPending && s != root ==> w.refcount[s] == 1)
    && Held(g, w, w.isExplicit + w.isPending + leaving)
    && released <= Owed(g, w.isPending)
    && spent <= w.isExplicit
    && (forall y :: y in g.ifs && w.refcount[y] > 0 ==> y in w.configured || y in spent)
    && Protected(g, w, root, kept)
  }

  lemma EnterDrain(g: Graph, w: World, x: Name, released: multiset<Name>, root: Name, spent: set<Name>, kept: set<Name>)
    requires DrainInv(g, w, released, {x}, root, spent, kept)
    requires x in w.configured && x !in w.isPending && x !in kept && (x == root || w.refcount[x] == 1)
    ensures DrainInv(g, Enter(w, x), released, {}, root, spent, kept)
    ensures released + multiset(Needs(g, x)) <= Owed(g, Enter(w, x).isPending)
  {
    OwedAdd(g, w.isPending, x);
  }

  lemma PhasesDrain(g: Graph, w: World, x: Name, ok: Outcome, released: multiset<Name>, leaving: set<Name>,
                    root: Name, spent: set<Name>, kept: set<Name>)
    requires DrainInv(g, w, released, leaving, root, spent, kept)
    ensures DrainInv(g, RunPhases(w, x, DOWN_PHASES, ok).w, released, leaving, root, spent, kept)
  {
  }

  /** What the stack still owes is there to be given back; what is configured, or even
      protected, keeps references beyond that. */
  lemma DrainOwed(g: Graph, w: World, c: Name, released: multiset<Name>, root: Name, spent: set<Name>, kept: set<Name>)
    requires DrainInv(g, w, released, {}, root, spent, kept) && c in g.ifs
    requires released + multiset{c} <= Owed(g, w.isPending)
    ensures w.refcount[c] >= 1
    ensures c in w.configured ==> w.refcount[c] >= 2
    ensures c in kept && c !in w.isExplicit ==> w.refcount[c] >= 3
    ensures c in w.isPending ==> c == root
    ensures c !in w.isExplicit ==> c in w.configured
  {
    OwedSplit(g, w.configured, w.isPending);
    assert (released + multiset{c})[c] == released[c] + 1;
    if c in kept && c !in w.isExplicit {
      var q :| q in kept && Edge(g, q, c);
      OwedEdges(g, w.configured - w.isPending, c);
    }
  }

  /** One reference given back; then c may go down only if nothing else wants it. */
  lemma UnrefDrain(g: Graph, w: World, c: Name, released: multiset<Name>, root: Name, spent: set<Name>, kept: set<Name>)
    requires DrainInv(g, w, released, {}, root, spent, kept) && c in g.ifs
    requires released + multiset{c} <= Owed(g, w.isPending)
    ensures var v := Unref(w, c);
            if v.refcount[c] > 1 || c in v.isExplicit || c in v.isPending
            then DrainInv(g, v, released + multiset{c}, {}, root, spent, kept)
            else DrainInv(g, v, released + multiset{c}, {c}, root, spent, kept)
                 && c in v.configured && v.refcount[c] == 1 && c !in kept && c != root
  {
    DrainOwed(g, w, c, released, root, spent, kept);
    UnrefBalanced(g, w, c, released);
    var v := Unref(w, c);
    DrainLess(g, w, v, c, released, if v.refcount[c] > 1 || c in v.isExplicit || c in v.isPending then {} else {c},
              root, spent, kept);
  }

  /** Only the count of c is lower. */
  ghost predicate Less(w: World, v: World, c: Name) {
    && c in w.refcount && w.refcount[c] > 0
    && v == w.(refcount := w.refcount[c := w.refcount[c] - 1], state := v.state)
  }

  lemma DrainLess(g: Graph, w: World, v: World, c: Name, released: multiset<Name>, leaving: set<Name>,
                  root: Name, spent: set<Name>, kept: set<Name>)
    requires DrainInv(g, w, released, {}, root, spent, kept) && c in g.ifs && Less(w, v, c)
    requires Balanced(g, v, multiset{}, released + multiset{c}) && released + multiset{c} <= Owed(g, w.isPending)
    requires c in w.isPending ==> c == root
    requires v.refcount[c] > 1 || c in v.isExplicit || c in v.isPending || c in leaving
    ensures DrainInv(g, v, released + multiset{c}, leaving, root, spent, kept)
  {
  }

  lemma UnrefBalanced(g: Graph, w: World, c: Name, released: multiset<Name>)
    requires Fits(g, w) && c in g.ifs && w.refcount[c] > 0 && Balanced(g, w, multiset{}, released)
    ensures Less(w, Unref(w, c), c) && Balanced(g, Unref(w, c), multiset{}, released + multiset{c})
  {
  }

  lemma FinishBalanced(g: Graph, w: World, x: Name, released: multiset<Name>)
    requires Fits(g, w) && x in w.configured && w.refcount[x] > 0
    requires Balanced(g, w, multiset{}, released + multiset(Needs(g, x)))
    ensures Balanced(g, FinishDown(g, w, x).w, multiset{}, released)
  {
    OwedRemove(g, w.configured, x);
  }

  lemma FinishDrain(g: Graph, w: World, x: Name, released: multiset<Name>, root: Name, spent: set<Name>, kept: set<Name>)
    requires Fits(g, w) && x in g.ifs && x !in w.isPending && x != root
    requires DrainInv(g, Enter(w, x), released + multiset(Needs(g, x)), {}, root, spent, kept)
    requires released <= Owed(g, w.isPending)
    ensures var v := FinishDown(g, w, x).w;
            DrainInv(g, v, released, {}, root, spent, kept) && v.configured == w.configured - {x}
  {
    FinishBalanced(g, w, x, released);
  }

  lemma {:induction false} TakeDownDrain(g: Graph, w: World, x: Name, ok: Outcome, released: multiset<Name>,
                                         root: Name, spent: set<Name>, kept: set<Name>)
    requires DrainInv(g, w, released, {x}, root, spent, kept)
    requires x in w.configured && x !in w.isPending && x !in kept && x != root && w.refcount[x] == 1
    ensures var s := TakeDown(g, w, x, ok);
            s.ok ==> DrainInv(g, s.w, released, {}, root, spent, kept) && s.w.configured <= w.configured
    decreases Idle(g, w), 1, 0
  {
    var p := RunPhases(w, x, DOWN_PHASES, ok);
    if p.ok {
      PhasesDrain(g, w, x, ok, released, {x}, root, spent, kept);
      EnterShrinks(g, p.w, x);
      EnterDrain(g, p.w, x, released, root, spent, kept);
      ReleaseRequiredDrain(g, Enter(p.w, x), g.ifs[x].required, ok, released, root, spent, kept);
      TakeDownUnfolds(g, w, x, ok);
      var r := ReleaseRequired(g, Enter(p.w, x), g.ifs[x].required, ok);
      if r.ok {
        assert Enter(Leave(r.w, x), x) == r.w;
        FinishDrain(g, Leave(r.w, x), x, released, root, spent, kept);
      }
    }
  }

  /** A teardown whose phases succeed is the loop over requirements and the last reference. */
  lemma TakeDownUnfolds(g: Graph, w: World, x: Name, ok: Outcome)
    requires Fits(g, w) && x in g.ifs && x !in w.isPending && !g.ifs[x].isTemplate
    ensures var p := RunPhases(w, x, DOWN_PHASES, ok);
            && (!p.ok ==> TakeDown(g, w, x, ok) == p)
            && (p.ok ==> var r := ReleaseRequired(g, Enter(p.w, x), g.ifs[x].required, ok);
                         TakeDown(g, w, x, ok) ==
                           if r.ok then FinishDown(g, Leave(r.w, x), x) else Step(Leave(r.w, x), false))
  {
    var p := RunPhases(w, x, DOWN_PHASES, ok);
    EnterShrinks(g, p.w, x);
  }

  /** The history of a teardown is that of the phases, then that of the loop. */
  lemma DownHistory(g: Graph, w: World, x: Name, ok: Outcome)
    requires Fits(g, w) && x in g.ifs && x !in w.isPending && !g.ifs[x].isTemplate
    ensures var p, t := RunPhases(w, x, DOWN_PHASES, ok), TakeDown(g, w, x, ok);
            if !p.ok then t == p
            else var r := ReleaseRequired(g, Enter(p.w, x), g.ifs[x].required, ok);
                 t.ok == r.ok && t.w.trace == r.w.trace
  {
    TakeDownUnfolds(g, w, x, ok);
  }

  lemma {:induction false} ReleaseRequiredDrain(g: Graph, w: World, tokens: seq<Name>, ok: Outcome, released: multiset<Name>,
                                                root: Name, spent: set<Name>, kept: set<Name>)
    requires DrainInv(g, w, released, {}, root, spent, kept) && forall c :: c in tokens ==> c in g.ifs
    requires released + multiset(Effective(g, tokens)) <= Owed(g, w.isPending)
    ensures var s := ReleaseRequired(g, w, tokens, ok);
            s.ok ==> DrainInv(g, s.w, released + multiset(Effective(g, tokens)), {}, root, spent, kept)
                     && s.w.configured <= w.configured
    decreases Idle(g, w), 3, |tokens|
  {
    if tokens == [] {
      assert released + multiset(Effective(g, tokens)) == released;
    } else if g.ifs[tokens[0]].hasConfigError {
      ReleaseRequiredDrain(g, w, tokens[1..], ok, released, root, spent, kept);
    } else {
      var c, rest := tokens[0], Effective(g, tokens[1..]);
      MultisetCons(c, rest, released);
      ReleaseDrain(g, w, c, ok, released, root, spent, kept);
      var s := Release(g, w, c, ok);
      if s.ok {
        ReleaseRequiredDrain(g, s.w, tokens[1..], ok, released + multiset{c}, root, spent, kept);
      }
    }
  }

  lemma {:induction false} ReleaseDrain(g: Graph, w: World, c: Name, ok: Outcome, released: multiset<Name>,
                                        root: Name, spent: set<Name>, kept: set<Name>)
    requires DrainInv(g, w, released, {}, root, spent, kept) && c in g.ifs
    requires released + multiset{c} <= Owed(g, w.isPending)
    ensures var s := Release(g, w, c, ok);
            s.ok ==> DrainInv(g, s.w, released + multiset{c}, {}, root, spent, kept) && s.w.configured <= w.configured
    decreases Idle(g, w), 2, 0
  {
    UnrefDrain(g, w, c, released, root, spent, kept);
    var v := Unref(w, c);
    if v.refcount[c] > 1 || c in v.isExplicit || c in v.isPending {
      assert Release(g, w, c, ok) == Step(v, true);
    } else {
      TakeDownDrain(g, v, c, ok, released + multiset{c}, root, spent, kept);
      assert Release(g, w, c, ok) == TakeDown(g, v, c, ok);
    }
  }

  // --- the interface that the command names ---------------------------------------------------

  /** The ledger between commands, but for explicit interfaces that are down and still counted. */
  ghost predicate Drained(g: Graph, w: World, spent: set<Name>) {
    && Fits(g, w) && w.isPending == {}
    && Balanced(g, w, multiset{}, multiset{})
    && Healthy(g, w.configured)
    && Held(g, w, w.isExplicit)
    && forall y :: y in g.ifs && w.refcount[y] > 0 ==> y in w.configured || y in spent
  }

  lemma DrainStarts(g: Graph, w: World, x: Name, spent: set<Name>, kept: set<Name>)
    requires Drained(g, w, spent) && spent <= w.isExplicit && Protected(g, w, x, kept)
    ensures DrainInv(g, w, multiset{}, {x}, x, spent, kept)
  {
  }

  lemma DrainEnds(g: Graph, w: World, x: Name, spent: set<Name>, kept: set<Name>)
    requires Fits(g, w) && x in g.ifs && w.isPending == {}
    requires DrainInv(g, Enter(w, x), multiset(Needs(g, x)), {}, x, spent, kept)
    ensures var v := FinishDown(g, w, x).w;
            Drained(g, v, spent + {x}) && kept <= v.configured == w.configured - {x}
  {
    assert w.refcount[x] > 0 by {
      OwedSplit(g, w.configured, Enter(w, x).isPending);
      assert multiset(Needs(g, x))[x] <= Owed(g, Enter(w, x).isPending)[x];
    }
    assert multiset{} + multiset(Needs(g, x)) == multiset(Needs(g, x));
    FinishBalanced(g, w, x, multiset{});
  }

  /** A successful teardown called for a configured interface, at any count, keeps the ledger,
      and keeps whatever is protected from it. Only the interface itself may be down and still
      counted. */
  lemma RootDrained(g: Graph, w: World, x: Name, ok: Outcome, spent: set<Name>, kept: set<Name>)
    requires Drained(g, w, spent) && spent <= w.isExplicit && x in w.configured && Protected(g, w, x, kept)
    ensures var s := TakeDown(g, w, x, ok);
            s.ok ==> && Drained(g, s.w, spent + {x}) && s.w.configured <= w.configured - {x}
                     && kept <= s.w.configured && s.w.isExplicit == w.isExplicit
  {
    var p := RunPhases(w, x, DOWN_PHASES, ok);
    if p.ok {
      DrainStarts(g, w, x, spent, kept);
      PhasesDrain(g, w, x, ok, multiset{}, {x}, x, spent, kept);
      EnterDrain(g, p.w, x, multiset{}, x, spent, kept);
      assert multiset{} + multiset(Needs(g, x)) == multiset(Needs(g, x));
      ReleaseRequiredDrain(g, Enter(p.w, x), g.ifs[x].required, ok, multiset{}, x, spent, kept);
      TakeDownUnfolds(g, w, x, ok);
      var r := ReleaseRequired(g, Enter(p.w, x), g.ifs[x].required, ok);
      if r.ok {
        assert Enter(Leave(r.w, x), x) == r.w;
        DrainEnds(g, Leave(r.w, x), x, spent, kept);
      }
    }
  }
}
