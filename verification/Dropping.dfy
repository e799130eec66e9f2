/** What a teardown keeps: the reference ledger, and nothing configured loses what it needs. */
module Dropping {
  import opened Graphs
  import opened Worlds
  import opened Lifecycle
  import opened Ledger

  /** Interfaces on the teardown stack keep only their own reference until they finish. */
  ghost predicate StackLast(g: Graph, w: World)
    requires Fits(g, w)
  {
    w.isPending <= w.configured && forall s :: s in w.isPending ==> w.refcount[s] == 1
  }

  ghost predicate DropInv(g: Graph, w: World, released: multiset<Name>, leaving: set<Name>) {
    && Fits(g, w)
    && Balanced(g, w, multiset{}, released)
    && Alive(g, w)
    && Healthy(g, w.configured)
    && StackLast(g, w)
    && Held(g, w, w.isExplicit + w.isPending + leaving)
    && released <= Owed(g, w.isPending)
  }

  lemma EnterDrop(g: Graph, w: World, x: Name, released: multiset<Name>)
    requires DropInv(g, w, released, {x})
    requires x in w.configured && x !in w.isPending && w.refcount[x] == 1
    ensures DropInv(g, Enter(w, x), released, {})
    ensures released + multiset(Needs(g, x)) <= Owed(g, Enter(w, x).isPending)
  {
    OwedAdd(g, w.isPending, x);
  }

  /** Once its phases are done, x goes onto the stack owing all its edges. */
  lemma DropReady(g: Graph, w: World, x: Name, ok: Outcome, released: multiset<Name>)
    requires DropInv(g, w, released, {x})
    requires x in w.configured && x !in w.isPending && w.refcount[x] == 1
    ensures var v := Enter(RunPhases(w, x, DOWN_PHASES, ok).w, x);
            && DropInv(g, v, released, {})
            && released + multiset(Needs(g, x)) <= Owed(g, v.isPending)
            && Idle(g, v) < Idle(g, w)
  {
    var p := RunPhases(w, x, DOWN_PHASES, ok);
    assert DropInv(g, p.w, released, {x});
    EnterShrinks(g, p.w, x);
    EnterDrop(g, p.w, x, released);
  }

  /** A reference still owed by the stack is there to be released, and the interface it
      holds is configured, off the stack, and needed at least once. */
  lemma OwedIsHeld(g: Graph, w: World, c: Name, released: multiset<Name>)
    requires DropInv(g, w, released, {}) && c in g.ifs
    requires released + multiset{c} <= Owed(g, w.isPending)
    ensures c in w.configured && c !in w.isPending && w.refcount[c] >= 2
  {
    OwedSplit(g, w.configured, w.isPending);
    assert (released + multiset{c})[c] == released[c] + 1;
    assert Owed(g, w.configured)[c] >= released[c] + 1;
  }

  lemma UnrefDrop(g: Graph, w: World, c: Name, released: multiset<Name>)
    requires DropInv(g, w, released, {}) && c in g.ifs
    requires released + multiset{c} <= Owed(g, w.isPending)
    ensures var v := Unref(w, c);
            DropInv(g, v, released + multiset{c}, if v.refcount[c] > 1 || c in v.isExplicit then {} else {c})
  {
    OwedIsHeld(g, w, c, released);
    var v := Unref(w, c);
    assert Balanced(g, v, multiset{}, released + multiset{c});
  }

  lemma FinishDownBalanced(g: Graph, w: World, x: Name, released: multiset<Name>)
    requires Fits(g, w) && x in w.configured && w.refcount[x] == 1
    requires Balanced(g, w, multiset{}, released + multiset(Needs(g, x)))
    ensures Balanced(g, FinishDown(g, w, x).w, multiset{}, released)
  {
    OwedRemove(g, w.configured, x);
  }

  /** When x completes, its released edges leave the ledger with it. */
  lemma FinishDownDrop(g: Graph, w: World, x: Name, released: multiset<Name>)
    requires Fits(g, w) && x in g.ifs && x !in w.isPending
    requires DropInv(g, Enter(w, x), released + multiset(Needs(g, x)), {})
    requires released <= Owed(g, w.isPending)
    ensures var v := FinishDown(g, w, x).w;
            DropInv(g, v, released, {}) && v.configured == w.configured - {x}
  {
    FinishDownBalanced(g, w, x, released);
  }

  lemma {:induction false} TakeDownInv(g: Graph, w: World, x: Name, ok: Outcome, released: multiset<Name>)
    requires DropInv(g, w, released, {x})
    requires x in w.configured && x !in w.isPending && w.refcount[x] == 1
    ensures var s := TakeDown(g, w, x, ok);
            s.ok ==> DropInv(g, s.w, released, {}) && s.w.configured <= w.configured - {x}
    decreases Idle(g, w), 1, 0
  {
    var p := RunPhases(w, x, DOWN_PHASES, ok);
    if p.ok {
      DropReady(g, w, x, ok, released);
      ReleaseRequiredInv(g, Enter(p.w, x), g.ifs[x].required, ok, released);
      var d := ReleaseDependents(g, p.w, x, ok);
      if d.ok {
        assert Enter(d.w, x) == ReleaseRequired(g, Enter(p.w, x), g.ifs[x].required, ok).w;
        FinishDownDrop(g, d.w, x, released);
      }
    }
  }

  lemma {:induction false} ReleaseRequiredInv(g: Graph, w: World, tokens: seq<Name>, ok: Outcome,
                                              released: multiset<Name>)
    requires DropInv(g, w, released, {}) && forall c :: c in tokens ==> c in g.ifs
    requires released + multiset(Effective(g, tokens)) <= Owed(g, w.isPending)
    ensures var s := ReleaseRequired(g, w, tokens, ok);
            s.ok ==> DropInv(g, s.w, released + multiset(Effective(g, tokens)), {}) && s.w.configured <= w.configured
    decreases Idle(g, w), 3, |tokens|
  {
    if tokens == [] {
      assert released + multiset(Effective(g, tokens)) == released;
    } else if g.ifs[tokens[0]].hasConfigError {
      ReleaseRequiredInv(g, w, tokens[1..], ok, released);
    } else {
      var c, rest := tokens[0], Effective(g, tokens[1..]);
      MultisetCons(c, rest, released);
      ReleaseInv(g, w, c, ok, released);
      var s := Release(g, w, c, ok);
      if s.ok {
        ReleaseRequiredInv(g, s.w, tokens[1..], ok, released + multiset{c});
      }
    }
  }

  lemma {:induction false} ReleaseInv(g: Graph, w: World, c: Name, ok: Outcome, released: multiset<Name>)
    requires DropInv(g, w, released, {}) && c in g.ifs
    requires released + multiset{c} <= Owed(g, w.isPending)
    ensures var s := Release(g, w, c, ok);
            s.ok ==> DropInv(g, s.w, released + multiset{c}, {}) && s.w.configured <= w.configured
    decreases Idle(g, w), 2, 0
  {
    UnrefDrop(g, w, c, released);
    OwedIsHeld(g, w, c, released);
    var v := Unref(w, c);
    if !(v.refcount[c] > 1 || c in v.isExplicit) {
      TakeDownInv(g, v, c, ok, released + multiset{c});
    }
  }
}
