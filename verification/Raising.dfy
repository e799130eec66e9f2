/** What a bring-up keeps: the reference ledger, on every graph. */
module Raising {
  import opened Graphs
  import opened Worlds
  import opened Lifecycle
  import opened Ledger
  import opened Coherence

  ghost predicate RaiseInv(g: Graph, w: World, taken: multiset<Name>, roots: set<Name>, entering: set<Name>) {
    && Fits(g, w)
    && Balanced(g, w, taken, multiset{})
    && Supplied(g, w.configured, w.isPending)
    && Healthy(g, w.configured)
    && Held(g, w, roots)
    && w.configured !! w.isPending
    && forall c :: c in taken ==> c in w.configured || c in w.isPending || c in entering
  }

  /** What one successful bring-up step may do to the world. */
  ghost predicate RaiseStep(g: Graph, w: World, v: World)
    requires Fits(g, w) && Fits(g, v)
  {
    w.configured <= v.configured && Rises(g, w, v)
  }

  lemma EnterInv(g: Graph, w: World, x: Name, taken: multiset<Name>, roots: set<Name>)
    requires RaiseInv(g, w, taken, roots, {x})
    requires x in g.ifs && x !in w.configured && x !in w.isPending
    ensures RaiseInv(g, Enter(w, x), taken, roots, {})
  {
  }

  lemma RaiseReady(g: Graph, w: World, x: Name, taken: multiset<Name>, roots: set<Name>)
    requires RaiseInv(g, w, taken, roots, {x})
    requires x in g.ifs && x !in w.configured && x !in w.isPending
    ensures RaiseInv(g, Enter(w, x), taken, roots, {}) && Idle(g, Enter(w, x)) < Idle(g, w)
  {
    EnterShrinks(g, w, x);
    EnterInv(g, w, x, taken, roots);
  }

  lemma CompleteBalanced(g: Graph, w: World, x: Name, taken: multiset<Name>)
    requires Fits(g, w) && x in g.ifs && x !in w.configured
    requires Balanced(g, w, taken + multiset(Needs(g, x)), multiset{})
    ensures Balanced(g, Complete(w, x), taken, multiset{})
  {
    OwedAdd(g, w.configured, x);
  }

  lemma CompleteSupplied(g: Graph, w: World, x: Name)
    requires Fits(g, w) && x in g.ifs
    requires Supplied(g, w.configured, w.isPending + {x})
    requires forall c :: Edge(g, x, c) ==> c in w.configured || c in w.isPending + {x}
    ensures Supplied(g, w.configured + {x}, w.isPending)
  {
  }

  /** When x completes, the references it took on the way become its edges. */
  lemma CompleteInv(g: Graph, w: World, x: Name, taken: multiset<Name>, roots: set<Name>)
    requires x in g.ifs && x !in w.isPending && x !in w.configured
    requires !g.ifs[x].hasConfigError && !g.ifs[x].isTemplate
    requires RaiseInv(g, Enter(w, x), taken + multiset(Needs(g, x)), roots, {})
    requires x in roots || w.refcount[x] >= 1
    ensures RaiseInv(g, Complete(w, x), taken, roots, {}) && RaiseStep(g, w, Complete(w, x))
  {
    CompleteBalanced(g, w, x, taken);
    NeedsTaken(g, w, x, taken, roots);
    CompleteSupplied(g, w, x);
    CompleteHeld(g, w, x, roots);
  }

  lemma CompleteHeld(g: Graph, w: World, x: Name, roots: set<Name>)
    requires Fits(g, w) && x in g.ifs && Held(g, w, roots) && (x in roots || w.refcount[x] >= 1)
    ensures Held(g, Complete(w, x), roots) && Rises(g, w, Complete(w, x))
  {
  }

  lemma NeedsTaken(g: Graph, w: World, x: Name, taken: multiset<Name>, roots: set<Name>)
    requires x in g.ifs && RaiseInv(g, Enter(w, x), taken + multiset(Needs(g, x)), roots, {})
    ensures forall c :: Edge(g, x, c) ==> c in w.configured || c in w.isPending + {x}
  {
    forall c | Edge(g, x, c)
      ensures c in w.configured || c in w.isPending + {x}
    {
      assert c in taken + multiset(Needs(g, x));
    }
  }

  lemma FinishUpInv(g: Graph, w: World, x: Name, ok: Outcome, taken: multiset<Name>, roots: set<Name>)
    requires x in g.ifs && x !in w.isPending && x !in w.configured
    requires !g.ifs[x].hasConfigError && !g.ifs[x].isTemplate
    requires RaiseInv(g, Enter(w, x), taken + multiset(Needs(g, x)), roots, {})
    requires x in roots || w.refcount[x] >= 1
    ensures var s := FinishUp(g, w, x, ok);
            s.ok ==> RaiseInv(g, s.w, taken, roots, {}) && RaiseStep(g, w, s.w) && x in s.w.configured
  {
    var p := RunPhases(w, x, UP_PHASES, ok);
    if p.ok {
      assert RaiseInv(g, Enter(p.w, x), taken + multiset(Needs(g, x)), roots, {});
      CompleteInv(g, p.w, x, taken, roots);
    }
  }

  lemma {:induction false} BringUpInv(g: Graph, w: World, x: Name, ok: Outcome, taken: multiset<Name>, roots: set<Name>)
    requires RaiseInv(g, w, taken, roots, {x})
    requires x in g.ifs && !g.ifs[x].hasConfigError && x !in w.configured
    requires x in roots || w.refcount[x] >= 1
    ensures var s := BringUp(g, w, x, ok);
            s.ok ==> RaiseInv(g, s.w, taken, roots, {}) && RaiseStep(g, w, s.w)
                     && (x in s.w.configured || x in s.w.isPending)
    decreases Idle(g, w), 1, 0
  {
    if x !in w.isPending && !g.ifs[x].isTemplate {
      RaiseReady(g, w, x, taken, roots);
      RaiseRequiredInv(g, Enter(w, x), g.ifs[x].required, ok, taken, roots);
      var d := RaiseDependents(g, w, x, ok);
      if d.ok {
        assert Enter(d.w, x) == RaiseRequired(g, Enter(w, x), g.ifs[x].required, ok).w;
        assert x !in d.w.configured;
        FinishUpInv(g, d.w, x, ok, taken, roots);
      }
    }
  }

  lemma {:induction false} RaiseRequiredInv(g: Graph, w: World, tokens: seq<Name>, ok: Outcome,
                                            taken: multiset<Name>, roots: set<Name>)
    requires RaiseInv(g, w, taken, roots, {}) && forall c :: c in tokens ==> c in g.ifs
    ensures var s := RaiseRequired(g, w, tokens, ok);
            s.ok ==> RaiseInv(g, s.w, taken + multiset(Effective(g, tokens)), roots, {}) && RaiseStep(g, w, s.w)
    decreases Idle(g, w), 3, |tokens|
  {
    if tokens == [] {
      assert taken + multiset(Effective(g, tokens)) == taken;
    } else if g.ifs[tokens[0]].hasConfigError {
      RaiseRequiredInv(g, w, tokens[1..], ok, taken, roots);
    } else {
      var c, rest := tokens[0], Effective(g, tokens[1..]);
      AcquireInv(g, w, c, ok, taken, roots);
      var s := Acquire(g, w, c, ok);
      if s.ok {
        RaiseRequiredInv(g, s.w, tokens[1..], ok, taken + multiset{c}, roots);
        MultisetCons(c, rest, taken);
      }
    }
  }

  /** A reference taken on c enters the ledger; c was free of references only if it is
      neither configured nor waiting. */
  lemma RefInv(g: Graph, w: World, c: Name, taken: multiset<Name>, roots: set<Name>)
    requires RaiseInv(g, w, taken, roots, {}) && c in g.ifs
    ensures RaiseInv(g, Ref(w, c), taken + multiset{c}, roots, if w.refcount[c] > 0 then {} else {c})
    ensures Rises(g, w, Ref(w, c))
    ensures w.refcount[c] == 0 ==> c !in w.configured
  {
    RefBalanced(g, w, c, taken);
    if w.refcount[c] > 0 {
      CountedKnown(g, w, c, taken, roots);
    }
  }

  lemma RefBalanced(g: Graph, w: World, c: Name, taken: multiset<Name>)
    requires Fits(g, w) && c in g.ifs && Balanced(g, w, taken, multiset{})
    ensures Balanced(g, Ref(w, c), taken + multiset{c}, multiset{})
  {
  }

  /** Whatever is counted is configured or waits. */
  lemma CountedKnown(g: Graph, w: World, c: Name, taken: multiset<Name>, roots: set<Name>)
    requires RaiseInv(g, w, taken, roots, {}) && c in g.ifs && w.refcount[c] > 0
    ensures c in w.configured || c in w.isPending
  {
    OwedEdges(g, w.configured, c);
  }

  lemma {:induction false} AcquireInv(g: Graph, w: World, c: Name, ok: Outcome, taken: multiset<Name>, roots: set<Name>)
    requires RaiseInv(g, w, taken, roots, {})
    requires c in g.ifs && !g.ifs[c].hasConfigError
    ensures var s := Acquire(g, w, c, ok);
            s.ok ==> RaiseInv(g, s.w, taken + multiset{c}, roots, {}) && RaiseStep(g, w, s.w)
    decreases Idle(g, w), 2, 0
  {
    RefInv(g, w, c, taken, roots);
    if w.refcount[c] == 0 {
      BringUpInv(g, Ref(w, c), c, ok, taken + multiset{c}, roots);
    }
  }
}
