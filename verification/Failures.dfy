/** What a failed run leaves behind: the references that unfinished interfaces took or gave
    back, and so exactly when the invariant survives a failure. */
module Failures {
  import opened Graphs
  import opened Worlds
  import opened Lifecycle
  import opened Ledger
  import opened Raising
  import opened Dropping
  import opened Commands
  import opened Settling
  import opened Draining

  ghost predicate Names(g: Graph, m: multiset<Name>) {
    forall c :: c in m ==> c in g.ifs
  }

  lemma MultisetMore(m: multiset<Name>, c: Name, more: multiset<Name>)
    ensures m + multiset{c} + more == m + (multiset{c} + more) && c in multiset{c} + more
  {
  }

  // --- ifup ------------------------------------------------------------------------------

  /** The ledger of a failed bring-up has `leaked` left over: references that nobody will give
      back. There are some exactly if x requires anything that is not skipped. */
  lemma {:induction false} BringUpLeaks(g: Graph, w: World, x: Name, ok: Outcome, taken: multiset<Name>,
                                        roots: set<Name>)
    returns (leaked: multiset<Name>)
    requires RaiseInv(g, w, taken, roots, {x})
    requires x in g.ifs && !g.ifs[x].hasConfigError && x !in w.configured
    requires x in roots || w.refcount[x] >= 1
    requires !BringUp(g, w, x, ok).ok
    ensures Balanced(g, BringUp(g, w, x, ok).w, taken + leaked, multiset{}) && Names(g, leaked)
    ensures leaked == multiset{} <==> g.ifs[x].isTemplate || Needs(g, x) == []
    decreases Idle(g, w), 1, 0
  {
    if g.ifs[x].isTemplate {
      leaked := multiset{};
      assert taken + leaked == taken;
    } else {
      RaiseReady(g, w, x, taken, roots);
      var d := RaiseDependents(g, w, x, ok);
      if !d.ok {
        leaked := RaiseRequiredLeaks(g, Enter(w, x), g.ifs[x].required, ok, taken, roots);
        assert BringUp(g, w, x, ok) == d;
      } else {
        leaked := multiset(Needs(g, x));
        PhasesLeak(g, w, x, ok, taken, roots);
      }
    }
  }

  /** Phases count nothing: when they fail, all references taken before are left over. */
  lemma PhasesLeak(g: Graph, w: World, x: Name, ok: Outcome, taken: multiset<Name>, roots: set<Name>)
    requires RaiseInv(g, w, taken, roots, {x})
    requires x in g.ifs && x !in w.configured && x !in w.isPending && !g.ifs[x].isTemplate
    requires RaiseDependents(g, w, x, ok).ok && !BringUp(g, w, x, ok).ok
    ensures Balanced(g, BringUp(g, w, x, ok).w, taken + multiset(Needs(g, x)), multiset{})
  {
    RaiseReady(g, w, x, taken, roots);
    RaiseRequiredInv(g, Enter(w, x), g.ifs[x].required, ok, taken, roots);
    var r := RaiseRequired(g, Enter(w, x), g.ifs[x].required, ok);
    var d := RaiseDependents(g, w, x, ok);
    assert d.w == Leave(r.w, x);
    assert BringUp(g, w, x, ok) == FinishUp(g, d.w, x, ok) == RunPhases(d.w, x, UP_PHASES, ok);
  }

  lemma {:induction false} RaiseRequiredLeaks(g: Graph, w: World, tokens: seq<Name>, ok: Outcome,
                                              taken: multiset<Name>, roots: set<Name>)
    returns (leaked: multiset<Name>)
    requires RaiseInv(g, w, taken, roots, {}) && forall c :: c in tokens ==> c in g.ifs
    requires !RaiseRequired(g, w, tokens, ok).ok
    ensures Balanced(g, RaiseRequired(g, w, tokens, ok).w, taken + leaked, multiset{}) && Names(g, leaked)
    ensures leaked != multiset{} && Effective(g, tokens) != []
    decreases Idle(g, w), 3, |tokens|
  {
    var c := tokens[0];
    if g.ifs[c].hasConfigError {
      leaked := RaiseRequiredLeaks(g, w, tokens[1..], ok, taken, roots);
    } else {
      var s := Acquire(g, w, c, ok);
      if !s.ok {
        leaked := AcquireLeaks(g, w, c, ok, taken, roots);
      } else {
        AcquireInv(g, w, c, ok, taken, roots);
        var more := RaiseRequiredLeaks(g, s.w, tokens[1..], ok, taken + multiset{c}, roots);
        leaked := multiset{c} + more;
        MultisetMore(taken, c, more);
      }
    }
  }

  lemma {:induction false} AcquireLeaks(g: Graph, w: World, c: Name, ok: Outcome, taken: multiset<Name>,
                                        roots: set<Name>)
    returns (leaked: multiset<Name>)
    requires RaiseInv(g, w, taken, roots, {})
    requires c in g.ifs && !g.ifs[c].hasConfigError && !Acquire(g, w, c, ok).ok
    ensures Balanced(g, Acquire(g, w, c, ok).w, taken + leaked, multiset{}) && Names(g, leaked) && c in leaked
    decreases Idle(g, w), 2, 0
  {
    RefInv(g, w, c, taken, roots);
    var more := BringUpLeaks(g, Ref(w, c), c, ok, taken + multiset{c}, roots);
    leaked := multiset{c} + more;
    MultisetMore(taken, c, more);
  }

  lemma {:induction false} RaiseNothing(g: Graph, w: World, tokens: seq<Name>, ok: Outcome)
    requires Fits(g, w) && (forall c :: c in tokens ==> c in g.ifs) && Effective(g, tokens) == []
    ensures RaiseRequired(g, w, tokens, ok) == Step(w, true)
  {
    if tokens != [] {
      RaiseNothing(g, w, tokens[1..], ok);
    }
  }

  /** A ledger balances in one way only. */
  lemma OneBalance(g: Graph, w: World, taken: multiset<Name>, released: multiset<Name>, c: Name)
    requires Fits(g, w) && c in g.ifs
    requires Balanced(g, w, multiset{}, multiset{}) && Balanced(g, w, taken, released)
    ensures taken[c] == released[c]
  {
  }

  /** A failed ifup of an interface that is not configured keeps the invariant exactly when
      the interface is a template or requires nothing but what is skipped: a reference taken
      for a dependency is never given back on failure. */
  lemma FailedUpIff(g: Graph, w: World, x: Name, ok: Outcome)
    requires Settled(g, w) && x in g.ifs && x !in w.configured
    ensures var s := ChangeInterface(g, w, x, true, true, ok);
            !s.ok ==> (Settled(g, s.w) <==> g.ifs[x].isTemplate || Needs(g, x) == [])
  {
    var s := ChangeInterface(g, w, x, true, true, ok);
    if !s.ok && !g.ifs[x].isTemplate {
      assert s == BringUp(g, w, x, ok);
      if Needs(g, x) == [] {
        RaiseNothing(g, Enter(w, x), g.ifs[x].required, ok);
        assert RaiseDependents(g, w, x, ok) == Step(Leave(Enter(w, x), x), true) && Leave(Enter(w, x), x) == w;
        assert s == RunPhases(w, x, UP_PHASES, ok);
      } else {
        SettledRaise(g, w, x);
        var leaked := BringUpLeaks(g, w, x, ok, multiset{}, w.isExplicit + {x});
        var c :| c in leaked;
        assert multiset{} + leaked == leaked && c in g.ifs;
        if Settled(g, s.w) {
          OneBalance(g, s.w, leaked, multiset{}, c);
        }
      }
    }
  }

  // --- ifdown ----------------------------------------------------------------------------

  /** The ledger of a failed teardown lacks `lost`: references given back by interfaces that
      still count as configured. There are some exactly if x itself went down. */
  lemma {:induction false} TakeDownLoses(g: Graph, w: World, x: Name, ok: Outcome, released: multiset<Name>)
    returns (lost: multiset<Name>)
    requires DropInv(g, w, released, {x})
    requires x in w.configured && x !in w.isPending && w.refcount[x] == 1
    requires !TakeDown(g, w, x, ok).ok
    ensures Balanced(g, TakeDown(g, w, x, ok).w, multiset{}, released + lost) && Names(g, lost)
    ensures lost == multiset{} <==> !RunPhases(w, x, DOWN_PHASES, ok).ok
    decreases Idle(g, w), 1, 0
  {
    var p := RunPhases(w, x, DOWN_PHASES, ok);
    if !p.ok {
      lost := multiset{};
      assert released + lost == released;
    } else {
      DropReady(g, w, x, ok, released);
      lost := ReleaseRequiredLoses(g, Enter(p.w, x), g.ifs[x].required, ok, released);
    }
  }

  lemma {:induction false} ReleaseRequiredLoses(g: Graph, w: World, tokens: seq<Name>, ok: Outcome,
                                                released: multiset<Name>)
    returns (lost: multiset<Name>)
    requires DropInv(g, w, released, {}) && forall c :: c in tokens ==> c in g.ifs
    requires released + multiset(Effective(g, tokens)) <= Owed(g, w.isPending)
    requires !ReleaseRequired(g, w, tokens, ok).ok
    ensures Balanced(g, ReleaseRequired(g, w, tokens, ok).w, multiset{}, released + lost) && Names(g, lost)
    ensures lost != multiset{}
    decreases Idle(g, w), 3, |tokens|
  {
    var c := tokens[0];
    if g.ifs[c].hasConfigError {
      lost := ReleaseRequiredLoses(g, w, tokens[1..], ok, released);
    } else {
      MultisetCons(c, Effective(g, tokens[1..]), released);
      var s := Release(g, w, c, ok);
      if !s.ok {
        lost := ReleaseLoses(g, w, c, ok, released);
      } else {
        ReleaseInv(g, w, c, ok, released);
        var more := ReleaseRequiredLoses(g, s.w, tokens[1..], ok, released + multiset{c});
        lost := multiset{c} + more;
        MultisetMore(released, c, more);
      }
    }
  }

  lemma {:induction false} ReleaseLoses(g: Graph, w: World, c: Name, ok: Outcome, released: multiset<Name>)
    returns (lost: multiset<Name>)
    requires DropInv(g, w, released, {}) && c in g.ifs && !Release(g, w, c, ok).ok
    requires released + multiset{c} <= Owed(g, w.isPending)
    ensures Balanced(g, Release(g, w, c, ok).w, multiset{}, released + lost) && Names(g, lost) && c in lost
    decreases Idle(g, w), 2, 0
  {
    UnrefDrop(g, w, c, released);
    OwedIsHeld(g, w, c, released);
    var more := TakeDownLoses(g, Unref(w, c), c, ok, released + multiset{c});
    lost := multiset{c} + more;
    MultisetMore(released, c, more);
  }

  /** A failed ifdown of an interface that only its own reference holds keeps the invariant
      exactly when it is the interface's own phases that failed, and not those of something
      it requires. */
  lemma FailedDownIff(g: Graph, w: World, x: Name, ok: Outcome)
    requires Settled(g, w) && x in w.configured && w.refcount[x] == 1
    ensures var s := ChangeInterface(g, w, x, false, true, ok);
            !s.ok ==> (Settled(g, s.w) <==> !RunPhases(w, x, DOWN_PHASES, ok).ok)
  {
    var s := ChangeInterface(g, w, x, false, true, ok);
    if !s.ok {
      SettledDrop(g, w, x);
      var lost := TakeDownLoses(g, w, x, ok, multiset{});
      assert multiset{} + lost == lost && s == TakeDown(g, w, x, ok);
      if RunPhases(w, x, DOWN_PHASES, ok).ok {
        var c :| c in lost;
        assert c in g.ifs;
        if Settled(g, s.w) {
          OneBalance(g, s.w, multiset{}, lost, c);
        }
      } else {
        assert s.w == w.(trace := s.w.trace);
      }
    }
  }

  // --- what a caller can tell before ------------------------------------------------------

  /** An environment in which phases succeed up to n events of the history. */
  function Until(n: nat): Outcome {
    h => |h| <= n
  }

  /** A requirement of x that nobody else holds and nobody asked for. */
  ghost predicate Exposed(g: Graph, w: World, x: Name, c: Name)
    requires x in g.ifs
  {
    c in Needs(g, x) && c !in w.isExplicit && c in w.refcount && w.refcount[c] == 1 + multiset(Needs(g, x))[c]
  }

  /** Some outcome of the phases makes ifdown of x fail and leave the ledger broken. */
  ghost predicate CanBreak(g: Graph, w: World, x: Name)
    requires Fits(g, w) && x in g.ifs
  {
    exists ok: Outcome ::
      var s := ChangeInterface(g, w, x, false, true, ok); !s.ok && !Settled(g, s.w)
  }

  /** If the tokens leave every requirement with a reference to spare, or it was asked for, none
      is taken down: no phase runs, and nothing fails. */
  lemma {:induction false} NoCascade(g: Graph, w: World, tokens: seq<Name>, ok: Outcome)
    requires Fits(g, w) && forall c :: c in tokens ==> c in g.ifs
    requires forall c :: c in Effective(g, tokens) ==>
               c in w.isExplicit || w.refcount[c] > 1 + multiset(Effective(g, tokens))[c]
    ensures var s := ReleaseRequired(g, w, tokens, ok);
            s.ok && s.w.trace == w.trace && s.w.configured == w.configured
    decreases |tokens|
  {
    if tokens != [] {
      var c, rest := tokens[0], Effective(g, tokens[1..]);
      if g.ifs[c].hasConfigError {
        NoCascade(g, w, tokens[1..], ok);
      } else {
        assert Effective(g, tokens) == [c] + rest;
        CountCons(c, rest);
        assert c in Effective(g, tokens);
        assert Release(g, w, c, ok) == Step(Unref(w, c), true);
        NoCascade(g, Unref(w, c), tokens[1..], ok);
      }
    }
  }

  lemma CountCons(c: Name, rest: seq<Name>)
    ensures forall d :: multiset([c] + rest)[d] == multiset(rest)[d] + if d == c then 1 else 0
    ensures forall d :: d in rest ==> d in [c] + rest
  {
  }

  /** What runs of d when no phase succeeds any more: its first phase; nothing of a template. */
  function FirstTry(g: Graph, d: Name): seq<Event>
    requires d in g.ifs
  {
    if g.ifs[d].isTemplate then [] else [Event(d, PreDown)]
  }

  /** The loop ended in trying to take a requirement down. */
  ghost predicate EndedTrying(g: Graph, w: World, tokens: seq<Name>, s: Step)
    requires forall d :: d in tokens ==> d in g.ifs
  {
    !s.ok && exists d :: d in Effective(g, tokens) && s.w.trace == w.trace + FirstTry(g, d)
  }

  /** With a requirement that the tokens leave with its own reference only, something is taken
      down; if no phase succeeds any more, that fails, at its first phase. */
  lemma {:induction false} CascadeFails(g: Graph, w: World, x: Name, c: Name, tokens: seq<Name>, n: nat)
    requires Fits(g, w) && (forall d :: d in tokens ==> d in g.ifs) && w.isPending == {x} && |w.trace| >= n
    requires c in Effective(g, tokens) && c != x && c !in w.isExplicit
    requires w.refcount[c] == 1 + multiset(Effective(g, tokens))[c]
    ensures EndedTrying(g, w, tokens, ReleaseRequired(g, w, tokens, Until(n)))
    decreases |tokens|
  {
    var d, rest := tokens[0], Effective(g, tokens[1..]);
    if g.ifs[d].hasConfigError {
      CascadeFails(g, w, x, c, tokens[1..], n);
    } else {
      CountCons(d, rest);
      ReleaseOrFail(g, w, x, d, n);
      if Spared(w, x, d) {
        assert c in rest;
        CascadeFails(g, Unref(w, d), x, c, tokens[1..], n);
      }
    }
  }

  /** Giving back a reference on d leaves d alone. */
  predicate Spared(w: World, x: Name, d: Name)
    requires d in w.refcount
  {
    Unref(w, d).refcount[d] > 1 || d in w.isExplicit || d == x
  }

  /** When no phase succeeds any more, giving back a reference spares or fails. */
  lemma ReleaseOrFail(g: Graph, w: World, x: Name, d: Name, n: nat)
    requires Fits(g, w) && d in g.ifs && w.isPending == {x} && |w.trace| >= n
    ensures Spared(w, x, d) ==> Release(g, w, d, Until(n)) == Step(Unref(w, d), true)
    ensures var s := Release(g, w, d, Until(n));
            !Spared(w, x, d) ==> !s.ok && s.w.trace == w.trace + FirstTry(g, d)
  {
    var v := Unref(w, d);
    assert v.isPending == {x} && v.isExplicit == w.isExplicit && v.trace == w.trace;
    if !(v.refcount[d] > 1 || d in v.isExplicit) {
      assert Release(g, w, d, Until(n)) == TakeDown(g, v, d, Until(n));
      if d != x {
        assert !RunPhases(v, d, DOWN_PHASES, Until(n)).ok;
      }
    }
  }

  /** What x requires is configured, and counted for x and for itself. */
  lemma NeedsCounted(g: Graph, w: World, x: Name, c: Name)
    requires Settled(g, w) && x in w.configured && c in Needs(g, x)
    ensures c in w.configured && w.refcount[c] >= 1 + multiset(Needs(g, x))[c]
  {
    OwedRemove(g, w.configured, x);
    assert multiset(Needs(g, x))[c] > 0;
    OwedEdges(g, w.configured, c);
  }

  /** The phases of one interface are four events, within what still succeeds. */
  lemma PhasesUntil(w: World, x: Name, n: nat)
    requires |w.trace| + 4 <= n
    ensures var p := RunPhases(w, x, DOWN_PHASES, Until(n));
            p.ok && |p.w.trace| == |w.trace| + 4 && p.w == w.(trace := p.w.trace)
  {
    var k := RunPhasesTrace(w, x, DOWN_PHASES, Until(n));
  }

  lemma ExposedBreaks(g: Graph, w: World, x: Name, c: Name)
    requires Settled(g, w) && x in w.configured && w.refcount[x] == 1 && Exposed(g, w, x, c)
    ensures CanBreak(g, w, x)
  {
    var n := |w.trace| + 4;
    ExposedFails(g, w, x, c);
    assert ChangeInterface(g, w, x, false, true, Until(n)) == TakeDown(g, w, x, Until(n));
    FailedDownIff(g, w, x, Until(n));
  }

  lemma ExposedFails(g: Graph, w: World, x: Name, c: Name)
    requires Settled(g, w) && x in w.configured && w.refcount[x] == 1 && Exposed(g, w, x, c)
    ensures var ok := Until(|w.trace| + 4);
            RunPhases(w, x, DOWN_PHASES, ok).ok && !TakeDown(g, w, x, ok).ok
  {
    var n := |w.trace| + 4;
    var p := RunPhases(w, x, DOWN_PHASES, Until(n));
    PhasesUntil(w, x, n);
    assert c != x by {
      NeedsCounted(g, w, x, c);
    }
    CascadeFails(g, Enter(p.w, x), x, c, g.ifs[x].required, n);
    TakeDownUnfolds(g, w, x, Until(n));
  }

  /** Before the call: ifdown of an interface at count 1 can fail and leave the ledger broken
      exactly when it requires something that nobody else holds and nobody asked for. */
  lemma DownCanBreakIff(g: Graph, w: World, x: Name)
    requires Settled(g, w) && x in w.configured && w.refcount[x] == 1
    ensures CanBreak(g, w, x) <==> exists c :: Exposed(g, w, x, c)
  {
    if ok: Outcome :|
         !ChangeInterface(g, w, x, false, true, ok).ok && !Settled(g, ChangeInterface(g, w, x, false, true, ok).w) {
      FailedDownIff(g, w, x, ok);
      if forall c :: !Exposed(g, w, x, c) {
        var p := RunPhases(w, x, DOWN_PHASES, ok);
        forall c | c in Needs(g, x)
          ensures c in w.isExplicit || w.refcount[c] > 1 + multiset(Needs(g, x))[c]
        {
          NeedsCounted(g, w, x, c);
          assert !Exposed(g, w, x, c);
        }
        NoCascade(g, Enter(p.w, x), g.ifs[x].required, ok);
        TakeDownUnfolds(g, w, x, ok);
      }
    }
    if c :| Exposed(g, w, x, c) {
      ExposedBreaks(g, w, x, c);
    }
  }
}
