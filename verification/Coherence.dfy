/** The dictionary mirrors the counts on every path, failing ones included. */
module Coherence {
  import opened Graphs
  import opened Worlds
  import opened Lifecycle

  /** No count is lower in v than in w. */
  ghost predicate Rises(g: Graph, w: World, v: World)
    requires Fits(g, w) && Fits(g, v)
  {
    forall y :: y in g.ifs ==> v.refcount[y] >= w.refcount[y]
  }

  lemma FinishUpCoherent(g: Graph, w: World, x: Name, ok: Outcome)
    requires Coherent(g, w) && x in g.ifs
    ensures var v := FinishUp(g, w, x, ok).w; Coherent(g, v) && Rises(g, w, v)
  {
    var p := RunPhases(w, x, UP_PHASES, ok);
    assert Coherent(g, p.w);
    RefCoherent(g, p.w, x);
  }

  /** After every bring-up, failing or not, in a cyclic graph or not, the dictionary mirrors
      the counts, and no count went down. */
  lemma {:induction false} BringUpCoherent(g: Graph, w: World, x: Name, ok: Outcome)
    requires Coherent(g, w) && x in g.ifs
    ensures var v := BringUp(g, w, x, ok).w; Coherent(g, v) && Rises(g, w, v)
    decreases Idle(g, w), 1, 0
  {
    if x !in w.isPending && !g.ifs[x].isTemplate {
      EnterShrinks(g, w, x);
      RaiseRequiredCoherent(g, Enter(w, x), g.ifs[x].required, ok);
      var d := RaiseDependents(g, w, x, ok);
      assert Coherent(g, d.w) && Rises(g, w, d.w);
      if d.ok {
        FinishUpCoherent(g, d.w, x, ok);
        assert BringUp(g, w, x, ok) == FinishUp(g, d.w, x, ok);
      }
    }
  }

  lemma {:induction false} RaiseRequiredCoherent(g: Graph, w: World, tokens: seq<Name>, ok: Outcome)
    requires Coherent(g, w) && forall c :: c in tokens ==> c in g.ifs
    ensures var v := RaiseRequired(g, w, tokens, ok).w; Coherent(g, v) && Rises(g, w, v)
    decreases Idle(g, w), 3, |tokens|
  {
    if tokens != [] {
      if g.ifs[tokens[0]].hasConfigError {
        RaiseRequiredCoherent(g, w, tokens[1..], ok);
      } else {
        AcquireCoherent(g, w, tokens[0], ok);
        var s := Acquire(g, w, tokens[0], ok);
        if s.ok {
          RaiseRequiredCoherent(g, s.w, tokens[1..], ok);
        }
      }
    }
  }

  lemma {:induction false} AcquireCoherent(g: Graph, w: World, c: Name, ok: Outcome)
    requires Coherent(g, w) && c in g.ifs
    ensures var v := Acquire(g, w, c, ok).w; Coherent(g, v) && Rises(g, w, v)
    decreases Idle(g, w), 2, 0
  {
    var v := Ref(w, c);
    assert Coherent(g, v) && Rises(g, w, v) by {
      RefCoherent(g, w, c);
    }
    if w.refcount[c] == 0 {
      BringUpCoherent(g, v, c, ok);
      assert Acquire(g, w, c, ok) == BringUp(g, v, c, ok);
    }
  }

  lemma FinishDownCoherent(g: Graph, w: World, x: Name)
    requires Coherent(g, w) && x in g.ifs
    ensures var v := FinishDown(g, w, x).w; Coherent(g, v) && Rises(g, v, w)
  {
    UnrefCoherent(g, w, x);
  }

  /** After every teardown the dictionary mirrors the counts, and no count went up. */
  lemma {:induction false} TakeDownCoherent(g: Graph, w: World, x: Name, ok: Outcome)
    requires Coherent(g, w) && x in g.ifs
    ensures var v := TakeDown(g, w, x, ok).w; Coherent(g, v) && Rises(g, v, w)
    decreases Idle(g, w), 1, 0
  {
    var p := RunPhases(w, x, DOWN_PHASES, ok);
    assert Coherent(g, p.w) && Rises(g, p.w, w);
    if x !in w.isPending && !g.ifs[x].isTemplate && p.ok {
      EnterShrinks(g, p.w, x);
      ReleaseRequiredCoherent(g, Enter(p.w, x), g.ifs[x].required, ok);
      var d := ReleaseDependents(g, p.w, x, ok);
      assert Coherent(g, d.w) && Rises(g, d.w, w);
      if d.ok {
        FinishDownCoherent(g, d.w, x);
      }
    }
  }

  lemma {:induction false} ReleaseRequiredCoherent(g: Graph, w: World, tokens: seq<Name>, ok: Outcome)
    requires Coherent(g, w) && forall c :: c in tokens ==> c in g.ifs
    ensures var v := ReleaseRequired(g, w, tokens, ok).w; Coherent(g, v) && Rises(g, v, w)
    decreases Idle(g, w), 3, |tokens|
  {
    if tokens != [] {
      if g.ifs[tokens[0]].hasConfigError {
        ReleaseRequiredCoherent(g, w, tokens[1..], ok);
      } else {
        ReleaseCoherent(g, w, tokens[0], ok);
        var s := Release(g, w, tokens[0], ok);
        if s.ok {
          ReleaseRequiredCoherent(g, s.w, tokens[1..], ok);
        }
      }
    }
  }

  lemma {:induction false} ReleaseCoherent(g: Graph, w: World, c: Name, ok: Outcome)
    requires Coherent(g, w) && c in g.ifs
    ensures var v := Release(g, w, c, ok).w; Coherent(g, v) && Rises(g, v, w)
    decreases Idle(g, w), 2, 0
  {
    var v := Unref(w, c);
    assert Coherent(g, v) && Rises(g, v, w) by {
      UnrefCoherent(g, w, c);
    }
    if v.refcount[c] > 1 || c in v.isExplicit {
      assert Release(g, w, c, ok).w == v;
    } else {
      TakeDownCoherent(g, v, c, ok);
      assert Release(g, w, c, ok) == TakeDown(g, v, c, ok);
    }
  }
}
