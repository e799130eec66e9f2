/** What the history of a run says of its result: a run goes on exactly as long as its phases
    succeed, from every world, on every graph. */
module History {
  import opened Graphs
  import opened Worlds
  import opened Lifecycle
  import opened Coherence
  import opened Commands
  import opened Settling
  import opened Collector
  import opened Success
  import opened Draining

  /** A run appends to the history. Every phase it runs but the last has succeeded; so has the
      last if the run succeeds; and without templates a run that fails has run a phase, the last
      of which failed. */
  ghost predicate Honest(g: Graph, w: World, s: Step, ok: Outcome) {
    && w.trace <= s.w.trace
    && (forall n :: |w.trace| < n < |s.w.trace| ==> ok(s.w.trace[..n]))
    && (s.ok && |w.trace| < |s.w.trace| ==> ok(s.w.trace))
    && (!s.ok && NoTemplates(g) ==> |w.trace| < |s.w.trace| && !ok(s.w.trace))
  }

  lemma HonestNothing(g: Graph, w: World, v: World, ok: Outcome)
    requires v.trace == w.trace
    ensures Honest(g, w, Step(v, true), ok)
  {
  }

  lemma HonestThen(g: Graph, w: World, s: Step, t: Step, ok: Outcome)
    requires Honest(g, w, s, ok) && s.ok && Honest(g, s.w, t, ok)
    ensures Honest(g, w, t, ok)
  {
    forall n | |w.trace| < n < |t.w.trace|
      ensures ok(t.w.trace[..n])
    {
      if n <= |s.w.trace| {
        assert t.w.trace[..n] == s.w.trace[..n];
        assert s.w.trace[..|s.w.trace|] == s.w.trace;
      }
    }
    if |t.w.trace| == |s.w.trace| {
      assert t.w.trace == s.w.trace;
    }
  }

  /** Worlds with the same history. */
  lemma HonestFrom(g: Graph, w: World, v: World, s: Step, t: Step, ok: Outcome)
    requires Honest(g, v, s, ok) && v.trace == w.trace && t.w.trace == s.w.trace && t.ok == s.ok
    ensures Honest(g, w, t, ok)
  {
  }

  lemma {:induction false} PhasesHonest(g: Graph, w: World, x: Name, phases: seq<Phase>, ok: Outcome)
    ensures var s := RunPhases(w, x, phases, ok);
            && Honest(g, w, s, ok)
            && (phases != [] ==> |w.trace| < |s.w.trace| && s.w.trace[|w.trace|] == Event(x, phases[0]))
            && (!s.ok ==> !ok(s.w.trace))
    decreases |phases|
  {
    if phases != [] {
      var v := w.(trace := w.trace + [Event(x, phases[0])]);
      if ok(v.trace) {
        PhasesHonest(g, v, x, phases[1..], ok);
        var s := RunPhases(v, x, phases[1..], ok);
        assert s.w.trace[..|v.trace|] == v.trace;
        HonestThen(g, w, Step(v, true), s, ok);
      }
    }
  }

  // --- the lifecycle -----------------------------------------------------------------------

  lemma FinishUpHonest(g: Graph, w: World, x: Name, ok: Outcome)
    requires Fits(g, w) && x in g.ifs
    ensures var s := FinishUp(g, w, x, ok); Honest(g, w, s, ok) && Rises(g, w, s.w) && |w.trace| < |s.w.trace|
  {
    PhasesHonest(g, w, x, UP_PHASES, ok);
    var p := RunPhases(w, x, UP_PHASES, ok);
    assert p.ok ==> Complete(p.w, x).trace == p.w.trace;
  }

  lemma {:induction false} BringUpHonest(g: Graph, w: World, x: Name, ok: Outcome)
    requires Fits(g, w) && x in g.ifs
    ensures var s := BringUp(g, w, x, ok); Honest(g, w, s, ok) && Rises(g, w, s.w)
    decreases Idle(g, w), 1, 0
  {
    if x !in w.isPending && !g.ifs[x].isTemplate {
      EnterShrinks(g, w, x);
      RaiseRequiredHonest(g, Enter(w, x), g.ifs[x].required, ok);
      var d := RaiseDependents(g, w, x, ok);
      HonestFrom(g, w, Enter(w, x), RaiseRequired(g, Enter(w, x), g.ifs[x].required, ok), d, ok);
      if d.ok {
        FinishUpHonest(g, d.w, x, ok);
        HonestThen(g, w, d, FinishUp(g, d.w, x, ok), ok);
      }
    }
  }

  lemma {:induction false} RaiseRequiredHonest(g: Graph, w: World, tokens: seq<Name>, ok: Outcome)
    requires Fits(g, w) && forall c :: c in tokens ==> c in g.ifs
    ensures var s := RaiseRequired(g, w, tokens, ok); Honest(g, w, s, ok) && Rises(g, w, s.w)
    decreases Idle(g, w), 3, |tokens|
  {
    if tokens != [] {
      if g.ifs[tokens[0]].hasConfigError {
        RaiseRequiredHonest(g, w, tokens[1..], ok);
      } else {
        AcquireHonest(g, w, tokens[0], ok);
        var s := Acquire(g, w, tokens[0], ok);
        if s.ok {
          RaiseRequiredHonest(g, s.w, tokens[1..], ok);
          HonestThen(g, w, s, RaiseRequired(g, s.w, tokens[1..], ok), ok);
        }
      }
    }
  }

  /** Taking a reference raises the count, whatever happens then. */
  lemma {:induction false} AcquireHonest(g: Graph, w: World, c: Name, ok: Outcome)
    requires Fits(g, w) && c in g.ifs
    ensures var s := Acquire(g, w, c, ok);
            Honest(g, w, s, ok) && Rises(g, w, s.w) && s.w.refcount[c] > w.refcount[c]
    decreases Idle(g, w), 2, 0
  {
    var v := Ref(w, c);
    assert v.trace == w.trace && Fits(g, v) && Rises(g, w, v) && v.refcount[c] == w.refcount[c] + 1;
    if w.refcount[c] > 0 {
      assert Acquire(g, w, c, ok) == Step(v, true);
      HonestNothing(g, w, v, ok);
    } else {
      assert Acquire(g, w, c, ok) == BringUp(g, v, c, ok);
      var s := BringUp(g, v, c, ok);
      assert Honest(g, w, s, ok) && Rises(g, v, s.w) by {
        BringUpHonest(g, v, c, ok);
        HonestFrom(g, w, v, s, s, ok);
      }
    }
  }

  lemma {:induction false} TakeDownHonest(g: Graph, w: World, x: Name, ok: Outcome)
    requires Fits(g, w) && x in g.ifs
    ensures Honest(g, w, TakeDown(g, w, x, ok), ok)
    decreases Idle(g, w), 1, 0
  {
    if x !in w.isPending && !g.ifs[x].isTemplate {
      DownHistory(g, w, x, ok);
      PhasesHonest(g, w, x, DOWN_PHASES, ok);
      var p := RunPhases(w, x, DOWN_PHASES, ok);
      if p.ok {
        EnterShrinks(g, p.w, x);
        var v := Enter(p.w, x);
        ReleaseRequiredHonest(g, v, g.ifs[x].required, ok);
        var r, t := ReleaseRequired(g, v, g.ifs[x].required, ok), TakeDown(g, w, x, ok);
        HonestFrom(g, p.w, v, r, t, ok);
        HonestThen(g, w, p, t, ok);
      }
    }
  }

  /** The first thing a teardown does. */
  lemma DownFirst(g: Graph, w: World, x: Name, ok: Outcome)
    requires Fits(g, w) && x in g.ifs && x !in w.isPending && !g.ifs[x].isTemplate
    ensures var t := TakeDown(g, w, x, ok).w.trace; |w.trace| < |t| && t[|w.trace|] == Event(x, PreDown)
  {
    DownHistory(g, w, x, ok);
    PhasesHonest(g, w, x, DOWN_PHASES, ok);
    var p := RunPhases(w, x, DOWN_PHASES, ok);
    if p.ok {
      ReleaseRequiredHonest(g, Enter(p.w, x), g.ifs[x].required, ok);
    }
  }

  lemma {:induction false} ReleaseRequiredHonest(g: Graph, w: World, tokens: seq<Name>, ok: Outcome)
    requires Fits(g, w) && forall c :: c in tokens ==> c in g.ifs
    ensures Honest(g, w, ReleaseRequired(g, w, tokens, ok), ok)
    decreases Idle(g, w), 3, |tokens|
  {
    if tokens != [] {
      if g.ifs[tokens[0]].hasConfigError {
        ReleaseRequiredHonest(g, w, tokens[1..], ok);
      } else {
        ReleaseHonest(g, w, tokens[0], ok);
        var s := Release(g, w, tokens[0], ok);
        if s.ok {
          ReleaseRequiredHonest(g, s.w, tokens[1..], ok);
          HonestThen(g, w, s, ReleaseRequired(g, s.w, tokens[1..], ok), ok);
        }
      }
    }
  }

  lemma {:induction false} ReleaseHonest(g: Graph, w: World, c: Name, ok: Outcome)
    requires Fits(g, w) && c in g.ifs
    ensures Honest(g, w, Release(g, w, c, ok), ok)
    decreases Idle(g, w), 2, 0
  {
    var v := Unref(w, c);
    assert Fits(g, v) && v.trace == w.trace;
    if v.refcount[c] > 1 || c in v.isExplicit {
      assert Release(g, w, c, ok) == Step(v, true);
      HonestNothing(g, w, v, ok);
    } else {
      assert Release(g, w, c, ok) == TakeDown(g, v, c, ok);
      var s := TakeDown(g, v, c, ok);
      assert Honest(g, w, s, ok) by {
        TakeDownHonest(g, v, c, ok);
        HonestFrom(g, w, v, s, s, ok);
      }
    }
  }

  // --- commands ----------------------------------------------------------------------------

  lemma ChangeHonest(g: Graph, w: World, x: Name, up: bool, update: bool, ok: Outcome)
    requires Fits(g, w) && x in g.ifs
    ensures Honest(g, w, ChangeInterface(g, w, x, up, update, ok), ok)
  {
    var k, s := SkipInterface(g, w, x, up, update), Run(g, w, x, up, ok);
    if k.skipped {
      HonestNothing(g, w, k.w, ok);
    } else {
      if up {
        BringUpHonest(g, w, x, ok);
      } else {
        TakeDownHonest(g, w, x, ok);
      }
      HonestFrom(g, w, w, s, ChangeInterface(g, w, x, up, update, ok), ok);
    }
  }

  /** The arguments of a process, all of them known: a failing phase ends it. */
  lemma {:induction false} ArgsHonest(g: Graph, w: World, args: seq<Name>, up: bool, ok: Outcome)
    requires Fits(g, w) && forall x :: x in args ==> x in g.ifs
    ensures Honest(g, w, ChangeArgs(g, w, args, up, ok), ok)
    decreases |args|
  {
    if args != [] {
      assert args[0] in args && forall x :: x in args[1..] ==> x in args;
      ChangeHonest(g, w, args[0], up, true, ok);
      var s := ChangeInterface(g, w, args[0], up, true, ok);
      if s.ok {
        ArgsHonest(g, s.w, args[1..], up, ok);
        HonestThen(g, w, s, ChangeArgs(g, s.w, args[1..], up, ok), ok);
      }
    }
  }

  /** Every phase of the run has succeeded. */
  ghost predicate AllSucceeded(w: World, v: World, ok: Outcome) {
    forall n :: |w.trace| < n <= |v.trace| ==> ok(v.trace[..n])
  }

  /** An `-a` command goes on after failures: it succeeds if and only if all its phases did. */
  ghost predicate Told(g: Graph, w: World, s: Step, ok: Outcome) {
    && w.trace <= s.w.trace
    && (s.ok ==> AllSucceeded(w, s.w, ok))
    && (NoTemplates(g) && AllSucceeded(w, s.w, ok) ==> s.ok)
  }

  lemma HonestTold(g: Graph, w: World, s: Step, ok: Outcome)
    requires Honest(g, w, s, ok)
    ensures Told(g, w, s, ok)
  {
    assert s.w.trace[..|s.w.trace|] == s.w.trace;
  }

  lemma ToldThen(g: Graph, w: World, s: Step, t: Step, ok: Outcome)
    requires Told(g, w, s, ok) && Told(g, s.w, t, ok)
    ensures Told(g, w, Step(t.w, s.ok && t.ok), ok)
  {
    assert forall n :: 0 <= n <= |s.w.trace| ==> t.w.trace[..n] == s.w.trace[..n];
  }

  lemma {:induction false} AutoTold(g: Graph, w: World, order: seq<Name>, matching: set<Name>, up: bool, ok: Outcome)
    requires Fits(g, w) && forall x :: x in order ==> x in g.ifs
    ensures Told(g, w, ChangeAuto(g, w, order, matching, up, ok), ok)
    decreases |order|
  {
    if order != [] {
      if !g.ifs[order[0]].isAuto || order[0] !in matching {
        AutoTold(g, w, order[1..], matching, up, ok);
      } else {
        var s := ChangeInterface(g, w, order[0], up, false, ok);
        ChangeHonest(g, w, order[0], up, false, ok);
        HonestTold(g, w, s, ok);
        AutoTold(g, s.w, order[1..], matching, up, ok);
        ToldThen(g, w, s, ChangeAuto(g, s.w, order[1..], matching, up, ok), ok);
      }
    }
  }

  ghost predicate KnownArgs(g: Graph, cmd: Command) {
    cmd.IfUp? || cmd.IfDown? ==> forall x :: x in cmd.args ==> x in g.ifs
  }

  /** A process whose arguments are known succeeds only if every phase it ran has succeeded, and
      without templates if so. One that was given names runs no phase after one that failed. */
  lemma ExecuteTold(g: Graph, w: World, cmd: Command, ok: Outcome)
    requires Coherent(g, w) && KnownArgs(g, cmd)
    ensures Told(g, w, Execute(g, w, cmd, ok), ok)
    ensures cmd.IfUp? || cmd.IfDown? ==> Honest(g, w, Execute(g, w, cmd, ok), ok)
  {
    BootEffect(g, w);
    var b, s := Boot(g, w), Execute(g, w, cmd, ok);
    match cmd
    case IfUp(args) =>
      ArgsHonest(g, b, args, true, ok);
      HonestTold(g, b, s, ok);
    case IfDown(args) =>
      ArgsHonest(g, b, args, false, ok);
      HonestTold(g, b, s, ok);
    case IfUpAuto(matching) => AutoTold(g, b, g.order, matching, true, ok);
    case IfDownAuto(matching) => AutoTold(g, b, g.order, matching, false, ok);
  }
}
