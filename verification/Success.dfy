/** When nothing fails: a run fails only if a phase fails or a template is in the way. */
module Success {
  import opened Graphs
  import opened Worlds
  import opened Lifecycle
  import opened Settling
  import opened Commands
  import opened Collector

  function Always(): Outcome {
    h => true
  }

  function Never(): Outcome {
    h => false
  }

  ghost predicate NoTemplates(g: Graph) {
    forall x :: x in g.ifs ==> !g.ifs[x].isTemplate
  }

  lemma {:induction false} PhasesSucceed(w: World, x: Name, phases: seq<Phase>)
    ensures RunPhases(w, x, phases, Always()).ok
    decreases |phases|
  {
    if phases != [] {
      PhasesSucceed(w.(trace := w.trace + [Event(x, phases[0])]), x, phases[1..]);
    }
  }

  lemma {:induction false} BringUpSucceeds(g: Graph, w: World, x: Name)
    requires Fits(g, w) && x in g.ifs && NoTemplates(g)
    ensures BringUp(g, w, x, Always()).ok
    decreases Idle(g, w), 1, 0
  {
    if x !in w.isPending {
      EnterShrinks(g, w, x);
      RaiseRequiredSucceeds(g, Enter(w, x), g.ifs[x].required);
      PhasesSucceed(RaiseDependents(g, w, x, Always()).w, x, UP_PHASES);
    }
  }

  lemma {:induction false} RaiseRequiredSucceeds(g: Graph, w: World, tokens: seq<Name>)
    requires Fits(g, w) && (forall c :: c in tokens ==> c in g.ifs) && NoTemplates(g)
    ensures RaiseRequired(g, w, tokens, Always()).ok
    decreases Idle(g, w), 3, |tokens|
  {
    if tokens != [] {
      if g.ifs[tokens[0]].hasConfigError {
        RaiseRequiredSucceeds(g, w, tokens[1..]);
      } else {
        AcquireSucceeds(g, w, tokens[0]);
        RaiseRequiredSucceeds(g, Acquire(g, w, tokens[0], Always()).w, tokens[1..]);
      }
    }
  }

  lemma {:induction false} AcquireSucceeds(g: Graph, w: World, c: Name)
    requires Fits(g, w) && c in g.ifs && NoTemplates(g)
    ensures Acquire(g, w, c, Always()).ok
    decreases Idle(g, w), 2, 0
  {
    if w.refcount[c] == 0 {
      BringUpSucceeds(g, Ref(w, c), c);
    }
  }

  /** What a member of s requires is in s, and s has no templates. */
  ghost predicate Sound(g: Graph, s: set<Name>) {
    ClosedSet(g, s) && forall x :: x in s ==> !g.ifs[x].isTemplate
  }

  lemma NeededInside(g: Graph, x: Name, s: set<Name>)
    requires ClosedSet(g, s) && x in s
    ensures forall c :: c in Effective(g, g.ifs[x].required) ==> c in s
  {
    forall c | c in Effective(g, g.ifs[x].required)
      ensures c in s
    {
      assert Edge(g, x, c);
    }
  }

  lemma TakeDownSucceeds(g: Graph, w: World, x: Name)
    requires Fits(g, w) && x in g.ifs && NoTemplates(g)
    ensures TakeDown(g, w, x, Always()).ok
  {
    TakeDownSucceedsIn(g, w, x, g.ifs.Keys);
  }

  lemma {:induction false} TakeDownSucceedsIn(g: Graph, w: World, x: Name, s: set<Name>)
    requires Fits(g, w) && Sound(g, s) && x in s
    ensures TakeDown(g, w, x, Always()).ok
    decreases Idle(g, w), 1, 0
  {
    if x !in w.isPending {
      PhasesSucceed(w, x, DOWN_PHASES);
      var p := RunPhases(w, x, DOWN_PHASES, Always());
      EnterShrinks(g, p.w, x);
      NeededInside(g, x, s);
      ReleaseRequiredSucceeds(g, Enter(p.w, x), g.ifs[x].required, s);
    }
  }

  lemma {:induction false} ReleaseRequiredSucceeds(g: Graph, w: World, tokens: seq<Name>, s: set<Name>)
    requires Fits(g, w) && Sound(g, s) && forall c :: c in tokens ==> c in g.ifs
    requires forall c :: c in Effective(g, tokens) ==> c in s
    ensures ReleaseRequired(g, w, tokens, Always()).ok
    decreases Idle(g, w), 3, |tokens|
  {
    if tokens != [] {
      if g.ifs[tokens[0]].hasConfigError {
        ReleaseRequiredSucceeds(g, w, tokens[1..], s);
      } else {
        assert tokens[0] in Effective(g, tokens);
        ReleaseSucceeds(g, w, tokens[0], s);
        ReleaseRequiredSucceeds(g, Release(g, w, tokens[0], Always()).w, tokens[1..], s);
      }
    }
  }

  lemma {:induction false} ReleaseSucceeds(g: Graph, w: World, c: Name, s: set<Name>)
    requires Fits(g, w) && Sound(g, s) && c in s
    ensures Release(g, w, c, Always()).ok
    decreases Idle(g, w), 2, 0
  {
    var v := Unref(w, c);
    if !(v.refcount[c] > 1 || c in v.isExplicit) {
      TakeDownSucceedsIn(g, v, c, s);
      assert Release(g, w, c, Always()) == TakeDown(g, v, c, Always());
    }
  }

  /** When no phase succeeds, every bring-up that has something to do fails. */
  lemma BringUpFails(g: Graph, w: World, x: Name)
    requires Fits(g, w) && x in g.ifs && x !in w.isPending
    ensures !BringUp(g, w, x, Never()).ok
  {
  }

  // --- whole commands ----------------------------------------------------------------------

  lemma ChangeSucceeds(g: Graph, w: World, x: Name, up: bool, update: bool)
    requires Fits(g, w) && x in g.ifs && NoTemplates(g)
    ensures ChangeInterface(g, w, x, up, update, Always()).ok
  {
    if up {
      BringUpSucceeds(g, w, x);
    } else {
      TakeDownSucceeds(g, w, x);
    }
  }

  lemma {:induction false} ArgsSucceed(g: Graph, w: World, args: seq<Name>, up: bool)
    requires Fits(g, w) && NoTemplates(g) && forall x :: x in args ==> x in g.ifs
    ensures ChangeArgs(g, w, args, up, Always()).ok
    decreases |args|
  {
    if args != [] {
      ChangeSucceeds(g, w, args[0], up, true);
      ArgsSucceed(g, ChangeInterface(g, w, args[0], up, true, Always()).w, args[1..], up);
    }
  }

  lemma {:induction false} AutoSucceeds(g: Graph, w: World, order: seq<Name>, matching: set<Name>, up: bool)
    requires Fits(g, w) && NoTemplates(g) && forall x :: x in order ==> x in g.ifs
    ensures ChangeAuto(g, w, order, matching, up, Always()).ok
    decreases |order|
  {
    if order != [] {
      if !g.ifs[order[0]].isAuto || order[0] !in matching {
        AutoSucceeds(g, w, order[1..], matching, up);
      } else {
        ChangeSucceeds(g, w, order[0], up, false);
        AutoSucceeds(g, ChangeInterface(g, w, order[0], up, false, Always()).w, order[1..], matching, up);
      }
    }
  }

  /** Without templates, a process that knows all its arguments fails only if a phase fails. */
  lemma ExecuteSucceeds(g: Graph, w: World, cmd: Command)
    requires Coherent(g, w) && NoTemplates(g)
    requires cmd.IfUp? || cmd.IfDown? ==> forall x :: x in cmd.args ==> x in g.ifs
    ensures Execute(g, w, cmd, Always()).ok
  {
    BootEffect(g, w);
    var b := Boot(g, w);
    match cmd
    case IfUp(args) => ArgsSucceed(g, b, args, true);
    case IfDown(args) => ArgsSucceed(g, b, args, false);
    case IfUpAuto(matching) => AutoSucceeds(g, b, g.order, matching, true);
    case IfDownAuto(matching) => AutoSucceeds(g, b, g.order, matching, false);
  }
}
