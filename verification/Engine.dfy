/** The program itself: interfaces, the state dictionary and the lifecycle, updated in place.
    Every method is proved to do what the functions on worlds say. */
module Engine {
  import opened Graphs
  import opened Worlds
  import opened Lifecycle
  import opened Commands
  import opened Interfaces
  import opened StateDicts
  import Settling
  import Collector
  import Depth

  /** Runs the phases; what comes of them is up to the environment. */
  class Executor {
    const outcome: Outcome
    var history: seq<Event>

    constructor (outcome: Outcome, history: seq<Event>)
      ensures this.outcome == outcome && this.history == history
    {
      this.outcome := outcome;
      this.history := history;
    }

    method RunPhase(x: Name, phase: Phase) returns (ok: bool)
      modifies this
      ensures history == old(history) + [Event(x, phase)] && ok == outcome(history)
    {
      history := history + [Event(x, phase)];
      ok := outcome(history);
    }
  }

  /** The step the loop takes on its next token. */
  ghost function TokenStep(g: Graph, w: World, c: Name, up: bool, ok: Outcome): (s: Step)
    requires Fits(g, w) && c in g.ifs
    ensures Frame(g, w, s.w)
  {
    if g.ifs[c].hasConfigError then Step(w, true)
    else if up then Acquire(g, w, c, ok) else Release(g, w, c, ok)
  }

  lemma WalkStep(g: Graph, w: World, tokens: seq<Name>, up: bool, ok: Outcome)
    requires Fits(g, w) && tokens != [] && forall c :: c in tokens ==> c in g.ifs
    ensures var s := TokenStep(g, w, tokens[0], up, ok);
            WalkRequired(g, w, tokens, up, ok) == if s.ok then WalkRequired(g, s.w, tokens[1..], up, ok) else s
  {
  }

  /** What the arguments from position i on come to. */
  ghost function ArgsRest(g: Graph, w: World, args: seq<Name>, i: nat, up: bool, ok: Outcome): Step
    requires Fits(g, w) && i <= |args|
  {
    ChangeArgs(g, w, args[i..], up, ok)
  }

  lemma ArgsRestStep(g: Graph, w: World, args: seq<Name>, i: nat, up: bool, ok: Outcome)
    requires Fits(g, w) && i < |args|
    ensures ArgsRest(g, w, args, i, up, ok) ==
            if args[i] !in g.ifs then Step(w, false)
            else
              var s := ChangeInterface(g, w, args[i], up, true, ok);
              if s.ok then ArgsRest(g, s.w, args, i + 1, up, ok) else s
  {
    assert args[i..][1..] == args[i + 1..];
  }

  lemma ArgsRestEnds(g: Graph, w: World, args: seq<Name>, up: bool, ok: Outcome)
    requires Fits(g, w)
    ensures ArgsRest(g, w, args, |args|, up, ok) == Step(w, true)
    ensures ArgsRest(g, w, args, 0, up, ok) == ChangeArgs(g, w, args, up, ok)
  {
    assert args[0..] == args;
  }

  ghost function AutoStep(g: Graph, w: World, x: Name, matching: set<Name>, up: bool, ok: Outcome): (s: Step)
    requires Fits(g, w) && x in g.ifs
    ensures Fits(g, s.w)
  {
    if g.ifs[x].isAuto && x in matching then ChangeInterface(g, w, x, up, false, ok) else Step(w, true)
  }

  /** What an `-a` command comes to, when `so` says whether all went well so far. */
  ghost function AutoRest(g: Graph, w: World, order: seq<Name>, i: nat, matching: set<Name>, up: bool, ok: Outcome,
                          so: bool): Step
    requires Fits(g, w) && i <= |order| && forall x :: x in order ==> x in g.ifs
  {
    var r := ChangeAuto(g, w, order[i..], matching, up, ok);
    Step(r.w, so && r.ok)
  }

  lemma AutoRestStep(g: Graph, w: World, order: seq<Name>, i: nat, matching: set<Name>, up: bool, ok: Outcome, so: bool)
    requires Fits(g, w) && i < |order| && forall x :: x in order ==> x in g.ifs
    ensures var s := AutoStep(g, w, order[i], matching, up, ok);
            AutoRest(g, w, order, i, matching, up, ok, so) == AutoRest(g, s.w, order, i + 1, matching, up, ok, so && s.ok)
  {
    assert order[i..][1..] == order[i + 1..];
  }

  lemma AutoRestEnds(g: Graph, w: World, order: seq<Name>, matching: set<Name>, up: bool, ok: Outcome, so: bool)
    requires Fits(g, w) && forall x :: x in order ==> x in g.ifs
    ensures AutoRest(g, w, order, |order|, matching, up, ok, so) == Step(w, so)
    ensures AutoRest(g, w, order, 0, matching, up, ok, true) == ChangeAuto(g, w, order, matching, up, ok)
  {
    assert order[0..] == order;
  }

  /** One process. */
  class Session {
    const order: seq<Name>
    const collection: map<Name, Interface>
    const state: StateDict
    const executor: Executor
    ghost var configured: set<Name>

    ghost function Raw(): RawGraph {
      RawGraph(order, map n | n in collection :: collection[n].config)
    }

    ghost predicate Valid() {
      Closed(Raw()) && forall n :: n in collection ==> collection[n].ifname == n
    }

    ghost function G(): Graph
      requires Valid()
    {
      Raw()
    }

    ghost function Counts(): map<Name, nat>
      reads collection.Values`refcount
    {
      map n | n in collection :: collection[n].refcount
    }

    ghost function ExplicitNames(): set<Name>
      reads collection.Values`isExplicit
    {
      set n | n in collection && collection[n].isExplicit
    }

    ghost function PendingNames(): set<Name>
      reads collection.Values`isPending
    {
      set n | n in collection && collection[n].isPending
    }

    /** The world that this process is in. */
    ghost function W(): World
      reads this, state, executor, collection.Values
    {
      World(Counts(), ExplicitNames(), PendingNames(), configured, state.entries, executor.history)
    }

    ghost predicate Ready()
      reads this, state, executor, collection.Values
    {
      Valid() && Fits(G(), W())
    }

    constructor (order: seq<Name>, collection: map<Name, Interface>, state: StateDict, executor: Executor,
                 ghost configured: set<Name>)
      ensures this.order == order && this.collection == collection && this.state == state
      ensures this.executor == executor && this.configured == configured
    {
      this.order := order;
      this.collection := collection;
      this.state := state;
      this.executor := executor;
      this.configured := configured;
    }

    method SetPending(x: Name, pending: bool)
      requires Ready() && x in collection
      modifies {collection[x]}`isPending
      ensures W() == if pending then Enter(old(W()), x) else Leave(old(W()), x)
      ensures Depths() == old(Depths())
    {
      collection[x].isPending := pending;
    }

    method SetExplicit(x: Name)
      requires Ready() && x in collection
      modifies {collection[x]}`isExplicit
      ensures W() == old(W()).(isExplicit := old(W()).isExplicit + {x})
    {
      collection[x].isExplicit := true;
    }

    method SetCount(x: Name, count: nat)
      requires Ready() && x in collection
      modifies {collection[x]}`refcount
      ensures W() == old(W()).(refcount := old(W()).refcount[x := count])
    {
      collection[x].refcount := count;
      assert Counts() == old(Counts())[x := count];
    }

    method Upsert(x: Name)
      requires Ready() && x in collection
      modifies state
      ensures W() == Store(old(W()), x)
    {
      var iface := collection[x];
      state.Put(x, Record(iface.ifname, iface.refcount, iface.isExplicit));
    }

    method RefIf(x: Name)
      requires Ready() && x in collection
      modifies {collection[x]}`refcount, state
      ensures W() == Ref(old(W()), x)
    {
      SetCount(x, collection[x].refcount + 1);
      Upsert(x);
    }

    method UnrefIf(x: Name)
      requires Ready() && x in collection
      modifies {collection[x]}`refcount, state
      ensures W() == Unref(old(W()), x)
    {
      if collection[x].refcount == 0 {
        return;
      }
      SetCount(x, collection[x].refcount - 1);
      if collection[x].refcount > 0 {
        Upsert(x);
      } else {
        state.Remove(x);
      }
    }

    /** Counts the interface in the given direction; true if it needs no change now. */
    method HandleRefcounting(x: Name, up: bool) returns (skip: bool)
      requires Ready() && x in collection
      modifies {collection[x]}`refcount, state
      ensures W() == if up then Ref(old(W()), x) else Unref(old(W()), x)
      ensures skip == if up then old(W()).refcount[x] > 0 else W().refcount[x] > 1
    {
      var before := collection[x].refcount;
      if up {
        RefIf(x);
      } else {
        UnrefIf(x);
      }
      skip := (up && before > 0) || (!up && collection[x].refcount > 1);
    }

    method RunAllPhases(x: Name, phases: seq<Phase>) returns (ok: bool)
      requires Ready()
      modifies executor
      ensures var s := RunPhases(old(W()), x, phases, executor.outcome); W() == s.w && ok == s.ok
    {
      var i := 0;
      while i < |phases|
        invariant i <= |phases|
        invariant RunPhases(W(), x, phases[i..], executor.outcome) == RunPhases(old(W()), x, phases, executor.outcome)
      {
        assert phases[i..][0] == phases[i] && phases[i..][1..] == phases[i + 1..];
        ok := executor.RunPhase(x, phases[i]);
        if !ok {
          return;
        }
        i := i + 1;
      }
      ok := true;
    }

    lemma RequiredInside(x: Name)
      requires Valid() && x in collection
      ensures x in G().ifs && G().ifs[x] == collection[x].config
      ensures forall c :: c in collection[x].config.required ==> c in collection
    {
      forall c | c in collection[x].config.required
        ensures c in collection
      {
        assert c in Raw().ifs[x].required;
        assert c in Raw().ifs;
      }
    }

    lemma OrderInside()
      requires Valid()
      ensures forall x :: x in order ==> x in collection && x in G().ifs && G().ifs[x] == collection[x].config
    {
      assert forall x :: x in order ==> x in Raw().ifs;
    }

    /** Count one required interface, and change it if that is due. */
    method HandleDependent(c: Name, up: bool) returns (ok: bool)
      requires Ready() && c in collection
      modifies this`configured, collection.Values, state, executor
      ensures Ready()
      ensures var s := TokenStep(G(), old(W()), c, up, executor.outcome); W() == s.w && ok == s.ok
      decreases Idle(G(), W()), 2, 0
    {
      if collection[c].config.hasConfigError {
        return true;
      }
      assert !G().ifs[c].hasConfigError;
      ghost var w := W();
      var skip := HandleRefcounting(c, up);
      if skip || (!up && collection[c].isExplicit) {
        assert TokenStep(G(), w, c, up, executor.outcome) == Step(W(), true);
        return true;
      }
      assert TokenStep(G(), w, c, up, executor.outcome) == Lifecycle.Run(G(), W(), c, up, executor.outcome);
      ok := Run(c, up);
    }

    /** The loop over what x requires, between setting and clearing its pending flag. */
    method HandleDependents(x: Name, up: bool) returns (ok: bool)
      requires Ready() && x in collection && !collection[x].isPending
      modifies this`configured, collection.Values, state, executor
      ensures Ready()
      ensures var s := Dependents(G(), old(W()), x, up, executor.outcome); W() == s.w && ok == s.ok
      decreases Idle(G(), W()), 0, 0
    {
      var tokens := collection[x].config.required;
      RequiredInside(x);
      EnterShrinks(G(), W(), x);
      SetPending(x, true);
      ok := WalkTokens(tokens, up);
      SetPending(x, false);
    }

    method WalkTokens(tokens: seq<Name>, up: bool) returns (ok: bool)
      requires Ready() && forall c :: c in tokens ==> c in collection
      modifies this`configured, collection.Values, state, executor
      ensures Ready()
      ensures var s := WalkRequired(G(), old(W()), tokens, up, executor.outcome); W() == s.w && ok == s.ok
      decreases Idle(G(), W()), 3, 0
    {
      var i := 0;
      ghost var start := W();
      while i < |tokens|
        invariant i <= |tokens| && Ready() && W().isPending == start.isPending
        invariant WalkRequired(G(), W(), tokens[i..], up, executor.outcome)
                  == WalkRequired(G(), start, tokens, up, executor.outcome)
      {
        ghost var w := W();
        WalkStep(G(), w, tokens[i..], up, executor.outcome);
        assert tokens[i..][1..] == tokens[i + 1..];
        ok := HandleDependent(tokens[i], up);
        if !ok {
          return;
        }
        i := i + 1;
      }
      ok := true;
    }

    method FinishRaise(x: Name) returns (ok: bool)
      requires Ready() && x in collection
      modifies this`configured, collection.Values, state, executor
      ensures Ready()
      ensures var s := FinishUp(G(), old(W()), x, executor.outcome); W() == s.w && ok == s.ok
    {
      ok := RunAllPhases(x, UP_PHASES);
      if ok {
        CompleteRaise(x);
      }
    }

    method CompleteRaise(x: Name)
      requires Ready() && x in collection
      modifies this`configured, {collection[x]}`refcount, state
      ensures Ready() && W() == Complete(old(W()), x)
    {
      RefIf(x);
      configured := configured + {x};
    }

    method FinishDrop(x: Name)
      requires Ready() && x in collection
      modifies this`configured, collection.Values, state
      ensures Ready()
      ensures W() == FinishDown(G(), old(W()), x).w
    {
      UnrefIf(x);
      configured := configured - {x};
    }

    /** Bring the interface up after its requirements, or take it down before them. */
    method Run(x: Name, up: bool) returns (ok: bool)
      requires Ready() && x in collection
      modifies this`configured, collection.Values, state, executor
      ensures Ready()
      ensures var s := Lifecycle.Run(G(), old(W()), x, up, executor.outcome); W() == s.w && ok == s.ok
      decreases Idle(G(), W()), 1, 0
    {
      if collection[x].isPending {
        return true;
      }
      if collection[x].config.isTemplate {
        return false;
      }
      if up {
        ok := HandleDependents(x, up);
        if ok {
          ok := FinishRaise(x);
        }
      } else {
        ok := RunAllPhases(x, DOWN_PHASES);
        if ok {
          ok := HandleDependents(x, up);
          if ok {
            FinishDrop(x);
          }
        }
      }
    }

    /** A process of new objects is one that has just parsed its configuration. */
    lemma StartsParsed(g: Graph, w: World)
      requires Raw() == g && configured == w.configured && state.entries == w.state && executor.history == w.trace
      requires forall n :: n in collection ==>
                 && collection[n].refcount == 0 && collection[n].rdependsCount == 0
                 && !collection[n].isPending && collection[n].isExplicit == g.ifs[n].isAuto
      ensures W() == Parsed(g, w) && Depths() == Depth.Uncounted(g)
    {
      assert collection.Keys == g.ifs.Keys;
      assert Counts() == map x | x in g.ifs :: 0;
      assert ExplicitNames() == AutoNames(g);
      assert PendingNames() == {};
    }

    // --- the dependency pass -------------------------------------------------------------

    ghost function Depths(): map<Name, nat>
      reads collection.Values`rdependsCount
    {
      map n | n in collection :: collection[n].rdependsCount
    }

    method SetDepth(x: Name, depth: nat)
      requires Ready() && x in collection
      modifies {collection[x]}`rdependsCount
      ensures Depths() == old(Depths())[x := depth] && W() == old(W())
    {
      collection[x].rdependsCount := depth;
    }

    /** Set the depth of x, and of what it requires one deeper, unless x is pending. */
    method CountInterface(x: Name, depth: nat, broken: set<Name>) returns (ok: bool)
      requires Ready() && x in collection
      modifies collection.Values`isPending, collection.Values`rdependsCount
      ensures W() == old(W())
      ensures var r := Depth.Visit(G(), broken, old(Depths()), old(PendingNames()), x, depth);
              Depths() == r.count && ok == r.ok
      decreases Depth.Free(G(), PendingNames()), 0, 0
    {
      if collection[x].isPending {
        return true;
      }
      if x in broken {
        return false;
      }
      RequiredInside(x);
      Depth.PendingGrows(G(), PendingNames(), x);
      ok := CountBelow(x, depth, broken);
    }

    method CountBelow(x: Name, depth: nat, broken: set<Name>) returns (ok: bool)
      requires Ready() && x in collection && !collection[x].isPending
      requires forall c :: c in collection[x].config.required ==> c in collection
      modifies collection.Values`isPending, collection.Values`rdependsCount
      ensures W() == old(W())
      ensures var r := Depth.VisitAll(G(), broken, old(Depths())[x := depth], old(PendingNames()) + {x},
                                      collection[x].config.required, depth + 1);
              Depths() == r.count && ok == r.ok
      decreases Depth.Free(G(), PendingNames() + {x}), 2, 0
    {
      ghost var w := W();
      EnterAt(x, depth);
      ghost var entered := W();
      ok := CountTokens(collection[x].config.required, depth + 1, broken);
      assert W() == entered;
      SetPending(x, false);
      assert W() == w;
    }

    method EnterAt(x: Name, depth: nat)
      requires Ready() && x in collection && !collection[x].isPending
      modifies {collection[x]}`isPending, {collection[x]}`rdependsCount
      ensures W() == Enter(old(W()), x) && Leave(W(), x) == old(W())
      ensures Depths() == old(Depths())[x := depth] && PendingNames() == old(PendingNames()) + {x}
    {
      SetPending(x, true);
      SetDepth(x, depth);
      assert x !in old(W()).isPending;
    }

    method CountTokens(tokens: seq<Name>, depth: nat, broken: set<Name>) returns (ok: bool)
      requires Ready() && forall c :: c in tokens ==> c in collection
      modifies collection.Values`isPending, collection.Values`rdependsCount
      ensures W() == old(W())
      ensures var r := Depth.VisitAll(G(), broken, old(Depths()), old(PendingNames()), tokens, depth);
              Depths() == r.count && ok == r.ok
      decreases Depth.Free(G(), PendingNames()), 1, 0
    {
      var i := 0;
      while i < |tokens|
        invariant i <= |tokens| && W() == old(W())
        invariant Depth.VisitAll(G(), broken, Depths(), PendingNames(), tokens[i..], depth)
                  == Depth.VisitAll(G(), broken, old(Depths()), old(PendingNames()), tokens, depth)
      {
        assert tokens[i..][0] == tokens[i] && tokens[i..][1..] == tokens[i + 1..];
        ok := CountInterface(tokens[i], depth, broken);
        if !ok {
          return;
        }
        i := i + 1;
      }
      ok := true;
    }

    /** What the pass comes to. */
    ghost function Counting(broken: set<Name>, count: map<Name, nat>): Depth.Counted
      requires Valid() && count.Keys == collection.Keys
    {
      OrderInside();
      Depth.Pass(G(), broken, count, order)
    }

    /** The pass over the collection, each interface from the depth it has by then. */
    method CountAll(broken: set<Name>) returns (ok: bool)
      requires Ready() && PendingNames() == {}
      modifies collection.Values`isPending, collection.Values`rdependsCount
      ensures W() == old(W())
      ensures var r := Counting(broken, old(Depths())); Depths() == r.count && ok == r.ok
    {
      var i := 0;
      OrderInside();
      while i < |order|
        invariant i <= |order| && W() == old(W())
        invariant Depth.Pass(G(), broken, Depths(), order[i..]) == Depth.Pass(G(), broken, old(Depths()), order)
      {
        assert order[i..][0] == order[i] && order[i..][1..] == order[i + 1..];
        OrderInside();
        ok := CountInterface(order[i], collection[order[i]].rdependsCount, broken);
        if !ok {
          return;
        }
        i := i + 1;
      }
      ok := true;
    }

    // --- the command level ---------------------------------------------------------------

    /** True if the command has nothing to do for x. */
    method SkipInterface(x: Name, up: bool, update: bool) returns (skipped: bool)
      requires Ready() && x in collection
      modifies {collection[x]}`isExplicit, state
      ensures Ready()
      ensures var k := Commands.SkipInterface(G(), old(W()), x, up, update); W() == k.w && skipped == k.skipped
    {
      if collection[x].config.isTemplate {
        return false;
      }
      if collection[x].config.hasConfigError {
        return true;
      }
      if up && collection[x].refcount > 0 {
        if update {
          SetExplicit(x);
          Upsert(x);
        }
        return true;
      }
      return !up && collection[x].refcount == 0;
    }

    method ChangeInterface(x: Name, up: bool, update: bool) returns (ok: bool)
      requires Ready() && x in collection
      modifies this`configured, collection.Values, state, executor
      ensures Ready()
      ensures var s := Commands.ChangeInterface(G(), old(W()), x, up, update, executor.outcome);
              W() == s.w && ok == s.ok
    {
      var skipped := SkipInterface(x, up, update);
      if skipped {
        return true;
      }
      ok := Run(x, up);
      if ok && up && update {
        SetExplicit(x);
        Upsert(x);
      }
    }

    /** One turn of the loop over the command line; an unknown name is a failure. */
    method ArgsTurn(args: seq<Name>, i: nat, up: bool) returns (ok: bool)
      requires Ready() && i < |args|
      modifies this`configured, collection.Values, state, executor
      ensures Ready()
      ensures ArgsRest(G(), old(W()), args, i, up, executor.outcome)
              == if ok then ArgsRest(G(), W(), args, i + 1, up, executor.outcome) else Step(W(), false)
    {
      ArgsRestStep(G(), W(), args, i, up, executor.outcome);
      if args[i] !in collection {
        return false;
      }
      ok := ChangeInterface(args[i], up, true);
    }

    /** The loop over the command line; it ends at the first failure or unknown name. */
    method ChangeArgs(args: seq<Name>, up: bool) returns (ok: bool)
      requires Ready()
      modifies this`configured, collection.Values, state, executor
      ensures Ready()
      ensures var s := Commands.ChangeArgs(G(), old(W()), args, up, executor.outcome); W() == s.w && ok == s.ok
    {
      ok := true;
      var i := 0;
      ghost var g, outcome := G(), executor.outcome;
      ghost var all := ArgsRest(g, W(), args, 0, up, outcome);
      ArgsRestEnds(g, W(), args, up, outcome);
      while ok && i < |args|
        invariant i <= |args| && Ready()
        invariant all == if ok then ArgsRest(g, W(), args, i, up, outcome) else Step(W(), false)
      {
        ok := ArgsTurn(args, i, up);
        i := i + 1;
      }
      ArgsRestEnds(g, W(), args, up, outcome);
    }

    /** One interface met by an `-a` command. */
    method ChangeIfAuto(x: Name, matching: set<Name>, up: bool) returns (ok: bool)
      requires Ready() && x in collection
      modifies this`configured, collection.Values, state, executor
      ensures Ready()
      ensures var s := AutoStep(G(), old(W()), x, matching, up, executor.outcome); W() == s.w && ok == s.ok
    {
      ok := true;
      if collection[x].config.isAuto && x in matching {
        ok := ChangeInterface(x, up, false);
      }
    }

    ghost predicate InOrder(i: nat)
    {
      Valid() && i <= |order| && forall x :: x in order ==> x in G().ifs
    }

    /** One turn of the loop of an `-a` command; failures are remembered, and do not end it. */
    method AutoTurn(i: nat, matching: set<Name>, up: bool, so: bool) returns (ok: bool)
      requires Ready() && i < |order| && InOrder(i + 1)
      modifies this`configured, collection.Values, state, executor
      ensures Ready()
      ensures AutoRest(G(), W(), order, i + 1, matching, up, executor.outcome, ok)
              == AutoRest(G(), old(W()), order, i, matching, up, executor.outcome, so)
    {
      ghost var w := W();
      assert order[i] in order;
      AutoRestStep(G(), w, order, i, matching, up, executor.outcome, so);
      var changed := ChangeIfAuto(order[i], matching, up);
      ok := so && changed;
    }

    /** The loop of an `-a` command over the collection; failures do not end it. */
    method ChangeAuto(matching: set<Name>, up: bool) returns (ok: bool)
      requires Ready()
      modifies this`configured, collection.Values, state, executor
      ensures Ready()
      ensures var s := Commands.ChangeAuto(G(), old(W()), order, matching, up, executor.outcome);
              W() == s.w && ok == s.ok
    {
      ok := true;
      var i := 0;
      ghost var g, start, outcome := G(), W(), executor.outcome;
      OrderInside();
      AutoRestEnds(g, start, order, matching, up, outcome, true);
      while i < |order|
        invariant Ready() && InOrder(i)
        invariant AutoRest(g, W(), order, i, matching, up, outcome, ok)
                  == AutoRest(g, start, order, 0, matching, up, outcome, true)
      {
        ok := AutoTurn(i, matching, up, ok);
        i := i + 1;
      }
      AutoRestEnds(g, W(), order, matching, up, outcome, ok);
    }

    /** What the process was called for. */
    method Perform(cmd: Collector.Command) returns (ok: bool)
      requires Ready()
      modifies this`configured, collection.Values, state, executor
      ensures Ready()
      ensures var s := match cmd
                       case IfUp(args) => Commands.ChangeArgs(G(), old(W()), args, true, executor.outcome)
                       case IfDown(args) => Commands.ChangeArgs(G(), old(W()), args, false, executor.outcome)
                       case IfUpAuto(matching) => Commands.ChangeAuto(G(), old(W()), order, matching, true, executor.outcome)
                       case IfDownAuto(matching) => Commands.ChangeAuto(G(), old(W()), order, matching, false, executor.outcome);
              W() == s.w && ok == s.ok
    {
      OrderInside();
      match cmd {
        case IfUp(args) => ok := ChangeArgs(args, true);
        case IfDown(args) => ok := ChangeArgs(args, false);
        case IfUpAuto(matching) => ok := ChangeAuto(matching, true);
        case IfDownAuto(matching) => ok := ChangeAuto(matching, false);
      }
    }

    /** Overwrite counts and flags from the records just read. */
    method SyncState()
      requires Ready() && SelfMapped(G(), state.entries)
      modifies collection.Values
      ensures Ready()
      ensures W() == Sync(old(W()).state, old(W()))
    {
      var i := 0;
      ghost var start := W();
      while i < |state.entries|
        invariant i <= |state.entries| && Ready() && state.entries == start.state
        invariant Sync(state.entries[i..], W()) == Sync(start.state, start)
      {
        var r := state.entries[i].rec;
        assert state.entries[i..][0] == state.entries[i] && state.entries[i..][1..] == state.entries[i + 1..];
        assert state.entries[i] in state.entries && r.mapped in Raw().ifs;
        SetCount(r.mapped, r.refcount);
        AssignExplicit(r.mapped, r.isExplicit);
        i := i + 1;
      }
    }

    method AssignExplicit(x: Name, flag: bool)
      requires Ready() && x in collection
      modifies {collection[x]}`isExplicit
      ensures W() == old(W()).(isExplicit := if flag then old(W()).isExplicit + {x} else old(W()).isExplicit - {x})
    {
      collection[x].isExplicit := flag;
    }
  }

  /** The interfaces of a new process. */
  method CreateInterfaces(g: Graph) returns (collection: map<Name, Interface>)
    ensures collection.Keys == g.ifs.Keys && fresh(collection.Values)
    ensures forall n :: n in collection ==>
              && collection[n].ifname == n && collection[n].config == g.ifs[n] && collection[n].refcount == 0
              && !collection[n].isPending && collection[n].isExplicit == g.ifs[n].isAuto
              && collection[n].rdependsCount == 0
  {
    collection := map[];
    for i := 0 to |g.order|
      invariant collection.Keys == set j | 0 <= j < i :: g.order[j]
      invariant forall n :: n in collection ==> fresh(collection[n])
      invariant forall n :: n in collection ==>
                  && n in g.ifs
                  && collection[n].ifname == n && collection[n].config == g.ifs[n] && collection[n].refcount == 0
                  && !collection[n].isPending && collection[n].isExplicit == g.ifs[n].isAuto
                  && collection[n].rdependsCount == 0
    {
      var x := g.order[i];
      assert x in g.order;
      var iface := new Interface(x, g.ifs[x]);
      collection := collection[x := iface];
    }
    assert forall n :: n in g.ifs ==> n in g.order;
  }

  /** Configuration parsed and records read, and nothing synchronised yet. */
  method StartSession(g: Graph, records: seq<Entry>, executor: Executor, ghost w: World) returns (session: Session)
    requires Coherent(g, w) && w.state == records && w.trace == executor.history
    ensures session.Raw() == g && session.Ready() && session.W() == Parsed(g, w) && session.executor == executor
    ensures fresh(session) && fresh(session.state) && fresh(session.collection.Values)
    ensures session.Depths() == Depth.Uncounted(g)
  {
    var collection := CreateInterfaces(g);
    var state := new StateDict(records);
    session := new Session(g.order, collection, state, executor, w.configured);
    assert session.Raw() == g by {
      assert (map n | n in collection :: collection[n].config) == g.ifs;
    }
    session.StartsParsed(g, w);
  }

  /** The same process, walking its interfaces in another order. */
  method Reordered(session: Session, order: seq<Name>, ghost g: Graph) returns (sorted: Session)
    requires session.Ready() && g.ifs == session.G().ifs && g.order == order
    ensures fresh(sorted) && sorted.collection == session.collection && sorted.state == session.state
    ensures sorted.executor == session.executor && sorted.Raw() == g && sorted.Ready() && sorted.W() == session.W()
  {
    sorted := new Session(order, session.collection, session.state, session.executor, session.configured);
  }

  /** Read the records into a process that has parsed its configuration, and do what it was
      called for: from the records it starts with to the records it leaves. */
  method Process(session: Session, cmd: Collector.Command, ghost g: Graph, ghost w: World) returns (ok: bool)
    requires Coherent(g, w) && session.Ready() && session.Raw() == g && session.W() == Parsed(g, w)
    modifies session`configured, session.collection.Values, session.state, session.executor
    ensures session.Ready()
    ensures var s := Collector.Execute(g, w, cmd, session.executor.outcome); session.W() == s.w && ok == s.ok
  {
    Settling.MirrorsSelfMapped(g, w);
    session.SyncState();
    ok := session.Perform(cmd);
  }
}
