/** Whole runs: what holds after any sequence of ifup and ifdown processes. */
module Collector {
  import opened Graphs
  import opened Worlds
  import opened Lifecycle
  import opened Coherence
  import opened Commands
  import opened Settling

  datatype Command =
    | IfUp(args: seq<Name>)
    | IfDown(args: seq<Name>)
    | IfUpAuto(matching: set<Name>)
    | IfDownAuto(matching: set<Name>)

  // --- on every path -------------------------------------------------------------------

  ghost predicate Resting(g: Graph, w: World) {
    Coherent(g, w) && w.isPending == {}
  }

  lemma MarkCoherent(g: Graph, w: World, x: Name)
    requires Coherent(g, w) && x in g.ifs && w.refcount[x] > 0
    ensures Coherent(g, MarkExplicit(w, x))
  {
    UpsertEffect(w.state, x, Record(x, w.refcount[x], true));
  }

  /** A bring-up that succeeds leaves the interface counted, unless it was pending. */
  lemma BringUpCounts(g: Graph, w: World, x: Name, ok: Outcome)
    requires Fits(g, w) && x in g.ifs && x !in w.isPending
    ensures var s := BringUp(g, w, x, ok); s.ok ==> s.w.refcount[x] > 0
  {
  }

  lemma ChangeResting(g: Graph, w: World, x: Name, up: bool, update: bool, ok: Outcome)
    requires Resting(g, w) && x in g.ifs
    ensures Resting(g, ChangeInterface(g, w, x, up, update, ok).w)
  {
    if up {
      var s := BringUp(g, w, x, ok);
      BringUpCoherent(g, w, x, ok);
      BringUpCounts(g, w, x, ok);
      if s.ok {
        MarkCoherent(g, s.w, x);
      }
      if w.refcount[x] > 0 {
        MarkCoherent(g, w, x);
      }
    } else {
      TakeDownCoherent(g, w, x, ok);
    }
  }

  lemma {:induction false} ChangeArgsResting(g: Graph, w: World, args: seq<Name>, up: bool, ok: Outcome)
    requires Resting(g, w)
    ensures Resting(g, ChangeArgs(g, w, args, up, ok).w)
    decreases |args|
  {
    if args != [] && args[0] in g.ifs {
      ChangeResting(g, w, args[0], up, true, ok);
      ChangeArgsResting(g, ChangeInterface(g, w, args[0], up, true, ok).w, args[1..], up, ok);
    }
  }

  lemma {:induction false} ChangeAutoResting(g: Graph, w: World, order: seq<Name>, matching: set<Name>, up: bool,
                                             ok: Outcome)
    requires Resting(g, w) && forall x :: x in order ==> x in g.ifs
    ensures Resting(g, ChangeAuto(g, w, order, matching, up, ok).w)
    decreases |order|
  {
    if order != [] {
      if !g.ifs[order[0]].isAuto || order[0] !in matching {
        ChangeAutoResting(g, w, order[1..], matching, up, ok);
      } else {
        ChangeResting(g, w, order[0], up, false, ok);
        ChangeAutoResting(g, ChangeInterface(g, w, order[0], up, false, ok).w, order[1..], matching, up, ok);
      }
    }
  }

  /** One process: start from the records, then change the interfaces it was asked to.
      Whatever fails on the way, the dictionary it leaves mirrors its counts. */
  function Execute(g: Graph, w: World, cmd: Command, ok: Outcome): (s: Step)
    requires Coherent(g, w)
    ensures Resting(g, s.w)
  {
    BootEffect(g, w);
    var b := Boot(g, w);
    match cmd
    case IfUp(args) => ChangeArgsResting(g, b, args, true, ok); ChangeArgs(g, b, args, true, ok)
    case IfDown(args) => ChangeArgsResting(g, b, args, false, ok); ChangeArgs(g, b, args, false, ok)
    case IfUpAuto(matching) =>
      ChangeAutoResting(g, b, g.order, matching, true, ok);
      ChangeAuto(g, b, g.order, matching, true, ok)
    case IfDownAuto(matching) =>
      ChangeAutoResting(g, b, g.order, matching, false, ok);
      ChangeAuto(g, b, g.order, matching, false, ok)
  }

  /** One process after the other, whether or not they succeed. */
  function ExecuteAll(g: Graph, w: World, cmds: seq<Command>, ok: Outcome): (v: World)
    requires Coherent(g, w)
    ensures Coherent(g, v)
    decreases |cmds|
  {
    if cmds == [] then w else ExecuteAll(g, Execute(g, w, cmds[0], ok).w, cmds[1..], ok)
  }

  // --- successful runs -----------------------------------------------------------------

  /** The teardowns of a process meet no interface that others still hold. */
  ghost predicate TameArgs(g: Graph, w: World, args: seq<Name>, ok: Outcome)
    requires Fits(g, w)
    decreases |args|
  {
    args != [] && args[0] in g.ifs ==>
      w.refcount[args[0]] <= 1 && TameArgs(g, ChangeInterface(g, w, args[0], false, true, ok).w, args[1..], ok)
  }

  ghost predicate TameAuto(g: Graph, w: World, order: seq<Name>, matching: set<Name>, ok: Outcome)
    requires Fits(g, w) && forall x :: x in order ==> x in g.ifs
    decreases |order|
  {
    order != [] ==>
      if !g.ifs[order[0]].isAuto || order[0] !in matching then TameAuto(g, w, order[1..], matching, ok)
      else w.refcount[order[0]] <= 1
           && TameAuto(g, ChangeInterface(g, w, order[0], false, false, ok).w, order[1..], matching, ok)
  }

  ghost predicate TameCommand(g: Graph, w: World, cmd: Command, ok: Outcome)
    requires Coherent(g, w)
  {
    BootEffect(g, w);
    && (cmd.IfDown? ==> TameArgs(g, Boot(g, w), cmd.args, ok))
    && (cmd.IfDownAuto? ==> TameAuto(g, Boot(g, w), g.order, cmd.matching, ok))
  }

  /** Every process succeeds, and none takes down an interface that others still hold. */
  ghost predicate Tame(g: Graph, w: World, cmds: seq<Command>, ok: Outcome)
    requires Coherent(g, w)
    decreases |cmds|
  {
    cmds != [] ==>
      && TameCommand(g, w, cmds[0], ok)
      && Execute(g, w, cmds[0], ok).ok
      && Tame(g, Execute(g, w, cmds[0], ok).w, cmds[1..], ok)
  }

  lemma {:induction false} ChangeArgsSettled(g: Graph, w: World, args: seq<Name>, up: bool, ok: Outcome)
    requires Settled(g, w) && (up || TameArgs(g, w, args, ok))
    ensures var s := ChangeArgs(g, w, args, up, ok); s.ok ==> Settled(g, s.w)
    decreases |args|
  {
    if args != [] && args[0] in g.ifs {
      var s := ChangeInterface(g, w, args[0], up, true, ok);
      if up {
        IfUpSettled(g, w, args[0], true, ok);
      } else {
        IfDownSettled(g, w, args[0], true, ok);
      }
      if s.ok {
        ChangeArgsSettled(g, s.w, args[1..], up, ok);
      }
    }
  }

  lemma {:induction false} ChangeAutoSettled(g: Graph, w: World, order: seq<Name>, matching: set<Name>, up: bool,
                                             ok: Outcome)
    requires Settled(g, w) && (forall x :: x in order ==> x in g.ifs) && (up || TameAuto(g, w, order, matching, ok))
    ensures var s := ChangeAuto(g, w, order, matching, up, ok); s.ok ==> Settled(g, s.w)
    decreases |order|
  {
    if order != [] {
      if !g.ifs[order[0]].isAuto || order[0] !in matching {
        ChangeAutoSettled(g, w, order[1..], matching, up, ok);
      } else {
        var s := ChangeInterface(g, w, order[0], up, false, ok);
        if up {
          IfUpSettled(g, w, order[0], false, ok);
        } else {
          IfDownSettled(g, w, order[0], false, ok);
        }
        if s.ok {
          ChangeAutoSettled(g, s.w, order[1..], matching, up, ok);
        }
      }
    }
  }

  lemma ExecuteSettled(g: Graph, w: World, cmd: Command, ok: Outcome)
    requires Settled(g, w) && TameCommand(g, w, cmd, ok)
    ensures var s := Execute(g, w, cmd, ok); s.ok ==> Settled(g, s.w)
  {
    BootSettled(g, w);
    var b := Boot(g, w);
    match cmd
    case IfUp(args) => ChangeArgsSettled(g, b, args, true, ok);
    case IfDown(args) => ChangeArgsSettled(g, b, args, false, ok);
    case IfUpAuto(matching) => ChangeAutoSettled(g, b, g.order, matching, true, ok);
    case IfDownAuto(matching) => ChangeAutoSettled(g, b, g.order, matching, false, ok);
  }

  /** The ledger invariant holds at the end of every tame sequence of processes. */
  lemma {:induction false} ExecuteAllSettled(g: Graph, w: World, cmds: seq<Command>, ok: Outcome)
    requires Settled(g, w) && Tame(g, w, cmds, ok)
    ensures Settled(g, ExecuteAll(g, w, cmds, ok))
    decreases |cmds|
  {
    if cmds != [] {
      ExecuteSettled(g, w, cmds[0], ok);
      ExecuteAllSettled(g, Execute(g, w, cmds[0], ok).w, cmds[1..], ok);
    }
  }
}
