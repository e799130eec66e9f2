/** What one command touches, from every world: which interfaces are skipped, in which direction,
    and what the loops over names and over the collection come to. */
module Effects {
  import opened Graphs
  import opened Worlds
  import opened Lifecycle
  import opened Coherence
  import opened BringUpOrder
  import opened Commands
  import opened Settling
  import opened Collector
  import opened Success
  import opened Safety
  import opened History

  // --- one interface -----------------------------------------------------------------------

  /** A phase was run, or a count changed. */
  ghost predicate Moved(w: World, v: World) {
    v.trace != w.trace || v.refcount != w.refcount
  }

  /** There is something to do: down and wanted up, or counted and wanted down. */
  predicate Due(g: Graph, w: World, x: Name, up: bool)
    requires Fits(g, w) && x in g.ifs
  {
    !g.ifs[x].isTemplate && !g.ifs[x].hasConfigError && (if up then w.refcount[x] == 0 else w.refcount[x] > 0)
  }

  lemma TemplateFails(g: Graph, w: World, x: Name, ok: Outcome)
    requires Fits(g, w) && x in g.ifs && x !in w.isPending && g.ifs[x].isTemplate
    ensures BringUp(g, w, x, ok) == TakeDown(g, w, x, ok) == Step(w, false)
  {
  }

  lemma NothingRequired(g: Graph, w: World, tokens: seq<Name>, ok: Outcome)
    requires Fits(g, w) && (forall c :: c in tokens ==> c in g.ifs) && Effective(g, tokens) == []
    ensures RaiseRequired(g, w, tokens, ok) == Step(w, true)
    decreases |tokens|
  {
  }

  /** With something to require, a count rises. */
  lemma {:induction false} RequiredMoves(g: Graph, w: World, tokens: seq<Name>, ok: Outcome) returns (c: Name)
    requires Fits(g, w) && (forall c :: c in tokens ==> c in g.ifs) && Effective(g, tokens) != []
    ensures c in g.ifs && RaiseRequired(g, w, tokens, ok).w.refcount[c] > w.refcount[c]
    decreases |tokens|
  {
    c := tokens[0];
    if g.ifs[c].hasConfigError {
      c := RequiredMoves(g, w, tokens[1..], ok);
    } else {
      AcquireHonest(g, w, c, ok);
      var s := Acquire(g, w, c, ok);
      if s.ok {
        RaiseRequiredHonest(g, s.w, tokens[1..], ok);
      }
    }
  }

  lemma BringUpMoves(g: Graph, w: World, x: Name, ok: Outcome)
    requires Fits(g, w) && x in g.ifs && x !in w.isPending && !g.ifs[x].isTemplate
    ensures Moved(w, BringUp(g, w, x, ok).w)
  {
    EnterShrinks(g, w, x);
    var v, tokens := Enter(w, x), g.ifs[x].required;
    var d := RaiseDependents(g, w, x, ok);
    if Effective(g, tokens) == [] {
      NothingRequired(g, v, tokens, ok);
      assert d.w.trace == w.trace && d.ok;
      FinishUpHonest(g, d.w, x, ok);
    } else {
      var c := RequiredMoves(g, v, tokens, ok);
      if d.ok {
        FinishUpHonest(g, d.w, x, ok);
      }
    }
  }

  /** Exactly the due interfaces are touched. A template fails and leaves everything alone; one
      with a configuration error is skipped in both directions; one that is up already gets its
      flag set and recorded when it was named, and no other flag ever changes. */
  lemma ChangeEffect(g: Graph, w: World, x: Name, up: bool, update: bool, ok: Outcome)
    requires Fits(g, w) && x in g.ifs && x !in w.isPending
    ensures var s := ChangeInterface(g, w, x, up, update, ok);
            && (Moved(w, s.w) <==> Due(g, w, x, up))
            && (g.ifs[x].isTemplate ==> s == Step(w, false))
            && (!g.ifs[x].isTemplate && g.ifs[x].hasConfigError ==> s == Step(w, true))
            && (!g.ifs[x].isTemplate && !Due(g, w, x, up) ==> s.ok)
            && s.w.isExplicit == w.isExplicit +
                 (if s.ok && up && update && !g.ifs[x].hasConfigError then {x} else {})
            && (!Due(g, w, x, up) && !(up && update) ==> s.w == w)
  {
    if g.ifs[x].isTemplate {
      TemplateFails(g, w, x, ok);
    } else if Due(g, w, x, up) {
      if up {
        BringUpMoves(g, w, x, ok);
      } else {
        DownFirst(g, w, x, ok);
      }
    }
  }

  // --- the arguments -----------------------------------------------------------------------

  /** Worlds along the first arguments, each changed with success. */
  ghost predicate ArgsChain(g: Graph, args: seq<Name>, up: bool, ok: Outcome, ws: seq<World>) {
    && 0 < |ws| <= |args| + 1 && (forall i :: 0 <= i < |ws| ==> Fits(g, ws[i]))
    && forall i :: 0 <= i < |ws| - 1 ==>
         args[i] in g.ifs && ChangeInterface(g, ws[i], args[i], up, true, ok) == Step(ws[i + 1], true)
  }

  /** How the arguments end: all of them changed; or at one that is unknown, or that fails. */
  ghost predicate ArgsEnd(g: Graph, args: seq<Name>, up: bool, ok: Outcome, ws: seq<World>, s: Step)
    requires ArgsChain(g, args, up, ok, ws)
  {
    var k := |ws| - 1;
    if k == |args| then s == Step(ws[k], true)
    else if args[k] !in g.ifs then s == Step(ws[k], false)
    else s == ChangeInterface(g, ws[k], args[k], up, true, ok) && !s.ok
  }

  /** The arguments are changed one after the other, from the world the one before left, up to
      the first that is unknown or fails; no later one is touched. */
  lemma {:induction false} ArgsInTurn(g: Graph, w: World, args: seq<Name>, up: bool, ok: Outcome) returns (ws: seq<World>)
    requires Fits(g, w)
    ensures ArgsChain(g, args, up, ok, ws) && ws[0] == w && ArgsEnd(g, args, up, ok, ws, ChangeArgs(g, w, args, up, ok))
    decreases |args|
  {
    ws := [w];
    if args != [] && args[0] in g.ifs {
      var s := ChangeInterface(g, w, args[0], up, true, ok);
      if s.ok {
        var rest := ArgsInTurn(g, s.w, args[1..], up, ok);
        ws := [w] + rest;
        ChainCons(g, w, args, up, ok, rest);
      }
    }
  }

  lemma ChainCons(g: Graph, w: World, args: seq<Name>, up: bool, ok: Outcome, rest: seq<World>)
    requires Fits(g, w) && args != [] && args[0] in g.ifs && ArgsChain(g, args[1..], up, ok, rest)
    requires ChangeInterface(g, w, args[0], up, true, ok) == Step(rest[0], true)
    ensures ArgsChain(g, args, up, ok, [w] + rest)
    ensures forall s :: ArgsEnd(g, args[1..], up, ok, rest, s) ==> ArgsEnd(g, args, up, ok, [w] + rest, s)
  {
    var ws := [w] + rest;
    forall i | 0 <= i < |ws| - 1
      ensures args[i] in g.ifs && ChangeInterface(g, ws[i], args[i], up, true, ok) == Step(ws[i + 1], true)
    {
      if i > 0 {
        assert args[i] == args[1..][i - 1] && ws[i] == rest[i - 1] && ws[i + 1] == rest[i - 1 + 1];
      }
    }
  }

  // --- the collection ----------------------------------------------------------------------

  predicate Selected(g: Graph, x: Name, matching: set<Name>) {
    x in g.ifs && g.ifs[x].isAuto && x in matching
  }

  /** Worlds along the whole list: the selected interfaces are changed, the others passed over. */
  ghost predicate AutoChain(g: Graph, order: seq<Name>, matching: set<Name>, up: bool, ok: Outcome, ws: seq<World>) {
    && |ws| == |order| + 1 && (forall i :: 0 <= i < |ws| ==> Fits(g, ws[i]))
    && forall i :: 0 <= i < |order| ==>
         ws[i + 1] == if Selected(g, order[i], matching)
                      then ChangeInterface(g, ws[i], order[i], up, false, ok).w else ws[i]
  }

  ghost predicate AllFine(g: Graph, order: seq<Name>, matching: set<Name>, up: bool, ok: Outcome, ws: seq<World>)
    requires AutoChain(g, order, matching, up, ok, ws)
  {
    forall i :: 0 <= i < |order| && Selected(g, order[i], matching) ==>
      ChangeInterface(g, ws[i], order[i], up, false, ok).ok
  }

  /** The end: the last world, and success if nothing failed. */
  ghost predicate AutoEnd(g: Graph, order: seq<Name>, matching: set<Name>, up: bool, ok: Outcome, ws: seq<World>, s: Step)
    requires AutoChain(g, order, matching, up, ok, ws)
  {
    s.w == ws[|order|] && (s.ok <==> AllFine(g, order, matching, up, ok, ws))
  }

  /** An `-a` command changes every selected interface of the list in turn, whatever became of
      the others, and reports success if none of them failed. */
  lemma {:induction false} AutoInTurn(g: Graph, w: World, order: seq<Name>, matching: set<Name>, up: bool, ok: Outcome)
    returns (ws: seq<World>)
    requires Fits(g, w) && forall x :: x in order ==> x in g.ifs
    ensures AutoChain(g, order, matching, up, ok, ws) && ws[0] == w
    ensures AutoEnd(g, order, matching, up, ok, ws, ChangeAuto(g, w, order, matching, up, ok))
    decreases |order|
  {
    ws := [w];
    if order != [] {
      var s := AutoFirst(g, w, order, matching, up, ok);
      var rest := AutoInTurn(g, s.w, order[1..], matching, up, ok);
      ws := [w] + rest;
      AutoCons(g, w, order, matching, up, ok, s, rest, ChangeAuto(g, s.w, order[1..], matching, up, ok));
    }
  }

  lemma AutoFirst(g: Graph, w: World, order: seq<Name>, matching: set<Name>, up: bool, ok: Outcome) returns (s: Step)
    requires Fits(g, w) && order != [] && forall x :: x in order ==> x in g.ifs
    ensures s == if Selected(g, order[0], matching) then ChangeInterface(g, w, order[0], up, false, ok) else Step(w, true)
    ensures Fits(g, s.w) && forall x :: x in order[1..] ==> x in g.ifs
    ensures var r := ChangeAuto(g, s.w, order[1..], matching, up, ok);
            ChangeAuto(g, w, order, matching, up, ok) == Step(r.w, s.ok && r.ok)
  {
    assert order[0] in order && forall x :: x in order[1..] ==> x in order;
    s := if Selected(g, order[0], matching) then ChangeInterface(g, w, order[0], up, false, ok) else Step(w, true);
  }

  lemma AutoCons(g: Graph, w: World, order: seq<Name>, matching: set<Name>, up: bool, ok: Outcome, s: Step,
                 rest: seq<World>, r: Step)
    requires Fits(g, w) && order != [] && AutoChain(g, order[1..], matching, up, ok, rest) && rest[0] == s.w
    requires AutoEnd(g, order[1..], matching, up, ok, rest, r)
    requires s == if Selected(g, order[0], matching) then ChangeInterface(g, w, order[0], up, false, ok) else Step(w, true)
    ensures AutoChain(g, order, matching, up, ok, [w] + rest)
    ensures AutoEnd(g, order, matching, up, ok, [w] + rest, Step(r.w, s.ok && r.ok))
  {
    FineCons(g, w, order, matching, up, ok, s, rest);
  }

  lemma FineCons(g: Graph, w: World, order: seq<Name>, matching: set<Name>, up: bool, ok: Outcome, s: Step,
                 rest: seq<World>)
    requires Fits(g, w) && order != [] && AutoChain(g, order[1..], matching, up, ok, rest) && rest[0] == s.w
    requires s == if Selected(g, order[0], matching) then ChangeInterface(g, w, order[0], up, false, ok) else Step(w, true)
    ensures AutoChain(g, order, matching, up, ok, [w] + rest)
    ensures AllFine(g, order, matching, up, ok, [w] + rest) <==> s.ok && AllFine(g, order[1..], matching, up, ok, rest)
  {
    var ws, tail := [w] + rest, order[1..];
    assert forall i :: 0 < i < |ws| ==> ws[i] == rest[i - 1];
    assert forall i :: 0 < i < |order| ==> order[i] == tail[i - 1];
    forall i | 0 <= i < |order|
      ensures ws[i + 1] == if Selected(g, order[i], matching)
                           then ChangeInterface(g, ws[i], order[i], up, false, ok).w else ws[i]
    {
      if i > 0 {
        assert rest[i - 1 + 1] == ws[i + 1];
      }
    }
    if AllFine(g, order, matching, up, ok, ws) {
      forall i | 0 <= i < |tail| && Selected(g, tail[i], matching)
        ensures ChangeInterface(g, rest[i], tail[i], up, false, ok).ok
      {
        assert order[i + 1] == tail[i] && ws[i + 1] == rest[i];
      }
    }
  }

  // --- no failure keeps the others from being tried ---------------------------------------

  /** A phase of x, or of what x requires, was run and failed. */
  ghost predicate FailedFor(g: Graph, w: World, v: World, x: Name, ok: Outcome) {
    exists n :: |w.trace| < n <= |v.trace| && !ok(v.trace[..n])
                && (v.trace[n - 1].iface == x || Reaches(g, x, v.trace[n - 1].iface))
  }

  lemma FailedLater(g: Graph, w: World, u: World, v: World, z: World, x: Name, ok: Outcome)
    requires FailedFor(g, u, v, x, ok) && w.trace <= u.trace && v.trace <= z.trace
    ensures FailedFor(g, w, z, x, ok)
  {
    var n :| |u.trace| < n <= |v.trace| && !ok(v.trace[..n])
             && (v.trace[n - 1].iface == x || Reaches(g, x, v.trace[n - 1].iface));
    assert z.trace[..n] == v.trace[..n] && z.trace[n - 1] == v.trace[n - 1];
  }

  lemma {:induction false} BlocksOf(order: seq<Name>, phases: seq<Phase>)
    ensures forall e :: e in Blocks(order, phases) ==> e.iface in order
  {
    if order != [] {
      BlocksOf(order[1..], phases);
    }
  }

  lemma EventOfBlocks(pre: seq<Event>, post: seq<Event>, order: seq<Name>, phases: seq<Phase>, n: nat)
    requires Executed(pre, post, Blocks(order, phases)) && |pre| < n <= |post|
    ensures post[n - 1].iface in order
  {
    BlocksOf(order, phases);
    var blocks := Blocks(order, phases);
    assert post[n - 1] == (pre + blocks)[n - 1] == blocks[n - 1 - |pre|];
    assert blocks[n - 1 - |pre|] in blocks;
  }

  lemma LastFailed(g: Graph, w: World, v: World, x: Name, ok: Outcome)
    requires |w.trace| < |v.trace| && !ok(v.trace)
    requires v.trace[|v.trace| - 1].iface == x || Reaches(g, x, v.trace[|v.trace| - 1].iface)
    ensures FailedFor(g, w, v, x, ok)
  {
    assert v.trace[..|v.trace|] == v.trace;
  }

  /** A failing bring-up has run a phase of the interface, or of one it requires, that failed. */
  lemma BringUpFailedFor(g: Graph, w: World, x: Name, ok: Outcome)
    requires Fits(g, w) && x in g.ifs && NoTemplates(g) && !BringUp(g, w, x, ok).ok
    ensures FailedFor(g, w, BringUp(g, w, x, ok).w, x, ok)
  {
    var v := BringUp(g, w, x, ok).w;
    assert |w.trace| < |v.trace| && !ok(v.trace) by {
      BringUpHonest(g, w, x, ok);
    }
    var order, stacks := BringUpBlocks(g, w, x, ok);
    EventOfBlocks(w.trace, v.trace, order, UP_PHASES, |v.trace|);
    LastFailed(g, w, v, x, ok);
  }

  /** An `-a` process starts from the records, with the same counts and history. */
  lemma AutoStarts(g: Graph, w: World, matching: set<Name>, ok: Outcome) returns (b: World)
    requires Coherent(g, w)
    ensures Resting(g, b) && b.trace == w.trace && b.refcount == w.refcount && forall x :: x in g.order ==> x in g.ifs
    ensures Execute(g, w, IfUpAuto(matching), ok) == ChangeAuto(g, b, g.order, matching, true, ok)
    ensures Execute(g, w, IfDownAuto(matching), ok) == ChangeAuto(g, b, g.order, matching, false, ok)
  {
    BootEffect(g, w);
    b := Boot(g, w);
  }

  lemma UpTurn(g: Graph, w: World, x: Name, ok: Outcome)
    requires Resting(g, w) && x in g.ifs && NoTemplates(g) && !g.ifs[x].hasConfigError
    ensures var s := ChangeInterface(g, w, x, true, false, ok); s.w.refcount[x] > 0 || FailedFor(g, w, s.w, x, ok)
  {
    if w.refcount[x] == 0 {
      BringUpCounts(g, w, x, ok);
      if !BringUp(g, w, x, ok).ok {
        BringUpFailedFor(g, w, x, ok);
      }
    }
  }

  /** From one turn on: no count falls, and the history is only continued. */
  lemma {:induction false} UpKeeps(g: Graph, w: World, order: seq<Name>, matching: set<Name>, ok: Outcome)
    requires Resting(g, w) && forall x :: x in order ==> x in g.ifs
    ensures var v := ChangeAuto(g, w, order, matching, true, ok).w; Rises(g, w, v) && w.trace <= v.trace
    decreases |order|
  {
    if order != [] {
      var x := order[0];
      if !g.ifs[x].isAuto || x !in matching {
        UpKeeps(g, w, order[1..], matching, ok);
      } else {
        var u := ChangeInterface(g, w, x, true, false, ok).w;
        BringUpHonest(g, w, x, ok);
        ChangeHonest(g, w, x, true, false, ok);
        ChangeResting(g, w, x, true, false, ok);
        UpKeeps(g, u, order[1..], matching, ok);
      }
    }
  }

  lemma {:induction false} UpTries(g: Graph, w: World, order: seq<Name>, matching: set<Name>, ok: Outcome, x: Name)
    requires Resting(g, w) && NoTemplates(g) && (forall y :: y in order ==> y in g.ifs)
    requires x in order && g.ifs[x].isAuto && x in matching && !g.ifs[x].hasConfigError
    ensures var v := ChangeAuto(g, w, order, matching, true, ok).w; v.refcount[x] > 0 || FailedFor(g, w, v, x, ok)
    decreases |order|
  {
    var y := order[0];
    if !g.ifs[y].isAuto || y !in matching {
      UpTries(g, w, order[1..], matching, ok, x);
    } else {
      var u := ChangeInterface(g, w, y, true, false, ok).w;
      ChangeHonest(g, w, y, true, false, ok);
      ChangeResting(g, w, y, true, false, ok);
      UpKeeps(g, u, order[1..], matching, ok);
      var v := ChangeAuto(g, u, order[1..], matching, true, ok).w;
      if y == x {
        UpTurn(g, w, x, ok);
        if u.refcount[x] == 0 {
          FailedLater(g, w, w, u, v, x, ok);
        }
      } else {
        UpTries(g, u, order[1..], matching, ok, x);
        if v.refcount[x] == 0 {
          FailedLater(g, w, u, v, v, x, ok);
        }
      }
    }
  }

  /** `ifup -a` under any failures: every matching auto interface without configuration error is
      up afterwards, or a phase of its own, or of something it requires, was run and failed. */
  lemma IfUpAutoTries(g: Graph, w: World, matching: set<Name>, ok: Outcome, x: Name)
    requires Coherent(g, w) && NoTemplates(g)
    requires x in g.ifs && g.ifs[x].isAuto && x in matching && !g.ifs[x].hasConfigError
    ensures var v := Execute(g, w, IfUpAuto(matching), ok).w; v.refcount[x] > 0 || FailedFor(g, w, v, x, ok)
  {
    var b := AutoStarts(g, w, matching, ok);
    assert x in g.order;
    UpTries(g, b, g.order, matching, ok, x);
    var v := Execute(g, w, IfUpAuto(matching), ok).w;
    if v.refcount[x] == 0 {
      FailedLater(g, w, b, v, v, x, ok);
    }
  }

  /** On the way down: no count rises, and the history is only continued. */
  lemma {:induction false} DownKeeps(g: Graph, w: World, order: seq<Name>, matching: set<Name>, ok: Outcome)
    requires Resting(g, w) && forall x :: x in order ==> x in g.ifs
    ensures var v := ChangeAuto(g, w, order, matching, false, ok).w; Rises(g, v, w) && w.trace <= v.trace
    decreases |order|
  {
    if order != [] {
      var x := order[0];
      if !g.ifs[x].isAuto || x !in matching {
        DownKeeps(g, w, order[1..], matching, ok);
      } else {
        var u := ChangeInterface(g, w, x, false, false, ok).w;
        TakeDownCoherent(g, w, x, ok);
        ChangeHonest(g, w, x, false, false, ok);
        ChangeResting(g, w, x, false, false, ok);
        DownKeeps(g, u, order[1..], matching, ok);
      }
    }
  }

  /** Its teardown was begun. */
  ghost predicate Tried(w: World, v: World, x: Name) {
    exists n :: |w.trace| <= n < |v.trace| && v.trace[n] == Event(x, PreDown)
  }

  lemma {:induction false} DownTries(g: Graph, w: World, order: seq<Name>, matching: set<Name>, ok: Outcome, x: Name)
    requires Resting(g, w) && forall y :: y in order ==> y in g.ifs
    requires x in order && g.ifs[x].isAuto && x in matching && !g.ifs[x].hasConfigError && !g.ifs[x].isTemplate
    ensures var v := ChangeAuto(g, w, order, matching, false, ok).w; v.refcount[x] == 0 || Tried(w, v, x)
    decreases |order|
  {
    var y := order[0];
    if !g.ifs[y].isAuto || y !in matching {
      DownTries(g, w, order[1..], matching, ok, x);
    } else {
      var u := ChangeInterface(g, w, y, false, false, ok).w;
      ChangeHonest(g, w, y, false, false, ok);
      ChangeResting(g, w, y, false, false, ok);
      DownKeeps(g, u, order[1..], matching, ok);
      var v := ChangeAuto(g, u, order[1..], matching, false, ok).w;
      if y != x {
        DownTries(g, u, order[1..], matching, ok, x);
      } else if w.refcount[x] > 0 {
        DownFirst(g, w, x, ok);
        assert v.trace[|w.trace|] == u.trace[|w.trace|];
      }
    }
  }

  /** `ifdown -a` under any failures: every matching auto interface without configuration error
      is not counted afterwards, or its teardown was begun. */
  lemma IfDownAutoTries(g: Graph, w: World, matching: set<Name>, ok: Outcome, x: Name)
    requires Coherent(g, w)
    requires x in g.ifs && g.ifs[x].isAuto && x in matching && !g.ifs[x].hasConfigError && !g.ifs[x].isTemplate
    ensures var v := Execute(g, w, IfDownAuto(matching), ok).w; v.refcount[x] == 0 || Tried(w, v, x)
  {
    var b := AutoStarts(g, w, matching, ok);
    assert x in g.order;
    DownTries(g, b, g.order, matching, ok, x);
  }
}
