/** The lifecycle walk as functions on worlds: bring an interface up after what it requires,
    take it down before what it requires. Every branch, and every early exit, is here. */
module Lifecycle {
  import opened Graphs
  import opened Worlds

  const UP_PHASES := [Create, PreUp, Up, PostUp]
  const DOWN_PHASES := [PreDown, Down, PostDown, Destroy]

  /** What every run leaves alone, whatever happens: the pending and the explicit flags. */
  ghost predicate Frame(g: Graph, w: World, v: World) {
    Fits(g, v) && v.isPending == w.isPending && v.isExplicit == w.isExplicit
  }

  /** Run the phases in order, stopping at the first that fails. */
  function RunPhases(w: World, x: Name, phases: seq<Phase>, ok: Outcome): (s: Step)
    ensures s.w == w.(trace := s.w.trace)
    decreases |phases|
  {
    if phases == [] then Step(w, true)
    else
      var v := w.(trace := w.trace + [Event(x, phases[0])]);
      if ok(v.trace) then RunPhases(v, x, phases[1..], ok) else Step(v, false)
  }

  function Block(x: Name, phases: seq<Phase>): seq<Event> {
    seq(|phases|, i requires 0 <= i < |phases| => Event(x, phases[i]))
  }

  /** Executed phases are a prefix of the list, the whole list exactly on success. */
  lemma {:induction false} RunPhasesTrace(w: World, x: Name, phases: seq<Phase>, ok: Outcome) returns (k: nat)
    ensures k <= |phases|
    ensures var s := RunPhases(w, x, phases, ok);
            s.w.trace == w.trace + Block(x, phases[..k]) && (if s.ok then k == |phases| else k > 0)
    decreases |phases|
  {
    if phases == [] {
      k := 0;
      assert w.trace + Block(x, phases[..0]) == w.trace;
    } else {
      var v := w.(trace := w.trace + [Event(x, phases[0])]);
      if ok(v.trace) {
        var j := RunPhasesTrace(v, x, phases[1..], ok);
        k := j + 1;
        assert Block(x, phases[..k]) == [Event(x, phases[0])] + Block(x, phases[1..][..j]);
        assert v.trace + Block(x, phases[1..][..j]) == w.trace + Block(x, phases[..k]);
      } else {
        k := 1;
        assert Block(x, phases[..1]) == [Event(x, phases[0])];
      }
    }
  }

  /** Set and clear the pending flag that breaks cycles. */
  function Enter(w: World, x: Name): World {
    w.(isPending := w.isPending + {x})
  }

  function Leave(w: World, x: Name): World {
    w.(isPending := w.isPending - {x})
  }

  function Idle(g: Graph, w: World): nat {
    |g.ifs.Keys - w.isPending|
  }

  lemma EnterShrinks(g: Graph, w: World, x: Name)
    requires Fits(g, w) && x in g.ifs && x !in w.isPending
    ensures Fits(g, Enter(w, x)) && Idle(g, Enter(w, x)) < Idle(g, w)
  {
    assert g.ifs.Keys - (w.isPending + {x}) == g.ifs.Keys - w.isPending - {x};
  }

  lemma LeaveRestores(g: Graph, w: World, x: Name, v: World)
    requires Fits(g, w) && x !in w.isPending && Frame(g, Enter(w, x), v)
    ensures Frame(g, w, Leave(v, x))
  {
  }

  // --- bring-up --------------------------------------------------------------------

  /** The own reference of x, taken when its phases are done. */
  function Complete(w: World, x: Name): World
    requires x in w.refcount
  {
    Ref(w, x).(configured := w.configured + {x})
  }

  /** The phases of x itself, then its own reference. */
  function FinishUp(g: Graph, w: World, x: Name, ok: Outcome): (s: Step)
    requires Fits(g, w) && x in g.ifs
    ensures Frame(g, w, s.w)
  {
    var p := RunPhases(w, x, UP_PHASES, ok);
    if !p.ok then p else Step(Complete(p.w, x), true)
  }

  /** On every graph, cyclic or not, the walk ends, and whatever happens it leaves the
      pending flags and the explicit flags as they were. */
  function BringUp(g: Graph, w: World, x: Name, ok: Outcome): (s: Step)
    requires Fits(g, w) && x in g.ifs
    ensures Frame(g, w, s.w)
    decreases Idle(g, w), 1, 0
  {
    if x in w.isPending then Step(w, true)
    else if g.ifs[x].isTemplate then Step(w, false)
    else
      var d := RaiseDependents(g, w, x, ok);
      if !d.ok then d else FinishUp(g, d.w, x, ok)
  }

  function RaiseDependents(g: Graph, w: World, x: Name, ok: Outcome): (s: Step)
    requires Fits(g, w) && x in g.ifs && x !in w.isPending
    ensures Frame(g, w, s.w)
    decreases Idle(g, w), 0, 0
  {
    EnterShrinks(g, w, x);
    var d := RaiseRequired(g, Enter(w, x), g.ifs[x].required, ok);
    LeaveRestores(g, w, x, d.w);
    Step(Leave(d.w, x), d.ok)
  }

  /** Take a reference on each required interface, bringing up those that had none. */
  function RaiseRequired(g: Graph, w: World, tokens: seq<Name>, ok: Outcome): (s: Step)
    requires Fits(g, w) && forall c :: c in tokens ==> c in g.ifs
    ensures Frame(g, w, s.w)
    decreases Idle(g, w), 3, |tokens|
  {
    if tokens == [] then Step(w, true)
    else if g.ifs[tokens[0]].hasConfigError then RaiseRequired(g, w, tokens[1..], ok)
    else
      var s := Acquire(g, w, tokens[0], ok);
      if !s.ok then s else RaiseRequired(g, s.w, tokens[1..], ok)
  }

  function Acquire(g: Graph, w: World, c: Name, ok: Outcome): (s: Step)
    requires Fits(g, w) && c in g.ifs
    ensures Frame(g, w, s.w)
    decreases Idle(g, w), 2, 0
  {
    if w.refcount[c] > 0 then Step(Ref(w, c), true) else BringUp(g, Ref(w, c), c, ok)
  }

  // --- teardown --------------------------------------------------------------------

  /** The own reference of x, given back when everything it requires has been released. */
  function FinishDown(g: Graph, w: World, x: Name): (s: Step)
    requires Fits(g, w) && x in g.ifs
    ensures Frame(g, w, s.w)
  {
    Step(Unref(w, x).(configured := w.configured - {x}), true)
  }

  function TakeDown(g: Graph, w: World, x: Name, ok: Outcome): (s: Step)
    requires Fits(g, w) && x in g.ifs
    ensures Frame(g, w, s.w)
    decreases Idle(g, w), 1, 0
  {
    if x in w.isPending then Step(w, true)
    else if g.ifs[x].isTemplate then Step(w, false)
    else
      var p := RunPhases(w, x, DOWN_PHASES, ok);
      if !p.ok then p
      else
        var d := ReleaseDependents(g, p.w, x, ok);
        if !d.ok then d else FinishDown(g, d.w, x)
  }

  function ReleaseDependents(g: Graph, w: World, x: Name, ok: Outcome): (s: Step)
    requires Fits(g, w) && x in g.ifs && x !in w.isPending
    ensures Frame(g, w, s.w)
    decreases Idle(g, w), 0, 0
  {
    EnterShrinks(g, w, x);
    var d := ReleaseRequired(g, Enter(w, x), g.ifs[x].required, ok);
    LeaveRestores(g, w, x, d.w);
    Step(Leave(d.w, x), d.ok)
  }

  /** Release a reference on each required interface, taking down those that nobody else
      needs and nobody asked for. */
  function ReleaseRequired(g: Graph, w: World, tokens: seq<Name>, ok: Outcome): (s: Step)
    requires Fits(g, w) && forall c :: c in tokens ==> c in g.ifs
    ensures Frame(g, w, s.w)
    decreases Idle(g, w), 3, |tokens|
  {
    if tokens == [] then Step(w, true)
    else if g.ifs[tokens[0]].hasConfigError then ReleaseRequired(g, w, tokens[1..], ok)
    else
      var s := Release(g, w, tokens[0], ok);
      if !s.ok then s else ReleaseRequired(g, s.w, tokens[1..], ok)
  }

  function Release(g: Graph, w: World, c: Name, ok: Outcome): (s: Step)
    requires Fits(g, w) && c in g.ifs
    ensures Frame(g, w, s.w)
    decreases Idle(g, w), 2, 0
  {
    var v := Unref(w, c);
    if v.refcount[c] > 1 || c in v.isExplicit then Step(v, true) else TakeDown(g, v, c, ok)
  }

  // --- both directions ---------------------------------------------------------------

  /** One call of the lifecycle. */
  function Run(g: Graph, w: World, x: Name, up: bool, ok: Outcome): (s: Step)
    requires Fits(g, w) && x in g.ifs
    ensures Frame(g, w, s.w)
    decreases Idle(g, w), 1, 0
  {
    if up then BringUp(g, w, x, ok) else TakeDown(g, w, x, ok)
  }

  /** The loop over a `requires` value. */
  function WalkRequired(g: Graph, w: World, tokens: seq<Name>, up: bool, ok: Outcome): (s: Step)
    requires Fits(g, w) && forall c :: c in tokens ==> c in g.ifs
    ensures Frame(g, w, s.w)
  {
    if up then RaiseRequired(g, w, tokens, ok) else ReleaseRequired(g, w, tokens, ok)
  }

  function Dependents(g: Graph, w: World, x: Name, up: bool, ok: Outcome): (s: Step)
    requires Fits(g, w) && x in g.ifs && x !in w.isPending
    ensures Frame(g, w, s.w)
  {
    if up then RaiseDependents(g, w, x, ok) else ReleaseDependents(g, w, x, ok)
  }
}
