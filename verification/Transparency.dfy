/** For which states ifdown is transparent to persistence, whatever is named and whatever fails:
    exactly those in which no configured interface requires one that was asked for by name. */
module Transparency {
  import opened Graphs
  import opened Worlds
  import opened Lifecycle
  import opened Coherence
  import opened Commands
  import opened Settling
  import opened Collector
  import opened Draining
  import opened Persistence
  import opened Success
  import opened Safety

  // --- what a teardown reads ---------------------------------------------------------------

  ghost predicate SameFlags(s: set<Name>, a: set<Name>, b: set<Name>) {
    forall x :: x in s ==> (x in a <==> x in b)
  }

  lemma UnrefSame(w: World, c: Name, s: set<Name>, flags: set<Name>)
    requires c in w.refcount && c in s && SameFlags(s, w.isExplicit, flags)
    ensures Unref(Flagged(w, flags), c) == Flagged(Unref(w, c), flags)
  {
  }

  /** From every world, a teardown reads only the flags of the interface and of those that it
      requires. */
  lemma {:induction false} TakeDownReads(g: Graph, w: World, x: Name, ok: Outcome, s: set<Name>, flags: set<Name>)
    requires Fits(g, w) && ClosedSet(g, s) && x in s && SameFlags(s, w.isExplicit, flags)
    ensures var r := TakeDown(g, w, x, ok);
            TakeDown(g, Flagged(w, flags), x, ok) == Step(Flagged(r.w, flags), r.ok)
    decreases Idle(g, w), 1, 0
  {
    if x !in w.isPending && !g.ifs[x].isTemplate {
      RunPhasesFlags(w, x, DOWN_PHASES, ok, flags);
      TakeDownUnfolds(g, w, x, ok);
      TakeDownUnfolds(g, Flagged(w, flags), x, ok);
      var p := RunPhases(w, x, DOWN_PHASES, ok);
      if p.ok {
        EnterShrinks(g, p.w, x);
        assert Enter(Flagged(p.w, flags), x) == Flagged(Enter(p.w, x), flags);
        NeededInside(g, x, s);
        ReleaseRequiredReads(g, Enter(p.w, x), g.ifs[x].required, ok, s, flags);
        var r := ReleaseRequired(g, Enter(p.w, x), g.ifs[x].required, ok);
        UnrefSame(Leave(r.w, x), x, s, flags);
      }
    }
  }

  lemma {:induction false} ReleaseRequiredReads(g: Graph, w: World, tokens: seq<Name>, ok: Outcome, s: set<Name>,
                                                flags: set<Name>)
    requires Fits(g, w) && ClosedSet(g, s) && SameFlags(s, w.isExplicit, flags)
    requires forall c :: c in tokens ==> c in g.ifs
    requires forall c :: c in Effective(g, tokens) ==> c in s
    ensures var r := ReleaseRequired(g, w, tokens, ok);
            ReleaseRequired(g, Flagged(w, flags), tokens, ok) == Step(Flagged(r.w, flags), r.ok)
    decreases Idle(g, w), 3, |tokens|
  {
    if tokens != [] {
      var c := tokens[0];
      if g.ifs[c].hasConfigError {
        ReleaseRequiredReads(g, w, tokens[1..], ok, s, flags);
      } else {
        assert c in Effective(g, tokens);
        ReleaseReads(g, w, c, ok, s, flags);
        var r := Release(g, w, c, ok);
        if r.ok {
          ReleaseRequiredReads(g, r.w, tokens[1..], ok, s, flags);
        }
      }
    }
  }

  lemma {:induction false} ReleaseReads(g: Graph, w: World, c: Name, ok: Outcome, s: set<Name>, flags: set<Name>)
    requires Fits(g, w) && ClosedSet(g, s) && c in s && SameFlags(s, w.isExplicit, flags)
    ensures var r := Release(g, w, c, ok);
            Release(g, Flagged(w, flags), c, ok) == Step(Flagged(r.w, flags), r.ok)
    decreases Idle(g, w), 2, 0
  {
    UnrefSame(w, c, s, flags);
    var v := Unref(w, c);
    if v.refcount[c] > 1 || c in v.isExplicit {
      assert Release(g, w, c, ok) == Step(v, true);
      assert Release(g, Flagged(w, flags), c, ok) == Step(Flagged(v, flags), true);
    } else {
      TakeDownReads(g, v, c, ok, s, flags);
      assert Release(g, w, c, ok) == TakeDown(g, v, c, ok);
      assert Release(g, Flagged(w, flags), c, ok) == TakeDown(g, Flagged(v, flags), c, ok);
    }
  }

  // --- enough ------------------------------------------------------------------------------

  /** Whoever a member of s requires has the flag of a fresh parse. */
  ghost predicate RequiredFresh(g: Graph, s: set<Name>, flags: set<Name>) {
    forall p, c :: p in s && Edge(g, p, c) && c in g.ifs ==> (c in flags <==> g.ifs[c].isAuto)
  }

  ghost predicate CountedInside(g: Graph, w: World, s: set<Name>)
    requires Fits(g, w)
  {
    forall y :: y in g.ifs && w.refcount[y] > 0 ==> y in s
  }

  lemma BootAgrees(g: Graph, w: World, x: Name, s: set<Name>, flags: set<Name>)
    requires Resting(g, w) && ClosedSet(g, s) && RequiredFresh(g, s, w.isExplicit) && x in s
    requires Agree(g, w, flags) && Resting(g, Flagged(w, flags)) && w.refcount[x] > 0
    ensures Boot(g, Flagged(w, flags)) == Flagged(w, Boot(g, Flagged(w, flags)).isExplicit)
    ensures SameFlags(Below(g, x), w.isExplicit, Boot(g, Flagged(w, flags)).isExplicit)
  {
    BootEffect(g, Flagged(w, flags));
    forall y | y in Below(g, x)
      ensures y in w.isExplicit <==> y in Boot(g, Flagged(w, flags)).isExplicit
    {
      if y != x {
        var q := ReachesLast(g, x, y);
        if q != x {
          ClosedUnderReach(g, s, x, q);
        }
      }
    }
  }

  lemma CountedStays(g: Graph, w: World, x: Name, ok: Outcome, s: set<Name>)
    requires Resting(g, w) && x in g.ifs && CountedInside(g, w, s)
    ensures var v := ChangeInterface(g, w, x, false, true, ok).w;
            Resting(g, v) && CountedInside(g, v, s) && v.isExplicit == w.isExplicit
  {
    TakeDownCoherent(g, w, x, ok);
  }

  lemma ChangeReads(g: Graph, w: World, x: Name, ok: Outcome, flags: set<Name>)
    requires Fits(g, w) && x in g.ifs && SameFlags(Below(g, x), w.isExplicit, flags)
    ensures var r := ChangeInterface(g, w, x, false, true, ok);
            ChangeInterface(g, Flagged(w, flags), x, false, true, ok) == Step(Flagged(r.w, flags), r.ok)
  {
    BelowClosed(g, x);
    TakeDownReads(g, w, x, ok, Below(g, x), flags);
  }

  /** Then, from every coherent world, on every graph, for every outcome, the two ways agree. */
  lemma {:induction false} FreshTransparent(g: Graph, w: World, args: seq<Name>, ok: Outcome, s: set<Name>,
                                            flags: set<Name>)
    requires Resting(g, w) && ClosedSet(g, s) && CountedInside(g, w, s) && RequiredFresh(g, s, w.isExplicit)
    requires Agree(g, w, flags) && Resting(g, Flagged(w, flags))
    ensures Agreed(ChangeArgs(g, w, args, false, ok), ChangeArgsReloading(g, Flagged(w, flags), args, false, ok))
    decreases |args|
  {
    if args != [] && args[0] in g.ifs {
      var x, u := args[0], Flagged(w, flags);
      BootEffect(g, u);
      var parsed := Boot(g, u).isExplicit;
      assert Boot(g, u) == Flagged(w, parsed);
      var r := ChangeInterface(g, w, x, false, true, ok);
      if w.refcount[x] > 0 {
        BootAgrees(g, w, x, s, flags);
        ChangeReads(g, w, x, ok, parsed);
      }
      ChangeResting(g, Boot(g, u), x, false, true, ok);
      CountedStays(g, w, x, ok, s);
      if r.ok {
        assert Agree(g, r.w, parsed);
        FreshTransparent(g, r.w, args[1..], ok, s, parsed);
      }
    }
  }

  // --- and necessary -----------------------------------------------------------------------

  /** How often e is in the history. */
  ghost function Times(w: World, e: Event): nat {
    multiset(w.trace)[e]
  }

  lemma {:induction false} PhasesTimes(w: World, x: Name, phases: seq<Phase>, ok: Outcome, e: Event)
    ensures var s := RunPhases(w, x, phases, ok);
            && Times(s.w, e) >= Times(w, e) && (e.iface != x ==> Times(s.w, e) == Times(w, e))
            && (phases != [] && e == Event(x, phases[0]) ==> Times(s.w, e) > Times(w, e))
    decreases |phases|
  {
    if phases != [] {
      var v := w.(trace := w.trace + [Event(x, phases[0])]);
      assert multiset(v.trace) == multiset(w.trace) + multiset{Event(x, phases[0])};
      PhasesTimes(v, x, phases[1..], ok, e);
    }
  }

  /** The history only grows; and a teardown called for another interface runs no phase of one
      whose explicit flag is set. */
  ghost predicate Quiet(w: World, v: World, e: Event) {
    Times(v, e) >= Times(w, e) && (e.iface in w.isExplicit ==> Times(v, e) == Times(w, e))
  }

  lemma {:induction false} TakeDownQuiet(g: Graph, w: World, x: Name, ok: Outcome, e: Event)
    requires Fits(g, w) && x in g.ifs
    ensures var s := TakeDown(g, w, x, ok); Times(s.w, e) >= Times(w, e) && (x != e.iface ==> Quiet(w, s.w, e))
    decreases Idle(g, w), 1, 0
  {
    if x !in w.isPending && !g.ifs[x].isTemplate {
      DownHistory(g, w, x, ok);
      PhasesTimes(w, x, DOWN_PHASES, ok, e);
      var p := RunPhases(w, x, DOWN_PHASES, ok);
      if p.ok {
        EnterShrinks(g, p.w, x);
        ReleaseRequiredQuiet(g, Enter(p.w, x), g.ifs[x].required, ok, e);
      }
    }
  }

  lemma {:induction false} ReleaseRequiredQuiet(g: Graph, w: World, tokens: seq<Name>, ok: Outcome, e: Event)
    requires Fits(g, w) && forall c :: c in tokens ==> c in g.ifs
    ensures Quiet(w, ReleaseRequired(g, w, tokens, ok).w, e)
    decreases Idle(g, w), 3, |tokens|
  {
    if tokens != [] {
      if g.ifs[tokens[0]].hasConfigError {
        ReleaseRequiredQuiet(g, w, tokens[1..], ok, e);
      } else {
        ReleaseQuiet(g, w, tokens[0], ok, e);
        var s := Release(g, w, tokens[0], ok);
        if s.ok {
          ReleaseRequiredQuiet(g, s.w, tokens[1..], ok, e);
        }
      }
    }
  }

  lemma {:induction false} ReleaseQuiet(g: Graph, w: World, c: Name, ok: Outcome, e: Event)
    requires Fits(g, w) && c in g.ifs
    ensures Quiet(w, Release(g, w, c, ok).w, e)
    decreases Idle(g, w), 2, 0
  {
    var v := Unref(w, c);
    assert v.trace == w.trace && v.isExplicit == w.isExplicit;
    if v.refcount[c] > 1 || c in v.isExplicit {
      assert Release(g, w, c, ok) == Step(v, true);
    } else {
      assert Release(g, w, c, ok) == TakeDown(g, v, c, ok);
      TakeDownQuiet(g, v, c, ok, e);
    }
  }

  /** A requirement that is not counted and whose flag is not set is taken down once more. */
  lemma {:induction false} ReleaseRequiredRuns(g: Graph, w: World, tokens: seq<Name>, ok: Outcome, c: Name)
    requires Coherent(g, w) && (forall d :: d in tokens ==> d in g.ifs) && c in Effective(g, tokens)
    requires w.refcount[c] == 0 && c !in w.isExplicit && c !in w.isPending
    ensures var s := ReleaseRequired(g, w, tokens, ok);
            s.ok ==> Times(s.w, Event(c, PreDown)) > Times(w, Event(c, PreDown))
    decreases |tokens|
  {
    var d, e := tokens[0], Event(c, PreDown);
    if g.ifs[d].hasConfigError {
      ReleaseRequiredRuns(g, w, tokens[1..], ok, c);
    } else {
      var s := Release(g, w, d, ok);
      ReleaseQuiet(g, w, d, ok, e);
      ReleaseCoherent(g, w, d, ok);
      if s.ok && d == c {
        ReleaseRuns(g, w, c, ok);
        ReleaseRequiredQuiet(g, s.w, tokens[1..], ok, e);
      } else if s.ok {
        ReleaseRequiredRuns(g, s.w, tokens[1..], ok, c);
      }
    }
  }

  lemma ReleaseRuns(g: Graph, w: World, c: Name, ok: Outcome)
    requires Fits(g, w) && c in g.ifs && w.refcount[c] == 0 && c !in w.isExplicit && c !in w.isPending
    ensures var s := Release(g, w, c, ok);
            s.ok ==> Times(s.w, Event(c, PreDown)) > Times(w, Event(c, PreDown))
  {
    assert Release(g, w, c, ok) == TakeDown(g, w, c, ok);
    if !g.ifs[c].isTemplate {
      DownHistory(g, w, c, ok);
      PhasesTimes(w, c, DOWN_PHASES, ok, Event(c, PreDown));
      var p := RunPhases(w, c, DOWN_PHASES, ok);
      if p.ok {
        EnterShrinks(g, p.w, c);
        ReleaseRequiredQuiet(g, Enter(p.w, c), g.ifs[c].required, ok, Event(c, PreDown));
      }
    }
  }

  lemma TakeDownRuns(g: Graph, w: World, p: Name, ok: Outcome, c: Name)
    requires Coherent(g, w) && Edge(g, p, c) && p != c && p !in w.isPending && c in g.ifs
    requires w.refcount[c] == 0 && c !in w.isExplicit && c !in w.isPending
    ensures var s := TakeDown(g, w, p, ok);
            s.ok ==> Times(s.w, Event(c, PreDown)) > Times(w, Event(c, PreDown))
  {
    if !g.ifs[p].isTemplate {
      DownHistory(g, w, p, ok);
      PhasesTimes(w, p, DOWN_PHASES, ok, Event(c, PreDown));
      var r := RunPhases(w, p, DOWN_PHASES, ok);
      if r.ok {
        EnterShrinks(g, r.w, p);
        ReleaseRequiredRuns(g, Enter(r.w, p), g.ifs[p].required, ok, c);
      }
    }
  }

  // --- naming c until it is not counted, then p -----------------------------------------------

  function Repeat(c: Name, k: nat): seq<Name> {
    seq(k, i => c)
  }

  /** p is configured, requires c, and nothing that either requires is a template. */
  ghost predicate Above(g: Graph, w: World, p: Name, c: Name, s: set<Name>) {
    && Resting(g, w) && Sound(g, s) && p in s && c in s && Edge(g, p, c) && !Reaches(g, c, p) && !Reaches(g, c, c)
    && !g.ifs[c].hasConfigError && !g.ifs[p].hasConfigError && w.refcount[p] > 0
  }

  lemma NamedDown(g: Graph, w: World, x: Name)
    requires Fits(g, w) && x in g.ifs && w.refcount[x] > 0 && !g.ifs[x].hasConfigError && !g.ifs[x].isTemplate
    ensures ChangeInterface(g, w, x, false, true, Always()) == TakeDown(g, w, x, Always())
  {
  }

  lemma OnceLess(g: Graph, w: World, p: Name, c: Name, s: set<Name>)
    requires Above(g, w, p, c, s) && w.refcount[c] > 0
    ensures var r := ChangeInterface(g, w, c, false, true, Always());
            r.ok && Above(g, r.w, p, c, s) && r.w.refcount[c] == w.refcount[c] - 1 && r.w.isExplicit == w.isExplicit
  {
    NamedDown(g, w, c);
    TakeDownSucceedsIn(g, w, c, s);
    ReachesEdge(g, p, c);
    TakeDownCosts(g, w, c, Always());
    TakeDownUntouched(g, w, c, Always(), p);
    ChangeResting(g, w, c, false, true, Always());
  }

  lemma {:induction false} ArgsAppend(g: Graph, w: World, a: seq<Name>, b: seq<Name>, ok: Outcome)
    requires Fits(g, w)
    ensures var s := ChangeArgs(g, w, a, false, ok);
            s.ok ==> ChangeArgs(g, w, a + b, false, ok) == ChangeArgs(g, s.w, b, false, ok)
    decreases |a|
  {
    if a == [] {
      assert a + b == b;
    } else if a[0] in g.ifs {
      assert (a + b)[0] == a[0] && (a + b)[1..] == a[1..] + b;
      ArgsAppend(g, ChangeInterface(g, w, a[0], false, true, ok).w, a[1..], b, ok);
    }
  }

  lemma {:induction false} ReloadingAppend(g: Graph, w: World, a: seq<Name>, b: seq<Name>, ok: Outcome)
    requires Resting(g, w)
    ensures var s := ChangeArgsReloading(g, w, a, false, ok);
            s.ok ==> ChangeArgsReloading(g, w, a + b, false, ok) == ChangeArgsReloading(g, s.w, b, false, ok)
    decreases |a|
  {
    if a == [] {
      assert a + b == b;
    } else if a[0] in g.ifs {
      assert (a + b)[0] == a[0] && (a + b)[1..] == a[1..] + b;
      BootEffect(g, w);
      ChangeResting(g, Boot(g, w), a[0], false, true, ok);
      ReloadingAppend(g, ChangeInterface(g, Boot(g, w), a[0], false, true, ok).w, a[1..], b, ok);
    }
  }

  /** While the flag of c is set no phase of c runs when p is taken down. */
  lemma LastQuiet(g: Graph, w: World, p: Name, c: Name, s: set<Name>)
    requires Above(g, w, p, c, s) && c in w.isExplicit
    ensures Times(ChangeArgs(g, w, [p], false, Always()).w, Event(c, PreDown)) == Times(w, Event(c, PreDown))
  {
    assert [p][1..] == [];
    NamedDown(g, w, p);
    ReachesEdge(g, p, c);
    TakeDownQuiet(g, w, p, Always(), Event(c, PreDown));
  }

  /** In one process all flags are kept, also when c is not counted any more. */
  lemma {:induction false} FlagsKept(g: Graph, w: World, args: seq<Name>, ok: Outcome)
    requires Fits(g, w)
    ensures ChangeArgs(g, w, args, false, ok).w.isExplicit == w.isExplicit
    decreases |args|
  {
    if args != [] && args[0] in g.ifs {
      FlagsKept(g, ChangeInterface(g, w, args[0], false, true, ok).w, args[1..], ok);
    }
  }

  lemma {:induction false} OneProcess(g: Graph, w: World, p: Name, c: Name, args: seq<Name>, s: set<Name>)
    requires Above(g, w, p, c, s) && w.refcount[c] == |args| && forall x :: x in args ==> x == c
    ensures var v := ChangeArgs(g, w, args, false, Always());
            v.ok && Above(g, v.w, p, c, s) && v.w.refcount[c] == 0
    decreases |args|
  {
    if args != [] {
      assert args[0] in args && forall x :: x in args[1..] ==> x in args;
      OnceLess(g, w, p, c, s);
      OneProcess(g, ChangeInterface(g, w, c, false, true, Always()).w, p, c, args[1..], s);
    }
  }

  lemma BootAbove(g: Graph, w: World, p: Name, c: Name, s: set<Name>)
    requires Above(g, w, p, c, s)
    ensures Above(g, Boot(g, w), p, c, s) && Boot(g, w).refcount == w.refcount
  {
    BootEffect(g, w);
  }

  /** The same with a process each. */
  lemma {:induction false} ManyProcesses(g: Graph, w: World, p: Name, c: Name, args: seq<Name>, s: set<Name>)
    requires Above(g, w, p, c, s) && w.refcount[c] == |args| && forall x :: x in args ==> x == c
    ensures var v := ChangeArgsReloading(g, w, args, false, Always());
            v.ok && Above(g, v.w, p, c, s) && v.w.refcount[c] == 0
    decreases |args|
  {
    if args != [] {
      assert args[0] in args && forall x :: x in args[1..] ==> x in args;
      BootAbove(g, w, p, c, s);
      var r := ChangeInterface(g, Boot(g, w), c, false, true, Always());
      assert r.ok && Above(g, r.w, p, c, s) && r.w.refcount[c] == w.refcount[c] - 1 by {
        OnceLess(g, Boot(g, w), p, c, s);
      }
      ManyProcesses(g, r.w, p, c, args[1..], s);
    }
  }

  /** But a process of its own has lost that flag, and takes c down once more under p. */
  lemma LastRuns(g: Graph, w: World, p: Name, c: Name, s: set<Name>)
    requires Above(g, w, p, c, s) && w.refcount[c] == 0 && !g.ifs[c].isAuto
    ensures Times(ChangeArgsReloading(g, w, [p], false, Always()).w, Event(c, PreDown)) > Times(w, Event(c, PreDown))
  {
    BootEffect(g, w);
    var b := Boot(g, w);
    assert [p][1..] == [];
    ChangeResting(g, b, p, false, true, Always());
    NamedDown(g, b, p);
    TakeDownSucceedsIn(g, b, p, s);
    ReachesEdge(g, p, c);
    TakeDownRuns(g, b, p, Always(), c);
  }

  // --- exactly -----------------------------------------------------------------------------

  /** No configured interface requires one that was asked for by name. */
  ghost predicate NoneShared(g: Graph, w: World) {
    forall p, c :: p in w.configured && Edge(g, p, c) && c in w.isExplicit && c in g.ifs ==> g.ifs[c].isAuto
  }

  ghost predicate AlwaysAgreed(g: Graph, w: World)
    requires Resting(g, w)
  {
    forall args, ok: Outcome ::
      Agreed(ChangeArgs(g, w, args, false, ok), ChangeArgsReloading(g, w, args, false, ok))
  }

  lemma SharedDiffers(g: Graph, w: World, p: Name, c: Name)
    requires Settled(g, w) && p in w.configured && Edge(g, p, c) && c in w.isExplicit && c in g.ifs
    requires !g.ifs[c].isAuto && !Reaches(g, c, c)
    ensures !AlwaysAgreed(g, w)
  {
    var k, s := w.refcount[c], w.configured;
    SettledSupplied(g, w);
    ReachesEdge(g, p, c);
    if Reaches(g, c, p) {
      ReachesTransitive(g, c, p, c);
    }
    OneProcess(g, w, p, c, Repeat(c, k), s);
    ManyProcesses(g, w, p, c, Repeat(c, k), s);
    var v := ChangeArgs(g, w, Repeat(c, k), false, Always()).w;
    var u := ChangeArgsReloading(g, w, Repeat(c, k), false, Always()).w;
    FlagsKept(g, w, Repeat(c, k), Always());
    LastQuiet(g, v, p, c, s);
    LastRuns(g, u, p, c, s);
    ArgsAppend(g, w, Repeat(c, k), [p], Always());
    ReloadingAppend(g, w, Repeat(c, k), [p], Always());
    DiffersThere(g, w, Repeat(c, k), Repeat(c, k) + [p], Always(), Event(c, PreDown));
  }

  lemma DiffersThere(g: Graph, w: World, a: seq<Name>, b: seq<Name>, ok: Outcome, e: Event)
    requires Resting(g, w)
    requires Times(ChangeArgs(g, w, b, false, ok).w, e) == Times(ChangeArgs(g, w, a, false, ok).w, e)
    requires Times(ChangeArgsReloading(g, w, b, false, ok).w, e) > Times(ChangeArgsReloading(g, w, a, false, ok).w, e)
    ensures !AlwaysAgreed(g, w)
  {
    assert Agreed(ChangeArgs(g, w, a, false, ok), ChangeArgsReloading(g, w, a, false, ok))
           ==> !Agreed(ChangeArgs(g, w, b, false, ok), ChangeArgsReloading(g, w, b, false, ok));
  }

  /** In a settled state in which nobody who was asked for by name is on a cycle, the two ways
      agree for all arguments and all outcomes exactly when no configured interface requires one
      that was asked for by name. That this is enough holds on every graph. */
  lemma AlwaysAgreedIff(g: Graph, w: World)
    requires Settled(g, w)
    ensures NoneShared(g, w) ==> AlwaysAgreed(g, w)
    ensures (forall c :: c in w.configured && c in w.isExplicit && c in g.ifs && !g.ifs[c].isAuto ==> !Reaches(g, c, c)) ==>
              (AlwaysAgreed(g, w) <==> NoneShared(g, w))
  {
    SettledSupplied(g, w);
    assert Flagged(w, w.isExplicit) == w;
    if NoneShared(g, w) {
      forall args, ok: Outcome
        ensures Agreed(ChangeArgs(g, w, args, false, ok), ChangeArgsReloading(g, w, args, false, ok))
      {
        FreshTransparent(g, w, args, ok, w.configured, w.isExplicit);
      }
    } else {
      var p, c :| p in w.configured && Edge(g, p, c) && c in w.isExplicit && c in g.ifs && !g.ifs[c].isAuto;
      if !Reaches(g, c, c) {
        SharedDiffers(g, w, p, c);
      }
    }
  }
}
