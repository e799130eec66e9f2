/** When persistence is transparent: when one process for a list of interfaces, and one process
    each with the state written and read in between, come to the same. For ifup they always do;
    for ifdown, as long as no interface is named again that is down and still counted, and none
    that others hold and nobody asked for. */
module Persistence {
  import opened Graphs
  import opened Worlds
  import opened Lifecycle
  import opened Ledger
  import opened Coherence
  import opened Draining
  import opened BringUpOrder
  import opened Commands
  import opened Settling
  import opened Collector

  /** The arguments in order, each in a process that knows only the records. */
  function ChangeArgsReloading(g: Graph, w: World, args: seq<Name>, up: bool, ok: Outcome): (s: Step)
    requires Resting(g, w)
    ensures Resting(g, s.w)
    decreases |args|
  {
    if args == [] then Step(w, true)
    else if args[0] !in g.ifs then Step(w, false)
    else
      BootEffect(g, w);
      ChangeResting(g, Boot(g, w), args[0], up, true, ok);
      var s := ChangeInterface(g, Boot(g, w), args[0], up, true, ok);
      if !s.ok then s else ChangeArgsReloading(g, s.w, args[1..], up, ok)
  }

  // --- ifup ------------------------------------------------------------------------------

  /** Flags of uncounted interfaces are those of a fresh parse. */
  ghost predicate FlagsFresh(g: Graph, w: World)
    requires Fits(g, w)
  {
    && w.isExplicit <= g.ifs.Keys
    && forall x :: x in g.ifs && w.refcount[x] == 0 ==> (x in w.isExplicit <==> g.ifs[x].isAuto)
  }

  lemma BootIsIdentity(g: Graph, w: World)
    requires Resting(g, w) && FlagsFresh(g, w)
    ensures Boot(g, w) == w
  {
    BootEffect(g, w);
    assert Boot(g, w).isExplicit == w.isExplicit;
  }

  lemma UpKeepsFresh(g: Graph, w: World, x: Name, ok: Outcome)
    requires Resting(g, w) && FlagsFresh(g, w) && x in g.ifs
    ensures FlagsFresh(g, ChangeInterface(g, w, x, true, true, ok).w)
  {
    BringUpCoherent(g, w, x, ok);
    BringUpCounts(g, w, x, ok);
  }

  /** For ifup this needs no ledger: on every graph and every outcome of the phases the two
      ways agree step by step. */
  lemma {:induction false} IfUpTransparent(g: Graph, w: World, args: seq<Name>, ok: Outcome)
    requires Resting(g, w) && FlagsFresh(g, w)
    ensures ChangeArgsReloading(g, w, args, true, ok) == ChangeArgs(g, w, args, true, ok)
    decreases |args|
  {
    if args != [] && args[0] in g.ifs {
      BootIsIdentity(g, w);
      UpKeepsFresh(g, w, args[0], ok);
      ChangeResting(g, w, args[0], true, true, ok);
      IfUpTransparent(g, ChangeInterface(g, w, args[0], true, true, ok).w, args[1..], ok);
    }
  }

  // --- ifdown ----------------------------------------------------------------------------

  /** The same world with other explicit flags. */
  function Flagged(w: World, flags: set<Name>): World {
    w.(isExplicit := flags)
  }

  /** The flags of counted interfaces are those of w. */
  ghost predicate Agree(g: Graph, w: World, flags: set<Name>)
    requires Fits(g, w)
  {
    forall x :: x in g.ifs && w.refcount[x] > 0 ==> (x in flags <==> x in w.isExplicit)
  }

  lemma {:induction false} RunPhasesFlags(w: World, x: Name, phases: seq<Phase>, ok: Outcome, flags: set<Name>)
    ensures var s := RunPhases(w, x, phases, ok);
            RunPhases(Flagged(w, flags), x, phases, ok) == Step(Flagged(s.w, flags), s.ok)
    decreases |phases|
  {
    if phases != [] {
      RunPhasesFlags(w.(trace := w.trace + [Event(x, phases[0])]), x, phases[1..], ok, flags);
    }
  }

  lemma UnrefFlags(g: Graph, w: World, c: Name, flags: set<Name>)
    requires Fits(g, w) && c in g.ifs && Agree(g, w, flags)
    ensures Unref(Flagged(w, flags), c) == Flagged(Unref(w, c), flags) && Agree(g, Unref(w, c), flags)
  {
  }

  /** A teardown in the ledger, whatever the count of the interface it was called for, never
      reads the flag of an interface that is not counted. */
  lemma {:induction false} TakeDownFlags(g: Graph, w: World, x: Name, ok: Outcome, released: multiset<Name>,
                                         root: Name, spent: set<Name>, flags: set<Name>)
    requires DrainInv(g, w, released, {x}, root, spent, {}) && Agree(g, w, flags)
    requires x in w.configured && x !in w.isPending && (x == root || w.refcount[x] == 1)
    ensures var s := TakeDown(g, w, x, ok);
            && TakeDown(g, Flagged(w, flags), x, ok) == Step(Flagged(s.w, flags), s.ok)
            && (s.ok ==> Agree(g, s.w, flags))
    decreases Idle(g, w), 1, 0
  {
    RunPhasesFlags(w, x, DOWN_PHASES, ok, flags);
    TakeDownUnfolds(g, w, x, ok);
    TakeDownUnfolds(g, Flagged(w, flags), x, ok);
    var p := RunPhases(w, x, DOWN_PHASES, ok);
    if p.ok {
      PhasesDrain(g, w, x, ok, released, {x}, root, spent, {});
      EnterShrinks(g, p.w, x);
      EnterDrain(g, p.w, x, released, root, spent, {});
      ReleaseRequiredFlags(g, Enter(p.w, x), g.ifs[x].required, ok, released, root, spent, flags);
      assert Enter(Flagged(p.w, flags), x) == Flagged(Enter(p.w, x), flags);
      var r := ReleaseRequired(g, Enter(p.w, x), g.ifs[x].required, ok);
      if r.ok {
        UnrefFlags(g, Leave(r.w, x), x, flags);
      }
    }
  }

  lemma {:induction false} ReleaseRequiredFlags(g: Graph, w: World, tokens: seq<Name>, ok: Outcome,
                                                released: multiset<Name>, root: Name, spent: set<Name>,
                                                flags: set<Name>)
    requires DrainInv(g, w, released, {}, root, spent, {}) && Agree(g, w, flags) && forall c :: c in tokens ==> c in g.ifs
    requires released + multiset(Effective(g, tokens)) <= Owed(g, w.isPending)
    ensures var s := ReleaseRequired(g, w, tokens, ok);
            && ReleaseRequired(g, Flagged(w, flags), tokens, ok) == Step(Flagged(s.w, flags), s.ok)
            && (s.ok ==> Agree(g, s.w, flags))
    decreases Idle(g, w), 3, |tokens|
  {
    if tokens != [] {
      var c := tokens[0];
      if g.ifs[c].hasConfigError {
        ReleaseRequiredFlags(g, w, tokens[1..], ok, released, root, spent, flags);
      } else {
        MultisetCons(c, Effective(g, tokens[1..]), released);
        ReleaseFlags(g, w, c, ok, released, root, spent, flags);
        ReleaseDrain(g, w, c, ok, released, root, spent, {});
        var s := Release(g, w, c, ok);
        if s.ok {
          ReleaseRequiredFlags(g, s.w, tokens[1..], ok, released + multiset{c}, root, spent, flags);
        }
      }
    }
  }

  lemma {:induction false} ReleaseFlags(g: Graph, w: World, c: Name, ok: Outcome, released: multiset<Name>,
                                        root: Name, spent: set<Name>, flags: set<Name>)
    requires DrainInv(g, w, released, {}, root, spent, {}) && Agree(g, w, flags) && c in g.ifs
    requires released + multiset{c} <= Owed(g, w.isPending)
    ensures var s := Release(g, w, c, ok);
            && Release(g, Flagged(w, flags), c, ok) == Step(Flagged(s.w, flags), s.ok)
            && (s.ok ==> Agree(g, s.w, flags))
    decreases Idle(g, w), 2, 0
  {
    var v := Unref(w, c);
    assert c in flags <==> c in v.isExplicit by {
      DrainOwed(g, w, c, released, root, spent, {});
    }
    UnrefFlags(g, w, c, flags);
    UnrefDrain(g, w, c, released, root, spent, {});
    if v.refcount[c] > 1 || c in v.isExplicit || c in v.isPending {
      assert Release(g, w, c, ok) == Step(v, true);
      assert Release(g, Flagged(w, flags), c, ok) == Step(Flagged(v, flags), true);
    } else {
      TakeDownFlags(g, v, c, ok, released + multiset{c}, root, spent, flags);
      assert Release(g, w, c, ok) == TakeDown(g, v, c, ok);
      assert Release(g, Flagged(w, flags), c, ok) == TakeDown(g, Flagged(v, flags), c, ok);
    }
  }

  /** An interface named on the command line is down, or it is configured and was asked for, or
      only its own reference holds it. */
  predicate Met(w: World, x: Name)
    requires x in w.refcount
  {
    w.refcount[x] == 0 || (x in w.configured && (w.refcount[x] == 1 || x in w.isExplicit))
  }

  lemma ChangeDownFlags(g: Graph, w: World, x: Name, ok: Outcome, spent: set<Name>, flags: set<Name>)
    requires Drained(g, w, spent) && spent <= w.isExplicit && Agree(g, w, flags) && x in g.ifs && Met(w, x)
    ensures var s := ChangeInterface(g, w, x, false, true, ok);
            && ChangeInterface(g, Flagged(w, flags), x, false, true, ok) == Step(Flagged(s.w, flags), s.ok)
            && (s.ok ==> Agree(g, s.w, flags))
  {
    if w.refcount[x] > 0 && !g.ifs[x].hasConfigError {
      DrainStarts(g, w, x, spent, {});
      TakeDownFlags(g, w, x, ok, multiset{}, x, spent, flags);
    }
  }

  /** Taken down at its last reference, an interface is not counted any more. */
  lemma LastIsGone(g: Graph, w: World, x: Name, v: World)
    requires Fits(g, w) && Fits(g, v) && x in w.configured && w.refcount[x] == 1
    requires Balanced(g, w, multiset{}, multiset{}) && Balanced(g, v, multiset{}, multiset{})
    requires v.configured <= w.configured - {x}
    ensures v.refcount[x] == 0
  {
    OwedSplit(g, w.configured, v.configured);
  }

  /** The ledger after one more interface; those taken down while others hold them were asked for. */
  lemma ChangeDownDrained(g: Graph, w: World, x: Name, ok: Outcome, spent: set<Name>) returns (more: set<Name>)
    requires Coherent(g, w) && Drained(g, w, spent) && spent <= w.isExplicit && x in g.ifs && Met(w, x)
    ensures spent <= more <= spent + {x}
    ensures var s := ChangeInterface(g, w, x, false, true, ok);
            s.ok ==> && Coherent(g, s.w) && Drained(g, s.w, more) && more <= s.w.isExplicit == w.isExplicit
                     && forall y :: y in g.ifs ==> s.w.refcount[y] <= w.refcount[y]
  {
    more := spent;
    if w.refcount[x] > 0 && !g.ifs[x].hasConfigError {
      var s := TakeDown(g, w, x, ok);
      assert ChangeInterface(g, w, x, false, true, ok) == s;
      TakeDownCoherent(g, w, x, ok);
      RootDrained(g, w, x, ok, spent, {});
      if x in w.isExplicit {
        more := spent + {x};
      } else if s.ok {
        LastIsGone(g, w, x, s.w);
      }
    }
  }

  /** So it is for every interface named, when it is met. */
  ghost predicate Gentle(g: Graph, w: World, args: seq<Name>, ok: Outcome)
    requires Fits(g, w)
    decreases |args|
  {
    args != [] && args[0] in g.ifs ==>
      && Met(w, args[0])
      && var s := ChangeInterface(g, w, args[0], false, true, ok);
         s.ok ==> Gentle(g, s.w, args[1..], ok)
  }

  /** The two ways agree: the same counts, records, configured interfaces, history and exit
      status. Only flags of interfaces that are down may differ, and those no record keeps. */
  ghost predicate Agreed(s: Step, t: Step) {
    t == Step(Flagged(s.w, t.w.isExplicit), s.ok)
  }

  /** For ifdown, in the ledger, on every graph and outcome, the two ways agree as long as each
      interface named is met down, asked for, or free of holders. Interfaces asked for may be
      taken down under their holders. */
  lemma {:induction false} IfDownTransparent(g: Graph, w: World, args: seq<Name>, ok: Outcome, spent: set<Name>,
                                             flags: set<Name>)
    requires Coherent(g, w) && Drained(g, w, spent) && spent <= w.isExplicit && Gentle(g, w, args, ok)
    requires Agree(g, w, flags) && Resting(g, Flagged(w, flags))
    ensures Agreed(ChangeArgs(g, w, args, false, ok), ChangeArgsReloading(g, Flagged(w, flags), args, false, ok))
    decreases |args|
  {
    if args != [] && args[0] in g.ifs {
      var u := Flagged(w, flags);
      BootEffect(g, u);
      var parsed := Boot(g, u).isExplicit;
      assert Boot(g, u) == Flagged(w, parsed);
      ChangeDownFlags(g, w, args[0], ok, spent, parsed);
      ChangeResting(g, Boot(g, u), args[0], false, true, ok);
      var more := ChangeDownDrained(g, w, args[0], ok, spent);
      var s := ChangeInterface(g, w, args[0], false, true, ok);
      if s.ok {
        IfDownTransparent(g, s.w, args[1..], ok, more, parsed);
      }
    }
  }

  /** None named twice, each asked for or free of holders before the call: then so it is when
      it is met. */
  lemma {:induction false} OnceIsGentle(g: Graph, w: World, args: seq<Name>, ok: Outcome, spent: set<Name>)
    requires Coherent(g, w) && Drained(g, w, spent) && spent <= w.isExplicit && Distinct(args)
    requires forall x :: x in args && x in g.ifs ==> x !in spent && (x in w.isExplicit || w.refcount[x] <= 1)
    ensures Gentle(g, w, args, ok)
    decreases |args|
  {
    if args != [] && args[0] in g.ifs {
      var x := args[0];
      assert x in args;
      var more := ChangeDownDrained(g, w, x, ok, spent);
      var s := ChangeInterface(g, w, x, false, true, ok);
      if s.ok {
        forall y | y in args[1..]
          ensures y in args && y != x
        {
        }
        OnceIsGentle(g, s.w, args[1..], ok, more);
      }
    }
  }

  /** Before the call: from a settled state, naming no interface twice, and none that others
      hold unless it was asked for, the two ways agree. */
  lemma IfDownOnceTransparent(g: Graph, w: World, args: seq<Name>, ok: Outcome)
    requires Settled(g, w) && Distinct(args)
    requires forall x :: x in args && x in g.ifs ==> x in w.isExplicit || w.refcount[x] <= 1
    ensures Agreed(ChangeArgs(g, w, args, false, ok), ChangeArgsReloading(g, w, args, false, ok))
  {
    OnceIsGentle(g, w, args, ok, {});
    IfDownTransparent(g, w, args, ok, {}, w.isExplicit);
    assert Flagged(w, w.isExplicit) == w;
  }
}
