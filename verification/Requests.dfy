/** What is up after whole runs, computed from the commands alone. */
module Requests {
  import opened Graphs
  import opened Worlds
  import opened Lifecycle
  import opened Coherence
  import opened Commands
  import opened Settling
  import opened Collector
  import opened Exactness
  import opened Persistence
  import opened Teardown
  import opened RoundTrip

  /** One interface to bring up, or to take down. */
  datatype Change = Raise(name: Name) | Lower(name: Name)

  function Changes(names: seq<Name>, up: bool): seq<Change> {
    if names == [] then [] else [if up then Raise(names[0]) else Lower(names[0])] + Changes(names[1..], up)
  }

  function Autos(g: Graph, order: seq<Name>, matching: set<Name>): seq<Name>
    requires forall x :: x in order ==> x in g.ifs
  {
    if order == [] then []
    else if !g.ifs[order[0]].isAuto || order[0] !in matching then Autos(g, order[1..], matching)
    else [order[0]] + Autos(g, order[1..], matching)
  }

  function ChangesOf(g: Graph, cmd: Command): seq<Change> {
    match cmd
    case IfUp(args) => Changes(args, true)
    case IfDown(args) => Changes(args, false)
    case IfUpAuto(matching) => Changes(Autos(g, g.order, matching), true)
    case IfDownAuto(matching) => Changes(Autos(g, g.order, matching), false)
  }

  // --- the reference -----------------------------------------------------------------------

  /** Who was asked for: those named, and the auto interfaces raised with them. */
  ghost function Asked(g: Graph, asked: set<Name>, change: Change): set<Name> {
    match change
    case Raise(x) =>
      if x !in g.ifs || g.ifs[x].hasConfigError then asked
      else asked + {x} + (set y | y in Below(g, x) && y in g.ifs && g.ifs[y].isAuto)
    case Lower(x) => asked - {x}
  }

  /** Who stays up without x: those asked for, cycles, and what they require. */
  ghost function Remaining(g: Graph, up: set<Name>, asked: set<Name>, x: Name): set<Name> {
    set y | y in up && exists z :: z in up && z != x && (z in asked || Reaches(g, z, z)) && (z == y || Reaches(g, z, y))
  }

  ghost function Up(g: Graph, up: set<Name>, asked: set<Name>, change: Change): set<Name> {
    match change
    case Raise(x) => if x !in g.ifs || g.ifs[x].hasConfigError then up else up + Below(g, x)
    case Lower(x) => if x in up then Remaining(g, up, asked, x) else up
  }

  ghost function AskedAll(g: Graph, asked: set<Name>, changes: seq<Change>): set<Name>
    decreases |changes|
  {
    if changes == [] then asked else AskedAll(g, Asked(g, asked, changes[0]), changes[1..])
  }

  ghost function UpAll(g: Graph, up: set<Name>, asked: set<Name>, changes: seq<Change>): set<Name>
    decreases |changes|
  {
    if changes == [] then up
    else UpAll(g, Up(g, up, asked, changes[0]), Asked(g, asked, changes[0]), changes[1..])
  }

  // --- one change --------------------------------------------------------------------------

  /** The world has up what the reference has, with the same flags. */
  ghost predicate Shows(w: World, up: set<Name>, asked: set<Name>) {
    w.configured == up && asked <= up && forall x :: x in up ==> (x in w.isExplicit <==> x in asked)
  }

  lemma RaiseFresh(g: Graph, w: World, x: Name, update: bool, ok: Outcome)
    requires Settled(g, w) && FlagsFresh(g, w) && x in g.ifs
    ensures var s := ChangeInterface(g, w, x, true, update, ok); s.ok ==> FlagsFresh(g, s.w)
  {
    BringUpCoherent(g, w, x, ok);
    BringUpCounts(g, w, x, ok);
  }

  /** An interface that is up is asked for, at most. */
  lemma RaiseAgain(g: Graph, w: World, x: Name, up: set<Name>, asked: set<Name>)
    requires Settled(g, w) && Shows(w, up, asked) && x in up && x in g.ifs
    ensures up + Below(g, x) == up && Asked(g, asked, Raise(x)) <= asked + {x}
  {
    SettledSupplied(g, w);
    forall y | y in Below(g, x)
      ensures y in up
    {
      if y != x {
        ClosedUnderReach(g, up, x, y);
      }
    }
  }

  lemma RaiseNew(g: Graph, w: World, x: Name, ok: Outcome)
    requires Settled(g, w) && x in g.ifs && x !in w.configured && !g.ifs[x].hasConfigError
    ensures var s := BringUp(g, w, x, ok); s.ok ==> s.w.configured == w.configured + Below(g, x)
  {
    BringUpExact(g, w, x, ok);
    var s := BringUp(g, w, x, ok);
    if s.ok {
      forall y
        ensures y in s.w.configured <==> y in w.configured + Below(g, x)
      {
      }
    }
  }

  lemma RaiseShows(g: Graph, w: World, x: Name, update: bool, ok: Outcome, up: set<Name>, asked: set<Name>)
    requires Settled(g, w) && FlagsFresh(g, w) && x in g.ifs && (update || g.ifs[x].isAuto)
    requires Shows(w, up, asked)
    ensures var s := ChangeInterface(g, w, x, true, update, ok);
            s.ok ==> Shows(s.w, Up(g, up, asked, Raise(x)), Asked(g, asked, Raise(x)))
  {
    if !g.ifs[x].hasConfigError && !g.ifs[x].isTemplate {
      if x in w.configured {
        RaiseAgain(g, w, x, up, asked);
      } else {
        RaiseNew(g, w, x, ok);
        RaisedFlags(g, w, x, up, asked);
        assert w.refcount[x] == 0;
      }
    }
  }

  /** Who is raised for the first time has the flag of a fresh parse. */
  lemma RaisedFlags(g: Graph, w: World, x: Name, up: set<Name>, asked: set<Name>)
    requires Settled(g, w) && FlagsFresh(g, w) && x in g.ifs && !g.ifs[x].hasConfigError
    requires Shows(w, up, asked)
    ensures forall y :: y in up + Below(g, x) && y != x ==> (y in w.isExplicit <==> y in Asked(g, asked, Raise(x)))
    ensures x in Asked(g, asked, Raise(x)) && (g.ifs[x].isAuto ==> x in w.isExplicit)
    ensures Asked(g, asked, Raise(x)) <= up + Below(g, x)
  {
    forall y | y in up + Below(g, x) && y != x
      ensures y in w.isExplicit <==> y in Asked(g, asked, Raise(x))
    {
      assert y !in up ==> w.refcount[y] == 0;
    }
  }

  lemma LowerShows(g: Graph, w: World, x: Name, update: bool, ok: Outcome, up: set<Name>, asked: set<Name>)
    requires Settled(g, w) && x in g.ifs && w.refcount[x] <= 1 && Shows(w, up, asked)
    ensures var s := ChangeInterface(g, w, x, false, update, ok);
            s.ok ==> Shows(s.w, Up(g, up, asked, Lower(x)), Asked(g, asked, Lower(x)))
  {
    if x in w.configured {
      var s := TakeDown(g, w, x, ok);
      assert ChangeInterface(g, w, x, false, update, ok) == s;
      if s.ok {
        IfDownSettled(g, w, x, update, ok);
        LowerExact(g, w, x, ok, up, asked);
      }
    }
  }

  lemma LowerExact(g: Graph, w: World, x: Name, ok: Outcome, up: set<Name>, asked: set<Name>)
    requires Settled(g, w) && x in w.configured && w.refcount[x] == 1 && Shows(w, up, asked)
    requires TakeDown(g, w, x, ok).ok && TakeDown(g, w, x, ok).w.configured <= w.configured
    ensures TakeDown(g, w, x, ok).w.configured == Remaining(g, up, asked, x)
    ensures asked - {x} <= Remaining(g, up, asked, x)
  {
    var v := TakeDown(g, w, x, ok).w;
    forall y
      ensures y in v.configured <==> y in Remaining(g, up, asked, x)
    {
      TakeDownExactAlone(g, w, x, ok, y);
      RemainingIs(g, w, up, asked, x, y);
    }
  }

  lemma RemainingIs(g: Graph, w: World, up: set<Name>, asked: set<Name>, x: Name, y: Name)
    requires Shows(w, up, asked)
    ensures y in Remaining(g, up, asked, x) <==>
            y in w.configured && exists r :: r != x && Root(g, w, r) && (r == y || Reaches(g, r, y))
  {
    assert forall z :: Root(g, w, z) <==> z in up && (z in asked || Reaches(g, z, z));
  }

  // --- whole commands ----------------------------------------------------------------------

  /** The world shows what the reference computes. */
  ghost predicate ShowsAfter(g: Graph, w: World, up: set<Name>, asked: set<Name>, changes: seq<Change>) {
    Shows(w, UpAll(g, up, asked, changes), AskedAll(g, asked, changes))
  }

  lemma {:induction false} ArgsShow(g: Graph, w: World, args: seq<Name>, raise: bool, ok: Outcome, up: set<Name>,
                                    asked: set<Name>)
    requires Settled(g, w) && (if raise then FlagsFresh(g, w) else TameArgs(g, w, args, ok)) && Shows(w, up, asked)
    ensures var s := ChangeArgs(g, w, args, raise, ok); s.ok ==> ShowsAfter(g, s.w, up, asked, Changes(args, raise))
    decreases |args|
  {
    if args != [] && args[0] in g.ifs {
      var x := args[0];
      var s := ChangeInterface(g, w, x, raise, true, ok);
      assert Changes(args, raise)[1..] == Changes(args[1..], raise);
      if raise {
        IfUpSettled(g, w, x, true, ok);
        RaiseFresh(g, w, x, true, ok);
        RaiseShows(g, w, x, true, ok, up, asked);
      } else {
        IfDownSettled(g, w, x, true, ok);
        LowerShows(g, w, x, true, ok, up, asked);
      }
      if s.ok {
        var first := Changes(args, raise)[0];
        ArgsShow(g, s.w, args[1..], raise, ok, Up(g, up, asked, first), Asked(g, asked, first));
      }
    }
  }

  lemma {:induction false} AutoShows(g: Graph, w: World, order: seq<Name>, matching: set<Name>, raise: bool,
                                     ok: Outcome, up: set<Name>, asked: set<Name>)
    requires Settled(g, w) && (forall x :: x in order ==> x in g.ifs) && Shows(w, up, asked)
    requires if raise then FlagsFresh(g, w) else TameAuto(g, w, order, matching, ok)
    ensures var s := ChangeAuto(g, w, order, matching, raise, ok);
            s.ok ==> ShowsAfter(g, s.w, up, asked, Changes(Autos(g, order, matching), raise))
    decreases |order|
  {
    if order != [] {
      var x := order[0];
      if !g.ifs[x].isAuto || x !in matching {
        AutoShows(g, w, order[1..], matching, raise, ok, up, asked);
      } else {
        var s := ChangeInterface(g, w, x, raise, false, ok);
        var names := Autos(g, order, matching);
        assert names[1..] == Autos(g, order[1..], matching) && Changes(names, raise)[1..] == Changes(names[1..], raise);
        if raise {
          IfUpSettled(g, w, x, false, ok);
          RaiseFresh(g, w, x, false, ok);
          RaiseShows(g, w, x, false, ok, up, asked);
        } else {
          IfDownSettled(g, w, x, false, ok);
          LowerShows(g, w, x, false, ok, up, asked);
        }
        if s.ok {
          var first := Changes(names, raise)[0];
          AutoShows(g, s.w, order[1..], matching, raise, ok, Up(g, up, asked, first), Asked(g, asked, first));
        }
      }
    }
  }

  lemma BootShows(g: Graph, w: World, up: set<Name>, asked: set<Name>)
    requires Settled(g, w) && Shows(w, up, asked)
    ensures var b := Boot(g, w); Settled(g, b) && FlagsFresh(g, b) && Shows(b, up, asked)
  {
    BootSettled(g, w);
    BootEffect(g, w);
  }

  lemma ExecuteShows(g: Graph, w: World, cmd: Command, ok: Outcome, up: set<Name>, asked: set<Name>)
    requires Settled(g, w) && Shows(w, up, asked) && TameCommand(g, w, cmd, ok)
    ensures var s := Execute(g, w, cmd, ok); s.ok ==> ShowsAfter(g, s.w, up, asked, ChangesOf(g, cmd))
  {
    BootShows(g, w, up, asked);
    var b := Boot(g, w);
    match cmd
    case IfUp(args) => ArgsShow(g, b, args, true, ok, up, asked);
    case IfDown(args) => ArgsShow(g, b, args, false, ok, up, asked);
    case IfUpAuto(matching) => AutoShows(g, b, g.order, matching, true, ok, up, asked);
    case IfDownAuto(matching) => AutoShows(g, b, g.order, matching, false, ok, up, asked);
  }

  // --- whole runs --------------------------------------------------------------------------

  ghost function ChangesOfAll(g: Graph, cmds: seq<Command>): seq<Change> {
    if cmds == [] then [] else ChangesOf(g, cmds[0]) + ChangesOfAll(g, cmds[1..])
  }

  lemma {:induction false} AllThen(g: Graph, up: set<Name>, asked: set<Name>, a: seq<Change>, b: seq<Change>)
    ensures AskedAll(g, asked, a + b) == AskedAll(g, AskedAll(g, asked, a), b)
    ensures UpAll(g, up, asked, a + b) == UpAll(g, UpAll(g, up, asked, a), AskedAll(g, asked, a), b)
    decreases |a|
  {
    if a == [] {
      assert a + b == b;
    } else {
      assert (a + b)[0] == a[0] && (a + b)[1..] == a[1..] + b;
      AllThen(g, Up(g, up, asked, a[0]), Asked(g, asked, a[0]), a[1..], b);
    }
  }

  lemma {:induction false} ExecuteAllShows(g: Graph, w: World, cmds: seq<Command>, ok: Outcome, up: set<Name>,
                                           asked: set<Name>)
    requires Settled(g, w) && Shows(w, up, asked) && Tame(g, w, cmds, ok)
    ensures ShowsAfter(g, ExecuteAll(g, w, cmds, ok), up, asked, ChangesOfAll(g, cmds))
    decreases |cmds|
  {
    if cmds != [] {
      var first, v := ChangesOf(g, cmds[0]), Execute(g, w, cmds[0], ok).w;
      ExecuteShows(g, w, cmds[0], ok, up, asked);
      ExecuteSettled(g, w, cmds[0], ok);
      ExecuteAllShows(g, v, cmds[1..], ok, UpAll(g, up, asked, first), AskedAll(g, asked, first));
      AllThen(g, up, asked, first, ChangesOfAll(g, cmds[1..]));
    }
  }

  /** What a set of names is or requires. */
  ghost predicate Requires(g: Graph, asked: set<Name>, x: Name) {
    exists r :: r in asked && (r == x || Reaches(g, r, x))
  }

  /** Collector exactness, from the commands alone. From nothing configured, after every sequence
      of successful processes whose teardowns respect holders, who is up, and who of them is
      marked as asked for, is what the reference computes from the names in the commands, without
      counts, records or phases. On an acyclic graph an interface is up exactly when an interface
      asked for is it or requires it. */
  lemma RequestsExact(g: Graph, cmds: seq<Command>, ok: Outcome, x: Name)
    requires Tame(g, Fresh(g), cmds, ok)
    ensures var v := ExecuteAll(g, Fresh(g), cmds, ok);
            var changes := ChangesOfAll(g, cmds);
            && (x in v.configured <==> x in UpAll(g, {}, {}, changes))
            && (x in v.configured && x in v.isExplicit <==> x in AskedAll(g, {}, changes))
            && (Acyclic(g) ==> (x in v.configured <==> Requires(g, AskedAll(g, {}, changes), x)))
  {
    FreshSettled(g);
    ExecuteAllShows(g, Fresh(g), cmds, ok, {}, {});
    CollectorExact(g, cmds, ok, x);
    var changes := ChangesOfAll(g, cmds);
    RequestedIs(g, ExecuteAll(g, Fresh(g), cmds, ok), UpAll(g, {}, {}, changes), AskedAll(g, {}, changes), x);
  }

  lemma RequestedIs(g: Graph, w: World, up: set<Name>, asked: set<Name>, x: Name)
    requires Shows(w, up, asked)
    ensures Requested(g, w, x) <==> Requires(g, asked, x)
  {
    assert forall r :: r in w.configured && r in w.isExplicit <==> r in asked;
  }

  // --- one `ifup -a` -----------------------------------------------------------------------

  /** x is an auto interface that an `ifup -a` brings up. */
  ghost predicate Raised(g: Graph, names: seq<Name>, y: Name) {
    exists x :: x in names && x in g.ifs && !g.ifs[x].hasConfigError && y in Below(g, x)
  }

  lemma {:induction false} RaisesUp(g: Graph, names: seq<Name>, up: set<Name>, asked: set<Name>, y: Name)
    ensures y in UpAll(g, up, asked, Changes(names, true)) <==> y in up || Raised(g, names, y)
    decreases |names|
  {
    if names != [] {
      var changes := Changes(names, true);
      assert changes[0] == Raise(names[0]) && changes[1..] == Changes(names[1..], true);
      RaisesUp(g, names[1..], Up(g, up, asked, changes[0]), Asked(g, asked, changes[0]), y);
      assert forall x :: x in names <==> x == names[0] || x in names[1..];
    }
  }

  lemma {:induction false} AutosAre(g: Graph, order: seq<Name>, matching: set<Name>)
    requires forall x :: x in order ==> x in g.ifs
    ensures forall x :: x in Autos(g, order, matching) <==> x in order && g.ifs[x].isAuto && x in matching
  {
    if order != [] {
      AutosAre(g, order[1..], matching);
      assert forall x :: x in order <==> x == order[0] || x in order[1..];
    }
  }

  /** After a successful `ifup -a`, on any graph, exactly those are up that were up before, and
      the matching auto interfaces without configuration error and all they require. */
  lemma IfUpAutoExact(g: Graph, w: World, matching: set<Name>, ok: Outcome, y: Name)
    requires Settled(g, w)
    ensures var s := Execute(g, w, IfUpAuto(matching), ok);
            s.ok ==> (y in s.w.configured <==>
                        y in w.configured
                        || exists x :: x in g.ifs && g.ifs[x].isAuto && x in matching && !g.ifs[x].hasConfigError
                                       && (x == y || Reaches(g, x, y)))
  {
    var asked := set x | x in w.configured && x in w.isExplicit;
    ExecuteShows(g, w, IfUpAuto(matching), ok, w.configured, asked);
    RaisesUp(g, Autos(g, g.order, matching), w.configured, asked, y);
    AutosAre(g, g.order, matching);
    var s := Execute(g, w, IfUpAuto(matching), ok);
    if x :| x in g.ifs && g.ifs[x].isAuto && x in matching && !g.ifs[x].hasConfigError && (x == y || Reaches(g, x, y)) {
      assert x in g.order;
      KnownBelow(g, x, y);
      assert Raised(g, Autos(g, g.order, matching), y);
    }
  }

  lemma KnownBelow(g: Graph, x: Name, y: Name)
    requires x in g.ifs && (x == y || Reaches(g, x, y))
    ensures y in Below(g, x)
  {
    if x != y {
      var q := ReachesLast(g, x, y);
    }
  }
}
