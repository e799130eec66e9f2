/** ifup then ifdown: exactly when the second undoes the first. */
module RoundTrip {
  import opened Graphs
  import opened Worlds
  import opened Lifecycle
  import opened Ledger
  import opened Raising
  import opened BringUpOrder
  import opened Commands
  import opened Settling
  import opened Collector
  import opened Exactness
  import opened Draining
  import opened Teardown

  /** Every count and every record, as a map, is as it was. */
  ghost predicate Restored(w: World, v: World) {
    v.refcount == w.refcount && forall k :: Lookup(v.state, k) == Lookup(w.state, k)
  }

  lemma BringUpCloses(g: Graph, w: World, x: Name, ok: Outcome)
    requires Settled(g, w) && x in g.ifs && x !in w.configured && !g.ifs[x].hasConfigError
    ensures var s := BringUp(g, w, x, ok);
            s.ok ==> w.configured <= s.w.configured && x in s.w.configured && Supplied(g, s.w.configured, {})
  {
    SettledRaise(g, w, x);
    BringUpInv(g, w, x, ok, multiset{}, w.isExplicit + {x});
  }

  /** What a bring-up configures is x and some it requires. */
  lemma BringUpWithin(g: Graph, w: World, x: Name, ok: Outcome)
    requires Fits(g, w) && x in g.ifs
    ensures var s := BringUp(g, w, x, ok);
            s.ok ==> forall y :: y in s.w.configured ==> y in w.configured || y == x || Reaches(g, x, y)
  {
    var order, stacks := BringUpBegins(g, w, x, ok);
  }

  /** A successful bring-up configures x and all it requires, and nothing else. */
  lemma BringUpExact(g: Graph, w: World, x: Name, ok: Outcome)
    requires Settled(g, w) && x in g.ifs && x !in w.configured && !g.ifs[x].hasConfigError
    ensures var s := BringUp(g, w, x, ok);
            s.ok ==> forall y :: y in s.w.configured <==> y in w.configured || y == x || Reaches(g, x, y)
  {
    var s := BringUp(g, w, x, ok);
    BringUpCloses(g, w, x, ok);
    BringUpWithin(g, w, x, ok);
    if s.ok {
      forall y | Reaches(g, x, y)
        ensures y in s.w.configured
      {
        ClosedUnderReach(g, s.w.configured, x, y);
      }
    }
  }

  /** The state between the two processes, as the second one reads it. */
  ghost function Between(g: Graph, w: World, x: Name, ok: Outcome): World
    requires Coherent(g, w) && x in g.ifs
  {
    Boot(g, Execute(g, w, IfUp([x]), ok).w)
  }

  lemma ArgsOfOne(g: Graph, w: World, x: Name, up: bool, ok: Outcome)
    requires Fits(g, w) && x in g.ifs
    ensures ChangeArgs(g, w, [x], up, ok) == ChangeInterface(g, w, x, up, true, ok)
  {
    assert [x][1..] == [];
  }

  /** What the ifup made of w, as the ifdown reads it. */
  ghost predicate RaisedFrom(g: Graph, w: World, x: Name, b: World)
    requires x in g.ifs
  {
    && (forall y :: y in b.configured <==> y in w.configured || y == x || Reaches(g, x, y))
    && (forall y :: y in w.configured ==> (y in b.isExplicit <==> y in w.isExplicit))
    && (forall y :: y in b.configured && y in g.ifs && y !in w.configured && y != x ==>
          (y in b.isExplicit <==> g.ifs[y].isAuto))
  }

  lemma BetweenEffect(g: Graph, w: World, x: Name, ok: Outcome)
    requires Settled(g, w) && x in g.ifs && x !in w.configured && !g.ifs[x].hasConfigError
    requires Execute(g, w, IfUp([x]), ok).ok
    ensures var b := Between(g, w, x, ok);
            Settled(g, b) && RaisedFrom(g, w, x, b)
  {
    BootEffect(g, w);
    BootSettled(g, w);
    var w0 := Boot(g, w);
    ArgsOfOne(g, w0, x, true, ok);
    BringUpExact(g, w0, x, ok);
    IfUpSettled(g, w0, x, true, ok);
    var s := ChangeInterface(g, w0, x, true, true, ok);
    assert s.w.isExplicit == w0.isExplicit + {x};
    BootEffect(g, s.w);
    BootSettled(g, s.w);
  }

  /** Whatever was configured before the ifup stays up through the ifdown. */
  lemma OldStays(g: Graph, w: World, b: World, x: Name, y: Name)
    requires Settled(g, w) && x in g.ifs && x !in w.configured && RaisedFrom(g, w, x, b)
    requires y in w.configured
    ensures Stays(g, b, x, y)
  {
    SettledSupplied(g, w);
    var r := HasRoot(g, w, y);
    if Reaches(g, r, r) {
      ReachesInside(g, x, w.configured, r, r);
    }
    if r != y {
      ReachesInside(g, x, w.configured, r, y);
    }
    assert HeldUp(g, b, x, r);
  }

  /** A dependency that the ifup raised and the ifdown leaves up. */
  ghost predicate Survivor(g: Graph, w: World, x: Name, y: Name)
    requires x in g.ifs
  {
    y in g.ifs && Reaches(g, x, y) && y != x && y !in w.configured && (g.ifs[y].isAuto || Reaches(Without(g, x), y, y))
  }

  /** An interface raised by the ifup stays up only under an auto one raised with it, or under
      a cycle raised with it. */
  lemma NewGoes(g: Graph, w: World, b: World, x: Name, y: Name)
    requires Settled(g, w) && Settled(g, b) && x in g.ifs && x !in w.configured && RaisedFrom(g, w, x, b)
    requires Stays(g, b, x, y) && y !in w.configured
    ensures exists z :: Survivor(g, w, x, z)
  {
    var r :| HeldUp(g, b, x, r) && (r == y || Reaches(Without(g, x), r, y));
    if r in w.configured {
      WithoutClosed(g, w, x);
      ClosedUnderReach(Without(g, x), w.configured, r, y);
    }
    assert Survivor(g, w, x, r);
  }

  /** Equal sets of configured interfaces mean equal counts and records, and conversely. */
  lemma UpDownSame(g: Graph, w: World, b: World, x: Name, v: World)
    requires Settled(g, w) && x in g.ifs && x !in w.configured && RaisedFrom(g, w, x, b)
    requires Coherent(g, v) && Drained(g, v, {x}) && w.configured <= v.configured && v.isExplicit == b.isExplicit
    ensures Restored(w, v) <==> v.configured <= w.configured
  {
    if v.configured <= w.configured {
      SameCounts(g, w, v);
    }
    if Restored(w, v) {
      forall y | y in v.configured
        ensures y in w.configured
      {
        assert v.refcount[y] > 0;
      }
    }
  }

  lemma SameCounts(g: Graph, w: World, v: World)
    requires Fits(g, w) && Fits(g, v) && v.configured == w.configured
    requires Balanced(g, w, multiset{}, multiset{}) && Balanced(g, v, multiset{}, multiset{})
    ensures v.refcount == w.refcount
  {
    forall y | y in g.ifs
      ensures v.refcount[y] == w.refcount[y]
    {
      OneCount(g, w, y);
      OneCount(g, v, y);
    }
  }

  lemma OneCount(g: Graph, w: World, y: Name)
    requires Fits(g, w) && Balanced(g, w, multiset{}, multiset{}) && y in g.ifs
    ensures w.refcount[y] == (if y in w.configured then 1 else 0) + Owed(g, w.configured)[y]
  {
  }

  /** ifup x then ifdown x, two processes, on any graph: every count and record is restored
      exactly when no dependency that the ifup raised on the way is auto, or on a cycle that
      does not go through x. */
  lemma UpDownIff(g: Graph, w: World, x: Name, ok: Outcome)
    requires Settled(g, w) && x in g.ifs && x !in w.configured && !g.ifs[x].hasConfigError
    ensures var s := Execute(g, w, IfUp([x]), ok);
            var t := Execute(g, s.w, IfDown([x]), ok);
            s.ok && t.ok ==> (Restored(w, t.w) <==> forall y :: !Survivor(g, w, x, y))
  {
    var s := Execute(g, w, IfUp([x]), ok);
    var t := Execute(g, s.w, IfDown([x]), ok);
    if s.ok && t.ok {
      var b := Between(g, w, x, ok);
      BetweenEffect(g, w, x, ok);
      ArgsOfOne(g, b, x, false, ok);
      assert t == TakeDown(g, b, x, ok);
      DownRestoresIff(g, w, x, b, ok);
    }
  }

  lemma DownRestoresIff(g: Graph, w: World, x: Name, b: World, ok: Outcome)
    requires Settled(g, w) && Settled(g, b) && x in g.ifs && x !in w.configured && RaisedFrom(g, w, x, b)
    ensures var t := TakeDown(g, b, x, ok); t.ok ==> (Restored(w, t.w) <==> forall y :: !Survivor(g, w, x, y))
  {
    var t := TakeDown(g, b, x, ok);
    if t.ok {
      TakeDownLeaves(g, b, x, ok);
      LeftOver(g, w, b, x, t.w.configured);
      UpDownSame(g, w, b, x, t.w);
    }
  }

  /** What the ifdown leaves includes what was there before, and is no more exactly when no
      dependency survives. */
  lemma LeftOver(g: Graph, w: World, b: World, x: Name, left: set<Name>)
    requires Settled(g, w) && Settled(g, b) && x in g.ifs && x !in w.configured && RaisedFrom(g, w, x, b)
    requires forall y :: y in left <==> Stays(g, b, x, y)
    ensures w.configured <= left
    ensures left <= w.configured <==> forall y :: !Survivor(g, w, x, y)
  {
    forall y | y in w.configured
      ensures y in left
    {
      OldStays(g, w, b, x, y);
    }
    if y :| y in left && y !in w.configured {
      NewGoes(g, w, b, x, y);
    }
    if y :| Survivor(g, w, x, y) {
      assert HeldUp(g, b, x, y);
      assert Stays(g, b, x, y);
    }
  }

  /** Where x is on no cycle, the cycles that count are those of the graph. */
  lemma SurvivorOffCycle(g: Graph, w: World, x: Name, y: Name)
    requires x in g.ifs && !Reaches(g, x, x)
    ensures Survivor(g, w, x, y) <==>
            y in g.ifs && Reaches(g, x, y) && y !in w.configured && (g.ifs[y].isAuto || Reaches(g, y, y))
  {
    if Reaches(g, x, y) && y != x {
      if Reaches(g, y, x) {
        ReachesTransitive(g, x, y, x);
      }
      if Reaches(g, y, y) {
        ReachesAround(g, x, y, y);
      }
      if Reaches(Without(g, x), y, y) {
        WithoutReaches(g, x, y, y);
      }
    }
  }
}
