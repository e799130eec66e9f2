/** The invariant between commands, and what one command does to it. */
module Settling {
  import opened Graphs
  import opened Worlds
  import opened Lifecycle
  import opened Ledger
  import opened Coherence
  import opened Raising
  import opened Dropping
  import opened Commands

  ghost predicate AutoExplicit(g: Graph, w: World) {
    forall x :: x in g.ifs && g.ifs[x].isAuto ==> x in w.isExplicit
  }

  /** Nothing is pending; the dictionary mirrors the counts; the ledger balances; an interface
      is counted exactly while it is configured; and whatever is configured was asked for or
      is held by somebody else. */
  ghost predicate Settled(g: Graph, w: World) {
    && Coherent(g, w)
    && w.isPending == {}
    && Balanced(g, w, multiset{}, multiset{})
    && Alive(g, w)
    && Healthy(g, w.configured)
    && Held(g, w, w.isExplicit)
    && AutoExplicit(g, w)
  }

  /** Every requirement of a configured interface is configured. */
  lemma SettledSupplied(g: Graph, w: World)
    requires Settled(g, w)
    ensures Supplied(g, w.configured, {})
  {
    forall q, c | q in w.configured && Edge(g, q, c)
      ensures c in w.configured
    {
      OwedEdges(g, w.configured, c);
    }
  }

  lemma SettledRaise(g: Graph, w: World, x: Name)
    requires Settled(g, w)
    ensures RaiseInv(g, w, multiset{}, w.isExplicit + {x}, {x})
  {
    SettledSupplied(g, w);
  }

  lemma SettledDrop(g: Graph, w: World, x: Name)
    requires Settled(g, w)
    ensures DropInv(g, w, multiset{}, {x})
  {
  }

  lemma RaisedAlive(g: Graph, w: World, roots: set<Name>)
    requires RaiseInv(g, w, multiset{}, roots, {}) && w.isPending == {}
    ensures Alive(g, w)
  {
    forall x | x in g.ifs
      ensures w.refcount[x] > 0 <==> x in w.configured
    {
      OwedEdges(g, w.configured, x);
    }
  }

  lemma MarkSettled(g: Graph, w: World, x: Name)
    requires Coherent(g, w) && x in g.ifs && w.refcount[x] > 0
    requires w.isPending == {} && Balanced(g, w, multiset{}, multiset{})
    requires Alive(g, w) && Healthy(g, w.configured) && Held(g, w, w.isExplicit + {x}) && AutoExplicit(g, w)
    ensures Settled(g, MarkExplicit(w, x))
  {
    UpsertEffect(w.state, x, Record(x, w.refcount[x], true));
  }

  /** A successful bring-up settles again, once the named interface is marked explicit. */
  lemma IfUpSettled(g: Graph, w: World, x: Name, update: bool, ok: Outcome)
    requires Settled(g, w) && x in g.ifs && (update || g.ifs[x].isAuto)
    ensures var s := ChangeInterface(g, w, x, true, update, ok); s.ok ==> Settled(g, s.w)
  {
    var k := SkipInterface(g, w, x, true, update);
    if k.skipped {
      if w.refcount[x] > 0 && update && !g.ifs[x].hasConfigError {
        MarkSettled(g, w, x);
      }
    } else if !g.ifs[x].isTemplate {
      var s := BringUp(g, w, x, ok);
      SettledRaise(g, w, x);
      BringUpInv(g, w, x, ok, multiset{}, w.isExplicit + {x});
      BringUpCoherent(g, w, x, ok);
      if s.ok {
        RaisedAlive(g, s.w, w.isExplicit + {x});
        if update {
          MarkSettled(g, s.w, x);
        }
      }
    }
  }

  /** A successful teardown of an interface that only its own reference holds settles again. */
  lemma IfDownSettled(g: Graph, w: World, x: Name, update: bool, ok: Outcome)
    requires Settled(g, w) && x in g.ifs && w.refcount[x] <= 1
    ensures var s := ChangeInterface(g, w, x, false, update, ok);
            s.ok ==> Settled(g, s.w) && s.w.isExplicit == w.isExplicit
                     && s.w.configured <= w.configured && (!g.ifs[x].hasConfigError ==> x !in s.w.configured)
  {
    if w.refcount[x] == 1 && !g.ifs[x].hasConfigError {
      SettledDrop(g, w, x);
      TakeDownInv(g, w, x, ok, multiset{});
      TakeDownCoherent(g, w, x, ok);
    }
  }

  // --- a process starts over from the records ------------------------------------------

  lemma MirrorsSelfMapped(g: Graph, w: World)
    requires Coherent(g, w)
    ensures SelfMapped(g, w.state)
  {
    forall e | e in w.state
      ensures e.key == e.rec.mapped && e.rec.mapped in g.ifs
    {
      LookupEntry(w.state, e);
    }
  }

  lemma {:induction false} LookupEntry(state: seq<Entry>, e: Entry)
    requires UniqueKeys(state) && e in state
    ensures Lookup(state, e.key) == Some(e.rec)
  {
    if state[0] != e {
      assert e in state[1..];
      LookupEntry(state[1..], e);
    }
  }

  /** Reading the state back gives every count, and every flag of a counted interface. */
  lemma BootEffect(g: Graph, w: World)
    requires Coherent(g, w)
    ensures var v := Boot(g, w);
            && v == w.(isExplicit := v.isExplicit, isPending := {})
            && Coherent(g, v)
            && v.isExplicit <= g.ifs.Keys
            && forall x :: x in g.ifs ==>
                 (x in v.isExplicit <==> if w.refcount[x] > 0 then x in w.isExplicit else g.ifs[x].isAuto)
  {
    BootCounts(g, w);
    var v := Boot(g, w);
    assert v.isExplicit <= g.ifs.Keys by {
      forall x | x in v.isExplicit
        ensures x in g.ifs
      {
        assert Lookup(w.state, x) == None ==> x in AutoNames(g);
      }
    }
  }

  lemma BootCounts(g: Graph, w: World)
    requires Coherent(g, w)
    ensures var v := Boot(g, w);
            && v == w.(isExplicit := v.isExplicit, isPending := {})
            && forall x :: x in v.isExplicit <==>
                 match Lookup(w.state, x) case Some(r) => r.isExplicit case None => x in AutoNames(g)
  {
    MirrorsSelfMapped(g, w);
    SyncEffect(g, w.state, Parsed(g, w));
    var v := Boot(g, w);
    forall x | x in g.ifs
      ensures v.refcount[x] == w.refcount[x]
    {
    }
    assert v.refcount == w.refcount;
  }

  lemma BootSettled(g: Graph, w: World)
    requires Settled(g, w)
    ensures Settled(g, Boot(g, w))
  {
    BootEffect(g, w);
  }
}
