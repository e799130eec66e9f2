/** `ifdown -a`: everything goes down, in any order; and when nobody is overrun. */
module AutoTeardown {
  import opened Graphs
  import opened Worlds
  import opened Lifecycle
  import opened Ledger
  import opened Coherence
  import opened Commands
  import opened Settling
  import opened Collector
  import opened StableSort
  import opened Draining
  import opened BringUpOrder
  import opened TakeDownOrder
  import opened Exactness

  /** The collection lists every interface before those it requires. */
  ghost predicate RequirersFirst(g: Graph) {
    forall i, j :: 0 <= i < |g.order| && 0 <= j < |g.order| && Edge(g, g.order[i], g.order[j]) ==> i < j
  }

  /** The sort of the dependency pass gives that order whenever depths grow along edges. */
  lemma SortedByDepth(g: Graph, depth: map<Name, nat>)
    requires depth.Keys == g.ifs.Keys
    requires forall p, c :: Edge(g, p, c) && c in g.ifs ==> depth[p] < depth[c]
    requires forall i, j :: 0 <= i < j < |g.order| ==> depth[g.order[i]] <= depth[g.order[j]]
    ensures RequirersFirst(g)
  {
    forall i, j | 0 <= i < |g.order| && 0 <= j < |g.order| && Edge(g, g.order[i], g.order[j])
      ensures i < j
    {
      assert g.order[i] in g.order && g.order[j] in g.order;
      assert i != j && !(j < i);
    }
  }

  ghost predicate RootsAuto(g: Graph, w: World) {
    forall x :: x in w.configured && x in w.isExplicit && x in g.ifs ==> g.ifs[x].isAuto
  }

  /** An auto interface that is up. */
  ghost predicate AutoUp(g: Graph, w: World, r: Name) {
    r in w.configured && r in g.ifs && g.ifs[r].isAuto
  }

  /** No auto interface before position k is configured any more. */
  ghost predicate DownBefore(g: Graph, w: World, k: nat) {
    forall i :: 0 <= i < k && i < |g.order| ==> !AutoUp(g, w, g.order[i])
  }

  // --- everything goes down --------------------------------------------------------------

  ghost predicate Passed(g: Graph, k: nat, y: Name) {
    exists i :: 0 <= i < k && i < |g.order| && g.order[i] == y
  }

  lemma NotPassed(g: Graph, k: nat)
    requires k < |g.order|
    ensures !Passed(g, k, g.order[k])
  {
  }

  ghost predicate AllPassed(g: Graph, k: nat, spent: set<Name>) {
    forall y :: y in spent ==> Passed(g, k, y)
  }

  lemma PassedMore(g: Graph, k: nat, spent: set<Name>)
    requires AllPassed(g, k, spent) && k < |g.order|
    ensures AllPassed(g, k + 1, spent) && AllPassed(g, k + 1, spent + {g.order[k]})
  {
    forall y | y in spent + {g.order[k]}
      ensures Passed(g, k + 1, y)
    {
      if y in spent {
        assert Passed(g, k, y);
      }
    }
  }

  /** In any order of the list, the ledger after the first k interfaces. Those met with holders
      are spent: down, and still counted. */
  ghost predicate DrainedTo(g: Graph, w: World, k: nat, spent: set<Name>) {
    && Coherent(g, w) && Drained(g, w, spent) && AutoExplicit(g, w) && RootsAuto(g, w)
    && spent <= w.isExplicit && DownBefore(g, w, k) && k <= |g.order| && AllPassed(g, k, spent)
  }

  /** One turn of the loop: an auto interface that is up goes down, whatever its count. */
  lemma DrainTurn(g: Graph, w: World, k: nat, ok: Outcome, spent: set<Name>) returns (more: set<Name>)
    requires DrainedTo(g, w, k, spent) && k < |g.order| && g.order[k] in g.ifs && g.ifs[g.order[k]].isAuto
    requires ChangeInterface(g, w, g.order[k], false, false, ok).ok
    ensures DrainedTo(g, ChangeInterface(g, w, g.order[k], false, false, ok).w, k + 1, more)
  {
    var x := g.order[k];
    if x in w.configured {
      assert w.refcount[x] > 0;
      assert ChangeInterface(g, w, x, false, false, ok) == TakeDown(g, w, x, ok);
      TakeDownCoherent(g, w, x, ok);
      RootDrained(g, w, x, ok, spent, {});
      DrainedOne(g, w, TakeDown(g, w, x, ok).w, k, spent);
      more := spent + {x};
    } else {
      assert x !in spent by {
        NotPassed(g, k);
      }
      assert w.refcount[x] == 0;
      assert ChangeInterface(g, w, x, false, false, ok).w == w;
      DrainedNext(g, w, k, spent);
      more := spent;
    }
  }

  lemma DrainedOne(g: Graph, w: World, v: World, k: nat, spent: set<Name>)
    requires DrainedTo(g, w, k, spent) && k < |g.order| && g.order[k] in w.isExplicit
    requires Coherent(g, v) && Drained(g, v, spent + {g.order[k]})
    requires v.configured <= w.configured - {g.order[k]} && v.isExplicit == w.isExplicit
    ensures DrainedTo(g, v, k + 1, spent + {g.order[k]})
  {
    PassedMore(g, k, spent);
    assert DownBefore(g, v, k + 1);
  }

  lemma DrainedNext(g: Graph, w: World, k: nat, spent: set<Name>)
    requires DrainedTo(g, w, k, spent) && k < |g.order| && !AutoUp(g, w, g.order[k])
    ensures DrainedTo(g, w, k + 1, spent)
  {
    PassedMore(g, k, spent);
    assert DownBefore(g, w, k + 1);
  }

  /** From position k on, every auto interface that is up is taken down. */
  lemma {:induction false} DownFrom(g: Graph, w: World, k: nat, ok: Outcome, spent: set<Name>) returns (all: set<Name>)
    requires DrainedTo(g, w, k, spent)
    requires forall x :: x in g.order[k..] ==> x in g.ifs
    requires ChangeAuto(g, w, g.order[k..], g.ifs.Keys, false, ok).ok
    ensures DrainedTo(g, ChangeAuto(g, w, g.order[k..], g.ifs.Keys, false, ok).w, |g.order|, all)
    decreases |g.order| - k
  {
    all := spent;
    if k < |g.order| {
      var x := g.order[k];
      assert x in g.order;
      assert g.order[k..][0] == x && g.order[k..][1..] == g.order[k + 1..];
      if !g.ifs[x].isAuto {
        DrainedNext(g, w, k, spent);
        all := DownFrom(g, w, k + 1, ok, spent);
      } else {
        var more := DrainTurn(g, w, k, ok, spent);
        all := DownFrom(g, ChangeInterface(g, w, x, false, false, ok).w, k + 1, ok, more);
      }
    } else {
      assert g.order[k..] == [];
    }
  }

  lemma NoneAutoUp(g: Graph, w: World)
    requires DownBefore(g, w, |g.order|)
    ensures forall r :: !AutoUp(g, w, r)
  {
    forall r
      ensures !AutoUp(g, w, r)
    {
      if r in g.order {
        var i :| 0 <= i < |g.order| && g.order[i] == r;
      }
    }
  }

  /** At the end of the list nobody who was asked for is up: what is left hangs on cycles. */
  lemma DrainedLeft(g: Graph, w: World, spent: set<Name>, y: Name) returns (r: Name)
    requires DrainedTo(g, w, |g.order|, spent) && y in w.configured
    ensures r in w.configured && Reaches(g, r, r) && (r == y || Reaches(g, r, y))
  {
    NoneAutoUp(g, w);
    r := HasRoot(g, w, y);
  }

  lemma NothingLeft(g: Graph, w: World)
    requires Coherent(g, w) && Balanced(g, w, multiset{}, multiset{}) && w.configured == {}
    ensures w.state == [] && forall x :: x in g.ifs ==> w.refcount[x] == 0
  {
    OwedByNobody(g, g.order);
    assert w.state != [] ==> Lookup(w.state, w.state[0].key).Some?;
  }

  lemma DrainedStart(g: Graph, w: World)
    requires Settled(g, w) && RootsAuto(g, w)
    ensures DrainedTo(g, w, 0, {})
  {
  }

  lemma BootRootsAuto(g: Graph, w: World)
    requires Settled(g, w) && RootsAuto(g, w)
    ensures Settled(g, Boot(g, w)) && RootsAuto(g, Boot(g, w))
  {
    BootEffect(g, w);
    BootSettled(g, w);
  }

  lemma AllExecuted(g: Graph, w: World, ok: Outcome)
    requires Coherent(g, w)
    ensures Fits(g, Boot(g, w))
    ensures Execute(g, w, IfDownAuto(g.ifs.Keys), ok) == ChangeAuto(g, Boot(g, w), g.order, g.ifs.Keys, false, ok)
  {
    BootEffect(g, w);
  }

  lemma DrainedAll(g: Graph, w: World, ok: Outcome) returns (all: set<Name>)
    requires Settled(g, w) && RootsAuto(g, w)
    requires Execute(g, w, IfDownAuto(g.ifs.Keys), ok).ok
    ensures DrainedTo(g, Execute(g, w, IfDownAuto(g.ifs.Keys), ok).w, |g.order|, all)
  {
    var b := Boot(g, w);
    assert DrainedTo(g, b, 0, {}) by {
      BootRootsAuto(g, w);
      DrainedStart(g, b);
    }
    AllExecuted(g, w, ok);
    assert g.order[0..] == g.order;
    all := DownFrom(g, b, 0, ok, {});
  }

  /** `ifdown -a` completeness, in any order of the list. If every configured explicit interface
      is auto, a successful `ifdown -a` leaves up only what hangs on a cycle; on an acyclic graph
      nothing is configured, every count is 0, and the state file is empty. */
  lemma IfDownAutoComplete(g: Graph, w: World, ok: Outcome)
    requires Settled(g, w) && RootsAuto(g, w)
    requires Execute(g, w, IfDownAuto(g.ifs.Keys), ok).ok
    ensures var v := Execute(g, w, IfDownAuto(g.ifs.Keys), ok).w;
            && (forall y :: y in v.configured ==>
                  exists r :: r in v.configured && Reaches(g, r, r) && (r == y || Reaches(g, r, y)))
            && (Acyclic(g) ==> v.configured == {} && v.state == [] && forall x :: x in g.ifs ==> v.refcount[x] == 0)
  {
    var v := Execute(g, w, IfDownAuto(g.ifs.Keys), ok).w;
    var all := DrainedAll(g, w, ok);
    forall y | y in v.configured
      ensures exists r :: r in v.configured && Reaches(g, r, r) && (r == y || Reaches(g, r, y))
    {
      var r := DrainedLeft(g, v, all, y);
    }
    if Acyclic(g) {
      NothingLeft(g, v);
    }
  }

  // --- what runs ---------------------------------------------------------------------------

  /** One block of down phases per interface in order, each once, and they are what left. */
  ghost predicate Left(w: World, v: World, order: seq<Name>) {
    && Distinct(order) && (forall y :: y in order ==> y in w.configured)
    && v.trace == w.trace + Blocks(order, DOWN_PHASES)
    && v.configured == w.configured - (set y | y in order)
  }

  lemma LeftThen(w: World, u: World, v: World, a: seq<Name>, b: seq<Name>)
    requires Left(w, u, a) && Left(u, v, b)
    ensures Left(w, v, a + b)
  {
    DistinctAppend(a, b);
    BlocksAppend(a, b, DOWN_PHASES);
    assert v.configured == w.configured - (set y | y in a + b);
  }

  lemma TurnLeft(g: Graph, w: World, k: nat, ok: Outcome, spent: set<Name>) returns (order: seq<Name>)
    requires DrainedTo(g, w, k, spent) && k < |g.order| && g.order[k] in g.ifs && g.ifs[g.order[k]].isAuto
    requires ChangeInterface(g, w, g.order[k], false, false, ok).ok
    ensures Left(w, ChangeInterface(g, w, g.order[k], false, false, ok).w, order)
  {
    var x := g.order[k];
    if x in w.configured {
      assert w.refcount[x] > 0;
      assert ChangeInterface(g, w, x, false, false, ok) == TakeDown(g, w, x, ok);
      order := RootStops(g, w, x, ok, spent);
    } else {
      assert x !in spent by {
        NotPassed(g, k);
      }
      assert w.refcount[x] == 0;
      order := [];
    }
  }

  lemma {:induction false} LeftFrom(g: Graph, w: World, k: nat, ok: Outcome, spent: set<Name>) returns (order: seq<Name>)
    requires DrainedTo(g, w, k, spent) && k <= |g.order|
    requires forall x :: x in g.order[k..] ==> x in g.ifs
    requires ChangeAuto(g, w, g.order[k..], g.ifs.Keys, false, ok).ok
    ensures Left(w, ChangeAuto(g, w, g.order[k..], g.ifs.Keys, false, ok).w, order)
    decreases |g.order| - k
  {
    order := [];
    if k < |g.order| {
      var x := g.order[k];
      assert x in g.order;
      assert g.order[k..][0] == x && g.order[k..][1..] == g.order[k + 1..];
      if !g.ifs[x].isAuto {
        DrainedNext(g, w, k, spent);
        order := LeftFrom(g, w, k + 1, ok, spent);
      } else {
        var u := ChangeInterface(g, w, x, false, false, ok).w;
        var first := TurnLeft(g, w, k, ok, spent);
        var more := DrainTurn(g, w, k, ok, spent);
        var rest := LeftFrom(g, u, k + 1, ok, more);
        LeftThen(w, u, ChangeAuto(g, u, g.order[k + 1..], g.ifs.Keys, false, ok).w, first, rest);
        order := first + rest;
      }
    } else {
      assert g.order[k..] == [];
    }
  }

  /** A successful `ifdown -a`, in any order of the list and on any graph, runs pre-down, down,
      post-down, destroy in one block for exactly the interfaces that are up before and not
      after, each once. */
  lemma IfDownAutoBlocks(g: Graph, w: World, ok: Outcome) returns (order: seq<Name>)
    requires Settled(g, w) && RootsAuto(g, w)
    requires Execute(g, w, IfDownAuto(g.ifs.Keys), ok).ok
    ensures var v := Execute(g, w, IfDownAuto(g.ifs.Keys), ok).w;
            && Distinct(order) && v.trace == w.trace + Blocks(order, [PreDown, Down, PostDown, Destroy])
            && v.configured <= w.configured && (forall y :: y in order <==> y in w.configured && y !in v.configured)
            && (Acyclic(g) ==> forall y :: y in order <==> y in w.configured)
  {
    var b := Boot(g, w);
    assert DrainedTo(g, b, 0, {}) by {
      BootRootsAuto(g, w);
      DrainedStart(g, b);
    }
    BootEffect(g, w);
    AllExecuted(g, w, ok);
    IfDownAutoComplete(g, w, ok);
    assert g.order[0..] == g.order;
    order := LeftFrom(g, b, 0, ok, {});
  }

  // --- when no holder is overrun ---------------------------------------------------------

  /** Every auto interface that is up comes before the auto interfaces it requires. */
  ghost predicate AutosInOrder(g: Graph, w: World) {
    forall r, c :: AutoUp(g, w, r) && AutoUp(g, w, c) && r != c && Reaches(g, r, c) ==> Before(g.order, r, c)
  }

  /** An auto interface that is up is free of holders exactly when no other one requires it. */
  lemma FreeAtTurn(g: Graph, w: World, x: Name)
    requires Settled(g, w) && Acyclic(g) && RootsAuto(g, w) && AutoUp(g, w, x)
    ensures w.refcount[x] <= 1 <==> forall r :: AutoUp(g, w, r) && r != x ==> !Reaches(g, r, x)
  {
    OwedEdges(g, w.configured, x);
    if w.refcount[x] > 1 {
      var p :| p in w.configured && Edge(g, p, x);
      var r := HasRoot(g, w, p);
      ReachesStep(g, r, p, x);
      assert AutoUp(g, w, r) && r != x;
    }
    if r :| AutoUp(g, w, r) && r != x && Reaches(g, r, x) {
      var q := ReachesLast(g, r, x);
      SettledSupplied(g, w);
      if q != r {
        ClosedUnderReach(g, w.configured, r, q);
      }
    }
  }

  /** Taking x down leaves the other auto interfaces as they are. */
  lemma OtherAutosStay(g: Graph, w: World, x: Name, ok: Outcome)
    requires Settled(g, w) && AutoUp(g, w, x) && w.refcount[x] == 1
    ensures var s := ChangeInterface(g, w, x, false, false, ok);
            s.ok ==> Settled(g, s.w) && s.w.isExplicit == w.isExplicit && s.w.configured <= w.configured
                     && forall y :: AutoUp(g, s.w, y) <==> AutoUp(g, w, y) && y != x
  {
    IfDownSettled(g, w, x, false, ok);
    var kept := set y | y in w.configured && AutoUp(g, w, y) && y != x;
    assert Protected(g, w, x, kept);
    RootDrained(g, w, x, ok, {}, kept);
    assert ChangeInterface(g, w, x, false, false, ok) == TakeDown(g, w, x, ok);
  }

  lemma ListedLater(g: Graph, w: World, k: nat, r: Name)
    requires k < |g.order| && DownBefore(g, w, k) && AutoUp(g, w, r) && r != g.order[k]
    ensures Before(g.order, g.order[k], r) && !Before(g.order, r, g.order[k])
  {
    assert r in g.order;
    var j :| 0 <= j < |g.order| && g.order[j] == r;
    assert j > k;
  }

  lemma OrderAfter(g: Graph, w: World, v: World, k: nat)
    requires k < |g.order| && DownBefore(g, w, k)
    requires forall y :: AutoUp(g, v, y) <==> AutoUp(g, w, y) && y != g.order[k]
    requires forall r :: AutoUp(g, w, r) && r != g.order[k] ==> !Reaches(g, r, g.order[k])
    ensures AutosInOrder(g, v) <==> AutosInOrder(g, w)
  {
    if AutosInOrder(g, v) {
      forall r, c | AutoUp(g, w, r) && AutoUp(g, w, c) && r != c && Reaches(g, r, c)
        ensures Before(g.order, r, c)
      {
        if r == g.order[k] {
          ListedLater(g, w, k, c);
        }
      }
    }
  }

  /** From position k on, no interface is taken down while others hold it exactly when the
      auto interfaces still up are in order. */
  lemma {:induction false} TameFrom(g: Graph, w: World, k: nat, ok: Outcome)
    requires Settled(g, w) && Acyclic(g) && RootsAuto(g, w) && k <= |g.order| && DownBefore(g, w, k)
    requires forall x :: x in g.order[k..] ==> x in g.ifs
    requires ChangeAuto(g, w, g.order[k..], g.ifs.Keys, false, ok).ok
    ensures TameAuto(g, w, g.order[k..], g.ifs.Keys, ok) <==> AutosInOrder(g, w)
    decreases |g.order| - k
  {
    if k == |g.order| {
      assert g.order[k..] == [];
      NoneAutoUp(g, w);
    } else {
      var x := g.order[k];
      assert x in g.order;
      assert g.order[k..][0] == x && g.order[k..][1..] == g.order[k + 1..];
      if !g.ifs[x].isAuto {
        TameFrom(g, w, k + 1, ok);
      } else {
        TameTurn(g, w, k, ok);
        if w.refcount[x] <= 1 {
          TameFrom(g, ChangeInterface(g, w, x, false, false, ok).w, k + 1, ok);
        }
      }
    }
  }

  lemma TameTurn(g: Graph, w: World, k: nat, ok: Outcome)
    requires Settled(g, w) && Acyclic(g) && RootsAuto(g, w) && k < |g.order| && DownBefore(g, w, k)
    requires g.order[k] in g.ifs && g.ifs[g.order[k]].isAuto
    requires ChangeInterface(g, w, g.order[k], false, false, ok).ok
    ensures w.refcount[g.order[k]] > 1 ==> !AutosInOrder(g, w)
    ensures var v := ChangeInterface(g, w, g.order[k], false, false, ok).w;
            w.refcount[g.order[k]] <= 1 ==>
              && Settled(g, v) && RootsAuto(g, v) && DownBefore(g, v, k + 1)
              && (AutosInOrder(g, v) <==> AutosInOrder(g, w))
  {
    var x := g.order[k];
    if x in w.configured {
      FreeAtTurn(g, w, x);
      if w.refcount[x] > 1 {
        var r :| AutoUp(g, w, r) && r != x && Reaches(g, r, x);
        ListedLater(g, w, k, r);
      } else {
        OtherAutosStay(g, w, x, ok);
        OrderAfter(g, w, ChangeInterface(g, w, x, false, false, ok).w, k);
      }
    }
  }

  /** On an acyclic graph a successful `ifdown -a` meets every interface it takes down free of
      holders exactly when every auto interface that is up is listed before the auto interfaces
      it requires, directly or through others. */
  lemma IfDownAutoTameIff(g: Graph, w: World, ok: Outcome)
    requires Settled(g, w) && Acyclic(g) && RootsAuto(g, w)
    requires Execute(g, w, IfDownAuto(g.ifs.Keys), ok).ok
    ensures TameCommand(g, w, IfDownAuto(g.ifs.Keys), ok) <==> AutosInOrder(g, w)
  {
    BootEffect(g, w);
    BootSettled(g, w);
    var b := Boot(g, w);
    assert g.order[0..] == g.order;
    TameFrom(g, b, 0, ok);
    assert forall r :: AutoUp(g, b, r) <==> AutoUp(g, w, r);
  }

  /** Listing requirers first is enough, and excludes cycles. */
  lemma RequirersFirstOrders(g: Graph, w: World)
    requires RequirersFirst(g)
    ensures Acyclic(g) && AutosInOrder(g, w)
  {
    forall r, c | Reaches(g, r, c) && c in g.ifs
      ensures Before(g.order, r, c) && r != c
    {
      PathForward(g, r, c);
    }
    forall x
      ensures !Reaches(g, x, x)
    {
      if Reaches(g, x, x) {
        var q := ReachesLast(g, x, x);
      }
    }
  }

  lemma PathForward(g: Graph, r: Name, c: Name)
    requires RequirersFirst(g) && Reaches(g, r, c)
    ensures Before(g.order, r, c) && r != c
  {
    var path :| Links(g, path, r, c);
    assert Edge(g, path[0], path[0 + 1]);
    assert path[0] in g.order;
    var i :| 0 <= i < |g.order| && g.order[i] == r;
    var j := i;
    for k := 1 to |path|
      invariant i <= j < |g.order| && g.order[j] == path[k - 1] && (k > 1 ==> i < j)
    {
      assert Edge(g, path[k - 1], path[k - 1 + 1]);
      j := EdgeForward(g, j, path[k]);
    }
  }

  lemma EdgeForward(g: Graph, j: nat, c: Name) returns (n: nat)
    requires RequirersFirst(g) && j < |g.order| && Edge(g, g.order[j], c)
    ensures j < n < |g.order| && g.order[n] == c
  {
    assert c in g.order;
    n :| 0 <= n < |g.order| && g.order[n] == c;
  }
}
