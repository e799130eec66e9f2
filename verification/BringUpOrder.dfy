/** The order in which a bring-up runs phases, from any world: one block each, requirements
    first or waiting. */
module BringUpOrder {
  import opened Graphs
  import opened Worlds
  import opened Lifecycle
  import opened Sequences

  ghost function Blocks(order: seq<Name>, phases: seq<Phase>): seq<Event> {
    if order == [] then [] else Block(order[0], phases) + Blocks(order[1..], phases)
  }

  lemma {:induction false} BlocksAppend(a: seq<Name>, b: seq<Name>, phases: seq<Phase>)
    ensures Blocks(a + b, phases) == Blocks(a, phases) + Blocks(b, phases)
  {
    if a == [] {
      assert a + b == b;
    } else {
      BlocksAppend(a[1..], b, phases);
      assert (a + b)[0] == a[0] && (a + b)[1..] == a[1..] + b;
      Reassociate(Block(a[0], phases), Blocks(a[1..], phases), Blocks(b, phases));
    }
  }

  ghost predicate Distinct(order: seq<Name>) {
    forall i, j :: 0 <= i < j < |order| ==> order[i] != order[j]
  }

  lemma DistinctAppend(a: seq<Name>, b: seq<Name>)
    requires Distinct(a) && Distinct(b) && forall y :: y in b ==> y !in a
    ensures Distinct(a + b)
  {
    var o := a + b;
    forall i, j | 0 <= i < j < |o|
      ensures o[i] != o[j]
    {
      if i < |a| <= j {
        assert o[j] == b[j - |a|] && o[j] in b;
      }
    }
  }

  /** `post` continues `pre` by the blocks, the last one possibly cut short. */
  ghost predicate Executed(pre: seq<Event>, post: seq<Event>, blocks: seq<Event>) {
    pre <= post <= pre + blocks && |pre| + |blocks| < |post| + 4
  }

  lemma ExecutedThen(a: seq<Event>, b: seq<Event>, c: seq<Event>, m: seq<Event>, n: seq<Event>)
    requires b == a + m && Executed(b, c, n)
    ensures Executed(a, c, m + n)
  {
    assert a + (m + n) == b + n;
  }

  lemma RunPhasesExecuted(w: World, x: Name, phases: seq<Phase>, ok: Outcome)
    requires |phases| == 4
    ensures var s := RunPhases(w, x, phases, ok);
            && Executed(w.trace, s.w.trace, Block(x, phases))
            && (s.ok ==> s.w.trace == w.trace + Block(x, phases))
  {
    var k := RunPhasesTrace(w, x, phases, ok);
    assert Block(x, phases[..k]) == Block(x, phases)[..k];
    assert phases[..4] == phases;
  }

  /** c is up, or has been asked for: its count is not zero. */
  ghost predicate Counted(w: World, c: Name) {
    c in w.refcount && w.refcount[c] > 0
  }

  /** What holds when order[i] starts and the interfaces in stacks[i] wait for it: whoever waits
      has not started yet, requires it, and starts later if the run succeeds; and each of its
      requirements was counted before the run, has started by now, or waits. `named` holds the
      interface the run was called for, if it was not counted first. */
  ghost predicate Waits(g: Graph, w: World, done: bool, named: set<Name>, order: seq<Name>, stacks: seq<set<Name>>, i: nat)
    requires i < |order| == |stacks|
  {
    && w.isPending <= stacks[i] && order[i] !in stacks[i]
    && (forall q :: q in stacks[i] ==> q !in order[..i])
    && (forall q :: q in stacks[i] && q !in w.isPending ==>
          (q in named || !Counted(w, q)) && Reaches(g, q, order[i]) && (done ==> q in order[i + 1..]))
    && (forall c :: Edge(g, order[i], c) ==> Counted(w, c) || c in order[..i + 1] || c in stacks[i])
  }

  /** What a successful run leaves: its blocks, its interfaces, and nothing else counted. */
  ghost predicate Completed(w: World, v: World, order: seq<Name>) {
    && v.trace == w.trace + Blocks(order, UP_PHASES)
    && v.configured == w.configured + (set y | y in order)
    && (forall c :: Counted(w, c) || c in order ==> Counted(v, c))
    && (forall c :: Counted(v, c) ==> Counted(w, c) || c in order || c in w.isPending)
  }

  /** A bring-up began exactly these interfaces, in this order, while these waited. */
  ghost predicate Begun(g: Graph, w: World, s: Step, named: set<Name>, order: seq<Name>, stacks: seq<set<Name>>) {
    && Distinct(order) && |stacks| == |order| && s.w.isPending == w.isPending
    && (forall y :: y in order ==> y !in w.isPending && (y in named || !Counted(w, y)))
    && Executed(w.trace, s.w.trace, Blocks(order, UP_PHASES))
    && (forall i :: 0 <= i < |order| ==> Waits(g, w, s.ok, named, order, stacks, i))
    && (s.ok ==> Completed(w, s.w, order))
  }

  lemma BegunNothing(g: Graph, w: World, s: Step, named: set<Name>)
    requires s.w == w
    ensures Begun(g, w, s, named, [], [])
  {
  }

  lemma WaitsFirst(g: Graph, w: World, s: Step, t: Step, a: seq<Name>, b: seq<Name>,
                   p: seq<set<Name>>, q: seq<set<Name>>, i: nat)
    requires s.ok && Begun(g, w, s, {}, a, p) && |q| == |b| && i < |a|
    ensures Waits(g, w, t.ok, {}, a + b, p + q, i)
  {
    assert Waits(g, w, s.ok, {}, a, p, i);
    var o := a + b;
    assert o[i] == a[i] && o[..i] == a[..i] && o[..i + 1] == a[..i + 1] && o[i + 1..] == a[i + 1..] + b;
  }

  lemma WaitsSecond(g: Graph, w: World, s: Step, t: Step, a: seq<Name>, b: seq<Name>,
                    p: seq<set<Name>>, q: seq<set<Name>>, j: nat)
    requires s.ok && Begun(g, w, s, {}, a, p) && Begun(g, s.w, t, {}, b, q) && j < |b|
    ensures Waits(g, w, t.ok, {}, a + b, p + q, |a| + j)
  {
    assert Waits(g, s.w, t.ok, {}, b, q, j);
    var o, i := a + b, |a| + j;
    assert o[i] == b[j] && o[..i] == a + b[..j] && o[..i + 1] == a + b[..j + 1] && o[i + 1..] == b[j + 1..];
    assert (p + q)[i] == q[j];
  }

  lemma BegunThen(g: Graph, w: World, s: Step, t: Step, a: seq<Name>, b: seq<Name>, p: seq<set<Name>>, q: seq<set<Name>>)
    requires s.ok && Begun(g, w, s, {}, a, p) && Begun(g, s.w, t, {}, b, q)
    ensures Begun(g, w, t, {}, a + b, p + q)
  {
    DistinctAppend(a, b);
    BlocksAppend(a, b, UP_PHASES);
    ExecutedThen(w.trace, s.w.trace, t.w.trace, Blocks(a, UP_PHASES), Blocks(b, UP_PHASES));
    forall i | 0 <= i < |a + b|
      ensures Waits(g, w, t.ok, {}, a + b, p + q, i)
    {
      if i < |a| {
        WaitsFirst(g, w, s, t, a, b, p, q, i);
      } else {
        WaitsSecond(g, w, s, t, a, b, p, q, i - |a|);
      }
    }
    assert t.ok ==> Completed(w, t.w, a + b) by {
      if t.ok {
        CompletedThen(w, s.w, t.w, a, b);
      }
    }
  }

  lemma CompletedThen(w: World, u: World, v: World, a: seq<Name>, b: seq<Name>)
    requires Completed(w, u, a) && Completed(u, v, b) && u.isPending == w.isPending
    ensures Completed(w, v, a + b)
  {
    BlocksAppend(a, b, UP_PHASES);
    Reassociate(w.trace, Blocks(a, UP_PHASES), Blocks(b, UP_PHASES));
    assert forall y :: y in a + b <==> y in a || y in b;
  }

  /** x is there when its requirements start: it waits for them, or is the last to start. */
  ghost predicate Under(x: Name, order: seq<Name>, stacks: seq<set<Name>>) {
    |stacks| == |order| && forall i :: 0 <= i < |order| ==> order[i] == x || x in stacks[i]
  }

  /** The reference taken first is the only one that a run for c adds beyond its own. */
  lemma BegunCounted(g: Graph, w: World, c: Name, s: Step, order: seq<Name>, stacks: seq<set<Name>>)
    requires Fits(g, w) && c in g.ifs && !Counted(w, c)
    requires Begun(g, Ref(w, c), s, {c}, order, stacks)
    requires c in w.isPending ==> order == []
    requires Under(c, order, stacks) && (s.ok ==> c in order || c in w.isPending)
    ensures Begun(g, w, s, {}, order, stacks) && (s.ok ==> Counted(s.w, c))
  {
    var v := Ref(w, c);
    assert forall y :: Counted(v, y) <==> Counted(w, y) || y == c;
    forall i | 0 <= i < |order|
      ensures Waits(g, w, s.ok, {}, order, stacks, i)
    {
      assert Waits(g, v, s.ok, {c}, order, stacks, i);
    }
  }

  /** The requirements of x started while x waited; seen from before x began to wait. */
  lemma BegunBelow(g: Graph, w: World, x: Name, r: Step, s: Step, order: seq<Name>, stacks: seq<set<Name>>)
    requires x !in w.isPending && Begun(g, Enter(w, x), r, {}, order, stacks)
    requires s.w == Leave(r.w, x) && !s.ok && !r.ok
    requires forall y :: y in order ==> Reaches(g, x, y)
    ensures Begun(g, w, s, {x}, order, stacks) && Under(x, order, stacks)
  {
    forall i | 0 <= i < |order|
      ensures Waits(g, w, s.ok, {x}, order, stacks, i) && x in stacks[i]
    {
      assert Waits(g, Enter(w, x), r.ok, {}, order, stacks, i);
      assert order[i] in order;
    }
  }

  lemma WaitsBelow(g: Graph, w: World, x: Name, r: Step, done: bool, order: seq<Name>, stacks: seq<set<Name>>, i: nat)
    requires x !in w.isPending && Begun(g, Enter(w, x), r, {}, order, stacks) && r.ok && i < |order|
    requires forall y :: y in order ==> Reaches(g, x, y)
    ensures Waits(g, w, done, {x}, order + [x], stacks + [w.isPending], i) && x in stacks[i]
  {
    assert Waits(g, Enter(w, x), r.ok, {}, order, stacks, i);
    var o := order + [x];
    assert o[i] == order[i] && order[i] in order;
    assert o[..i] == order[..i] && o[..i + 1] == order[..i + 1] && o[i + 1..] == order[i + 1..] + [x];
  }

  lemma WaitsLast(g: Graph, w: World, x: Name, r: Step, done: bool, order: seq<Name>, stacks: seq<set<Name>>)
    requires x !in w.isPending && Begun(g, Enter(w, x), r, {}, order, stacks) && r.ok
    requires forall c :: Edge(g, x, c) ==> Counted(r.w, c)
    ensures Waits(g, w, done, {x}, order + [x], stacks + [w.isPending], |order|)
  {
    var o, i := order + [x], |order|;
    assert o[..i] == order && o[..i + 1] == o && (stacks + [w.isPending])[i] == w.isPending;
  }

  /** The blocks when x comes last, and what is counted then. */
  lemma LastExecuted(g: Graph, w: World, x: Name, r: World, ok: Outcome, order: seq<Name>)
    requires Fits(g, r) && x in g.ifs && x !in w.isPending && r.isPending == w.isPending + {x}
    requires Completed(Enter(w, x), r, order)
    ensures var s := FinishUp(g, Leave(r, x), x, ok);
            && s.w.isPending == w.isPending
            && Executed(w.trace, s.w.trace, Blocks(order + [x], UP_PHASES))
            && (s.ok ==> Completed(w, s.w, order + [x]))
  {
    var d := Leave(r, x);
    var s := FinishUp(g, d, x, ok);
    RunPhasesExecuted(d, x, UP_PHASES, ok);
    assert Blocks([x], UP_PHASES) == Block(x, UP_PHASES) + Blocks([], UP_PHASES) == Block(x, UP_PHASES);
    BlocksAppend(order, [x], UP_PHASES);
    ExecutedThen(w.trace, d.trace, s.w.trace, Blocks(order, UP_PHASES), Block(x, UP_PHASES));
    if s.ok {
      Reassociate(w.trace, Blocks(order, UP_PHASES), Block(x, UP_PHASES));
      assert forall c :: Counted(s.w, c) <==> Counted(r, c) || c == x;
    }
  }

  /** x itself comes last in its own bring-up. */
  lemma BegunLast(g: Graph, w: World, x: Name, r: Step, s: Step, order: seq<Name>, stacks: seq<set<Name>>)
    requires x !in w.isPending && r.ok && Begun(g, Enter(w, x), r, {}, order, stacks)
    requires forall c :: Edge(g, x, c) ==> Counted(r.w, c)
    requires forall y :: y in order ==> Reaches(g, x, y)
    requires s.w.isPending == w.isPending && Executed(w.trace, s.w.trace, Blocks(order + [x], UP_PHASES))
    requires s.ok ==> Completed(w, s.w, order + [x])
    ensures Begun(g, w, s, {x}, order + [x], stacks + [w.isPending])
    ensures Under(x, order + [x], stacks + [w.isPending])
  {
    DistinctAppend(order, [x]);
    forall i | 0 <= i < |order + [x]|
      ensures Waits(g, w, s.ok, {x}, order + [x], stacks + [w.isPending], i)
      ensures (order + [x])[i] == x || x in (stacks + [w.isPending])[i]
    {
      if i < |order| {
        WaitsBelow(g, w, x, r, s.ok, order, stacks, i);
      } else {
        WaitsLast(g, w, x, r, s.ok, order, stacks);
      }
    }
  }

  /** Any bring-up, from any world, on any graph, whatever fails. */
  lemma {:induction false} BringUpBegins(g: Graph, w: World, x: Name, ok: Outcome)
    returns (order: seq<Name>, stacks: seq<set<Name>>)
    requires Fits(g, w) && x in g.ifs
    ensures Begun(g, w, BringUp(g, w, x, ok), {x}, order, stacks) && Under(x, order, stacks)
    ensures forall y :: y in order ==> y == x || Reaches(g, x, y)
    ensures x in w.isPending ==> order == []
    ensures BringUp(g, w, x, ok).ok ==> x in order || x in w.isPending
    decreases Idle(g, w), 1, 0
  {
    if x in w.isPending || g.ifs[x].isTemplate {
      order, stacks := [], [];
      BegunNothing(g, w, BringUp(g, w, x, ok), {x});
    } else {
      EnterShrinks(g, w, x);
      BringUpParts(g, w, x, ok);
      var r := RaiseRequired(g, Enter(w, x), g.ifs[x].required, ok);
      var below, waiting := RaiseRequiredBegins(g, Enter(w, x), x, g.ifs[x].required, ok);
      order, stacks := BegunAround(g, w, x, ok, r, BringUp(g, w, x, ok), below, waiting);
    }
  }

  /** Around the requirements of x, x itself. */
  lemma BegunAround(g: Graph, w: World, x: Name, ok: Outcome, r: Step, s: Step, below: seq<Name>, waiting: seq<set<Name>>)
    returns (order: seq<Name>, stacks: seq<set<Name>>)
    requires Fits(g, r.w) && x in g.ifs && x !in w.isPending
    requires s == if r.ok then FinishUp(g, Leave(r.w, x), x, ok) else Step(Leave(r.w, x), false)
    requires forall y :: y in below ==> Reaches(g, x, y)
    requires Begun(g, Enter(w, x), r, {}, below, waiting) && (r.ok ==> forall c :: Edge(g, x, c) ==> Counted(r.w, c))
    ensures Begun(g, w, s, {x}, order, stacks) && Under(x, order, stacks)
    ensures forall y :: y in order ==> y == x || Reaches(g, x, y)
    ensures s.ok ==> x in order
  {
    if r.ok {
      LastExecuted(g, w, x, r.w, ok, below);
      BegunLast(g, w, x, r, s, below, waiting);
      order, stacks := below + [x], waiting + [w.isPending];
    } else {
      BegunBelow(g, w, x, r, s, below, waiting);
      order, stacks := below, waiting;
    }
  }

  lemma BringUpParts(g: Graph, w: World, x: Name, ok: Outcome)
    requires Fits(g, w) && x in g.ifs && x !in w.isPending && !g.ifs[x].isTemplate
    ensures var r := RaiseRequired(g, Enter(w, x), g.ifs[x].required, ok);
            BringUp(g, w, x, ok) == if r.ok then FinishUp(g, Leave(r.w, x), x, ok) else Step(Leave(r.w, x), false)
  {
    EnterShrinks(g, w, x);
  }

  lemma {:induction false} RaiseRequiredBegins(g: Graph, w: World, p: Name, tokens: seq<Name>, ok: Outcome)
    returns (order: seq<Name>, stacks: seq<set<Name>>)
    requires Fits(g, w) && forall c :: c in tokens ==> c in g.ifs
    requires forall c :: c in Effective(g, tokens) ==> Edge(g, p, c)
    ensures var s := RaiseRequired(g, w, tokens, ok);
            Begun(g, w, s, {}, order, stacks) && (s.ok ==> forall c :: c in Effective(g, tokens) ==> Counted(s.w, c))
    ensures forall y :: y in order ==> Reaches(g, p, y)
    decreases Idle(g, w), 3, |tokens|
  {
    if tokens == [] {
      order, stacks := [], [];
      BegunNothing(g, w, Step(w, true), {});
    } else if g.ifs[tokens[0]].hasConfigError {
      order, stacks := RaiseRequiredBegins(g, w, p, tokens[1..], ok);
    } else {
      var c := tokens[0];
      assert c in Effective(g, tokens);
      order, stacks := AcquireBegins(g, w, p, c, ok);
      var s := Acquire(g, w, c, ok);
      if s.ok {
        var t := RaiseRequired(g, s.w, tokens[1..], ok);
        var more, waiting := RaiseRequiredBegins(g, s.w, p, tokens[1..], ok);
        BegunThen(g, w, s, t, order, more, stacks, waiting);
        assert t.ok ==> Counted(t.w, c) by {
          BegunKeeps(g, s.w, t, more, waiting, c);
        }
        order, stacks := order + more, stacks + waiting;
      }
    }
  }

  lemma BegunKeeps(g: Graph, w: World, s: Step, order: seq<Name>, stacks: seq<set<Name>>, c: Name)
    requires Begun(g, w, s, {}, order, stacks) && Counted(w, c)
    ensures s.ok ==> Counted(s.w, c)
  {
  }

  lemma {:induction false} AcquireBegins(g: Graph, w: World, p: Name, c: Name, ok: Outcome)
    returns (order: seq<Name>, stacks: seq<set<Name>>)
    requires Fits(g, w) && c in g.ifs && Edge(g, p, c)
    ensures var s := Acquire(g, w, c, ok); Begun(g, w, s, {}, order, stacks) && (s.ok ==> Counted(s.w, c))
    ensures forall y :: y in order ==> Reaches(g, p, y)
    decreases Idle(g, w), 2, 0
  {
    if w.refcount[c] > 0 {
      order, stacks := [], [];
      BegunAlready(g, w, c);
    } else {
      var s := BringUp(g, Ref(w, c), c, ok);
      order, stacks := BringUpBegins(g, Ref(w, c), c, ok);
      BegunCounted(g, w, c, s, order, stacks);
      ReachesThrough(g, p, c, order);
      assert Acquire(g, w, c, ok) == s;
    }
  }

  lemma BegunAlready(g: Graph, w: World, c: Name)
    requires Fits(g, w) && Counted(w, c)
    ensures Begun(g, w, Step(Ref(w, c), true), {}, [], []) && Counted(Ref(w, c), c)
  {
  }

  lemma ReachesThrough(g: Graph, p: Name, c: Name, order: seq<Name>)
    requires Edge(g, p, c) && forall y :: y in order ==> y == c || Reaches(g, c, y)
    ensures forall y :: y in order ==> Reaches(g, p, y)
  {
    ReachesEdge(g, p, c);
    forall y | y in order && y != c
      ensures Reaches(g, p, y)
    {
      ReachesTransitive(g, p, c, y);
    }
  }
}
