/** The command level: which interfaces a process changes, and what it believes about them. */
module Commands {
  import opened Graphs
  import opened Worlds
  import opened Lifecycle

  datatype Skip = Skip(w: World, skipped: bool)

  function SkipInterface(g: Graph, w: World, x: Name, up: bool, update: bool): Skip
    requires Fits(g, w) && x in g.ifs
  {
    if g.ifs[x].isTemplate then Skip(w, false)
    else if g.ifs[x].hasConfigError then Skip(w, true)
    else if up && w.refcount[x] > 0 then Skip(if update then MarkExplicit(w, x) else w, true)
    else if !up && w.refcount[x] == 0 then Skip(w, true)
    else Skip(w, false)
  }

  function MarkExplicit(w: World, x: Name): World
    requires x in w.refcount
  {
    Store(w.(isExplicit := w.isExplicit + {x}), x)
  }

  /** One interface named on the command line (`update`), or met by an `-a` command. */
  function ChangeInterface(g: Graph, w: World, x: Name, up: bool, update: bool, ok: Outcome): (s: Step)
    requires Fits(g, w) && x in g.ifs
    ensures Fits(g, s.w) && s.w.isPending == w.isPending
  {
    var k := SkipInterface(g, w, x, up, update);
    if k.skipped then Step(k.w, true)
    else
      var s := Run(g, w, x, up, ok);
      if s.ok && up && update then Step(MarkExplicit(s.w, x), true) else s
  }

  /** The arguments of one process, in order; the first failure ends it. */
  function ChangeArgs(g: Graph, w: World, args: seq<Name>, up: bool, ok: Outcome): (s: Step)
    requires Fits(g, w)
    ensures Fits(g, s.w) && s.w.isPending == w.isPending
    decreases |args|
  {
    if args == [] then Step(w, true)
    else if args[0] !in g.ifs then Step(w, false)
    else
      var s := ChangeInterface(g, w, args[0], up, true, ok);
      if !s.ok then s else ChangeArgs(g, s.w, args[1..], up, ok)
  }

  /** An `-a` command: the auto interfaces that match, in collection order, failures and all. */
  function ChangeAuto(g: Graph, w: World, order: seq<Name>, matching: set<Name>, up: bool, ok: Outcome): (s: Step)
    requires Fits(g, w) && forall x :: x in order ==> x in g.ifs
    ensures Fits(g, s.w) && s.w.isPending == w.isPending
    decreases |order|
  {
    if order == [] then Step(w, true)
    else if !g.ifs[order[0]].isAuto || order[0] !in matching then ChangeAuto(g, w, order[1..], matching, up, ok)
    else
      var s := ChangeInterface(g, w, order[0], up, false, ok);
      var rest := ChangeAuto(g, s.w, order[1..], matching, up, ok);
      Step(rest.w, s.ok && rest.ok)
  }

  // --- processes -------------------------------------------------------------------

  function AutoNames(g: Graph): set<Name> {
    set x | x in g.ifs && g.ifs[x].isAuto
  }

  /** Overwrite counts and flags from the records, one record after the other. */
  function Sync(state: seq<Entry>, w: World): World
    decreases |state|
  {
    if state == [] then w
    else
      var r := state[0].rec;
      Sync(state[1..], w.(refcount := w.refcount[r.mapped := r.refcount],
                          isExplicit := if r.isExplicit then w.isExplicit + {r.mapped} else w.isExplicit - {r.mapped}))
  }

  /** A new process: configuration parsed, nothing counted, auto interfaces marked explicit. */
  function Parsed(g: Graph, w: World): World {
    w.(refcount := map x | x in g.ifs :: 0, isExplicit := AutoNames(g), isPending := {})
  }

  /** A process remembers nothing of its predecessors but the state records. */
  function Boot(g: Graph, w: World): World {
    Sync(w.state, Parsed(g, w))
  }

  ghost predicate SelfMapped(g: Graph, state: seq<Entry>) {
    forall e :: e in state ==> e.key == e.rec.mapped && e.rec.mapped in g.ifs
  }

  lemma {:induction false} SyncEffect(g: Graph, state: seq<Entry>, w: World)
    requires UniqueKeys(state) && SelfMapped(g, state) && w.refcount.Keys == g.ifs.Keys
    ensures var v := Sync(state, w);
            && v == w.(refcount := v.refcount, isExplicit := v.isExplicit)
            && v.refcount.Keys == g.ifs.Keys
            && forall x :: (x in g.ifs ==>
                 v.refcount[x] == match Lookup(state, x) case Some(r) => r.refcount case None => w.refcount[x])
                 && (x in v.isExplicit <==> match Lookup(state, x) case Some(r) => r.isExplicit case None => x in w.isExplicit)
    decreases |state|
  {
    if state != [] {
      var r := state[0].rec;
      assert state[0] in state;
      assert forall e :: e in state[1..] ==> e in state;
      var w1 := w.(refcount := w.refcount[r.mapped := r.refcount],
                   isExplicit := if r.isExplicit then w.isExplicit + {r.mapped} else w.isExplicit - {r.mapped});
      assert w1.refcount.Keys == g.ifs.Keys;
      SyncEffect(g, state[1..], w1);
      LookupAbsent(state[1..], state[0].key);
    }
  }
}
