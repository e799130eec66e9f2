/** One run of the program, from the parsed configuration and the state file to the state file,
    and one run after the other. */
module Program {
  import opened Graphs
  import opened Worlds
  import opened Interfaces
  import opened LinkedLists
  import opened StableSort
  import opened StateDicts
  import opened LineReader
  import opened StateFile
  import opened Settling
  import opened AutoTeardown
  import opened Growth
  import opened Loading
  import DependencyPass
  import Engine

  // --- the list of the collection ----------------------------------------------------------

  /** One more interface at the end of the list. */
  method AddInterface(session: Engine.Session, list: List<Interface>, x: Name, ghost names: seq<Name>)
    requires list.Valid() && DependencyPass.Lists(session, list, names) && x in session.collection
    modifies list, list.Members()
    ensures list.Valid() && DependencyPass.Lists(session, list, names + [x])
    ensures fresh(list.Members() - old(list.Members()))
  {
    var iface := session.collection[x];
    var node := new Node<Interface>(iface);
    ghost var nodes := list.nodes;
    assert forall i :: 0 <= i < |nodes| ==> nodes[i] in list.Members();
    list.InsertTail(node, iface);
    assert list.nodes == nodes + [node];
    assert list.Members() == old(list.Members()) + {node};
  }

  /** The collection as a list, in the order of the process. */
  method MakeList(session: Engine.Session) returns (list: List<Interface>)
    requires session.Valid()
    ensures fresh(list) && fresh(list.Members()) && list.Valid()
    ensures DependencyPass.Lists(session, list, session.order)
  {
    list := new List<Interface>();
    assert forall i :: 0 <= i < |session.order| ==> session.order[i] in session.collection by {
      session.OrderInside();
    }
    for i := 0 to |session.order|
      invariant fresh(list) && fresh(list.Members()) && list.Valid()
      invariant DependencyPass.Lists(session, list, session.order[..i])
    {
      AddInterface(session, list, session.order[i], session.order[..i]);
      assert session.order[..i + 1] == session.order[..i] + [session.order[i]];
    }
    assert session.order[..|session.order|] == session.order;
  }

  /** The names of the interfaces that the list holds, in its order. */
  method ReadNames(session: Engine.Session, list: List<Interface>, ghost names: seq<Name>) returns (order: seq<Name>)
    requires session.Valid() && list.Valid() && DependencyPass.Lists(session, list, names)
    ensures order == names
  {
    order := [];
    var iter := list.head;
    while iter != null
      invariant |order| <= |names| && iter == List.At(list.nodes, |order|) && order == names[..|order|]
      decreases |names| - |order|
    {
      assert iter == list.nodes[|order|];
      order := order + [iter.data.ifname];
      iter := iter.next;
    }
  }

  // --- what can be read back -----------------------------------------------------------------

  /** Names that a line of the state file can carry, twice, with any count. */
  predicate NamePrintable(x: Name) {
    Printable(x) && '=' !in x && 2 * |x| <= Tokenizer.BUFFER_LEN - 40
  }

  ghost predicate NamesPrintable(g: Graph) {
    forall x :: x in g.ifs ==> NamePrintable(x)
  }

  ghost predicate CountsPrintable(g: Graph, w: World) {
    forall x :: x in g.ifs && x in w.refcount ==> w.refcount[x] < ULONG_MAX
  }

  /** Under printable names and bounded counts, what is written can be read. */
  lemma StatePrintable(g: Graph, w: World)
    requires Coherent(g, w) && NamesPrintable(g) && CountsPrintable(g, w)
    ensures PrintableEntries(w.state)
  {
    forall e | e in w.state
      ensures PrintableEntry(e)
    {
      LookupEntry(w.state, e);
      EntryPrintable(e);
    }
  }

  lemma EntryPrintable(e: Entry)
    requires NamePrintable(e.key) && e.rec.mapped == e.key && 0 < e.rec.refcount < ULONG_MAX
    ensures PrintableEntry(e)
  {
    DecimalShort(e.rec.refcount);
  }

  // --- one process -------------------------------------------------------------------------

  /** The dependency pass on the objects of a process. */
  method SortCollection(session: Engine.Session, broken: set<Name>, ghost c: Graph) returns (order: seq<Name>)
    requires session.Ready() && session.Raw() == c && session.PendingNames() == {}
    requires session.Depths() == Depth.Uncounted(c) && Depth.Pass(c, broken, Depth.Uncounted(c), c.order).ok
    modifies session.collection.Values`isPending, session.collection.Values`rdependsCount
    ensures session.W() == old(session.W()) && order == SortedOrder(c, broken)
  {
    var list := MakeList(session);
    DependencyPass.SessionKept(session);
    order := SortAndRead(session, broken, list, c);
  }

  method SortAndRead(session: Engine.Session, broken: set<Name>, list: List<Interface>, ghost c: Graph)
    returns (order: seq<Name>)
    requires session.Ready() && session.Raw() == c && session.PendingNames() == {}
    requires session.Depths() == Depth.Uncounted(c) && Depth.Pass(c, broken, Depth.Uncounted(c), c.order).ok
    requires list.Valid() && DependencyPass.Lists(session, list, c.order)
    modifies session.collection.Values`isPending, session.collection.Values`rdependsCount, list, list.Members()
    ensures session.W() == old(session.W()) && order == SortedOrder(c, broken)
  {
    var ok, maxdepth := DependencyPass.CountRdepends(session, list, broken);
    label sorted:
    assert ok && session.Depths() == Depth.Pass(c, broken, Depth.Uncounted(c), c.order).count;
    ListsSorted(session, list, broken, c, maxdepth);
    order := ReadNames(session, list, SortedOrder(c, broken));
    DependencyPass.SessionKept@sorted(session);
  }

  lemma ListsSorted(session: Engine.Session, list: List<Interface>, broken: set<Name>, c: Graph, maxdepth: nat)
    requires DependencyPass.Lists(session, list, Layers(c.order, Depths(c, broken), 0, maxdepth))
    requires forall x :: x in c.order ==> Depths(c, broken)(x) <= maxdepth
    ensures DependencyPass.Lists(session, list, SortedOrder(c, broken))
  {
    LayersAnyBound(c.order, Depths(c, broken), maxdepth);
  }

  /** A process whose configuration and records are loaded. */
  method RunLoaded(c: Graph, broken: set<Name>, records: seq<Entry>, cmd: Collector.Command,
                   executor: Engine.Executor, ghost g: Graph, ghost w: World)
    returns (after: string, ok: bool)
    requires g.ifs == c.ifs && g.order == SortedOrder(c, broken) && Depth.Pass(c, broken, Depth.Uncounted(c), c.order).ok
    requires Coherent(g, w) && w.state == records && w.trace == executor.history
    modifies executor
    ensures var s := Collector.Execute(g, w, cmd, executor.outcome);
            after == Render(s.w.state) && ok == s.ok && executor.history == s.w.trace
  {
    var session := Engine.StartSession(c, records, executor, w);
    var order := SortCollection(session, broken, c);
    var sorted := Engine.Reordered(session, order, g);
    ok := Engine.Process(sorted, cmd, g, w);
    after := WriteState(sorted.state.entries);
  }

  /** Read the state file, close and sort the collection, do what was asked, write the state
      file. If an executor cannot tell its dependencies, the process fails and writes nothing;
      otherwise the text left behind is that of the world the command leads to, whether or not
      the command succeeds. */
  method Run(u: Graph, broken: set<Name>, known: seq<Name>, text: string, cmd: Collector.Command,
             executor: Engine.Executor, ghost w: World)
    returns (after: string, ok: bool)
    requires Inside(u, known) && (Loads(u, broken, known) ==> Coherent(LoadedGraph(u, broken, known), w))
    requires w.trace == executor.history && text == Render(w.state) && UniqueKeys(w.state) && PrintableEntries(w.state)
    modifies executor
    ensures !Loads(u, broken, known) ==> after == text && !ok && executor.history == old(executor.history)
    ensures Loads(u, broken, known) ==>
              var s := Collector.Execute(LoadedGraph(u, broken, known), w, cmd, executor.outcome);
              after == Render(s.w.state) && ok == s.ok && executor.history == s.w.trace
  {
    var stream := new Stream(text);
    var dict := new StateDict([]);
    ReadState(dict, stream, w.state);
    if !Loads(u, broken, known) {
      return text, false;
    }
    var c := ClosedGraph(u, broken, known);
    after, ok := RunLoaded(c, broken, dict.entries, cmd, executor, LoadedGraph(u, broken, known), w);
  }

  // --- one process after the other -----------------------------------------------------------

  /** Every state along the way can be written and read. */
  ghost predicate BoundedRun(g: Graph, w: World, cmds: seq<Collector.Command>, ok: Outcome)
    requires Coherent(g, w)
    decreases |cmds|
  {
    CountsPrintable(g, w) && (cmds != [] ==> BoundedRun(g, Collector.Execute(g, w, cmds[0], ok).w, cmds[1..], ok))
  }

  /** Any sequence of processes, each reading the text its predecessor wrote. */
  method RunAll(u: Graph, broken: set<Name>, known: seq<Name>, text: string, cmds: seq<Collector.Command>,
                executor: Engine.Executor, ghost w: World)
    returns (after: string)
    requires Inside(u, known) && Loads(u, broken, known) && NamesPrintable(LoadedGraph(u, broken, known))
    requires Coherent(LoadedGraph(u, broken, known), w) && w.trace == executor.history && text == Render(w.state)
    requires BoundedRun(LoadedGraph(u, broken, known), w, cmds, executor.outcome)
    modifies executor
    ensures after == Render(Collector.ExecuteAll(LoadedGraph(u, broken, known), w, cmds, executor.outcome).state)
  {
    ghost var g, outcome := LoadedGraph(u, broken, known), executor.outcome;
    ghost var v := w;
    after := text;
    var i := 0;
    while i < |cmds|
      invariant i <= |cmds| && Coherent(g, v) && v.trace == executor.history && after == Render(v.state)
      invariant BoundedRun(g, v, cmds[i..], outcome)
      invariant Collector.ExecuteAll(g, v, cmds[i..], outcome) == Collector.ExecuteAll(g, w, cmds, outcome)
    {
      assert cmds[i..][0] == cmds[i] && cmds[i..][1..] == cmds[i + 1..];
      StatePrintable(g, v);
      var ok;
      after, ok := Run(u, broken, known, after, cmds[i], executor, v);
      v := Collector.Execute(g, v, cmds[i], outcome).w;
      i := i + 1;
    }
  }

  /** After a successful `ifdown -a` on an acyclic configuration the state file is empty. */
  lemma EmptyAfterDownAll(u: Graph, broken: set<Name>, known: seq<Name>, w: World, ok: Outcome)
    requires Inside(u, known) && Loads(u, broken, known)
    requires var g := LoadedGraph(u, broken, known);
             && Settled(g, w) && RootsAuto(g, w) && Acyclic(g)
             && Collector.Execute(g, w, Collector.IfDownAuto(g.ifs.Keys), ok).ok
    ensures var g := LoadedGraph(u, broken, known);
            Render(Collector.Execute(g, w, Collector.IfDownAuto(g.ifs.Keys), ok).w.state) == ""
  {
    IfDownAutoComplete(LoadedGraph(u, broken, known), w, ok);
  }

  /** Where moreover no interface has two requirers, it overruns no holder on the way. */
  lemma ForestDownAll(u: Graph, broken: set<Name>, known: seq<Name>, w: World, ok: Outcome)
    requires Inside(u, known) && Loads(u, broken, known)
    requires var c := ClosedGraph(u, broken, known);
             Depth.Forest(c) && Depth.NoLoops(c) && forall p :: p in c.ifs ==> p !in c.ifs[p].required
    requires var g := LoadedGraph(u, broken, known);
             && Settled(g, w) && RootsAuto(g, w)
             && Collector.Execute(g, w, Collector.IfDownAuto(g.ifs.Keys), ok).ok
    ensures var g := LoadedGraph(u, broken, known);
            && Collector.TameCommand(g, w, Collector.IfDownAuto(g.ifs.Keys), ok)
            && Render(Collector.Execute(g, w, Collector.IfDownAuto(g.ifs.Keys), ok).w.state) == ""
  {
    var g := LoadedGraph(u, broken, known);
    ForestLoads(u, broken, known);
    RequirersFirstOrders(g, w);
    IfDownAutoTameIff(g, w, ok);
    IfDownAutoComplete(g, w, ok);
  }
}
