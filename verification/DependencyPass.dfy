/** The dependency pass of a process: count the depths, then re-link the collection by depth. */
module DependencyPass {
  import opened Graphs
  import opened Interfaces
  import opened LinkedLists
  import opened StableSort
  import opened Reorder
  import DepthOrder
  import Worlds
  import Engine

  /** The list holds the interfaces of the process, in the order of these names. */
  ghost predicate Lists(session: Engine.Session, list: List<Interface>, names: seq<Name>)
    reads list, list.Members()
  {
    && |names| == |list.nodes|
    && forall i :: 0 <= i < |names| ==>
         names[i] in session.collection && list.nodes[i].data == session.collection[names[i]]
  }

  /** The name of every node, as it is now. */
  ghost function NamesNow(list: List<Interface>): map<Item, Name>
    reads list, list.Members()
  {
    map n | n in list.Members() :: n.data.ifname
  }

  ghost function Named(names: map<Item, Name>): Item -> Name {
    n => if n in names then names[n] else ""
  }

  lemma ListNames(session: Engine.Session, list: List<Interface>, order: seq<Name>)
    requires session.Valid() && Lists(session, list, order)
    ensures Renamed(list.nodes, Named(NamesNow(list))) == order
  {
    RenamedAt(list.nodes, Named(NamesNow(list)));
    assert forall i :: 0 <= i < |list.nodes| ==> list.nodes[i] in list.Members();
  }

  ghost function FacesNow(list: List<Interface>): map<Item, Interface>
    reads list, list.Members()
  {
    map n | n in list.Members() :: n.data
  }

  /** Every node holds the interface that the process knows under its name. */
  ghost predicate Known(session: Engine.Session, names: map<Item, Name>, faces: map<Item, Interface>) {
    forall n :: n in faces ==> n in names && names[n] in session.collection && faces[n] == session.collection[names[n]]
  }

  lemma KnownNow(session: Engine.Session, list: List<Interface>, order: seq<Name>)
    requires session.Valid() && Lists(session, list, order)
    ensures Known(session, NamesNow(list), FacesNow(list))
  {
    forall n | n in list.Members()
      ensures n.data.ifname in session.collection && n.data == session.collection[n.data.ifname]
    {
      var i :| 0 <= i < |list.nodes| && list.nodes[i] == n;
    }
  }

  /** The nodes, now in another order, list the names in that order. */
  lemma NamesList(session: Engine.Session, list: List<Interface>, names: map<Item, Name>, faces: map<Item, Interface>)
    requires Known(session, names, faces) && FacesNow(list) == faces
    ensures Lists(session, list, Renamed(list.nodes, Named(names)))
  {
    RenamedAt(list.nodes, Named(names));
    forall i | 0 <= i < |list.nodes|
      ensures list.nodes[i] in faces && list.nodes[i].data == faces[list.nodes[i]]
    {
      assert list.nodes[i] in FacesNow(list);
    }
  }

  ghost predicate Measured(list: List<Interface>, names: map<Item, Name>, byName: Name -> nat)
    reads list, list.Members(), set n | n in list.Members() :: n.data
  {
    forall n :: n in list.Members() ==> byName(Named(names)(n)) == n.data.rdependsCount
  }

  /** The sort by the depths of names. */
  method SortByNames(list: List<Interface>, ghost names: map<Item, Name>,
                     ghost byName: Name -> nat, ghost order: seq<Name>)
    returns (maxdepth: nat)
    requires list.Valid() && Renamed(list.nodes, Named(names)) == order && Measured(list, names, byName)
    modifies list, list.Members()
    ensures list.Valid() && FacesNow(list) == old(FacesNow(list))
    ensures Renamed(list.nodes, Named(names)) == Layers(order, byName, 0, maxdepth)
    ensures forall x :: x in order ==> byName(x) <= maxdepth
  {
    ghost var depth: Item -> nat := n => byName(Named(names)(n));
    ghost var nodes := list.nodes;
    maxdepth := ReorderByDepth(list, depth);
    LayersRenamed(nodes, Named(names), depth, byName, 0, maxdepth);
    RenamedBound(nodes, Named(names), depth, byName, maxdepth);
  }

  lemma RenamedBound(nodes: seq<Item>, name: Item -> Name, depth: Item -> nat, byName: Name -> nat, maxdepth: nat)
    requires forall n :: n in nodes ==> depth(n) == byName(name(n)) && depth(n) <= maxdepth
    ensures forall x :: x in Renamed(nodes, name) ==> byName(x) <= maxdepth
  {
    RenamedAt(nodes, name);
    forall x | x in Renamed(nodes, name)
      ensures byName(x) <= maxdepth
    {
      var i :| 0 <= i < |nodes| && Renamed(nodes, name)[i] == x;
      assert nodes[i] in nodes;
    }
  }

  lemma MeasuredNow(session: Engine.Session, list: List<Interface>, order: seq<Name>)
    requires session.Valid() && Lists(session, list, order)
    ensures Measured(list, NamesNow(list), DepthOrder.DepthIn(session.Depths()))
  {
    forall n | n in list.Members()
      ensures n.data.ifname in session.collection && session.collection[n.data.ifname] == n.data
    {
      var i :| 0 <= i < |list.nodes| && list.nodes[i] == n;
    }
  }

  /** A process whose objects are as they were is where it was. */
  twostate lemma SessionKept(session: Engine.Session)
    requires unchanged(session) && unchanged(session.state) && unchanged(session.executor)
    requires forall n :: n in session.collection ==> unchanged(session.collection[n])
    ensures session.W() == old(session.W()) && session.Depths() == old(session.Depths())
  {
    assert forall n :: n in session.collection ==> session.Depths()[n] == old(session.Depths())[n];
  }

  /** Re-linking touches nodes only. */
  method SortList(session: Engine.Session, list: List<Interface>, ghost count: map<Name, nat>) returns (maxdepth: nat)
    requires session.Valid() && list.Valid() && Lists(session, list, session.order) && count == session.Depths()
    modifies list, list.Members()
    ensures list.Valid() && Lists(session, list, Layers(session.order, DepthOrder.DepthIn(count), 0, maxdepth))
    ensures forall x :: x in session.order ==> DepthOrder.DepthIn(count)(x) <= maxdepth
  {
    ghost var names, faces := NamesNow(list), FacesNow(list);
    ListNames(session, list, session.order);
    KnownNow(session, list, session.order);
    MeasuredNow(session, list, session.order);
    maxdepth := SortByNames(list, names, DepthOrder.DepthIn(count), session.order);
    NamesList(session, list, names, faces);
  }

  method SortKeeping(session: Engine.Session, list: List<Interface>, ghost w: Worlds.World, ghost count: map<Name, nat>)
    returns (maxdepth: nat)
    requires session.Valid() && list.Valid() && Lists(session, list, session.order)
    requires session.W() == w && session.Depths() == count
    modifies list, list.Members()
    ensures session.W() == w && session.Depths() == count && list.Valid()
    ensures Lists(session, list, Layers(session.order, DepthOrder.DepthIn(count), 0, maxdepth))
    ensures forall x :: x in session.order ==> DepthOrder.DepthIn(count)(x) <= maxdepth
  {
    maxdepth := SortList(session, list, count);
    SessionKept(session);
  }

  /** The whole pass. A failed count leaves the list alone; otherwise the list holds the same
      interfaces, sorted by the depths the walk counted. Nothing else of the process changes. */
  method CountRdepends(session: Engine.Session, list: List<Interface>, broken: set<Name>)
    returns (ok: bool, maxdepth: nat)
    requires session.Ready() && session.PendingNames() == {} && list.Valid() && Lists(session, list, session.order)
    modifies session.collection.Values`isPending, session.collection.Values`rdependsCount, list, list.Members()
    ensures session.W() == old(session.W()) && list.Valid()
    ensures var r := session.Counting(broken, old(session.Depths())); ok == r.ok && session.Depths() == r.count
    ensures !ok ==> list.nodes == old(list.nodes) && Lists(session, list, session.order)
    ensures ok ==> Lists(session, list, Layers(session.order, DepthOrder.DepthIn(session.Depths()), 0, maxdepth))
    ensures ok ==> forall x :: x in session.order ==> DepthOrder.DepthIn(session.Depths())(x) <= maxdepth
  {
    ghost var w := session.W();
    ok := session.CountAll(broken);
    ghost var count := session.Depths();
    maxdepth := 0;
    if !ok {
      return;
    }
    maxdepth := SortKeeping(session, list, w, count);
  }
}
