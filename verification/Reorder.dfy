/** Re-linking the collection in place, in order of depth, through a temporary list. */
module Reorder {
  import opened Interfaces
  import opened LinkedLists
  import opened Sequences
  import opened StableSort

  type Item = Node<Interface>
  type Item? = Node?<Interface>

  method MaxDepth(collection: List<Interface>) returns (maxdepth: nat)
    requires collection.Valid()
    ensures forall n :: n in collection.nodes ==> n.data.rdependsCount <= maxdepth
    ensures maxdepth == 0 || exists n :: n in collection.nodes && n.data.rdependsCount == maxdepth
  {
    maxdepth := 0;
    var iter := collection.head;
    ghost var i := 0;
    while iter != null
      invariant i <= |collection.nodes| && iter == List.At(collection.nodes, i)
      invariant forall n :: n in collection.nodes[..i] ==> n.data.rdependsCount <= maxdepth
      invariant maxdepth == 0 || exists n :: n in collection.nodes && n.data.rdependsCount == maxdepth
      decreases |collection.nodes| - i
    {
      assert collection.nodes[..i + 1] == collection.nodes[..i] + [iter];
      if iter.data.rdependsCount > maxdepth {
        maxdepth := iter.data.rdependsCount;
      }
      iter := iter.next;
      i := i + 1;
    }
  }

  ghost predicate Apart(a: List<Interface>, b: List<Interface>)
    reads a, b, a.Members(), b.Members()
  {
    a != b && a.Valid() && b.Valid() && a.Members() !! b.Members()
  }

  /** Delete the node at position k, clear it, and insert it at the head of the other list. */
  method Move(node: Item, from: List<Interface>, to: List<Interface>, ghost k: nat)
    requires Apart(from, to) && k < |from.nodes| && from.nodes[k] == node
    modifies from, to, from.Members() + to.Members()
    ensures Apart(from, to)
    ensures from.nodes == old(from.nodes)[..k] + old(from.nodes)[k + 1..]
    ensures to.nodes == [node] + old(to.nodes)
    ensures from.Members() + to.Members() == old(from.Members() + to.Members())
    ensures forall n :: n in old(from.Members() + to.Members()) ==> n.data == old(n.data)
  {
    var data := node.data;
    assert forall i :: 0 <= i < |to.nodes| ==> to.nodes[i] in to.Members();
    from.Delete(node, k);
    assert to.Valid();
    assert from.Members() == old(from.Members()) - {node} by {
      assert forall i :: 0 <= i < |old(from.nodes)| && i != k ==>
        old(from.nodes)[i] == if i < k then from.nodes[i] else from.nodes[i - 1];
    }
    node.Unlink();
    assert to.Valid() && from.Valid();
    to.Insert(node, data);
    assert to.Members() == old(to.Members()) + {node};
  }

  lemma DrainStep(all: seq<Item>, i: nat)
    requires i < |all|
    ensures all[i..][..0] + all[i..][1..] == all[i + 1..]
    ensures Reverse(all[..i + 1]) == [all[i]] + Reverse(all[..i])
  {
    assert all[..i + 1] == all[..i] + [all[i]];
    ReverseAppend(all[..i], all[i]);
  }

  method DrainOne(node: Item, collection: List<Interface>, temp: List<Interface>, ghost all: seq<Item>, ghost i: nat)
    returns (next: Item?)
    requires Apart(collection, temp) && i < |all| && node == all[i]
    requires collection.nodes == all[i..] && temp.nodes == Reverse(all[..i])
    modifies collection, temp, collection.Members() + temp.Members()
    ensures Apart(collection, temp) && next == List.At(all, i + 1)
    ensures collection.nodes == all[i + 1..] && temp.nodes == Reverse(all[..i + 1])
    ensures collection.Members() + temp.Members() == old(collection.Members() + temp.Members())
    ensures forall n :: n in old(collection.Members() + temp.Members()) ==> n.data == old(n.data)
  {
    assert collection.nodes[0] == node;
    next := node.next;
    DrainStep(all, i);
    Move(node, collection, temp, 0);
  }

  /** Move every node to the head of an empty list, which reverses the order. */
  method Drain(collection: List<Interface>, temp: List<Interface>)
    requires Apart(collection, temp) && temp.nodes == []
    modifies collection, collection.Members(), temp
    ensures Apart(collection, temp) && collection.nodes == []
    ensures temp.nodes == Reverse(old(collection.nodes)) && temp.Members() == old(collection.Members())
    ensures forall n :: n in old(collection.Members()) ==> n.data == old(n.data)
  {
    ghost var all := collection.nodes;
    var iter := collection.head;
    ghost var i := 0;
    while iter != null
      invariant i <= |all| && iter == List.At(all, i) && Apart(collection, temp)
      invariant collection.nodes == all[i..] && temp.nodes == Reverse(all[..i])
      invariant collection.Members() + temp.Members() == old(collection.Members())
      invariant forall n :: n in old(collection.Members()) ==> n.data == old(n.data)
      decreases |all| - i
    {
      iter := DrainOne(iter, collection, temp, all, i);
      i := i + 1;
    }
    assert all[..i] == all;
  }

  /** What has been kept, and what has been taken, when the first k nodes are done. */
  ghost predicate Sifted(t: seq<Item>, k: nat, depth: Item -> nat, d: nat, kept: seq<Item>, taken: seq<Item>) {
    k <= |t| && kept == Upto(t[..k], depth, d - 1) && taken == Reverse(Layer(t[..k], depth, d))
  }

  lemma SiftStep(t: seq<Item>, k: nat, depth: Item -> nat, d: nat, kept: seq<Item>, taken: seq<Item>)
    requires Sifted(t, k, depth, d, kept, taken) && k < |t| && depth(t[k]) <= d
    ensures if depth(t[k]) == d then Sifted(t, k + 1, depth, d, kept, [t[k]] + taken)
            else Sifted(t, k + 1, depth, d, kept + [t[k]], taken)
  {
    assert t[..k + 1] == t[..k] + [t[k]];
    UptoAppend(t[..k], [t[k]], depth, d - 1);
    LayerAppend(t[..k], [t[k]], depth, d);
    ReverseAppend(Layer(t[..k], depth, d), t[k]);
    assert Upto([t[k]], depth, d - 1) == if depth(t[k]) <= d - 1 then [t[k]] else [];
    assert Layer([t[k]], depth, d) == if depth(t[k]) == d then [t[k]] else [];
    assert Layer(t[..k], depth, d) + [] == Layer(t[..k], depth, d);
    assert kept + [] == kept;
  }

  lemma DropKept(kept: seq<Item>, t: seq<Item>, k: nat)
    requires k < |t|
    ensures var u := kept + t[k..];
            u[..|kept|] + u[|kept| + 1..] == kept + t[k + 1..] && kept + [t[k]] + t[k + 1..] == u
  {
  }

  lemma SiftEnds(t: seq<Item>, depth: Item -> nat, d: nat, kept: seq<Item>, taken: seq<Item>)
    requires Sifted(t, |t|, depth, d, kept, taken)
    ensures kept + t[|t|..] == Upto(t, depth, d - 1) && taken == Reverse(Layer(t, depth, d))
    ensures Sifted(t, 0, depth, d, [], [])
  {
    assert t[..|t|] == t;
  }

  /** The node at position k of t, now at position |kept|: taken out if its depth is d. */
  method Sift(node: Item, temp: List<Interface>, collection: List<Interface>, d: nat, ghost depth: Item -> nat,
              ghost t: seq<Item>, ghost k: nat, ghost kept: seq<Item>, ghost taken: seq<Item>, ghost c: seq<Item>)
    returns (next: Item?, ghost kept': seq<Item>, ghost taken': seq<Item>)
    requires Apart(temp, collection) && k < |t| && node == t[k]
    requires temp.nodes == kept + t[k..] && collection.nodes == taken + c
    requires Sifted(t, k, depth, d, kept, taken) && depth(node) == node.data.rdependsCount <= d
    modifies temp, collection, temp.Members() + collection.Members()
    ensures Apart(temp, collection) && next == List.At(t, k + 1)
    ensures Sifted(t, k + 1, depth, d, kept', taken')
    ensures temp.nodes == kept' + t[k + 1..] && collection.nodes == taken' + c
    ensures temp.Members() + collection.Members() == old(temp.Members() + collection.Members())
    ensures forall n :: n in old(temp.Members() + collection.Members()) ==> n.data == old(n.data)
  {
    assert temp.nodes[|kept|] == node;
    next := node.next;
    assert next == List.At(t, k + 1);
    DropKept(kept, t, k);
    SiftStep(t, k, depth, d, kept, taken);
    kept', taken' := kept + [t[k]], taken;
    if node.data.rdependsCount == d {
      Move(node, temp, collection, |kept|);
      kept', taken' := kept, [t[k]] + taken;
      Reassociate([t[k]], taken, c);
    }
  }

  /** Move the nodes of one depth to the head of the collection. */
  method MoveLayer(temp: List<Interface>, collection: List<Interface>, d: nat, ghost depth: Item -> nat)
    requires Apart(temp, collection)
    requires forall n :: n in temp.Members() ==> depth(n) == n.data.rdependsCount <= d
    modifies temp, collection, temp.Members() + collection.Members()
    ensures Apart(temp, collection)
    ensures temp.nodes == Upto(old(temp.nodes), depth, d - 1)
    ensures collection.nodes == Reverse(Layer(old(temp.nodes), depth, d)) + old(collection.nodes)
    ensures temp.Members() + collection.Members() == old(temp.Members() + collection.Members())
    ensures forall n :: n in old(temp.Members() + collection.Members()) ==> n.data == old(n.data)
  {
    ghost var t, c, kept, taken := temp.nodes, collection.nodes, [], [];
    ghost var members := temp.Members() + collection.Members();
    var iter := temp.head;
    ghost var k := 0;
    while iter != null
      invariant Sifted(t, k, depth, d, kept, taken)
      invariant iter == List.At(t, k) && Apart(temp, collection)
      invariant temp.nodes == kept + t[k..] && collection.nodes == taken + c
      invariant temp.Members() + collection.Members() == members
      invariant forall n :: n in members ==> n.data == old(n.data)
      decreases |t| - k
    {
      assert t[k] in old(temp.Members()) && t[k] in members && t[k].data == old(t[k].data);
      assert depth(t[k]) == old(t[k].data.rdependsCount) <= d;
      iter, kept, taken := Sift(iter, temp, collection, d, depth, t, k, kept, taken, c);
      k := k + 1;
    }
    assert k == |t|;
    SiftEnds(t, depth, d, kept, taken);
  }

  /** From the deepest layer up, move every layer to the head of the collection. */
  method Refill(temp: List<Interface>, collection: List<Interface>, maxdepth: nat, ghost all: seq<Item>,
                ghost depth: Item -> nat)
    requires Apart(temp, collection) && collection.nodes == [] && temp.nodes == Reverse(all)
    requires forall n :: n in temp.Members() ==> depth(n) == n.data.rdependsCount <= maxdepth
    modifies temp, collection, temp.Members() + collection.Members()
    ensures Apart(temp, collection)
    ensures collection.nodes == Layers(all, depth, 0, maxdepth) && collection.Members() == old(temp.Members())
    ensures forall n :: n in old(temp.Members()) ==> n.data == old(n.data)
  {
    UptoAll(Reverse(all), depth, maxdepth);
    var d: int := maxdepth;
    while d > -1
      invariant -1 <= d <= maxdepth && Apart(temp, collection)
      invariant temp.nodes == Upto(Reverse(all), depth, d)
      invariant collection.nodes == Layers(all, depth, d + 1, maxdepth)
      invariant temp.Members() + collection.Members() == old(temp.Members())
      invariant forall n :: n in old(temp.Members()) ==> n.data == old(n.data)
    {
      LayerTurn(all, depth, d);
      MoveLayer(temp, collection, d, depth);
      d := d - 1;
    }
    UptoNone(Reverse(all), depth);
  }

  /** Re-link the collection in ascending order of depth: the same nodes with the same data,
      equal depths in their old order. Depths themselves are not touched. */
  method ReorderByDepth(collection: List<Interface>, ghost depth: Item -> nat) returns (maxdepth: nat)
    requires collection.Valid()
    requires forall n :: n in collection.Members() ==> depth(n) == n.data.rdependsCount
    modifies collection, collection.Members()
    ensures collection.Valid() && collection.Members() == old(collection.Members())
    ensures forall n :: n in old(collection.Members()) ==> n.data == old(n.data) && depth(n) <= maxdepth
    ensures collection.nodes == Layers(old(collection.nodes), depth, 0, maxdepth)
  {
    maxdepth := MaxDepth(collection);
    ghost var all := collection.nodes;
    var temp := new List<Interface>();
    Drain(collection, temp);
    Refill(temp, collection, maxdepth, all, depth);
  }

  /** One turn of the loop: what is left loses layer d, which turns around once more. */
  lemma LayerTurn(all: seq<Item>, depth: Item -> nat, d: nat)
    ensures Upto(Upto(Reverse(all), depth, d), depth, d - 1) == Upto(Reverse(all), depth, d - 1)
    ensures Reverse(Layer(Upto(Reverse(all), depth, d), depth, d)) == Layer(all, depth, d)
    ensures forall n :: n in Upto(Reverse(all), depth, d) ==> depth(n) <= d
  {
    UptoUpto(Reverse(all), depth, d);
    LayerReverse(all, depth, d);
    ReverseTwice(Layer(all, depth, d));
    forall n | n in Upto(Reverse(all), depth, d)
      ensures depth(n) <= d
    {
      UptoMember(Reverse(all), depth, d, n);
    }
  }
}
