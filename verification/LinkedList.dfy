/** The doubly linked list under every dictionary, with its head, tail and length. */
module LinkedLists {

  class Node<T> {
    var prev: Node?<T>
    var next: Node?<T>
    var data: T

    constructor (data: T)
      ensures prev == null && next == null && this.data == data
    {
      prev := null;
      next := null;
      this.data := data;
    }

    /** What clearing the node's memory does to its links. */
    method Unlink()
      modifies this
      ensures prev == null && next == null && data == old(data)
    {
      prev := null;
      next := null;
    }
  }

  class List<T> {
    var head: Node?<T>
    var tail: Node?<T>
    var length: nat
    ghost var nodes: seq<Node<T>>

    ghost function Members(): set<Node<T>>
      reads this
    {
      set n | n in nodes
    }

    ghost predicate Valid()
      reads this, Members()
    {
      && length == |nodes|
      && (forall i, j :: 0 <= i < j < |nodes| ==> nodes[i] != nodes[j])
      && head == (if nodes == [] then null else nodes[0])
      && tail == (if nodes == [] then null else nodes[|nodes| - 1])
      && (forall i {:trigger nodes[i].prev} :: 0 <= i < |nodes| ==> nodes[i].prev == At(nodes, i - 1))
      && (forall i {:trigger nodes[i].next} :: 0 <= i < |nodes| ==> nodes[i].next == At(nodes, i + 1))
    }

    static ghost function At(s: seq<Node<T>>, i: int): Node?<T> {
      if 0 <= i < |s| then s[i] else null
    }

    constructor ()
      ensures Valid() && nodes == []
    {
      head := null;
      tail := null;
      length := 0;
      nodes := [];
    }

    /** Insert a cleared node at the head. */
    method Insert(node: Node<T>, data: T)
      requires Valid() && node !in nodes && node.prev == null && node.next == null
      modifies this, Members(), node
      ensures Valid() && nodes == [node] + old(nodes)
      ensures node.data == data && forall n :: n in old(nodes) ==> n.data == old(n.data)
    {
      node.data := data;
      if head == null {
        head := node;
        tail := node;
        length := 1;
        nodes := [node];
        return;
      }
      node.next := head;
      head.prev := node;
      head := node;
      length := length + 1;
      nodes := [node] + nodes;
    }

    /** Insert a cleared node at the tail. */
    method InsertTail(node: Node<T>, data: T)
      requires Valid() && node !in nodes && node.prev == null && node.next == null
      modifies this, Members(), node
      ensures Valid() && nodes == old(nodes) + [node]
      ensures node.data == data && forall n :: n in old(nodes) ==> n.data == old(n.data)
    {
      node.data := data;
      if tail == null {
        head := node;
        tail := node;
        length := 1;
        nodes := [node];
        return;
      }
      node.prev := tail;
      tail.next := node;
      tail := node;
      length := length + 1;
      nodes := nodes + [node];
    }

    /** Lead the links of its neighbours, or head and tail, around the node at position k. */
    method Bypass(node: Node<T>, ghost k: nat)
      requires Valid() && k < |nodes| && nodes[k] == node
      modifies this`head, this`tail, Members()
      ensures head == (if k == 0 then At(nodes, 1) else nodes[0])
      ensures tail == (if k == |nodes| - 1 then At(nodes, k - 1) else nodes[|nodes| - 1])
      ensures forall i {:trigger nodes[i].prev} :: 0 <= i < |nodes| && i != k ==>
                nodes[i].prev == if i == k + 1 then At(nodes, k - 1) else At(nodes, i - 1)
      ensures forall i {:trigger nodes[i].next} :: 0 <= i < |nodes| && i != k ==>
                nodes[i].next == if i == k - 1 then At(nodes, k + 1) else At(nodes, i + 1)
      ensures forall n :: n in nodes ==> n.data == old(n.data)
    {
      assert node.prev == At(nodes, k - 1) && node.next == At(nodes, k + 1);
      if node.prev == null {
        head := node.next;
      } else {
        node.prev.next := node.next;
      }
      if node.next == null {
        tail := node.prev;
      } else {
        node.next.prev := node.prev;
      }
    }

    /** Take the node at position k out; its own links stay as they were. */
    method Delete(node: Node<T>, ghost k: nat)
      requires Valid() && k < |nodes| && nodes[k] == node
      modifies this, Members()
      ensures Valid() && nodes == old(nodes)[..k] + old(nodes)[k + 1..]
      ensures forall n :: n in old(nodes) ==> n.data == old(n.data)
    {
      Bypass(node, k);
      length := length - 1;
      nodes := nodes[..k] + nodes[k + 1..];
      assert forall i :: 0 <= i < |nodes| ==> nodes[i] == old(nodes)[if i < k then i else i + 1];
    }
  }
}
