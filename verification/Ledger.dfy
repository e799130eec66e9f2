/** The conservation laws that every successful run keeps. */
module Ledger {
  import opened Graphs
  import opened Worlds

  /** The conservation ledger. A count is the interface's own reference plus one for every
      effective edge from a configured interface. In the middle of a run the interfaces on
      the recursion stack have taken, or already released, some of their edges. */
  ghost predicate Balanced(g: Graph, w: World, taken: multiset<Name>, released: multiset<Name>)
    requires Fits(g, w)
  {
    forall x :: x in g.ifs ==>
      w.refcount[x] + released[x]
      == (if x in w.configured then 1 else 0) + Owed(g, w.configured)[x] + taken[x]
  }

  /** Requirements of a configured interface are configured, or wait on the stack. */
  ghost predicate Supplied(g: Graph, configured: set<Name>, waiting: set<Name>) {
    forall q, c :: q in configured && Edge(g, q, c) ==> c in configured || c in waiting
  }

  ghost predicate Healthy(g: Graph, configured: set<Name>) {
    forall x :: x in configured && x in g.ifs ==> !g.ifs[x].hasConfigError && !g.ifs[x].isTemplate
  }

  /** Every configured interface that is not a root is held by somebody else. */
  ghost predicate Held(g: Graph, w: World, roots: set<Name>)
    requires Fits(g, w)
  {
    forall x :: x in w.configured && x !in roots ==> w.refcount[x] >= 2
  }

  /** An interface is referenced exactly while it is configured. */
  ghost predicate Alive(g: Graph, w: World)
    requires Fits(g, w)
  {
    forall x :: x in g.ifs ==> (w.refcount[x] > 0 <==> x in w.configured)
  }

  lemma MultisetCons(c: Name, rest: seq<Name>, m: multiset<Name>)
    ensures m + multiset([c] + rest) == m + multiset{c} + multiset(rest)
  {
  }
}
