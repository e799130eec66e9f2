/** What a run of ifup or ifdown changes: reference counts, flags, the state dictionary,
    and the history of executed phases. */
module Worlds {
  import opened Graphs

  datatype Record = Record(mapped: Name, refcount: nat, isExplicit: bool)
  datatype Entry = Entry(key: Name, rec: Record)
  datatype Option<T> = None | Some(value: T)

  datatype Phase = Create | PreUp | Up | PostUp | PreDown | Down | PostDown | Destroy
  datatype Event = Event(iface: Name, phase: Phase)

  /** Whether the last phase of a history succeeds: an arbitrary environment. */
  type Outcome = seq<Event> -> bool

  /** `configured` holds the interfaces that completed their own bring-up and not their own
      teardown; no branch of the program reads it. */
  datatype World = World(
    refcount: map<Name, nat>,
    isExplicit: set<Name>,
    isPending: set<Name>,
    configured: set<Name>,
    state: seq<Entry>,
    trace: seq<Event>)

  datatype Step = Step(w: World, ok: bool)

  ghost predicate Fits(g: Graph, w: World) {
    && w.refcount.Keys == g.ifs.Keys
    && w.isPending <= g.ifs.Keys
    && w.configured <= g.ifs.Keys
  }

  // --- the state dictionary --------------------------------------------------------

  function Lookup(state: seq<Entry>, key: Name): Option<Record> {
    if state == [] then None
    else if state[0].key == key then Some(state[0].rec)
    else Lookup(state[1..], key)
  }

  function Delete(state: seq<Entry>, key: Name): seq<Entry> {
    if state == [] then []
    else if state[0].key == key then state[1..]
    else [state[0]] + Delete(state[1..], key)
  }

  function Upsert(state: seq<Entry>, key: Name, rec: Record): seq<Entry> {
    Delete(state, key) + [Entry(key, rec)]
  }

  ghost predicate UniqueKeys(state: seq<Entry>) {
    forall i, j :: 0 <= i < j < |state| ==> state[i].key != state[j].key
  }

  lemma {:induction false} LookupAbsent(state: seq<Entry>, key: Name)
    ensures Lookup(state, key) == None <==> forall e :: e in state ==> e.key != key
  {
    if state != [] {
      LookupAbsent(state[1..], key);
      assert state[0] in state;
      assert forall e :: e in state <==> e == state[0] || e in state[1..];
    }
  }

  /** The records under other keys, in order. */
  ghost function Others(state: seq<Entry>, key: Name): seq<Entry> {
    if state == [] then [] else (if state[0].key == key then [] else [state[0]]) + Others(state[1..], key)
  }

  lemma {:induction false} OthersAll(state: seq<Entry>, key: Name)
    requires forall e :: e in state ==> e.key != key
    ensures Others(state, key) == state
  {
    if state != [] {
      assert state[0] in state;
      OthersAll(state[1..], key);
    }
  }

  /** Deleting leaves the records under other keys in order. */
  lemma {:induction false} DeleteLeaves(state: seq<Entry>, key: Name)
    requires UniqueKeys(state)
    ensures Delete(state, key) == Others(state, key)
  {
    if state != [] {
      if state[0].key == key {
        OthersAll(state[1..], key);
      } else {
        DeleteLeaves(state[1..], key);
      }
    }
  }

  lemma {:induction false} DeleteEffect(state: seq<Entry>, key: Name)
    requires UniqueKeys(state)
    ensures UniqueKeys(Delete(state, key))
    ensures forall e :: e in Delete(state, key) <==> e in state && e.key != key
    ensures forall k :: Lookup(Delete(state, key), k) == if k == key then None else Lookup(state, k)
  {
    if state != [] {
      var rest := state[1..];
      assert forall e :: e in state <==> e == state[0] || e in rest;
      if state[0].key == key {
        LookupAbsent(rest, key);
      } else {
        DeleteEffect(rest, key);
        var d := Delete(rest, key);
        assert forall i :: 0 <= i < |d| ==> d[i] in rest;
      }
    }
  }

  lemma {:induction false} LookupAppend(state: seq<Entry>, key: Name, rec: Record, k: Name)
    requires Lookup(state, key) == None
    ensures Lookup(state + [Entry(key, rec)], k) == if k == key then Some(rec) else Lookup(state, k)
  {
    if state != [] {
      LookupAppend(state[1..], key, rec, k);
      assert (state + [Entry(key, rec)])[1..] == state[1..] + [Entry(key, rec)];
    }
  }

  /** An upsert leaves exactly one record under the key, last in the list, behind the others in
      their old order. */
  lemma UpsertEffect(state: seq<Entry>, key: Name, rec: Record)
    requires UniqueKeys(state)
    ensures Upsert(state, key, rec) == Others(state, key) + [Entry(key, rec)]
    ensures UniqueKeys(Upsert(state, key, rec))
    ensures forall k :: Lookup(Upsert(state, key, rec), k) == if k == key then Some(rec) else Lookup(state, k)
  {
    DeleteLeaves(state, key);
    DeleteEffect(state, key);
    var d := Delete(state, key);
    LookupAbsent(d, key);
    assert forall i :: 0 <= i < |d| ==> d[i] in d;
    forall k {
      LookupAppend(d, key, rec, k);
    }
  }

  // --- reference counting ----------------------------------------------------------

  function RecordOf(w: World, x: Name): Record
    requires x in w.refcount
  {
    Record(x, w.refcount[x], x in w.isExplicit)
  }

  /** Write the record of x from its current count and flag. */
  function Store(w: World, x: Name): World
    requires x in w.refcount
  {
    w.(state := Upsert(w.state, x, RecordOf(w, x)))
  }

  function Ref(w: World, x: Name): World
    requires x in w.refcount
  {
    Store(w.(refcount := w.refcount[x := w.refcount[x] + 1]), x)
  }

  function Unref(w: World, x: Name): World
    requires x in w.refcount
  {
    if w.refcount[x] == 0 then w
    else
      var v := w.(refcount := w.refcount[x := w.refcount[x] - 1]);
      if v.refcount[x] > 0 then Store(v, x) else v.(state := Delete(v.state, x))
  }

  /** The dictionary mirrors the counts: one record per counted interface, no other. */
  ghost predicate Mirrors(refcount: map<Name, nat>, isExplicit: set<Name>, state: seq<Entry>) {
    && UniqueKeys(state)
    && forall x :: Lookup(state, x) ==
                   if x in refcount && refcount[x] > 0 then Some(Record(x, refcount[x], x in isExplicit)) else None
  }

  ghost predicate Coherent(g: Graph, w: World) {
    Fits(g, w) && Mirrors(w.refcount, w.isExplicit, w.state)
  }

  lemma RefCoherent(g: Graph, w: World, x: Name)
    requires Coherent(g, w) && x in g.ifs
    ensures Coherent(g, Ref(w, x))
  {
    UpsertEffect(w.state, x, RecordOf(w.(refcount := w.refcount[x := w.refcount[x] + 1]), x));
  }

  lemma UnrefCoherent(g: Graph, w: World, x: Name)
    requires Coherent(g, w) && x in g.ifs
    ensures Coherent(g, Unref(w, x))
  {
    if w.refcount[x] > 1 {
      var v := w.(refcount := w.refcount[x := w.refcount[x] - 1]);
      UpsertEffect(w.state, x, RecordOf(v, x));
    } else if w.refcount[x] == 1 {
      DeleteEffect(w.state, x);
    }
  }

  /** Releasing the reference just taken restores every count, and the dictionary as a map. */
  lemma UnrefUndoesRef(g: Graph, w: World, x: Name)
    requires Coherent(g, w) && x in g.ifs
    ensures Unref(Ref(w, x), x).refcount == w.refcount
    ensures forall k :: Lookup(Unref(Ref(w, x), x).state, k) == Lookup(w.state, k)
  {
    RefCoherent(g, w, x);
    UnrefCoherent(g, Ref(w, x), x);
    var v := Unref(Ref(w, x), x);
    assert v.refcount == w.refcount && v.isExplicit == w.isExplicit;
  }
}
