/** The state dictionary, changed in place. */
module StateDicts {
  import opened Graphs
  import opened Worlds

  lemma {:induction false} DeleteAtFirst(entries: seq<Entry>, key: Name, i: nat)
    requires i < |entries| && entries[i].key == key
    requires forall j :: 0 <= j < i ==> entries[j].key != key
    ensures Delete(entries, key) == entries[..i] + entries[i + 1..]
  {
    if i > 0 {
      DeleteAtFirst(entries[1..], key, i - 1);
      assert entries[1..][..i - 1] == entries[1..i];
    }
  }

  lemma {:induction false} DeleteAbsent(entries: seq<Entry>, key: Name)
    requires forall j :: 0 <= j < |entries| ==> entries[j].key != key
    ensures Delete(entries, key) == entries
  {
    if entries != [] {
      DeleteAbsent(entries[1..], key);
    }
  }

  /** The ordered dictionary of state records. */
  class StateDict {
    var entries: seq<Entry>

    constructor (entries: seq<Entry>)
      ensures this.entries == entries
    {
      this.entries := entries;
    }

    /** The position of the first entry under the key, or the length if there is none. */
    method Find(key: Name) returns (i: nat)
      ensures i <= |entries| && (forall j :: 0 <= j < i ==> entries[j].key != key)
      ensures i < |entries| ==> entries[i].key == key
    {
      i := 0;
      while i < |entries| && entries[i].key != key
        invariant i <= |entries| && forall j :: 0 <= j < i ==> entries[j].key != key
      {
        i := i + 1;
      }
    }

    method Remove(key: Name)
      modifies this
      ensures entries == Delete(old(entries), key)
    {
      var i := Find(key);
      if i == |entries| {
        DeleteAbsent(entries, key);
      } else {
        DeleteAtFirst(entries, key, i);
        entries := entries[..i] + entries[i + 1..];
      }
    }

    method Put(key: Name, rec: Record)
      modifies this
      ensures entries == Upsert(old(entries), key, rec)
    {
      Remove(key);
      entries := entries + [Entry(key, rec)];
    }
  }
}
