/** Sorting by depth, layer by layer: what the reordering of the collection comes to. */
module StableSort {

  /** The elements at depth d, in order. */
  ghost function Layer<T>(s: seq<T>, depth: T -> nat, d: int): seq<T>
  {
    if s == [] then []
    else if depth(s[0]) == d then [s[0]] + Layer(s[1..], depth, d)
    else Layer(s[1..], depth, d)
  }

  /** The elements of depth at most d, in order. */
  ghost function Upto<T>(s: seq<T>, depth: T -> nat, d: int): seq<T>
  {
    if s == [] then []
    else if depth(s[0]) <= d then [s[0]] + Upto(s[1..], depth, d)
    else Upto(s[1..], depth, d)
  }

  /** The layers from lo to hi, one after the other. */
  ghost function Layers<T>(s: seq<T>, depth: T -> nat, lo: nat, hi: nat): seq<T>
    decreases hi + 1 - lo
  {
    if lo > hi then [] else Layer(s, depth, lo) + Layers(s, depth, lo + 1, hi)
  }

  ghost function Reverse<T>(s: seq<T>): seq<T> {
    if s == [] then [] else Reverse(s[1..]) + [s[0]]
  }

  ghost predicate Ascending<T>(s: seq<T>, depth: T -> nat)
  {
    forall i, j :: 0 <= i < j < |s| ==> depth(s[i]) <= depth(s[j])
  }

  // --- filters ---------------------------------------------------------------------------

  lemma {:induction false} LayerAppend<T>(a: seq<T>, b: seq<T>, depth: T -> nat, d: int)
    ensures Layer(a + b, depth, d) == Layer(a, depth, d) + Layer(b, depth, d)
  {
    if a == [] {
      assert a + b == b;
    } else {
      assert (a + b)[1..] == a[1..] + b && (a + b)[0] == a[0];
      LayerAppend(a[1..], b, depth, d);
    }
  }

  lemma {:induction false} UptoAppend<T>(a: seq<T>, b: seq<T>, depth: T -> nat, d: int)
    ensures Upto(a + b, depth, d) == Upto(a, depth, d) + Upto(b, depth, d)
  {
    if a == [] {
      assert a + b == b;
    } else {
      assert (a + b)[1..] == a[1..] + b && (a + b)[0] == a[0];
      UptoAppend(a[1..], b, depth, d);
    }
  }

  lemma {:induction false} LayerDepth<T>(s: seq<T>, depth: T -> nat, d: int)
    ensures forall i :: 0 <= i < |Layer(s, depth, d)| ==> depth(Layer(s, depth, d)[i]) == d
  {
    if s != [] {
      LayerDepth(s[1..], depth, d);
    }
  }

  lemma {:induction false} LayerMember<T>(s: seq<T>, depth: T -> nat, d: int, x: T)
    ensures x in Layer(s, depth, d) <==> x in s && depth(x) == d
  {
    if s != [] {
      LayerMember(s[1..], depth, d, x);
    }
  }

  lemma {:induction false} UptoMember<T>(s: seq<T>, depth: T -> nat, d: int, x: T)
    ensures x in Upto(s, depth, d) <==> x in s && depth(x) <= d
  {
    if s != [] {
      UptoMember(s[1..], depth, d, x);
    }
  }

  lemma {:induction false} UptoAll<T>(s: seq<T>, depth: T -> nat, d: int)
    requires forall x :: x in s ==> depth(x) <= d
    ensures Upto(s, depth, d) == s
  {
    if s != [] {
      assert forall x :: x in s[1..] ==> x in s;
      UptoAll(s[1..], depth, d);
    }
  }

  lemma {:induction false} UptoNone<T>(s: seq<T>, depth: T -> nat)
    ensures Upto(s, depth, -1) == []
  {
    if s != [] {
      UptoNone(s[1..], depth);
    }
  }

  /** Taking layer d out of what is left leaves the layers below. */
  lemma {:induction false} UptoUpto<T>(s: seq<T>, depth: T -> nat, d: int)
    ensures Upto(Upto(s, depth, d), depth, d - 1) == Upto(s, depth, d - 1)
    ensures Layer(Upto(s, depth, d), depth, d) == Layer(s, depth, d)
  {
    if s != [] {
      UptoUpto(s[1..], depth, d);
      var rest := Upto(s[1..], depth, d);
      if depth(s[0]) <= d {
        assert ([s[0]] + rest)[1..] == rest;
      }
    }
  }

  lemma {:induction false} LayerOfLayer<T>(s: seq<T>, depth: T -> nat, e: int, d: int)
    ensures Layer(Layer(s, depth, e), depth, d) == if e == d then Layer(s, depth, d) else []
  {
    if s != [] {
      LayerOfLayer(s[1..], depth, e, d);
      var rest := Layer(s[1..], depth, e);
      if depth(s[0]) == e {
        assert ([s[0]] + rest)[1..] == rest;
      }
    }
  }

  lemma {:induction false} ReverseAppend<T>(s: seq<T>, x: T)
    ensures Reverse(s + [x]) == [x] + Reverse(s)
  {
    if s != [] {
      assert (s + [x])[1..] == s[1..] + [x];
      ReverseAppend(s[1..], x);
    }
  }

  lemma {:induction false} ReverseTwice<T>(s: seq<T>)
    ensures Reverse(Reverse(s)) == s
  {
    if s != [] {
      ReverseTwice(s[1..]);
      ReverseAppend(Reverse(s[1..]), s[0]);
    }
  }

  lemma {:induction false} LayerReverse<T>(s: seq<T>, depth: T -> nat, d: int)
    ensures Layer(Reverse(s), depth, d) == Reverse(Layer(s, depth, d))
  {
    if s != [] {
      LayerReverse(s[1..], depth, d);
      LayerAppend(Reverse(s[1..]), [s[0]], depth, d);
      assert Layer([s[0]], depth, d) == if depth(s[0]) == d then [s[0]] else [];
    }
  }

  // --- the result ------------------------------------------------------------------------

  lemma {:induction false} LayersMember<T>(s: seq<T>, depth: T -> nat, lo: nat, hi: nat, x: T)
    ensures x in Layers(s, depth, lo, hi) <==> x in s && lo <= depth(x) <= hi
    decreases hi + 1 - lo
  {
    if lo <= hi {
      LayerMember(s, depth, lo, x);
      LayersMember(s, depth, lo + 1, hi, x);
    }
  }

  /** Equal depths keep their order: every layer of the result is that of the input. */
  lemma {:induction false} LayersStable<T>(s: seq<T>, depth: T -> nat, lo: nat, hi: nat, d: nat)
    ensures Layer(Layers(s, depth, lo, hi), depth, d) == if lo <= d <= hi then Layer(s, depth, d) else []
    decreases hi + 1 - lo
  {
    if lo <= hi {
      LayersStable(s, depth, lo + 1, hi, d);
      LayerOfLayer(s, depth, lo, d);
      LayerAppend(Layer(s, depth, lo), Layers(s, depth, lo + 1, hi), depth, d);
    }
  }

  lemma {:induction false} LayersAscending<T>(s: seq<T>, depth: T -> nat, lo: nat, hi: nat)
    ensures forall i :: 0 <= i < |Layers(s, depth, lo, hi)| ==> depth(Layers(s, depth, lo, hi)[i]) >= lo
    ensures Ascending(Layers(s, depth, lo, hi), depth)
    decreases hi + 1 - lo
  {
    if lo <= hi {
      LayersAscending(s, depth, lo + 1, hi);
      LayerDepth(s, depth, lo);
    }
  }

  lemma {:induction false} LayerAndBelow<T>(s: seq<T>, depth: T -> nat, d: int)
    ensures multiset(Layer(s, depth, d)) + multiset(Upto(s, depth, d - 1)) == multiset(Upto(s, depth, d))
  {
    if s != [] {
      LayerAndBelow(s[1..], depth, d);
    }
  }

  ghost predicate CoversFrom<T>(s: seq<T>, depth: T -> nat, lo: nat, hi: nat) {
    multiset(Layers(s, depth, lo, hi)) + multiset(Upto(s, depth, lo - 1)) == multiset(Upto(s, depth, hi))
  }

  lemma LayerOnTop<T>(s: seq<T>, depth: T -> nat, lo: nat, hi: nat)
    requires lo <= hi && CoversFrom(s, depth, lo + 1, hi)
    ensures CoversFrom(s, depth, lo, hi)
  {
    LayerAndBelow(s, depth, lo);
    var a, b := Layer(s, depth, lo), Layers(s, depth, lo + 1, hi);
    assert multiset(a + b) == multiset(a) + multiset(b);
  }

  lemma {:induction false} LayersAndBelow<T>(s: seq<T>, depth: T -> nat, lo: nat, hi: nat)
    requires lo <= hi + 1
    ensures CoversFrom(s, depth, lo, hi)
    decreases hi + 1 - lo
  {
    if lo <= hi {
      LayersAndBelow(s, depth, lo + 1, hi);
      LayerOnTop(s, depth, lo, hi);
    }
  }

  /** The result has the same elements, each as often. */
  lemma LayersPermutation<T>(s: seq<T>, depth: T -> nat, hi: nat)
    requires forall x :: x in s ==> depth(x) <= hi
    ensures multiset(Layers(s, depth, 0, hi)) == multiset(s)
  {
    LayersAndBelow(s, depth, 0, hi);
    UptoNone(s, depth);
    UptoAll(s, depth, hi);
  }

  lemma {:induction false} NoneAt<T>(t: seq<T>, depth: T -> nat, d: int)
    requires forall i :: 0 <= i < |t| ==> depth(t[i]) != d
    ensures Layer(t, depth, d) == []
  {
    if t != [] {
      NoneAt(t[1..], depth, d);
    }
  }

  ghost predicate Splits<T>(t: seq<T>, depth: T -> nat, lo: nat, k: nat) {
    k <= |t| && t[..k] == Layer(t, depth, lo) && forall i :: k <= i < |t| ==> depth(t[i]) > lo
  }

  lemma {:induction false} LowestFirst<T>(t: seq<T>, depth: T -> nat, lo: nat) returns (k: nat)
    requires Ascending(t, depth) && forall i :: 0 <= i < |t| ==> depth(t[i]) >= lo
    ensures Splits(t, depth, lo, k)
  {
    if t != [] && depth(t[0]) == lo {
      var j := LowestFirst(t[1..], depth, lo);
      k := j + 1;
      assert t[..k] == [t[0]] + t[1..][..j];
      forall i | k <= i < |t|
        ensures depth(t[i]) > lo
      {
        assert t[i] == t[1..][i - 1];
      }
    } else {
      k := 0;
      NoneAt(t, depth, lo);
    }
  }

  lemma {:induction false} LayersEmpty<T>(s: seq<T>, depth: T -> nat, lo: nat, hi: nat)
    requires forall d :: lo <= d <= hi ==> Layer(s, depth, d) == []
    ensures Layers(s, depth, lo, hi) == []
    decreases hi + 1 - lo
  {
    if lo <= hi {
      LayersEmpty(s, depth, lo + 1, hi);
    }
  }

  /** Ascending and stable say it all: there is only one such sequence. */
  lemma {:induction false} StableSortUnique<T>(s: seq<T>, t: seq<T>, depth: T -> nat, lo: nat, hi: nat)
    requires Ascending(t, depth) && forall i :: 0 <= i < |t| ==> lo <= depth(t[i]) <= hi
    requires forall d :: lo <= d <= hi ==> Layer(t, depth, d) == Layer(s, depth, d)
    ensures t == Layers(s, depth, lo, hi)
    decreases hi + 1 - lo
  {
    if t == [] {
      LayersEmpty(s, depth, lo, hi);
    } else {
      assert lo <= depth(t[0]) <= hi;
      var k := LowestFirst(t, depth, lo);
      var rest := t[k..];
      assert t == t[..k] + rest;
      forall d | lo + 1 <= d <= hi
        ensures Layer(rest, depth, d) == Layer(s, depth, d)
      {
        LayerAppend(t[..k], rest, depth, d);
        LayerOfLayer(t, depth, lo, d);
      }
      StableSortUnique(s, rest, depth, lo + 1, hi);
    }
  }

  // --- renaming --------------------------------------------------------------------------

  ghost function Renamed<T, U>(s: seq<T>, name: T -> U): seq<U> {
    if s == [] then [] else [name(s[0])] + Renamed(s[1..], name)
  }

  lemma {:induction false} RenamedAt<T, U>(s: seq<T>, name: T -> U)
    ensures |Renamed(s, name)| == |s| && forall i :: 0 <= i < |s| ==> Renamed(s, name)[i] == name(s[i])
  {
    if s != [] {
      RenamedAt(s[1..], name);
    }
  }

  lemma {:induction false} RenamedAppend<T, U>(a: seq<T>, b: seq<T>, name: T -> U)
    ensures Renamed(a + b, name) == Renamed(a, name) + Renamed(b, name)
  {
    if a == [] {
      assert a + b == b;
    } else {
      assert (a + b)[1..] == a[1..] + b && (a + b)[0] == a[0];
      RenamedAppend(a[1..], b, name);
    }
  }

  lemma {:induction false} LayerRenamed<T, U>(s: seq<T>, name: T -> U, depth: T -> nat, byName: U -> nat, d: int)
    requires forall x :: x in s ==> depth(x) == byName(name(x))
    ensures Renamed(Layer(s, depth, d), name) == Layer(Renamed(s, name), byName, d)
  {
    if s != [] {
      assert s[0] in s && forall x :: x in s[1..] ==> x in s;
      LayerRenamed(s[1..], name, depth, byName, d);
      var rest, names := Layer(s[1..], depth, d), Renamed(s[1..], name);
      assert ([s[0]] + rest)[1..] == rest && ([name(s[0])] + names)[1..] == names;
    }
  }

  /** Sorting by depth goes by names as well as by nodes. */
  lemma {:induction false} LayersRenamed<T, U>(s: seq<T>,
                                               name: T -> U, depth: T -> nat, byName: U -> nat, lo: nat, hi: nat)
    requires forall x :: x in s ==> depth(x) == byName(name(x))
    ensures Renamed(Layers(s, depth, lo, hi), name) == Layers(Renamed(s, name), byName, lo, hi)
    decreases hi + 1 - lo
  {
    if lo <= hi {
      LayerRenamed(s, name, depth, byName, lo);
      LayersRenamed(s, name, depth, byName, lo + 1, hi);
      RenamedAppend(Layer(s, depth, lo), Layers(s, depth, lo + 1, hi), name);
    }
  }

  // --- positions -------------------------------------------------------------------------

  ghost predicate Before<T>(s: seq<T>, x: T, y: T) {
    exists i, j :: 0 <= i < j < |s| && s[i] == x && s[j] == y
  }

  lemma BeforeCons<T>(s: seq<T>, x: T, y: T)
    requires s != []
    ensures Before(s, x, y) <==> (s[0] == x && y in s[1..]) || Before(s[1..], x, y)
  {
    var t := s[1..];
    if Before(s, x, y) {
      var i, j :| 0 <= i < j < |s| && s[i] == x && s[j] == y;
      assert t[j - 1] == y;
      assert i > 0 ==> t[i - 1] == x;
    }
    if Before(t, x, y) {
      var i, j :| 0 <= i < j < |t| && t[i] == x && t[j] == y;
      assert s[i + 1] == x && s[j + 1] == y;
    }
    if s[0] == x && y in t {
      var j :| 0 <= j < |t| && t[j] == y;
      assert s[j + 1] == y;
    }
  }

  lemma {:induction false} BeforeInLayer<T>(s: seq<T>, depth: T -> nat, x: T, y: T)
    requires depth(x) == depth(y)
    ensures Before(s, x, y) <==> Before(Layer(s, depth, depth(x)), x, y)
  {
    if s != [] {
      var d := depth(x);
      BeforeInLayer(s[1..], depth, x, y);
      BeforeCons(s, x, y);
      LayerMember(s[1..], depth, d, y);
      if depth(s[0]) == d {
        BeforeCons(Layer(s, depth, d), x, y);
        assert Layer(s, depth, d)[1..] == Layer(s[1..], depth, d);
      }
    }
  }

  /** The result orders by depth first, by old position second. */
  lemma BeforeInLayers<T>(s: seq<T>, depth: T -> nat, hi: nat, x: T, y: T)
    requires x in s && y in s && depth(x) <= hi && depth(y) <= hi
    ensures Before(Layers(s, depth, 0, hi), x, y) <==> depth(x) < depth(y) || (depth(x) == depth(y) && Before(s, x, y))
  {
    var t := Layers(s, depth, 0, hi);
    LayersAscending(s, depth, 0, hi);
    LayersMember(s, depth, 0, hi, x);
    LayersMember(s, depth, 0, hi, y);
    if depth(x) == depth(y) {
      BeforeInLayer(s, depth, x, y);
      BeforeInLayer(t, depth, x, y);
      LayersStable(s, depth, 0, hi, depth(x));
    } else {
      var i :| 0 <= i < |t| && t[i] == x;
      var j :| 0 <= j < |t| && t[j] == y;
    }
  }
}
