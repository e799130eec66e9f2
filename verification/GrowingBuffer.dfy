/** The buffer in which the addresses and gateways of an interface are collected. */
module GrowingBuffer {
  const INITIAL_LEN := 4096
  const NUL := '\0'

  class Buffer {
    var data: array<char>
    var end: nat

    /** The terminator is at `end`, nothing before it is one, and the buffer never shrinks. */
    ghost predicate Valid()
      reads this, data
    {
      INITIAL_LEN <= data.Length && end < data.Length && data[end] == NUL && NUL !in data[..end]
    }

    ghost function Contents(): string
      reads this, data
      requires Valid()
    {
      data[..end]
    }

    constructor ()
      ensures Valid() && Contents() == "" && fresh(data)
    {
      data := new char[INITIAL_LEN](i => NUL);
      end := 0;
    }

    /** Double the allocation; what lies beyond the old one is arbitrary. */
    method Grow()
      requires Valid()
      modifies this`data
      ensures Valid() && Contents() == old(Contents()) && data.Length == 2 * old(data.Length) && fresh(data)
    {
      var bigger := new char[2 * data.Length];
      forall i | 0 <= i < data.Length {
        bigger[i] := data[i];
      }
      assert bigger[..end] == data[..end];
      data := bigger;
    }

    /** Append a value and a blank. One doubling is always enough for values up to the length
        that callers produce: every store below is inside the allocation. */
    method Append(value: string)
      requires Valid() && |value| < INITIAL_LEN && NUL !in value
      modifies this, data
      ensures Valid() && Contents() == old(Contents()) + value + " "
      ensures data.Length == if old(data.Length) < |old(Contents())| + |value| + 2 then 2 * old(data.Length)
                             else old(data.Length)
      ensures data == old(data) || fresh(data)
    {
      if data.Length < end + |value| + 2 {
        Grow();
      }
      Print(value);
    }

    /** Print the value and a blank at the end of the contents, with room to spare. */
    method Print(value: string)
      requires Valid() && end + |value| + 2 <= data.Length && NUL !in value
      modifies this`end, data
      ensures Valid() && Contents() == old(Contents()) + value + " "
    {
      ghost var before := Contents();
      var n := |value|;
      forall i | 0 <= i < n {
        data[end + i] := value[i];
      }
      data[end + n] := ' ';
      data[end + n + 1] := NUL;
      assert data[..end + n + 1] == before + value + " ";
      end := end + n + 1;
    }
  }

  function Joined(values: seq<string>): string {
    if values == [] then "" else Joined(values[..|values| - 1]) + values[|values| - 1] + " "
  }

  /** Where value i starts: behind the values before it, and a blank for each. */
  ghost function Start(values: seq<string>, i: nat): nat
    requires i <= |values|
  {
    if i == 0 then 0 else Start(values, i - 1) + |values[i - 1]| + 1
  }

  /** The value stands at p, with a blank behind it. */
  ghost predicate StandsAt(text: string, value: string, p: nat) {
    p + |value| < |text| && text[p..p + |value|] == value && text[p + |value|] == ' '
  }

  ghost predicate Placed(text: string, values: seq<string>, i: nat)
    requires i < |values|
  {
    StandsAt(text, values[i], Start(values, i))
  }

  lemma {:induction false} StartTake(values: seq<string>, k: nat, i: nat)
    requires i <= k <= |values|
    ensures Start(values[..k], i) == Start(values, i)
  {
    if i > 0 {
      StartTake(values, k, i - 1);
    }
  }

  lemma {:induction false} JoinedPlaces(values: seq<string>)
    ensures |Joined(values)| == Start(values, |values|)
    ensures forall i :: 0 <= i < |values| ==> Placed(Joined(values), values, i)
    decreases |values|
  {
    if values != [] {
      var k := |values| - 1;
      var front, v := Joined(values[..k]), values[k];
      JoinedPlaces(values[..k]);
      StartTake(values, k, k);
      forall i | 0 <= i < |values|
        ensures Placed(front + v + " ", values, i)
      {
        if i < k {
          StartTake(values, k, i);
          assert Placed(front, values[..k], i);
          StandsMore(front, v + " ", values[i], Start(values, i));
          assert front + v + " " == front + (v + " ");
        }
      }
    }
  }

  lemma StandsMore(front: string, more: string, value: string, p: nat)
    requires StandsAt(front, value, p)
    ensures StandsAt(front + more, value, p)
  {
    assert (front + more)[p..p + |value|] == front[p..p + |value|];
  }

  /** Any sequence of values ends up concatenated, each followed by a blank: value i where the
      lengths and blanks of those before it end. */
  method Collect(values: seq<string>) returns (b: Buffer)
    requires forall v :: v in values ==> |v| < INITIAL_LEN && NUL !in v
    ensures b.Valid() && b.Contents() == Joined(values) && |b.Contents()| == Start(values, |values|)
    ensures forall i :: 0 <= i < |values| ==> Placed(b.Contents(), values, i)
  {
    JoinedPlaces(values);
    b := new Buffer();
    for i := 0 to |values|
      invariant b.Valid() && fresh(b) && fresh(b.data) && b.Contents() == Joined(values[..i])
    {
      assert values[..i + 1][..i] == values[..i];
      b.Append(values[i]);
    }
    assert values[..|values|] == values;
  }
}
