/** `distinct(items)` of src/utils/distinct.ts: `[...new Set(items)]`.

    A JavaScript `Set` remembers insertion order and ignores re-insertion of
    a value it already holds, so spreading it lists each value once, at the
    position of its first insertion. The model inserts the items one by one,
    exactly as the `Set` constructor does. */
module Distinct {
  import opened Seqs

  function Distinct<T(==)>(items: seq<T>): (r: seq<T>)
    ensures NoDup(r)
    ensures forall i :: 0 <= i < |r| ==> r[i] in items
    ensures forall i :: 0 <= i < |items| ==> items[i] in r
    decreases |items|
  {
    if |items| == 0 then []
    else
      var held := Distinct(items[..|items| - 1]);
      var x := items[|items| - 1];
      if x in held then held else held + [x]
  }

  /** The output is never longer than the input, and exactly as long iff the
      input holds no duplicates. */
  lemma {:induction false} DistinctLength<T>(items: seq<T>)
    ensures |Distinct(items)| <= |items|
    ensures |Distinct(items)| == |items| <==> NoDup(items)
    decreases |items|
  {
    if |items| > 0 {
      var before := items[..|items| - 1];
      var x := items[|items| - 1];
      DistinctLength(before);
      assert items == before + [x];
      NoDupSnoc(before, x);
    }
  }

  /** Output order is the order of first occurrence in the input. */
  lemma {:induction false} DistinctOrder<T>(items: seq<T>)
    ensures forall i, j :: 0 <= i < j < |Distinct(items)| ==>
      FirstIndex(items, Distinct(items)[i]) < FirstIndex(items, Distinct(items)[j])
    decreases |items|
  {
    if |items| > 0 {
      var before := items[..|items| - 1];
      var x := items[|items| - 1];
      var held := Distinct(before);
      DistinctOrder(before);
      FirstIndexOfPrefix(items, |items| - 1);
      if x !in held {
        assert FirstIndex(items, x) == |items| - 1;
      }
    }
  }

  /** On elements of the prefix `s[..n]`, the first index in `s` is the first index in the prefix. */
  lemma FirstIndexOfPrefix<T>(s: seq<T>, n: nat)
    requires n <= |s|
    ensures forall x :: x in s[..n] ==> FirstIndex(s, x) == FirstIndex(s[..n], x)
  {
    forall x | x in s[..n]
      ensures FirstIndex(s, x) == FirstIndex(s[..n], x)
    {
      var k1 := FirstIndex(s, x);
      var k2 := FirstIndex(s[..n], x);
      assert s[k2] == x;
    }
  }

  /** An input that is already duplicate-free comes back unchanged. */
  lemma {:induction false} DistinctOfNoDup<T>(items: seq<T>)
    requires NoDup(items)
    ensures Distinct(items) == items
    decreases |items|
  {
    if |items| > 0 {
      var before := items[..|items| - 1];
      assert NoDup(before);
      DistinctOfNoDup(before);
    }
  }

  /** Removing duplicates a second time changes nothing. */
  lemma DistinctIdempotent<T>(items: seq<T>)
    ensures Distinct(Distinct(items)) == Distinct(items)
  {
    DistinctOfNoDup(Distinct(items));
  }

  /** Re-inserting a value the Set already holds changes nothing; a new one goes last. */
  lemma DistinctSnoc<T>(items: seq<T>, x: T)
    ensures Distinct(items + [x]) == if x in items then Distinct(items) else Distinct(items) + [x]
  {
    assert (items + [x])[..|items|] == items;
  }
}
