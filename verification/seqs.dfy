/** Sequence vocabulary used by several modules: duplicate-freedom, first and
    last occurrence, flattening, and joining/splitting strings on a separator. */
module Seqs {

  /** No element occurs twice. */
  predicate NoDup<T(==)>(s: seq<T>) {
    forall i, j :: 0 <= i < j < |s| ==> s[i] != s[j]
  }

  /** Appending `x` keeps a sequence duplicate-free exactly when `x` is new. */
  lemma NoDupSnoc<T>(s: seq<T>, x: T)
    ensures NoDup(s + [x]) <==> NoDup(s) && x !in s
  {
    var t := s + [x];
    if NoDup(t) {
      assert forall i, j :: 0 <= i < j < |s| ==> s[i] == t[i] && s[j] == t[j];
      forall k | 0 <= k < |s|
        ensures s[k] != x
      {
        assert t[k] != t[|s|];
      }
    }
  }

  /** Index of the first occurrence of `x` in `s`. */
  function FirstIndex<T(==)>(s: seq<T>, x: T): (k: nat)
    requires x in s
    ensures k < |s| && s[k] == x
    ensures forall j :: 0 <= j < k ==> s[j] != x
  {
    if s[0] == x then 0 else 1 + FirstIndex(s[1..], x)
  }

  /** Index of the last occurrence of `x` in `s`. */
  function LastIndex<T(==)>(s: seq<T>, x: T): (k: nat)
    requires x in s
    ensures k < |s| && s[k] == x
    ensures forall j :: k < j < |s| ==> s[j] != x
  {
    if s[|s| - 1] == x then |s| - 1 else LastIndex(s[..|s| - 1], x)
  }

  /** All the rows of `ss`, one after the other. */
  function Flat<T>(ss: seq<seq<T>>): seq<T> {
    if |ss| == 0 then [] else ss[0] + Flat(ss[1..])
  }

  /** The parts with `sep` between consecutive ones, as JavaScript's `Array.join`. */
  function Join(parts: seq<string>, sep: string): string {
    if |parts| == 0 then ""
    else if |parts| == 1 then parts[0]
    else parts[0] + sep + Join(parts[1..], sep)
  }

  /** The maximal pieces of `s` between occurrences of `c`, as JavaScript's `split`
      with a one-character separator: always at least one piece. */
  function Split(s: string, c: char): (r: seq<string>)
    ensures |r| >= 1
    decreases |s|
  {
    if c !in s then [s]
    else
      var k := FirstIndex(s, c);
      [s[..k]] + Split(s[k + 1..], c)
  }

  /** Splitting on `c` undoes joining with `c` when no part contains `c`. */
  lemma {:induction false} SplitJoin(parts: seq<string>, c: char)
    requires |parts| >= 1
    requires forall i :: 0 <= i < |parts| ==> c !in parts[i]
    ensures Split(Join(parts, [c]), c) == parts
    decreases |parts|
  {
    if |parts| == 1 {
    } else {
      var s := Join(parts, [c]);
      var rest := Join(parts[1..], [c]);
      assert s == parts[0] + [c] + rest;
      assert s[|parts[0]|] == c;
      assert c in s;
      var k := FirstIndex(s, c);
      assert k == |parts[0]|;
      assert s[..k] == parts[0];
      assert s[k + 1..] == rest;
      SplitJoin(parts[1..], c);
    }
  }

  /** Joining `a + b` puts the separator between the two joins (for non-empty `a`, `b`). */
  lemma {:induction false} JoinAppend(a: seq<string>, b: seq<string>, sep: string)
    requires |a| >= 1 && |b| >= 1
    ensures Join(a + b, sep) == Join(a, sep) + sep + Join(b, sep)
    decreases |a|
  {
    if |a| == 1 {
      assert (a + b)[1..] == b;
    } else {
      assert (a + b)[1..] == a[1..] + b;
      JoinAppend(a[1..], b, sep);
    }
  }
}
