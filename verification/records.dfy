/** A plain JavaScript object with string keys, as an association list in
    insertion order: the order `Object.keys` reports for keys that do not
    look like array indices. */
module Records {
  import opened Results
  import opened Seqs
  import opened Distinct

  type Record<V> = seq<(string, V)>

  function Keys<V>(entries: Record<V>): (keys: seq<string>)
    ensures |keys| == |entries|
    ensures forall i :: 0 <= i < |entries| ==> keys[i] == entries[i].0
  {
    seq(|entries|, i requires 0 <= i < |entries| => entries[i].0)
  }

  function Values<V>(entries: Record<V>): (values: seq<V>)
    ensures |values| == |entries|
    ensures forall i :: 0 <= i < |entries| ==> values[i] == entries[i].1
  {
    seq(|entries|, i requires 0 <= i < |entries| => entries[i].1)
  }

  /** `record[key]`: the value of the first entry with that key. */
  function Lookup<V>(entries: Record<V>, key: string): (r: Option<V>)
    ensures r.None? <==> key !in Keys(entries)
    ensures r.Some? ==> r.value == entries[FirstIndex(Keys(entries), key)].1
    decreases |entries|
  {
    if |entries| == 0 then None
    else if entries[0].0 == key then Some(entries[0].1)
    else
      assert Keys(entries)[1..] == Keys(entries[1..]);
      Lookup(entries[1..], key)
  }

  /** `record[key] = value`: overwrite in place when the key is present,
      otherwise add it last. */
  function Put<V>(entries: Record<V>, key: string, value: V): (r: Record<V>)
    ensures key in Keys(entries) ==> |r| == |entries| && Keys(r) == Keys(entries)
    ensures key !in Keys(entries) ==> r == entries + [(key, value)]
    ensures forall i :: 0 <= i < |r| && r[i].0 != key ==> r[i] == entries[i]
    ensures forall i :: 0 <= i < |r| && r[i].0 == key ==> r[i].1 == value
  {
    if key in Keys(entries) then
      seq(|entries|, i requires 0 <= i < |entries| => if entries[i].0 == key then (key, value) else entries[i])
    else entries + [(key, value)]
  }

  /** `Object.fromEntries(pairs)`: the pairs put in one by one. */
  function FromEntries<V>(pairs: seq<(string, V)>): (r: Record<V>)
    ensures NoDup(Keys(r))
    decreases |pairs|
  {
    if |pairs| == 0 then []
    else
      var prior := FromEntries(pairs[..|pairs| - 1]);
      var (key, value) := pairs[|pairs| - 1];
      NoDupSnoc(Keys(prior), key);
      assert key !in Keys(prior) ==> Keys(prior + [(key, value)]) == Keys(prior) + [key];
      Put(prior, key, value)
  }

  /** Deleting a key: the entry with that key goes, the others keep their
      order. */
  function Delete<V>(entries: Record<V>, key: string): (r: Record<V>)
    ensures key !in Keys(r)
    ensures |r| <= |entries|
    decreases |entries|
  {
    if |entries| == 0 then []
    else if entries[0].0 == key then Delete(entries[1..], key)
    else [entries[0]] + Delete(entries[1..], key)
  }

  /** `s` with every occurrence of `x` removed. */
  function Without(s: seq<string>, x: string): (r: seq<string>)
    ensures x !in r
    decreases |s|
  {
    if |s| == 0 then []
    else if s[0] == x then Without(s[1..], x)
    else [s[0]] + Without(s[1..], x)
  }

  /** `fromEntries` keeps one entry per key, in order of first occurrence. */
  lemma {:induction false} FromEntriesKeys<V>(pairs: seq<(string, V)>)
    ensures Keys(FromEntries(pairs)) == Distinct.Distinct(Keys(pairs))
    decreases |pairs|
  {
    if |pairs| > 0 {
      var init := pairs[..|pairs| - 1];
      var last := pairs[|pairs| - 1];
      var prior := FromEntries(init);
      FromEntriesKeys(init);
      assert Keys(pairs) == Keys(init) + [last.0];
      DistinctSnoc(Keys(init), last.0);
      assert FromEntries(pairs) == Put(prior, last.0, last.1);
      if last.0 in Keys(init) {
        var j :| 0 <= j < |init| && Keys(init)[j] == last.0;
        assert last.0 in Keys(prior);
      } else {
        assert last.0 !in Keys(prior);
        assert Keys(prior + [last]) == Keys(prior) + [last.0];
      }
    }
  }

  /** Each key of `fromEntries` holds the value of its last pair. */
  lemma {:induction false} FromEntriesValues<V>(pairs: seq<(string, V)>)
    ensures forall k :: k in Keys(pairs) ==>
      Lookup(FromEntries(pairs), k) == Some(pairs[LastIndex(Keys(pairs), k)].1)
    decreases |pairs|
  {
    if |pairs| > 0 {
      var init := pairs[..|pairs| - 1];
      var (key, value) := pairs[|pairs| - 1];
      var prior := FromEntries(init);
      FromEntriesValues(init);
      assert Keys(pairs) == Keys(init) + [key];
      forall k | k in Keys(pairs)
        ensures Lookup(FromEntries(pairs), k) == Some(pairs[LastIndex(Keys(pairs), k)].1)
      {
        LookupPut(prior, key, value, k);
        if k != key {
          LastIndexSnoc(Keys(init), key, k);
        }
      }
    }
  }

  lemma LastIndexSnoc(s: seq<string>, x: string, k: string)
    requires k in s && k != x
    ensures LastIndex(s + [x], k) == LastIndex(s, k)
  {
    assert (s + [x])[..|s|] == s;
  }

  /** Reading a key after `Put`. */
  lemma LookupPut<V>(entries: Record<V>, key: string, value: V, k: string)
    requires NoDup(Keys(entries))
    ensures Lookup(Put(entries, key, value), k) == if k == key then Some(value) else Lookup(entries, k)
  {
    var r := Put(entries, key, value);
    if k in Keys(entries) {
      var i := FirstIndex(Keys(entries), k);
      assert Keys(r) == Keys(entries) || Keys(r) == Keys(entries) + [key];
      if key !in Keys(entries) {
        assert Keys(r)[..|entries|] == Keys(entries);
        FirstIndexOfPrefix(Keys(r), |entries|);
      }
    } else if k == key {
      assert Keys(r) == Keys(entries) + [key];
      assert Keys(r)[|entries|] == key;
    } else if key !in Keys(entries) {
      assert Keys(r) == Keys(entries) + [key];
    }
  }

  /** `delete` removes exactly the one key and keeps the rest in order. */
  lemma {:induction false} DeleteContents<V>(entries: Record<V>, key: string)
    ensures Keys(Delete(entries, key)) == Without(Keys(entries), key)
    ensures forall k :: k != key ==> Lookup(Delete(entries, key), k) == Lookup(entries, k)
    decreases |entries|
  {
    if |entries| > 0 {
      DeleteContents(entries[1..], key);
      assert Keys(entries)[1..] == Keys(entries[1..]);
      var r := Delete(entries, key);
      if entries[0].0 != key {
        assert r[1..] == Delete(entries[1..], key);
        assert Keys(r)[1..] == Keys(r[1..]);
      }
    }
  }
}
