/** `concatTables` of src/utils/tables/concat.ts: two tables over the same
    rows merged side by side. */
module Concat {
  import opened Results
  import opened Tables

  function ConcatTables<T>(table1: Table<T>, table2: Table<T>): (r: Result<Table<T>>)
    ensures r.Failure? <==> |table1.body| != |table2.body|
    ensures r.Failure? ==> r.error == RowCountMismatch
    ensures r.Success? ==> r.value.headers == table1.headers + table2.headers
    ensures r.Success? ==> |r.value.body| == |table1.body|
    ensures r.Success? ==> forall k :: 0 <= k < |table1.body| ==>
      |r.value.body[k]| == |table1.body[k]| + |table2.body[k]|
    ensures r.Success? ==> forall k :: 0 <= k < |table1.body| ==>
      r.value.body[k][..|table1.body[k]|] == table1.body[k] &&
      r.value.body[k][|table1.body[k]|..] == table2.body[k]
    ensures r.Success? && table1.WellShaped() && table2.WellShaped() ==>
      r.value.WellShaped() && |r.value.headers| == |table1.headers| + |table2.headers|
  {
    if |table1.body| != |table2.body| then Failure(RowCountMismatch)
    else
      var body := seq(|table1.body|, k requires 0 <= k < |table1.body| => table1.body[k] + table2.body[k]);
      Success(Table(table1.headers + table2.headers, body))
  }

  /** The columns before `n` and the columns from `n` on, as two tables. */
  function SplitColumns<T>(t: Table<T>, n: nat): (parts: (Table<T>, Table<T>))
    requires n <= |t.headers|
    requires t.WellShaped()
  {
    (Table(t.headers[..n], seq(|t.body|, k requires 0 <= k < |t.body| => t.body[k][..n])),
     Table(t.headers[n..], seq(|t.body|, k requires 0 <= k < |t.body| => t.body[k][n..])))
  }

  /** Splitting a concatenation after the left table's columns gives back both inputs. */
  lemma SplitConcat<T>(table1: Table<T>, table2: Table<T>)
    requires table1.WellShaped() && table2.WellShaped()
    requires |table1.body| == |table2.body|
    ensures ConcatTables(table1, table2).Success?
    ensures SplitColumns(ConcatTables(table1, table2).value, |table1.headers|) == (table1, table2)
  {
    var t := ConcatTables(table1, table2).value;
    var (l, r) := SplitColumns(t, |table1.headers|);
    assert l.body == table1.body;
    assert r.body == table2.body;
  }

  /** Concatenating the two halves of a well-shaped table rebuilds it. */
  lemma ConcatSplit<T>(t: Table<T>, n: nat)
    requires n <= |t.headers| && t.WellShaped()
    ensures var (l, r) := SplitColumns(t, n);
      ConcatTables(l, r) == Success(t)
  {
    var (l, r) := SplitColumns(t, n);
    var c := ConcatTables(l, r).value;
    assert c.headers == t.headers;
    forall k | 0 <= k < |t.body|
      ensures c.body[k] == t.body[k]
    {
      assert t.body[k] == t.body[k][..n] + t.body[k][n..];
    }
    assert c.body == t.body;
  }
}
