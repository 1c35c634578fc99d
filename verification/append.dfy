/** `appendTable` of src/utils/tables/append.ts: the rows of one table stacked
    under the rows of another.

    JavaScript reads past the end of an array as `undefined` without failing,
    so the cells of the resulting rows are `Option`s: `None` is a cell the
    source row did not have. */
module Append {
  import opened Results
  import opened Tables
  import opened Seqs

  /** The header check of lines 56-59 as written. `append.headers[k]` past
      its end is `undefined`, which no header string equals. */
  predicate GuardRejects(headers: seq<string>, appended: seq<string>) {
    |headers| != |appended| && forall k :: 0 <= k < |headers| ==> At(appended, k) == Some(headers[k])
  }

  /** The guard fires exactly when the first header list is a proper prefix of
      the second: equal-length lists that differ, and a first list longer
      than the second, both pass. */
  lemma GuardRejectsProperPrefix(headers: seq<string>, appended: seq<string>)
    ensures GuardRejects(headers, appended) <==>
      |headers| < |appended| && appended[..|headers|] == headers
  {
    if |headers| > |appended| {
      assert At(appended, |appended|) == None;
    } else if |headers| < |appended| && appended[..|headers|] == headers {
      assert forall k :: 0 <= k < |headers| ==> appended[k] == appended[..|headers|][k];
    }
  }

  /** `headerColumns`: each header string mapped to the index the loop of
      lines 66-68 assigns last. */
  function ColumnIndex(headers: seq<string>): (m: map<string, nat>)
    ensures forall h :: h in m <==> h in headers
    ensures forall h :: h in m ==> m[h] == LastIndex(headers, h)
    decreases |headers|
  {
    if |headers| == 0 then map[]
    else ColumnIndex(headers[..|headers| - 1])[headers[|headers| - 1] := |headers| - 1]
  }

  /** One row re-read column by column: output column `k` takes the row's
      value at the index `index` gives the `k`-th header, or `undefined`
      past the row's end (lines 72 and 75). */
  function Realign<T>(row: seq<T>, headers: seq<string>, index: map<string, nat>): (out: seq<Option<T>>)
    requires forall h :: h in headers ==> h in index
    ensures |out| == |headers|
    ensures forall k :: 0 <= k < |headers| ==> out[k] == At(row, index[headers[k]])
  {
    seq(|headers|, k requires 0 <= k < |headers| => At(row, index[headers[k]]))
  }

  /** `appendTable(table, append)` as written. */
  function AppendTable<T>(table: Table<T>, append: Table<T>): (r: Result<Table<Option<T>>>)
    ensures r.Failure? <==> GuardRejects(table.headers, append.headers)
    ensures r.Failure? ==> r.error == HeaderMismatch
    ensures r.Success? ==> r.value.headers == table.headers
    ensures r.Success? ==> |r.value.body| == |table.body| + |append.body|
    ensures r.Success? ==> r.value.WellShaped()
    ensures r.Success? ==> forall i :: 0 <= i < |table.body| ==>
      r.value.body[i] == Realign(table.body[i], table.headers, ColumnIndex(table.headers))
    ensures r.Success? ==> forall i :: 0 <= i < |append.body| ==>
      r.value.body[|table.body| + i] == Realign(append.body[i], table.headers, ColumnIndex(table.headers))
  {
    if GuardRejects(table.headers, append.headers) then Failure(HeaderMismatch)
    else
      var index := ColumnIndex(table.headers);
      var top := seq(|table.body|, i requires 0 <= i < |table.body| => Realign(table.body[i], table.headers, index));
      var bottom := seq(|append.body|, i requires 0 <= i < |append.body| => Realign(append.body[i], table.headers, index));
      Success(Table(table.headers, top + bottom))
  }

  /** Output column `k` takes the row's value at the last column carrying the
      same header as column `k`; with duplicate-free headers that is column
      `k` itself, so every row, appended ones included, stays positional. */
  lemma RealignByLastIndex<T>(row: seq<T>, headers: seq<string>)
    ensures forall k :: 0 <= k < |headers| ==>
      Realign(row, headers, ColumnIndex(headers))[k] == At(row, LastIndex(headers, headers[k]))
    ensures NoDup(headers) ==> forall k :: 0 <= k < |headers| ==>
      Realign(row, headers, ColumnIndex(headers))[k] == At(row, k)
  {
    if NoDup(headers) {
      forall k | 0 <= k < |headers|
        ensures LastIndex(headers, headers[k]) == k
      {
        var j := LastIndex(headers, headers[k]);
      }
    }
  }

  /** Rows at least as wide as the headers lose no cell. */
  lemma RealignComplete<T>(row: seq<T>, headers: seq<string>)
    requires |row| >= |headers|
    ensures forall k :: 0 <= k < |headers| ==> Realign(row, headers, ColumnIndex(headers))[k].Some?
  {
  }

  /** The appended table's headers play no part beyond the guard: two
      appended tables with the same body give the same result. */
  lemma AppendIgnoresAppendedHeaders<T>(table: Table<T>, append1: Table<T>, append2: Table<T>)
    requires append1.body == append2.body
    requires !GuardRejects(table.headers, append1.headers) && !GuardRejects(table.headers, append2.headers)
    ensures AppendTable(table, append1) == AppendTable(table, append2)
  {
  }

  /** The reordered-headers case: appending a table whose headers are
      ["Yards", "Team"] under one with ["Team", "Yards"] succeeds, but the
      appended row's "Yards" value lands in the "Team" column. */
  lemma ReorderedHeadersNotRealigned()
    ensures var table := Table(["Team", "Yards"], []);
      var append := Table(["Yards", "Team"], [["100", "Bills"]]);
      AppendTable(table, append) == Success(Table(["Team", "Yards"], [[Some("100"), Some("Bills")]]))
  {
    var table := Table(["Team", "Yards"], []);
    var append := Table(["Yards", "Team"], [["100", "Bills"]]);
    var row := ["100", "Bills"];
    assert NoDup(table.headers);
    RealignByLastIndex(row, table.headers);
    assert !GuardRejects(table.headers, append.headers) by {
      assert At(append.headers, 0) != Some(table.headers[0]);
    }
    var r := AppendTable(table, append).value;
    assert r.body[0] == Realign(row, table.headers, ColumnIndex(table.headers));
    assert r.body[0] == [Some("100"), Some("Bills")];
    assert r.body == [r.body[0]];
  }

  /** Header lists of equal length always pass the guard, whatever names
      they carry: ["A", "B"] against ["C", "D"] is accepted. */
  lemma MismatchedHeadersAccepted<T>(table: Table<T>, append: Table<T>)
    requires |table.headers| == |append.headers|
    ensures AppendTable(table, append).Success?
    ensures AppendTable(table, append).value.headers == table.headers
  {
  }

  /** The header names of a table, as a set. */
  function Names(headers: seq<string>): (names: set<string>)
    ensures forall h :: h in names <==> h in headers
  {
    set h | h in headers
  }

  /** The stacking the doc comment and the check intend: fail unless both
      tables carry the same set of header names, and move each appended
      row's values into the first table's column order by name. */
  function AppendAligned<T>(table: Table<T>, append: Table<T>): (r: Result<Table<Option<T>>>)
    ensures r.Failure? <==> Names(table.headers) != Names(append.headers)
    ensures r.Failure? ==> r.error == HeaderMismatch
    ensures r.Success? ==> r.value.headers == table.headers
    ensures r.Success? ==> |r.value.body| == |table.body| + |append.body|
    ensures r.Success? ==> r.value.WellShaped()
    ensures r.Success? ==> forall i :: 0 <= i < |table.body| ==>
      r.value.body[i] == Realign(table.body[i], table.headers, ColumnIndex(table.headers))
    ensures r.Success? ==> forall i :: 0 <= i < |append.body| ==>
      r.value.body[|table.body| + i] == Realign(append.body[i], table.headers, ColumnIndex(append.headers))
  {
    if Names(table.headers) != Names(append.headers) then Failure(HeaderMismatch)
    else
      var own := ColumnIndex(table.headers);
      var theirs := ColumnIndex(append.headers);
      assert forall h :: h in table.headers ==> h in append.headers by {
        forall h | h in table.headers
          ensures h in append.headers
        {
          assert h in Names(table.headers);
        }
      }
      var top := seq(|table.body|, i requires 0 <= i < |table.body| => Realign(table.body[i], table.headers, own));
      var bottom := seq(|append.body|, i requires 0 <= i < |append.body| => Realign(append.body[i], table.headers, theirs));
      Success(Table(table.headers, top + bottom))
  }

  /** With duplicate-free headers, the first table's rows keep their
      columns, and each appended row's value under a header name lands in
      the column of that name. */
  lemma AppendAlignedByName<T>(table: Table<T>, append: Table<T>)
    requires AppendAligned(table, append).Success?
    ensures NoDup(table.headers) ==> forall i, k :: 0 <= i < |table.body| && 0 <= k < |table.headers| ==>
      AppendAligned(table, append).value.body[i][k] == At(table.body[i], k)
    ensures NoDup(append.headers) ==>
      forall i, k, j :: (0 <= i < |append.body| && 0 <= k < |table.headers| && 0 <= j < |append.headers| &&
        append.headers[j] == table.headers[k]) ==> AppendAligned(table, append).value.body[|table.body| + i][k] == At(append.body[i], j)
  {
    assert forall h :: h in table.headers ==> h in append.headers by {
      forall h | h in table.headers
        ensures h in append.headers
      {
        assert h in Names(table.headers);
      }
    }
    RealignByLastIndexAll(table.body, table.headers);
    AlignedByName(append.body, append.headers, table.headers);
  }

  lemma RealignByLastIndexAll<T>(rows: seq<seq<T>>, headers: seq<string>)
    ensures NoDup(headers) ==> forall i, k :: 0 <= i < |rows| && 0 <= k < |headers| ==>
      Realign(rows[i], headers, ColumnIndex(headers))[k] == At(rows[i], k)
  {
    forall i | 0 <= i < |rows| {
      RealignByLastIndex(rows[i], headers);
    }
  }

  /** With duplicate-free appended headers, the realigned value under name
      `headers[k]` is the appended row's value in the column of that name. */
  lemma AlignedByName<T>(rows: seq<seq<T>>, appended: seq<string>, headers: seq<string>)
    requires forall h :: h in headers ==> h in appended
    ensures NoDup(appended) ==>
      forall i, k, j :: (0 <= i < |rows| && 0 <= k < |headers| && 0 <= j < |appended| &&
        appended[j] == headers[k]) ==> Realign(rows[i], headers, ColumnIndex(appended))[k] == At(rows[i], j)
  {
    if NoDup(appended) {
      forall i, k, j | 0 <= i < |rows| && 0 <= k < |headers| && 0 <= j < |appended| && appended[j] == headers[k]
        ensures Realign(rows[i], headers, ColumnIndex(appended))[k] == At(rows[i], j)
      {
        var l := LastIndex(appended, headers[k]);
      }
    }
  }

  /** The reordered-headers case under the intended stacking: "Bills" lands
      in the "Team" column. */
  lemma ReorderedHeadersAligned()
    ensures var table := Table(["Team", "Yards"], []);
      var append := Table(["Yards", "Team"], [["100", "Bills"]]);
      AppendAligned(table, append) == Success(Table(["Team", "Yards"], [[Some("Bills"), Some("100")]]))
  {
    var table := Table(["Team", "Yards"], []);
    var append := Table(["Yards", "Team"], [["100", "Bills"]]);
    ReorderedNamesAndIndex();
    var index := ColumnIndex(append.headers);
    var r := AppendAligned(table, append).value;
    assert |r.body| == 1;
    assert r.body[0] == Realign(append.body[0], table.headers, index);
    assert r.body[0][0] == At(append.body[0], 1);
    assert r.body[0][1] == At(append.body[0], 0);
    assert r.body[0] == [Some("Bills"), Some("100")];
    assert r.body == [r.body[0]];
  }

  lemma ReorderedNamesAndIndex()
    ensures Names(["Team", "Yards"]) == Names(["Yards", "Team"])
    ensures ColumnIndex(["Yards", "Team"])["Team"] == 1
    ensures ColumnIndex(["Yards", "Team"])["Yards"] == 0
  {
    var headers := ["Yards", "Team"];
    assert headers[1] == "Team" && headers[0] == "Yards";
    assert LastIndex(headers, "Team") == 1;
    assert LastIndex(headers, "Yards") == 0 by {
      assert headers[..1] == ["Yards"];
    }
  }
}
