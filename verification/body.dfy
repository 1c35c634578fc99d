/** `mapTableBody` of src/utils/tables/body.ts: the cell extractor applied to
    every `td` of every `tbody tr`. Rows are awaited one after the other; the
    cells of a row go through `Promise.all`, which keeps their order. */
module Body {
  import opened Results

  function MapBody<C, T>(rows: seq<seq<C>>, fn: (C, nat, seq<C>) -> Result<T>): (r: Result<seq<seq<T>>>)
    ensures r.Success? <==>
      forall i, j :: 0 <= i < |rows| && 0 <= j < |rows[i]| ==> fn(rows[i][j], j, rows[i]).Success?
    ensures r.Success? ==> |r.value| == |rows|
    ensures r.Success? ==> forall i :: 0 <= i < |rows| ==> |r.value[i]| == |rows[i]|
    ensures r.Success? ==> forall i, j :: 0 <= i < |rows| && 0 <= j < |rows[i]| ==>
      r.value[i][j] == fn(rows[i][j], j, rows[i]).value
    ensures r.Failure? ==>
      exists i, j :: 0 <= i < |rows| && 0 <= j < |rows[i]| && fn(rows[i][j], j, rows[i]) == Failure(r.error)
  {
    MapInOrder(rows, (row: seq<C>, i: nat) => MapInOrder(row, (c: C, j: nat) => fn(c, j, row)))
  }
}
