/** `mapTable` of src/utils/tables/map.ts: the header extractor over the
    flattened header paths, then the cell extractor over the body grid. */
module TableMap {
  import opened Results
  import opened Tables
  import opened Header
  import opened Body

  /** What the page offers for one `table` element: the `th` cells of each
      `thead tr` and the `td` cells of each `tbody tr`. */
  datatype TableSource<H, C> = TableSource(head: Grid<H>, body: seq<seq<C>>)

  function MapTable<H, C, T>(source: TableSource<H, C>,
                             headFn: (Path<H>, nat, Grid<H>) -> Result<string>,
                             bodyFn: (C, nat, seq<C>) -> Result<T>): (r: Result<Table<T>>)
    ensures r.Success? <==> MapHeaders(source.head, headFn).Success? && MapBody(source.body, bodyFn).Success?
    ensures MapHeaders(source.head, headFn).Failure? ==> r == Failure(MapHeaders(source.head, headFn).error)
    ensures r.Success? ==> r.value.headers == MapHeaders(source.head, headFn).value
    ensures r.Success? ==> r.value.body == MapBody(source.body, bodyFn).value
  {
    var headers :- MapHeaders(source.head, headFn);
    var body :- MapBody(source.body, bodyFn);
    Success(Table(headers, body))
  }

  /** A mapped table has one header per flattened path, produced by the
      header extractor at that path's position, and keeps the number of rows
      and of cells per row, each cell produced by the cell extractor. */
  lemma MapTableContents<H, C, T>(source: TableSource<H, C>,
                                  headFn: (Path<H>, nat, Grid<H>) -> Result<string>,
                                  bodyFn: (C, nat, seq<C>) -> Result<T>)
    requires MapTable(source, headFn, bodyFn).Success?
    ensures var t := MapTable(source, headFn, bodyFn).value;
      var paths := Flatten(source.head).emitted;
      && |t.headers| == |paths|
      && (forall k :: 0 <= k < |paths| ==> t.headers[k] == headFn(paths[k], k, source.head).value)
      && |t.body| == |source.body|
      && (forall i :: 0 <= i < |source.body| ==> |t.body[i]| == |source.body[i]|)
      && (forall i, j :: 0 <= i < |source.body| && 0 <= j < |source.body[i]| ==>
            t.body[i][j] == bodyFn(source.body[i][j], j, source.body[i]).value)
  {
  }

  /** There is no width check: the result is well shaped exactly when every
      source row has one cell per flattened header path. */
  lemma MapTableShape<H, C, T>(source: TableSource<H, C>,
                               headFn: (Path<H>, nat, Grid<H>) -> Result<string>,
                               bodyFn: (C, nat, seq<C>) -> Result<T>)
    requires MapTable(source, headFn, bodyFn).Success?
    ensures MapTable(source, headFn, bodyFn).value.WellShaped() <==>
      forall i :: 0 <= i < |source.body| ==> |source.body[i]| == |Flatten(source.head).emitted|
  {
    var t := MapTable(source, headFn, bodyFn).value;
    if t.WellShaped() {
      forall i | 0 <= i < |source.body|
        ensures |source.body[i]| == |Flatten(source.head).emitted|
      {
        assert |t.body[i]| == |t.headers|;
      }
    }
  }
}
