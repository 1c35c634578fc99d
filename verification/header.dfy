/** Header flattening of src/utils/tables/header.ts.

    `flatten` is an async generator: each level pulls paths lazily from the
    generator of the levels below it, one `children.next()` per claimed
    column. The model describes a generator by its `Trace`: the paths it
    emitted, in order, and whether it then throws instead of returning. A
    parent that claims only a prefix of its children's paths never observes
    anything after that prefix, so a child that would throw later does not
    make the parent throw; `Claim` and `Distribute` walk the children with an
    explicit cursor to capture exactly that. */
module Header {
  import opened Results
  import opened Seqs

  /** What `parseInt(colspan || "1")` makes of a cell's `colspan` attribute:
      `Missing` for an absent or empty attribute (the `|| "1"` fallback),
      `Numeric(n)` when parsing finds the integer `n`, `NotNumeric` for NaN. */
  datatype SpanAttr = Missing | Numeric(n: int) | NotNumeric

  /** A `th` cell: an opaque DOM handle and its `colspan` attribute. */
  datatype HeaderCell<H> = HeaderCell(handle: H, colspan: SpanAttr)

  type Row<H> = seq<HeaderCell<H>>
  type Path<H> = seq<HeaderCell<H>>
  type Grid<H> = seq<Row<H>>

  /** A JavaScript number as `parseInt` returns it. */
  datatype Parsed = NaN | Int(value: int)

  /** The observable behaviour of a finite generator. */
  datatype Trace<P> = Trace(emitted: seq<P>, throws: bool)

  function Min(a: int, b: int): int {
    if a <= b then a else b
  }

  /** `getColspan`: the number `parseInt` makes of the cell's colspan
      attribute, 1 when the attribute is absent or empty. */
  function GetColspan<H>(cell: HeaderCell<H>): Parsed {
    match cell.colspan
    case Missing => Int(1)
    case Numeric(n) => Int(n)
    case NotNumeric => NaN
  }

  /** How often `for (let i = 0; i < colspan; i++)` runs: `0 < NaN` is false. */
  function Claims<H>(cell: HeaderCell<H>): nat {
    match GetColspan(cell)
    case NaN => 0
    case Int(n) => if n > 0 then n else 0
  }

  /** The number of child paths the cells of a row claim together. */
  function SpanTotal<H>(cells: Row<H>): nat {
    if |cells| == 0 then 0 else Claims(cells[0]) + SpanTotal(cells[1..])
  }

  /** The `|| "1"` fallback: a row whose cells carry no colspan at all
      claims exactly one lower path per cell. */
  lemma {:induction false} UnspannedRow<H>(row: Row<H>)
    requires forall j :: 0 <= j < |row| ==> row[j].colspan == Missing
    ensures SpanTotal(row) == |row|
  {
    if |row| > 0 {
      UnspannedRow(row[1..]);
    }
  }

  /** A grid with no colspan anywhere and as many cells in every row as in
      the leaf row flattens without throwing, one path per leaf cell. */
  lemma UnspannedGridFlattens<H>(levels: Grid<H>)
    requires |levels| >= 1
    requires forall d :: 0 <= d < |levels| ==> |levels[d]| == |levels[|levels| - 1]|
    requires forall d, j :: 0 <= d < |levels| && 0 <= j < |levels[d]| ==> levels[d][j].colspan == Missing
    ensures !Flatten(levels).throws
    ensures |Flatten(levels).emitted| == |levels[|levels| - 1]|
  {
    forall d | 0 <= d < |levels| - 1
      ensures SpanTotal(levels[d]) == |levels[|levels| - 1]|
    {
      UnspannedRow(levels[d]);
    }
    FlattenWellFormed(levels);
  }

  /** The inner loop for one head cell: pull `n` child paths starting at
      `cursor`, pairing each with its `owner`. Pulling past the end of the
      children throws, either the children's own error or the TypeError of
      spreading `undefined`. */
  function Claim<H>(owner: HeaderCell<H>, children: Trace<Path<H>>, cursor: nat, n: nat)
    : (t: Trace<(HeaderCell<H>, Path<H>)>)
    requires cursor <= |children.emitted|
    ensures !t.throws <==> cursor + n <= |children.emitted|
    ensures |t.emitted| == Min(n, |children.emitted| - cursor)
    ensures forall j :: 0 <= j < |t.emitted| ==> t.emitted[j] == (owner, children.emitted[cursor + j])
    decreases n
  {
    if n == 0 then Trace([], false)
    else if cursor == |children.emitted| then Trace([], true)
    else
      var rest := Claim(owner, children, cursor + 1, n - 1);
      Trace([(owner, children.emitted[cursor])] + rest.emitted, rest.throws)
  }

  /** The outer loop over the head cells `head[i..]`, the cursor advancing by each cell's span. */
  function Distribute<H>(head: Row<H>, i: nat, children: Trace<Path<H>>, cursor: nat)
    : (t: Trace<(HeaderCell<H>, Path<H>)>)
    requires i <= |head| && cursor <= |children.emitted|
    ensures !t.throws <==> cursor + SpanTotal(head[i..]) <= |children.emitted|
    ensures |t.emitted| == Min(SpanTotal(head[i..]), |children.emitted| - cursor)
    ensures forall j :: 0 <= j < |t.emitted| ==>
      t.emitted[j].1 == children.emitted[cursor + j] && t.emitted[j].0 in head[i..]
    decreases |head| - i
  {
    if i == |head| then Trace([], false)
    else
      assert head[i..][1..] == head[i + 1..];
      var run := Claim(head[i], children, cursor, Claims(head[i]));
      if run.throws then run
      else
        var rest := Distribute(head, i + 1, children, cursor + Claims(head[i]));
        Trace(run.emitted + rest.emitted, rest.throws)
  }

  /** Cell `m` of `row` covers lower path `k`: the cells before it claim
      at most `k` paths and the cells up to it claim more than `k`. */
  predicate Covers<H>(row: Row<H>, m: int, k: int) {
    0 <= m < |row| && SpanTotal(row[..m]) <= k < SpanTotal(row[..m + 1])
  }

  /** The index of the cell that owns lower path `k`: skip whole cells
      while `k` lies beyond what they claim. `|row|` when no cell does. */
  function Owner<H>(row: Row<H>, k: nat): (m: nat)
    ensures m <= |row|
    decreases |row|
  {
    if |row| == 0 || k < Claims(row[0]) then 0 else 1 + Owner(row[1..], k - Claims(row[0]))
  }

  /** Every path the row claims has an owner, and the owner's claimed range
      is the one that covers it. */
  lemma {:induction false} OwnerCovers<H>(row: Row<H>, k: nat)
    requires k < SpanTotal(row)
    ensures Covers(row, Owner(row, k), k)
    decreases |row|
  {
    var c := Claims(row[0]);
    assert row[..1] == [row[0]] && [row[0]][1..] == [];
    if k >= c {
      var m := Owner(row[1..], k - c);
      OwnerCovers(row[1..], k - c);
      assert row[..m + 1] == [row[0]] + row[1..][..m];
      assert ([row[0]] + row[1..][..m])[1..] == row[1..][..m];
      assert row[..m + 2] == [row[0]] + row[1..][..m + 1];
      assert ([row[0]] + row[1..][..m + 1])[1..] == row[1..][..m + 1];
    }
  }

  /** Each pair is owned by the cell of `row` that owns its position. */
  ghost predicate OwnedBySpan<H>(row: Row<H>, pairs: seq<(HeaderCell<H>, Path<H>)>) {
    forall j :: 0 <= j < |pairs| ==> Owner(row, j) < |row| && pairs[j].0 == row[Owner(row, j)]
  }

  /** Each path `Distribute` pulls is owned by the head cell whose claimed
      range covers its position, as the loop at lines 60-66 hands out
      `colspan` consecutive child paths to each head cell in turn. */
  lemma {:induction false} DistributeOwners<H>(head: Row<H>, i: nat, children: Trace<Path<H>>, cursor: nat)
    requires i <= |head| && cursor <= |children.emitted|
    ensures OwnedBySpan(head[i..], Distribute(head, i, children, cursor).emitted)
    decreases |head| - i
  {
    if i < |head| {
      var c := Claims(head[i]);
      var run := Claim(head[i], children, cursor, c);
      if run.throws {
        OwnedAppend(head, i, run.emitted, []);
        assert run.emitted + [] == run.emitted;
      } else {
        var rest := Distribute(head, i + 1, children, cursor + c);
        DistributeOwners(head, i + 1, children, cursor + c);
        OwnedAppend(head, i, run.emitted, rest.emitted);
      }
    }
  }

  /** The pairs of one head cell, then pairs owned within the rest of the
      row, are owned within the whole row. */
  lemma OwnedAppend<H>(head: Row<H>, i: nat, run: seq<(HeaderCell<H>, Path<H>)>, rest: seq<(HeaderCell<H>, Path<H>)>)
    requires i < |head|
    requires |run| <= Claims(head[i]) && (|rest| > 0 ==> |run| == Claims(head[i]))
    requires forall j :: 0 <= j < |run| ==> run[j].0 == head[i]
    requires OwnedBySpan(head[i + 1..], rest)
    ensures OwnedBySpan(head[i..], run + rest)
  {
    var c := Claims(head[i]);
    var row := head[i..];
    var all := run + rest;
    assert row[0] == head[i] && row[1..] == head[i + 1..];
    forall j | 0 <= j < |all|
      ensures Owner(row, j) < |row| && all[j].0 == row[Owner(row, j)]
    {
      if j >= |run| {
        assert all[j] == rest[j - c];
        assert Owner(row, j) == 1 + Owner(head[i + 1..], j - c);
      }
    }
  }

  /** `flatten(levels)` as written: line 64 prepends the whole `head` row. */
  function Flatten<H>(levels: Grid<H>): (t: Trace<Path<H>>)
    ensures |levels| == 0 ==> t.emitted == [] && !t.throws
    ensures |levels| == 1 ==> |t.emitted| == |levels[0]| && !t.throws
    ensures |levels| >= 1 ==> |t.emitted| <= |levels[|levels| - 1]|
    ensures |levels| >= 1 ==> forall k :: 0 <= k < |t.emitted| ==>
      t.emitted[k] == Flat(levels[..|levels| - 1]) + [levels[|levels| - 1][k]]
    decreases |levels|
  {
    if |levels| == 0 then Trace([], false)
    else if |levels| == 1 then
      Trace(seq(|levels[0]|, k requires 0 <= k < |levels[0]| => [levels[0][k]]), false)
    else
      var children := Flatten(levels[1..]);
      var d := Distribute(levels[0], 0, children, 0);
      assert levels[..|levels| - 1][1..] == levels[1..][..|levels| - 2];
      Trace(seq(|d.emitted|, k requires 0 <= k < |d.emitted| => levels[0] + d.emitted[k].1), d.throws)
  }

  /** With two or more levels, the top level claims `SpanTotal(levels[0])` of
      the lower paths, in order: it yields that many when the lower levels
      have them, drops the unclaimed rest, and throws when they run short. */
  lemma FlattenClaims<H>(levels: Grid<H>)
    requires |levels| >= 2
    ensures var lower := Flatten(levels[1..]);
      && (Flatten(levels).throws <==> SpanTotal(levels[0]) > |lower.emitted|)
      && |Flatten(levels).emitted| == Min(SpanTotal(levels[0]), |lower.emitted|)
      && forall k :: 0 <= k < |Flatten(levels).emitted| ==>
           Flatten(levels).emitted[k] == levels[0] + lower.emitted[k]
  {
    assert levels[0][0..] == levels[0];
  }

  /** A colspan counts leaf columns. When every non-leaf level's spans add
      up to the number of leaf cells, as in a well-formed HTML header,
      flattening never throws and yields one path per leaf cell. */
  lemma {:induction false} FlattenWellFormed<H>(levels: Grid<H>)
    requires |levels| >= 1
    requires forall d :: 0 <= d < |levels| - 1 ==> SpanTotal(levels[d]) == |levels[|levels| - 1]|
    ensures !Flatten(levels).throws
    ensures |Flatten(levels).emitted| == |levels[|levels| - 1]|
    decreases |levels|
  {
    if |levels| >= 2 {
      var tail := levels[1..];
      assert tail[|tail| - 1] == levels[|levels| - 1];
      assert forall d :: 0 <= d < |tail| - 1 ==> tail[d] == levels[d + 1];
      FlattenWellFormed(tail);
      FlattenClaims(levels);
    }
  }

  /** The flattening the doc comment of `flatten` describes: each level
      contributes only the cell that spans the column, so every path holds
      exactly one cell per level, ending with its leaf. */
  function FlattenPerLevel<H>(levels: Grid<H>): (t: Trace<Path<H>>)
    ensures forall k :: 0 <= k < |t.emitted| ==> |t.emitted[k]| == |levels|
    ensures forall k, d :: 0 <= k < |t.emitted| && 0 <= d < |levels| ==> t.emitted[k][d] in levels[d]
    ensures |levels| >= 1 ==> |t.emitted| <= |levels[|levels| - 1]|
    ensures |levels| >= 1 ==> forall k :: 0 <= k < |t.emitted| ==>
      t.emitted[k][|levels| - 1] == levels[|levels| - 1][k]
    decreases |levels|
  {
    if |levels| == 0 then Trace([], false)
    else if |levels| == 1 then
      Trace(seq(|levels[0]|, k requires 0 <= k < |levels[0]| => [levels[0][k]]), false)
    else
      var children := FlattenPerLevel(levels[1..]);
      var d := Distribute(levels[0], 0, children, 0);
      PerLevelStep(levels, children, d.emitted);
      Trace(WithOwners(d.emitted), d.throws)
  }

  /** Each child path with its owning cell in front. */
  function WithOwners<H>(pairs: seq<(HeaderCell<H>, Path<H>)>): (paths: seq<Path<H>>)
    ensures |paths| == |pairs|
    ensures forall k :: 0 <= k < |pairs| ==> paths[k] == [pairs[k].0] + pairs[k].1
  {
    seq(|pairs|, k requires 0 <= k < |pairs| => [pairs[k].0] + pairs[k].1)
  }

  /** One level of `FlattenPerLevel`: owners from the top row in front of
      per-level paths of the lower levels give per-level paths of all levels. */
  lemma PerLevelStep<H>(levels: Grid<H>, children: Trace<Path<H>>, pairs: seq<(HeaderCell<H>, Path<H>)>)
    requires |levels| >= 2
    requires forall k :: 0 <= k < |children.emitted| ==> |children.emitted[k]| == |levels[1..]|
    requires forall k, e :: 0 <= k < |children.emitted| && 0 <= e < |levels[1..]| ==> children.emitted[k][e] in levels[1..][e]
    requires |children.emitted| <= |levels[1..][|levels[1..]| - 1]|
    requires forall k :: 0 <= k < |children.emitted| ==>
      children.emitted[k][|levels[1..]| - 1] == levels[1..][|levels[1..]| - 1][k]
    requires |pairs| <= |children.emitted|
    requires forall j :: 0 <= j < |pairs| ==> pairs[j].1 == children.emitted[0 + j] && pairs[j].0 in levels[0][0..]
    ensures forall k :: 0 <= k < |pairs| ==> |WithOwners(pairs)[k]| == |levels|
    ensures forall k, e :: 0 <= k < |pairs| && 0 <= e < |levels| ==> WithOwners(pairs)[k][e] in levels[e]
    ensures |pairs| <= |levels[|levels| - 1]|
    ensures forall k :: 0 <= k < |pairs| ==> WithOwners(pairs)[k][|levels| - 1] == levels[|levels| - 1][k]
  {
    var paths := WithOwners(pairs);
    var lower := levels[1..];
    assert lower[|lower| - 1] == levels[|levels| - 1];
    forall k, e | 0 <= k < |pairs| && 0 <= e < |levels|
      ensures paths[k][e] in levels[e]
    {
      assert levels[0][0..] == levels[0];
      if e > 0 {
        assert paths[k][e] == children.emitted[k][e - 1];
        assert lower[e - 1] == levels[e];
      }
    }
    forall k | 0 <= k < |pairs|
      ensures paths[k][|levels| - 1] == levels[|levels| - 1][k]
    {
      assert paths[k][|levels| - 1] == children.emitted[k][|lower| - 1];
    }
  }

  /** Both readings claim the same number of lower paths and fail on the
      same grids, and their paths end with the same leaf cell, which is all
      the stats header extractors read (src/repos/stats/repo.ts:163, :202). */
  lemma {:induction false} PerLevelAgreesOnLeaves<H>(levels: Grid<H>)
    ensures |FlattenPerLevel(levels).emitted| == |Flatten(levels).emitted|
    ensures FlattenPerLevel(levels).throws == Flatten(levels).throws
    ensures forall k :: 0 <= k < |Flatten(levels).emitted| ==>
      Flatten(levels).emitted[k][|Flatten(levels).emitted[k]| - 1] ==
      FlattenPerLevel(levels).emitted[k][|FlattenPerLevel(levels).emitted[k]| - 1]
    decreases |levels|
  {
    if |levels| >= 2 {
      var lower := levels[1..];
      PerLevelAgreesOnLeaves(lower);
      var da := Distribute(levels[0], 0, Flatten(lower), 0);
      var db := Distribute(levels[0], 0, FlattenPerLevel(lower), 0);
      assert |da.emitted| == |db.emitted| && da.throws == db.throws;
    }
    if |levels| >= 1 {
      var leaf := levels[|levels| - 1];
      forall k | 0 <= k < |Flatten(levels).emitted|
        ensures Flatten(levels).emitted[k][|Flatten(levels).emitted[k]| - 1] == leaf[k]
        ensures FlattenPerLevel(levels).emitted[k][|FlattenPerLevel(levels).emitted[k]| - 1] == leaf[k]
      {
      }
    }
  }

  /** Below the leaf row, the cell at level `d` of path `k` is the owner
      of `k` in row `d`: its ancestor in the header tree. */
  ghost predicate AncestorPaths<H>(levels: Grid<H>, paths: seq<Path<H>>) {
    forall k, d :: 0 <= k < |paths| && 0 <= d < |levels| - 1 ==>
      d < |paths[k]| && Owner(levels[d], k) < |levels[d]| && paths[k][d] == levels[d][Owner(levels[d], k)]
  }

  /** The documented reading, on every grid: every path lists the ancestors
      of its leaf, one per level, as the doc comment at lines 8-34 shows. */
  lemma {:induction false} PerLevelAncestors<H>(levels: Grid<H>)
    ensures AncestorPaths(levels, FlattenPerLevel(levels).emitted)
    decreases |levels|
  {
    if |levels| >= 2 {
      var lower := levels[1..];
      var children := FlattenPerLevel(lower);
      var dist := Distribute(levels[0], 0, children, 0);
      PerLevelAncestors(lower);
      DistributeOwners(levels[0], 0, children, 0);
      assert FlattenPerLevel(levels).emitted == WithOwners(dist.emitted);
      AncestorStep(levels, children.emitted, dist.emitted);
    }
  }

  /** One level of `PerLevelAncestors`: owners from the top row in front of
      lower paths that list their own ancestors. */
  lemma AncestorStep<H>(levels: Grid<H>, children: seq<Path<H>>, pairs: seq<(HeaderCell<H>, Path<H>)>)
    requires |levels| >= 2 && |pairs| <= |children|
    requires forall j :: 0 <= j < |pairs| ==> pairs[j].1 == children[0 + j]
    requires OwnedBySpan(levels[0][0..], pairs)
    requires forall k :: 0 <= k < |children| ==> |children[k]| == |levels[1..]|
    requires AncestorPaths(levels[1..], children)
    ensures AncestorPaths(levels, WithOwners(pairs))
  {
    var paths := WithOwners(pairs);
    var lower := levels[1..];
    assert levels[0][0..] == levels[0];
    forall k, d | 0 <= k < |paths| && 0 <= d < |levels| - 1
      ensures d < |paths[k]| && Owner(levels[d], k) < |levels[d]| && paths[k][d] == levels[d][Owner(levels[d], k)]
    {
      assert paths[k] == [pairs[k].0] + children[k];
      if d > 0 {
        assert lower[d - 1] == levels[d];
        assert paths[k][d] == children[k][d - 1];
      }
    }
  }

  /** The header grid of the `flatten` doc comment, cut to two levels:
      A spans F and G, B spans H. As written, every path starts with the
      whole top row, so the first path is [A, B, F], not the documented [A, F]. */
  lemma FlattenPrependsWholeRow(a: HeaderCell<string>, b: HeaderCell<string>,
                                f: HeaderCell<string>, g: HeaderCell<string>, h: HeaderCell<string>)
    requires a.colspan == Numeric(2) && b.colspan == Missing
    ensures Flatten([[a, b], [f, g, h]]).emitted == [[a, b, f], [a, b, g], [a, b, h]]
  {
    var levels := [[a, b], [f, g, h]];
    assert levels[..1] == [[a, b]] && levels[1..] == [[f, g, h]];
    assert Flat([[a, b]]) == [a, b] + Flat([]);
    DocGridSpans(a, b);
    FlattenWellFormed(levels);
    var flat := Flatten(levels);
    assert flat.emitted[0] == [a, b, f] && flat.emitted[1] == [a, b, g] && flat.emitted[2] == [a, b, h];
  }

  /** On the same grid the per-level reading yields the documented paths. */
  lemma PerLevelMatchesDoc(a: HeaderCell<string>, b: HeaderCell<string>,
                           f: HeaderCell<string>, g: HeaderCell<string>, h: HeaderCell<string>)
    requires a.colspan == Numeric(2) && b.colspan == Missing
    ensures FlattenPerLevel([[a, b], [f, g, h]]).emitted == [[a, f], [a, g], [b, h]]
  {
    var levels := [[a, b], [f, g, h]];
    assert levels[1..] == [[f, g, h]];
    DocGridSpans(a, b);
    var children := FlattenPerLevel(levels[1..]);
    assert children.emitted == [[f], [g], [h]];
    var d := Distribute(levels[0], 0, children, 0);
    var run := Claim(a, children, 0, 2);
    var rest := Distribute(levels[0], 1, children, 2);
    var runB := Claim(b, children, 2, 1);
    assert rest.emitted[..1] == runB.emitted;
    assert d.emitted == run.emitted + rest.emitted;
    assert d.emitted[0] == (a, [f]) && d.emitted[1] == (a, [g]) && d.emitted[2] == (b, [h]);
    var pl := FlattenPerLevel(levels);
    assert pl.emitted == seq(|d.emitted|, k requires 0 <= k < |d.emitted| => [d.emitted[k].0] + d.emitted[k].1);
    assert |pl.emitted| == 3;
    assert pl.emitted[0] == [a, f] && pl.emitted[1] == [a, g] && pl.emitted[2] == [b, h];
  }

  lemma DocGridSpans(a: HeaderCell<string>, b: HeaderCell<string>)
    requires a.colspan == Numeric(2) && b.colspan == Missing
    ensures Claims(a) == 2 && Claims(b) == 1
    ensures SpanTotal([a, b]) == 3 && SpanTotal([a, b][1..]) == 1
  {
    assert [a, b][1..] == [b] && [b][1..] == [];
    assert GetColspan(a) == Int(2) && GetColspan(b) == Int(1);
    assert SpanTotal([b]) == 1;
  }

  /** The generators are lazy: here the middle level claims five paths from
      a leaf level that has one, so flattening the lower two levels alone
      throws; but the top cell claims only one path, the throw is never
      reached, and the whole grid flattens to a single path. */
  lemma LazyLowerLevels(a: HeaderCell<string>, b: HeaderCell<string>, c: HeaderCell<string>)
    requires a.colspan == Missing && b.colspan == Numeric(5)
    ensures Flatten([[b], [c]]).throws
    ensures !Flatten([[a], [b], [c]]).throws
    ensures Flatten([[a], [b], [c]]).emitted == [[a, b, c]]
  {
    var levels := [[a], [b], [c]];
    assert levels[1..] == [[b], [c]] && [[b], [c]][1..] == [[c]];
    assert [a][1..] == [] && [b][1..] == [];
    assert GetColspan(a) == Int(1) && GetColspan(b) == Int(5);
    assert Claims(a) == 1 && Claims(b) == 5;
    assert SpanTotal([b][1..]) == 0;
    assert SpanTotal([a]) == 1 && SpanTotal([b]) == 5;
    FlattenClaims([[b], [c]]);
    FlattenClaims(levels);
    assert levels[..2] == [[a], [b]];
    assert Flat([[a], [b]]) == [a] + Flat([[b]]);
    assert Flat([[b]]) == [b] + Flat([]);
    var t := Flatten(levels);
    assert t.emitted[0] == [a, b, c];
  }

  /** `mapTableHeaders(table, fn)`: `fn` is awaited on each flattened path in
      turn, with the path's position as index and the whole header grid as
      third argument. A failing `fn` stops the loop, so the error is the
      first failing path's, and a later throw of the generator is reached
      only when every emitted path maps. */
  function MapHeaders<H, T>(grid: Grid<H>, fn: (Path<H>, nat, Grid<H>) -> Result<T>)
    : (r: Result<seq<T>>)
    ensures var paths := Flatten(grid).emitted;
      r.Success? <==> !Flatten(grid).throws && forall k :: 0 <= k < |paths| ==> fn(paths[k], k, grid).Success?
    ensures var paths := Flatten(grid).emitted;
      r.Success? ==> |r.value| == |paths| && forall k :: 0 <= k < |paths| ==> r.value[k] == fn(paths[k], k, grid).value
    ensures var paths := Flatten(grid).emitted;
      forall k :: 0 <= k < |paths| && fn(paths[k], k, grid).Failure? && (forall j :: 0 <= j < k ==> fn(paths[j], j, grid).Success?) ==>
        r == Failure(fn(paths[k], k, grid).error)
    ensures var paths := Flatten(grid).emitted;
      Flatten(grid).throws && (forall k :: 0 <= k < |paths| ==> fn(paths[k], k, grid).Success?) ==> r == Failure(UndefinedChildPath)
  {
    var paths := Flatten(grid);
    MapInOrderFirstFailure(paths.emitted, (p: Path<H>, k: nat) => fn(p, k, grid));
    var mapped :- MapInOrder(paths.emitted, (p: Path<H>, k: nat) => fn(p, k, grid));
    if paths.throws then Failure(UndefinedChildPath) else Success(mapped)
  }
}
