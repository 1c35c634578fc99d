/** The page-independent parts of `TeamStatsRepo` in src/repos/stats/repo.ts:
    putting the two stats tables of a page side by side, turning the
    concatenated table into `TeamStats` records, collecting
    the four kinds, finding one entry, and the `list()` cache.

    A cell read past the end of a row is JavaScript's `undefined`, so the
    records built from a table of `V` hold `Option<V>` values. */
module StatsRepo {
  import opened Results
  import opened Tables
  import opened Seqs
  import opened Records
  import opened StatsEntity
  import Distinct
  import Concat
  import Memo

  /** `headers.indexOf(x)`: the first index of `x`, or -1 when absent. */
  function IndexOf(s: seq<string>, x: string): (i: int)
    ensures x in s ==> i == FirstIndex(s, x)
    ensures x !in s ==> i == -1
  {
    if x in s then FirstIndex(s, x) else -1
  }

  /** Each header paired with the row's value in the same column, or with
      `undefined` past the row's end (lines 86-88). */
  function Pairs<V>(headers: seq<string>, row: seq<V>): (pairs: seq<(string, Option<V>)>)
    ensures Keys(pairs) == headers
    ensures forall i :: 0 <= i < |headers| ==> pairs[i].1 == At(row, i)
  {
    var pairs := seq(|headers|, i requires 0 <= i < |headers| => (headers[i], At(row, i)));
    assert Keys(pairs) == headers;
    pairs
  }

  /** The body of the loop of `fetchType` for one row: the team is the row's
      value under the first "Team" header, and the stats are every column
      put into an object by header, with the "Team" key deleted. */
  function RowStats<V>(headers: seq<string>, row: seq<V>, kind: StatType): (ts: TeamStats<Option<V>>)
    ensures ts.kind == kind
    ensures ts.team == if TeamColumn in headers then At(row, FirstIndex(headers, TeamColumn)) else None
  {
    TeamStats(At(row, IndexOf(headers, TeamColumn)), kind, Delete(FromEntries(Pairs(headers, row)), TeamColumn))
  }

  /** The stats record holds each header other than "Team" once, in order of
      first appearance; there is no "Team" key. */
  lemma RowStatsKeys<V>(headers: seq<string>, row: seq<V>, kind: StatType)
    ensures Keys(RowStats(headers, row, kind).stats) == Without(Distinct.Distinct(headers), TeamColumn)
    ensures Lookup(RowStats(headers, row, kind).stats, TeamColumn) == None
  {
    var pairs := Pairs(headers, row);
    var record := FromEntries(pairs);
    assert RowStats(headers, row, kind).stats == Delete(record, TeamColumn);
    FromEntriesKeys(pairs);
    DeleteContents(record, TeamColumn);
  }

  /** Each other header holds the row's value in the LAST column carrying
      that header; a name that is no header is not a key. */
  lemma RowStatsValues<V>(headers: seq<string>, row: seq<V>, kind: StatType)
    ensures forall k :: k in headers && k != TeamColumn ==>
      Lookup(RowStats(headers, row, kind).stats, k) == Some(At(row, LastIndex(headers, k)))
    ensures forall k :: k !in headers ==> Lookup(RowStats(headers, row, kind).stats, k) == None
  {
    var pairs := Pairs(headers, row);
    var record := FromEntries(pairs);
    var stats := RowStats(headers, row, kind).stats;
    assert stats == Delete(record, TeamColumn);
    FromEntriesKeys(pairs);
    FromEntriesValues(pairs);
    DeleteContents(record, TeamColumn);
    forall k | k in headers && k != TeamColumn
      ensures Lookup(stats, k) == Some(At(row, LastIndex(headers, k)))
    {
      assert Lookup(stats, k) == Lookup(record, k);
    }
    forall k | k !in headers
      ensures Lookup(stats, k) == None
    {
      assert k !in Keys(record);
      if k != TeamColumn {
        assert Lookup(stats, k) == Lookup(record, k);
      }
    }
  }

  /** `fetchType` after the page is parsed: one record per body row, in row order. */
  function FetchType<V>(table: Table<V>, kind: StatType): (r: seq<TeamStats<Option<V>>>)
    ensures |r| == |table.body|
    ensures forall i :: 0 <= i < |r| ==> r[i] == RowStats(table.headers, table.body[i], kind)
  {
    seq(|table.body|, i requires 0 <= i < |table.body| => RowStats(table.headers, table.body[i], kind))
  }

  /** A record seen through `fetchType`'s `undefined`-aware reading. */
  function Lift<V>(ts: TeamStats<V>): (lifted: TeamStats<Option<V>>)
    ensures lifted.team == Some(ts.team) && lifted.kind == ts.kind
    ensures Keys(lifted.stats) == Keys(ts.stats)
    ensures forall i :: 0 <= i < |ts.stats| ==> lifted.stats[i].1 == Some(ts.stats[i].1)
  {
    var stats := seq(|ts.stats|, i requires 0 <= i < |ts.stats| => (ts.stats[i].0, Some(ts.stats[i].1)));
    assert Keys(stats) == Keys(ts.stats);
    TeamStats(Some(ts.team), ts.kind, stats)
  }

  /** Reading back the one-row table `toTable` builds gives the record it
      came from, provided no stat is itself called "Team". */
  lemma FetchTypeOfToTable<V>(ts: TeamStats<V>)
    requires NoDup(Keys(ts.stats)) && TeamColumn !in Keys(ts.stats)
    ensures FetchType(ToTable(ts), ts.kind) == [Lift(ts)]
  {
    var t := ToTable(ts);
    var row := t.body[0];
    assert RowStats(t.headers, row, ts.kind) == Lift(ts) by {
      RowStatsOfToTable(ts);
    }
    assert FetchType(t, ts.kind)[0] == RowStats(t.headers, row, ts.kind);
  }

  lemma RowStatsOfToTable<V>(ts: TeamStats<V>)
    requires NoDup(Keys(ts.stats)) && TeamColumn !in Keys(ts.stats)
    ensures RowStats(ToTable(ts).headers, ToTable(ts).body[0], ts.kind) == Lift(ts)
  {
    var t := ToTable(ts);
    var row := t.body[0];
    var pairs := Pairs(t.headers, row);
    var rest := Lift(ts).stats;
    assert IndexOf(t.headers, TeamColumn) == 0;
    PairsOfToTable(ts);
    assert NoDup(t.headers) by {
      assert t.headers == [TeamColumn] + Keys(ts.stats);
    }
    FromEntriesOfDistinct(pairs);
    assert pairs[0].0 == TeamColumn && pairs[1..] == rest;
    assert Delete(pairs, TeamColumn) == Delete(rest, TeamColumn);
    DeleteAbsent(rest, TeamColumn);
  }

  lemma PairsOfToTable<V>(ts: TeamStats<V>)
    ensures Pairs(ToTable(ts).headers, ToTable(ts).body[0]) == [(TeamColumn, Some(ts.team))] + Lift(ts).stats
  {
    var t := ToTable(ts);
    var row := t.body[0];
    var pairs := Pairs(t.headers, row);
    var rest := Lift(ts).stats;
    var want := [(TeamColumn, Some(ts.team))] + rest;
    assert |rest| == |Keys(rest)| == |ts.stats|;
    forall i | 0 <= i < |pairs|
      ensures pairs[i] == want[i]
    {
      assert pairs[i].0 == Keys(pairs)[i] == t.headers[i];
      assert pairs[i].1 == At(row, i);
      if i > 0 {
        assert want[i] == rest[i - 1];
        assert rest[i - 1].0 == Keys(rest)[i - 1] == Keys(ts.stats)[i - 1];
      }
    }
    assert pairs == want;
  }

  lemma {:induction false} FromEntriesOfDistinct<V>(pairs: seq<(string, V)>)
    requires NoDup(Keys(pairs))
    ensures FromEntries(pairs) == pairs
    decreases |pairs|
  {
    if |pairs| > 0 {
      var init := pairs[..|pairs| - 1];
      assert Keys(pairs) == Keys(init) + [pairs[|pairs| - 1].0];
      NoDupSnoc(Keys(init), pairs[|pairs| - 1].0);
      FromEntriesOfDistinct(init);
      assert init + [pairs[|pairs| - 1]] == pairs;
    }
  }

  lemma {:induction false} DeleteAbsent<V>(entries: Record<V>, key: string)
    requires key !in Keys(entries)
    ensures Delete(entries, key) == entries
    decreases |entries|
  {
    if |entries| > 0 {
      assert Keys(entries)[1..] == Keys(entries[1..]);
      assert entries[0].0 == Keys(entries)[0];
      DeleteAbsent(entries[1..], key);
      assert [entries[0]] + entries[1..] == entries;
    }
  }

  /** The loop of `fetchAll` over `kinds`: fetch each kind's table in turn,
      stopping at the first failure, and concatenate the records. */
  function FetchKinds<V>(kinds: seq<StatType>, tableFor: StatType -> Result<Table<V>>): (r: Result<seq<TeamStats<Option<V>>>>)
    ensures r.Success? <==> forall i :: 0 <= i < |kinds| ==> tableFor(kinds[i]).Success?
    ensures r.Success? ==>
      r.value == Flat(seq(|kinds|, i requires 0 <= i < |kinds| && tableFor(kinds[i]).Success? =>
        FetchType(tableFor(kinds[i]).value, kinds[i])))
    ensures r.Failure? ==>
      exists i :: 0 <= i < |kinds| && tableFor(kinds[i]) == Failure(r.error) &&
        forall j :: 0 <= j < i ==> tableFor(kinds[j]).Success?
    decreases |kinds|
  {
    if |kinds| == 0 then Success([])
    else
      var table :- tableFor(kinds[0]);
      var rest :- FetchKinds(kinds[1..], tableFor);
      var blocks := seq(|kinds|, i requires 0 <= i < |kinds| && tableFor(kinds[i]).Success? =>
        FetchType(tableFor(kinds[i]).value, kinds[i]));
      assert blocks[1..] == seq(|kinds| - 1, i requires 0 <= i < |kinds| - 1 && tableFor(kinds[1..][i]).Success? =>
        FetchType(tableFor(kinds[1..][i]).value, kinds[1..][i]));
      Success(FetchType(table, kinds[0]) + rest)
  }

  /** `fetchAll`: the four kinds in declaration order. */
  function FetchAll<V>(tableFor: StatType -> Result<Table<V>>): (r: Result<seq<TeamStats<Option<V>>>>)
    ensures r.Success? <==> forall kind :: tableFor(kind).Success?
    ensures r.Success? ==>
      (r.value ==
        FetchType(tableFor(Offense).value, Offense) + FetchType(tableFor(Defense).value, Defense) +
        FetchType(tableFor(Turnover).value, Turnover) + FetchType(tableFor(Special).value, Special))
  {
    FetchKindsAll(tableFor);
    FetchKinds(AllKinds, tableFor)
  }

  lemma FetchKindsAll<V>(tableFor: StatType -> Result<Table<V>>)
    ensures var r := FetchKinds(AllKinds, tableFor);
      && (r.Success? <==> forall kind :: tableFor(kind).Success?)
      && (r.Success? ==>
        (r.value ==
          FetchType(tableFor(Offense).value, Offense) + FetchType(tableFor(Defense).value, Defense) +
          FetchType(tableFor(Turnover).value, Turnover) + FetchType(tableFor(Special).value, Special)))
  {
    var r := FetchKinds(AllKinds, tableFor);
    forall kind: StatType
      ensures AllKinds[kind.Ordinal()] == kind
    {
    }
    if r.Success? {
      forall kind: StatType
        ensures tableFor(kind).Success?
      {
        assert tableFor(AllKinds[kind.Ordinal()]).Success?;
      }
      var blocks := seq(|AllKinds|, i requires 0 <= i < |AllKinds| && tableFor(AllKinds[i]).Success? =>
        FetchType(tableFor(AllKinds[i]).value, AllKinds[i]));
      assert blocks == [blocks[0], blocks[1], blocks[2], blocks[3]];
      FlatFour(blocks[0], blocks[1], blocks[2], blocks[3]);
    } else {
      var i :| 0 <= i < |AllKinds| && tableFor(AllKinds[i]).Failure?;
      assert !tableFor(AllKinds[i]).Success?;
    }
  }

  lemma FlatFour<T>(a: seq<T>, b: seq<T>, c: seq<T>, d: seq<T>)
    ensures Flat([a, b, c, d]) == a + b + c + d
  {
    assert [a, b, c, d][1..] == [b, c, d];
    assert [b, c, d][1..] == [c, d];
    assert [c, d][1..] == [d];
    assert [d][1..] == [];
    assert Flat([d]) == d + Flat([]) == d;
    assert Flat([c, d]) == c + d;
    assert Flat([b, c, d]) == b + c + d;
  }

  /** Records listed in declaration order of their kinds. */
  predicate KindOrdered<V>(all: seq<TeamStats<V>>) {
    forall i, j :: 0 <= i < j < |all| ==> all[i].kind.Ordinal() <= all[j].kind.Ordinal()
  }

  /** Every record of `fetchAll` carries its kind, and the records come
      grouped by kind in declaration order. */
  lemma FetchAllOrdered<V>(tableFor: StatType -> Result<Table<V>>)
    requires FetchAll(tableFor).Success?
    ensures KindOrdered(FetchAll(tableFor).value)
  {
    var o := FetchType(tableFor(Offense).value, Offense);
    var d := FetchType(tableFor(Defense).value, Defense);
    var t := FetchType(tableFor(Turnover).value, Turnover);
    var s := FetchType(tableFor(Special).value, Special);
    OrderedAppend(o, d, 1);
    OrderedAppend(o + d, t, 2);
    OrderedAppend(o + d + t, s, 3);
  }

  /** Appending a block of one kind whose ordinal is at least every earlier
      record's keeps the records ordered. */
  lemma OrderedAppend<V>(front: seq<TeamStats<V>>, block: seq<TeamStats<V>>, ordinal: nat)
    requires KindOrdered(front)
    requires forall i :: 0 <= i < |front| ==> front[i].kind.Ordinal() <= ordinal
    requires forall i :: 0 <= i < |block| ==> block[i].kind.Ordinal() == ordinal
    ensures KindOrdered(front + block)
    ensures forall i :: 0 <= i < |front + block| ==> (front + block)[i].kind.Ordinal() <= ordinal
  {
  }

  /** `findByTeamAndType` on the listed records: the first record for the
      team and kind, or "No stats found". */
  function FindByTeamAndType<V(==)>(all: seq<TeamStats<V>>, team: V, kind: StatType): (r: Result<TeamStats<V>>)
    ensures r.Success? <==> exists i :: 0 <= i < |all| && all[i].team == team && all[i].kind == kind
    ensures r.Success? ==>
      exists i :: 0 <= i < |all| && all[i] == r.value && all[i].team == team && all[i].kind == kind &&
        forall j :: 0 <= j < i ==> !(all[j].team == team && all[j].kind == kind)
    ensures r.Failure? ==> r.error == StatsNotFound
    decreases |all|
  {
    if |all| == 0 then Failure(StatsNotFound)
    else if all[0].team == team && all[0].kind == kind then Success(all[0])
    else
      var r := FindByTeamAndType(all[1..], team, kind);
      if r.Success? then
        ghost var i :| 0 <= i < |all[1..]| && all[1..][i] == r.value && all[1..][i].team == team && all[1..][i].kind == kind &&
          forall j :: 0 <= j < i ==> !(all[1..][j].team == team && all[1..][j].kind == kind);
        assert all[i + 1] == r.value;
        r
      else
        assert forall i :: 1 <= i < |all| ==> all[i] == all[1..][i - 1];
        r
  }

  /** `list()`: the cached records, or `fetchAll` when nothing is cached yet. */
  function List<V>(cache: Option<seq<TeamStats<Option<V>>>>, tableFor: StatType -> Result<Table<V>>): (c: Memo.Call<seq<TeamStats<Option<V>>>>)
    ensures cache.Some? ==> !c.fetched && c.result == Success(cache.value)
    ensures cache.None? ==> c.fetched && c.result == FetchAll(tableFor)
    ensures c.cache == if c.result.Success? then Some(c.result.value) else None
  {
    Memo.List(cache, FetchAll(tableFor))
  }

  /** `parseStatsTables` (lines 127-137) apart from the page reads: `tables`
      are the stats tables found on the page, in page order; `names` and
      `data` stand for `getTeamNamesTable` and `getTeamDataTable`. Fewer than
      two tables fail before either is mapped; otherwise the names table is
      mapped first, then the data table, and the two are concatenated. */
  function ParseStatsTables<L, V>(tables: seq<L>, names: L -> Result<Table<V>>, data: L -> Result<Table<V>>)
    : (r: Result<Table<V>>)
    ensures |tables| < 2 ==> r == Failure(TablesMissing)
    ensures |tables| >= 2 ==>
      (r.Success? <==>
        (names(tables[0]).Success? && data(tables[1]).Success? &&
         |names(tables[0]).value.body| == |data(tables[1]).value.body|))
    ensures |tables| >= 2 && names(tables[0]).Failure? ==> r == Failure(names(tables[0]).error)
    ensures |tables| >= 2 && names(tables[0]).Success? && data(tables[1]).Failure? ==> r == Failure(data(tables[1]).error)
    ensures r.Success? ==>
      (&& |tables| >= 2
       && r.value.headers == names(tables[0]).value.headers + data(tables[1]).value.headers
       && |r.value.body| == |names(tables[0]).value.body|
       && forall k :: 0 <= k < |r.value.body| ==>
            r.value.body[k] == names(tables[0]).value.body[k] + data(tables[1]).value.body[k])
  {
    if |tables| < 2 then Failure(TablesMissing)
    else
      var n :- names(tables[0]);
      var d :- data(tables[1]);
      var r := Concat.ConcatTables(n, d);
      assert r.Success? ==> forall k :: 0 <= k < |r.value.body| ==> r.value.body[k] == r.value.body[k][..|n.body[k]|] + r.value.body[k][|n.body[k]|..];
      r
  }

  /** Only the first two tables of the page are read: any further ones
      change nothing. */
  lemma ParseStatsTablesReadsTwo<L, V>(tables: seq<L>, more: seq<L>, names: L -> Result<Table<V>>, data: L -> Result<Table<V>>)
    requires |tables| >= 2
    ensures ParseStatsTables(tables + more, names, data) == ParseStatsTables(tables, names, data)
  {
    assert (tables + more)[0] == tables[0] && (tables + more)[1] == tables[1];
  }
}
