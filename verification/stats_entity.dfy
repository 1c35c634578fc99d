/** `TeamStatType` and `TeamStats` of src/repos/stats/entity.ts. */
module StatsEntity {
  import opened Results
  import opened Tables
  import opened Seqs
  import opened Records

  /** The four kinds of stats, in declaration order. */
  datatype StatType = Offense | Defense | Turnover | Special {

    /** Position in declaration order. */
    function Ordinal(): nat {
      match this
      case Offense => 0
      case Defense => 1
      case Turnover => 2
      case Special => 3
    }
  }

  /** `Object.values(TeamStatType)`: a string enum lists its members in declaration order. */
  const AllKinds: seq<StatType> := [Offense, Defense, Turnover, Special]

  /** The column that names the team. */
  const TeamColumn: string := "Team"

  /** One team's stats of one kind; `stats` maps a stat name to its value. */
  datatype TeamStats<V> = TeamStats(team: V, kind: StatType, stats: Record<V>)

  /** `toTable()`: a "Team" column followed by one column per stat, and one row. */
  function ToTable<V>(ts: TeamStats<V>): (t: Table<V>)
    ensures |t.headers| == 1 + |ts.stats| && t.headers[0] == TeamColumn
    ensures |t.body| == 1 && |t.body[0]| == |t.headers| && t.body[0][0] == ts.team
    ensures forall i :: 0 <= i < |ts.stats| ==> t.headers[i + 1] == ts.stats[i].0 && t.body[0][i + 1] == ts.stats[i].1
  {
    Table([TeamColumn] + Keys(ts.stats), [[ts.team] + Values(ts.stats)])
  }

  /** With distinct stat names, the table is well shaped and each stat
      column holds exactly what the record holds under that column's header. */
  lemma ToTableColumns<V>(ts: TeamStats<V>)
    requires NoDup(Keys(ts.stats))
    ensures ToTable(ts).WellShaped()
    ensures forall i :: 1 <= i < |ToTable(ts).headers| ==>
      Lookup(ts.stats, ToTable(ts).headers[i]) == Some(ToTable(ts).body[0][i])
  {
    var t := ToTable(ts);
    var keys := Keys(ts.stats);
    forall i | 1 <= i < |t.headers|
      ensures Lookup(ts.stats, t.headers[i]) == Some(t.body[0][i])
    {
      var name := ts.stats[i - 1].0;
      assert keys[i - 1] == name;
      var k := FirstIndex(keys, name);
      assert k == i - 1 by {
        assert keys[k] == keys[i - 1];
      }
    }
  }
}
