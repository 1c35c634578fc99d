/** `TeamRepo` of src/repos/teams/repo.ts: finding teams by name in the list
    of NFL teams, the null filter applied to the scraped names, and the
    `list()` cache. */
module Teams {
  import opened Results
  import opened Seqs
  import Memo

  datatype Team = Team(name: string)

  function Names(teams: seq<Team>): (names: seq<string>)
    ensures |names| == |teams|
    ensures forall i :: 0 <= i < |teams| ==> names[i] == teams[i].name
  {
    seq(|teams|, i requires 0 <= i < |teams| => teams[i].name)
  }

  /** `find(name)`: the first team with that name, or "Could not find team". */
  function Find(teams: seq<Team>, name: string): (r: Result<Team>)
    ensures r.Success? <==> name in Names(teams)
    ensures r.Success? ==> r.value.name == name && r.value == teams[FirstIndex(Names(teams), name)]
    ensures r.Failure? ==> r.error == TeamNotFound(name)
    decreases |teams|
  {
    if |teams| == 0 then Failure(TeamNotFound(name))
    else if teams[0].name == name then Success(teams[0])
    else
      assert Names(teams)[1..] == Names(teams[1..]);
      Find(teams[1..], name)
  }

  /** `findAll(names)`: `find` for each name, in order; any missing name fails the whole call. */
  function FindAll(teams: seq<Team>, names: seq<string>): (r: Result<seq<Team>>)
    ensures r.Success? <==> forall i :: 0 <= i < |names| ==> names[i] in Names(teams)
    ensures r.Success? ==> |r.value| == |names|
    ensures r.Success? ==> forall i :: 0 <= i < |names| ==>
      r.value[i].name == names[i] && r.value[i] == teams[FirstIndex(Names(teams), names[i])]
    ensures r.Failure? ==> exists i :: 0 <= i < |names| && names[i] !in Names(teams) && r.error == TeamNotFound(names[i])
  {
    MapInOrder(names, (name, _) => Find(teams, name))
  }

  /** Asking for every team by name gives the list back when the names are distinct. */
  lemma FindAllNames(teams: seq<Team>)
    requires NoDup(Names(teams))
    ensures FindAll(teams, Names(teams)) == Success(teams)
  {
    var names := Names(teams);
    assert forall i :: 0 <= i < |names| ==> names[i] in names;
    var r := FindAll(teams, names);
    forall i | 0 <= i < |teams|
      ensures r.value[i] == teams[i]
    {
      var k := FirstIndex(names, names[i]);
      assert names[k] == names[i];
    }
    assert r.value == teams;
  }

  /** Line 66 of `fetch`: one team per scraped text, in order, skipping
      null texts. */
  function Fetch(texts: seq<Option<string>>): (r: seq<Team>)
    ensures |r| <= |texts|
    ensures forall i :: 0 <= i < |r| ==> Some(r[i].name) in texts
    ensures forall j :: 0 <= j < |texts| && texts[j].Some? ==> Team(texts[j].value) in r
    decreases |texts|
  {
    if |texts| == 0 then []
    else
      var rest := Fetch(texts[1..]);
      assert forall j :: 1 <= j < |texts| ==> texts[j] == texts[1..][j - 1];
      match texts[0]
      case None => rest
      case Some(name) => [Team(name)] + rest
  }

  /** The filter keeps order: fetching two runs of texts is fetching each in turn. */
  lemma {:induction false} FetchAppend(a: seq<Option<string>>, b: seq<Option<string>>)
    ensures Fetch(a + b) == Fetch(a) + Fetch(b)
    decreases |a|
  {
    if |a| == 0 {
      assert a + b == b;
    } else {
      assert (a + b)[1..] == a[1..] + b;
      assert (a + b)[0] == a[0];
      FetchAppend(a[1..], b);
      match a[0]
      case None =>
      case Some(name) =>
        assert Fetch(a) == [Team(name)] + Fetch(a[1..]);
    }
  }

  /** Without nulls, one team per text, in the same order. */
  lemma {:induction false} FetchWithoutNulls(texts: seq<Option<string>>)
    requires forall j :: 0 <= j < |texts| ==> texts[j].Some?
    ensures |Fetch(texts)| == |texts|
    ensures forall j :: 0 <= j < |texts| ==> Fetch(texts)[j] == Team(texts[j].value)
    decreases |texts|
  {
    if |texts| > 0 {
      FetchWithoutNulls(texts[1..]);
    }
  }

  /** `list()`: the cached teams, or a fresh fetch when nothing is cached yet. */
  function List(cache: Option<seq<Team>>, fetched: Result<seq<Option<string>>>): (c: Memo.Call<seq<Team>>)
    ensures cache.Some? ==> !c.fetched && c.result == Success(cache.value)
    ensures cache.None? && fetched.Success? ==> c.fetched && c.result == Success(Fetch(fetched.value))
    ensures cache.None? && fetched.Failure? ==> c.fetched && c.result == Failure(fetched.error)
    ensures c.cache == if c.result.Success? then Some(c.result.value) else None
  {
    Memo.List(cache, if fetched.Success? then Success(Fetch(fetched.value)) else Failure(fetched.error))
  }
}
