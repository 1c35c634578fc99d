/** The page-independent part of `MatchRepo.fetch` in src/repos/matches/repo.ts:
    validating the team texts scraped for each match and building one `Match`
    per row; and the `list()` cache. `allTextContents` returns strings, so the
    source's `team == null` test never fires and texts are plain strings here. */
module Matches {
  import opened Results
  import Memo

  /** A game between two teams. */
  datatype Match = Match(away: string, home: string)

  /** The shape check of line 60: some match row does not hold exactly two
      team texts. */
  function AnyBadShape(rawTeams: seq<seq<string>>): (b: bool)
    ensures b <==> exists i :: 0 <= i < |rawTeams| && |rawTeams[i]| != 2
    decreases |rawTeams|
  {
    if |rawTeams| == 0 then false
    else |rawTeams[0]| != 2 || AnyBadShape(rawTeams[1..])
  }

  /** The check of lines 65-69: some team text of some match row is empty. */
  function AnyEmptyCell(rawTeams: seq<seq<string>>): (b: bool)
    ensures b <==> exists i, j :: 0 <= i < |rawTeams| && 0 <= j < |rawTeams[i]| && rawTeams[i][j] == ""
    decreases |rawTeams|
  {
    if |rawTeams| == 0 then false
    else "" in rawTeams[0] || AnyEmptyCell(rawTeams[1..])
  }

  /** Lines 59-74 of `fetch`: the shape check first, then the empty-text
      check, then one `Match(away, home)` per row. */
  function BuildMatches(rawTeams: seq<seq<string>>): (r: Result<seq<Match>>)
    ensures (r.Failure? && r.error == UnexpectedTeamCount) <==>
      exists i :: 0 <= i < |rawTeams| && |rawTeams[i]| != 2
    ensures (r.Failure? && r.error == EmptyTeamCell) <==>
      (forall i :: 0 <= i < |rawTeams| ==> |rawTeams[i]| == 2) &&
      exists i, j :: 0 <= i < |rawTeams| && 0 <= j < |rawTeams[i]| && rawTeams[i][j] == ""
    ensures r.Failure? ==> r.error == UnexpectedTeamCount || r.error == EmptyTeamCell
    ensures r.Success? ==> |r.value| == |rawTeams|
    ensures r.Success? ==> forall i :: 0 <= i < |rawTeams| ==>
      |rawTeams[i]| == 2 && r.value[i] == Match(rawTeams[i][0], rawTeams[i][1]) &&
      r.value[i].away != "" && r.value[i].home != ""
  {
    if AnyBadShape(rawTeams) then Failure(UnexpectedTeamCount)
    else if AnyEmptyCell(rawTeams) then Failure(EmptyTeamCell)
    else Success(seq(|rawTeams|, i requires 0 <= i < |rawTeams| => Match(rawTeams[i][0], rawTeams[i][1])))
  }

  /** The team texts a match row shows: away first, then home. */
  function Rows(matches: seq<Match>): (rows: seq<seq<string>>)
    ensures |rows| == |matches|
    ensures forall i :: 0 <= i < |matches| ==> rows[i] == [matches[i].away, matches[i].home]
  {
    seq(|matches|, i requires 0 <= i < |matches| => [matches[i].away, matches[i].home])
  }

  /** Matches whose team names are all non-empty are read back exactly from
      the rows that show them, and every successful read is of that form. */
  lemma BuildMatchesRoundTrip(matches: seq<Match>, rawTeams: seq<seq<string>>)
    ensures (forall i :: 0 <= i < |matches| ==> matches[i].away != "" && matches[i].home != "") ==>
      BuildMatches(Rows(matches)) == Success(matches)
    ensures BuildMatches(rawTeams).Success? ==> Rows(BuildMatches(rawTeams).value) == rawTeams
  {
    var rows := Rows(matches);
    if forall i :: 0 <= i < |matches| ==> matches[i].away != "" && matches[i].home != "" {
      forall i, j | 0 <= i < |rows| && 0 <= j < |rows[i]|
        ensures rows[i][j] != ""
      {
        assert rows[i] == [matches[i].away, matches[i].home];
      }
      var built := BuildMatches(rows);
      assert forall i :: 0 <= i < |rows| ==> |rows[i]| == 2;
      assert built.Success?;
      assert forall i :: 0 <= i < |matches| ==> built.value[i] == matches[i];
      assert built.value == matches;
    }
    var r := BuildMatches(rawTeams);
    if r.Success? {
      forall i | 0 <= i < |rawTeams|
        ensures Rows(r.value)[i] == rawTeams[i]
      {
        assert rawTeams[i] == [rawTeams[i][0], rawTeams[i][1]];
      }
    }
  }

  /** `list()`: the cached matches, or a fresh fetch when nothing is cached
      yet. `scraped` is what navigating to the page and reading each row's
      team texts gave (lines 51-57): those texts, or the error navigation or
      a locator threw, which propagates without validation. */
  function List(cache: Option<seq<Match>>, scraped: Result<seq<seq<string>>>): (c: Memo.Call<seq<Match>>)
    ensures cache.Some? ==> !c.fetched && c.result == Success(cache.value)
    ensures cache.None? && scraped.Success? ==> c.fetched && c.result == BuildMatches(scraped.value)
    ensures cache.None? && scraped.Failure? ==> c.fetched && c.result == Failure(scraped.error)
    ensures c.cache == if c.result.Success? then Some(c.result.value) else None
  {
    Memo.List(cache, Fetch(scraped))
  }

  /** `fetch()` on the scraped texts: a scraping error, or the validated rows. */
  function Fetch(scraped: Result<seq<seq<string>>>): (r: Result<seq<Match>>)
    ensures scraped.Failure? ==> r == Failure(scraped.error)
    ensures scraped.Success? ==> r == BuildMatches(scraped.value)
  {
    var rawTeams :- scraped;
    BuildMatches(rawTeams)
  }
}
