/** `ArticleRepo` of src/repos/articles/repo.ts: filtering the week's articles
    by team and league, collecting articles while skipping the ones that fail
    to load, the title check, the paragraph join, and the `list()` cache.

    Navigation and the news analyst are foreign calls: a page becomes its
    title text and paragraph texts, and the analyst a function parameter. */
module Articles {
  import opened Results
  import opened Seqs
  import Memo

  /** A news article; `url` is kept as its text. */
  datatype Article = Article(title: string, content: string, summary: string, url: string, primaryTeam: string, league: string)

  /** What the news analyst reports about an article. */
  datatype Analysis = Analysis(primaryTeam: string, summary: string, league: string)

  const DefaultLeague: string := "NFL"

  /** The test of `findByTeams`'s filter. */
  predicate Relevant(article: Article, teams: seq<string>, league: string) {
    article.primaryTeam in teams && article.league == league
  }

  /** `findByTeams(teams, league = "NFL")` on the listed articles. */
  function FindByTeams(articles: seq<Article>, teams: seq<string>, league: string := DefaultLeague): (r: seq<Article>)
    ensures |r| <= |articles|
    ensures forall i :: 0 <= i < |r| ==> r[i] in articles && Relevant(r[i], teams, league)
    ensures forall j :: 0 <= j < |articles| && Relevant(articles[j], teams, league) ==> articles[j] in r
    decreases |articles|
  {
    if |articles| == 0 then []
    else
      var rest := FindByTeams(articles[1..], teams, league);
      assert forall j :: 1 <= j < |articles| ==> articles[j] == articles[1..][j - 1];
      if Relevant(articles[0], teams, league) then [articles[0]] + rest else rest
  }

  /** The filter keeps order: filtering two runs of articles is filtering each in turn. */
  lemma {:induction false} FindByTeamsAppend(a: seq<Article>, b: seq<Article>, teams: seq<string>, league: string)
    ensures FindByTeams(a + b, teams, league) == FindByTeams(a, teams, league) + FindByTeams(b, teams, league)
    decreases |a|
  {
    if |a| == 0 {
      assert a + b == b;
    } else {
      assert (a + b)[1..] == a[1..] + b;
      assert (a + b)[0] == a[0];
      FindByTeamsAppend(a[1..], b, teams, league);
    }
  }

  /** Without a league argument only NFL articles are kept. */
  lemma DefaultLeagueIsNfl(articles: seq<Article>, teams: seq<string>)
    ensures FindByTeams(articles, teams) == FindByTeams(articles, teams, "NFL")
    ensures forall i :: 0 <= i < |FindByTeams(articles, teams)| ==> FindByTeams(articles, teams)[i].league == "NFL"
  {
  }

  /** `fetchAll`: `fetchOne` on each URL in turn; a URL whose fetch fails is skipped. */
  function FetchAll(urls: seq<string>, fetchOne: string -> Result<Article>): (r: seq<Article>)
    ensures |r| <= |urls|
    ensures |r| == |urls| <==> forall j :: 0 <= j < |urls| ==> fetchOne(urls[j]).Success?
    ensures forall i :: 0 <= i < |r| ==> exists j :: 0 <= j < |urls| && fetchOne(urls[j]) == Success(r[i])
    ensures forall j :: 0 <= j < |urls| && fetchOne(urls[j]).Success? ==> fetchOne(urls[j]).value in r
  {
    KeptFacts(urls, fetchOne);
    Kept(urls, fetchOne)
  }

  /** The loop of lines 61-70: the article of every URL whose fetch succeeds, in URL order. */
  function Kept(urls: seq<string>, fetchOne: string -> Result<Article>): seq<Article>
    decreases |urls|
  {
    if |urls| == 0 then []
    else
      match fetchOne(urls[0])
      case Success(article) => [article] + Kept(urls[1..], fetchOne)
      case Failure(_) => Kept(urls[1..], fetchOne)
  }

  lemma {:induction false} KeptFacts(urls: seq<string>, fetchOne: string -> Result<Article>)
    ensures var r := Kept(urls, fetchOne);
      && |r| <= |urls|
      && (|r| == |urls| <==> forall j :: 0 <= j < |urls| ==> fetchOne(urls[j]).Success?)
      && (forall i :: 0 <= i < |r| ==> exists j :: 0 <= j < |urls| && fetchOne(urls[j]) == Success(r[i]))
      && (forall j :: 0 <= j < |urls| && fetchOne(urls[j]).Success? ==> fetchOne(urls[j]).value in r)
    decreases |urls|
  {
    if |urls| > 0 {
      var rest := Kept(urls[1..], fetchOne);
      KeptFacts(urls[1..], fetchOne);
      assert forall j :: 1 <= j < |urls| ==> urls[j] == urls[1..][j - 1];
      if fetchOne(urls[0]).Failure? {
        assert Kept(urls, fetchOne) == rest;
        assert |rest| < |urls|;
      }
    }
  }

  /** Skipping keeps order: the articles of two runs of URLs are those of each in turn. */
  lemma {:induction false} FetchAllAppend(a: seq<string>, b: seq<string>, fetchOne: string -> Result<Article>)
    ensures FetchAll(a + b, fetchOne) == FetchAll(a, fetchOne) + FetchAll(b, fetchOne)
  {
    KeptAppend(a, b, fetchOne);
  }

  lemma {:induction false} KeptAppend(a: seq<string>, b: seq<string>, fetchOne: string -> Result<Article>)
    ensures Kept(a + b, fetchOne) == Kept(a, fetchOne) + Kept(b, fetchOne)
    decreases |a|
  {
    if |a| == 0 {
      assert a + b == b;
    } else {
      assert (a + b)[1..] == a[1..] + b;
      assert (a + b)[0] == a[0];
      KeptAppend(a[1..], b, fetchOne);
    }
  }

  /** `getTitle`: a missing or empty title fails; any other is returned as is. */
  function GetTitle(title: Option<string>): (r: Result<string>)
    ensures r.Failure? <==> title.None? || title.value == ""
    ensures r.Failure? ==> r.error == TitleNotFound
    ensures r.Success? ==> title == Some(r.value)
  {
    match title
    case None => Failure(TitleNotFound)
    case Some(text) => if |text| == 0 then Failure(TitleNotFound) else Success(text)
  }

  /** `Array.join` writes `null` as the empty string. */
  function Text(paragraph: Option<string>): string {
    match paragraph
    case None => ""
    case Some(text) => text
  }

  function Texts(paragraphs: seq<Option<string>>): (texts: seq<string>)
    ensures |texts| == |paragraphs|
    ensures forall i :: 0 <= i < |paragraphs| ==> texts[i] == Text(paragraphs[i])
  {
    seq(|paragraphs|, i requires 0 <= i < |paragraphs| => Text(paragraphs[i]))
  }

  /** `getContent`: the paragraph texts separated by blank lines. */
  function GetContent(paragraphs: seq<Option<string>>): (content: string)
    ensures |paragraphs| == 0 ==> content == ""
    ensures |paragraphs| == 1 ==> content == Text(paragraphs[0])
  {
    Join(Texts(paragraphs), "\n\n")
  }

  /** One more paragraph adds a blank line and its text: the separator goes
      only between paragraphs, never before the first or after the last. */
  lemma GetContentSnoc(paragraphs: seq<Option<string>>, p: Option<string>)
    requires |paragraphs| >= 1
    ensures GetContent(paragraphs + [p]) == GetContent(paragraphs) + "\n\n" + Text(p)
  {
    assert Texts(paragraphs + [p]) == Texts(paragraphs) + [Text(p)];
    JoinAppend(Texts(paragraphs), [Text(p)], "\n\n");
  }

  /** The texts with an empty line between consecutive ones. */
  function Spaced(texts: seq<string>): (lines: seq<string>)
    ensures |texts| >= 1 ==> |lines| == 2 * |texts| - 1
    decreases |texts|
  {
    if |texts| <= 1 then texts else [texts[0], ""] + Spaced(texts[1..])
  }

  lemma {:induction false} JoinSpaced(texts: seq<string>)
    ensures Join(texts, "\n\n") == Join(Spaced(texts), "\n")
    decreases |texts|
  {
    if |texts| > 1 {
      JoinSpaced(texts[1..]);
      var rest := Spaced(texts[1..]);
      var tail := Join(rest, "\n");
      var lines := [texts[0], ""] + rest;
      assert lines[1..] == [""] + rest;
      assert ([""] + rest)[1..] == rest;
      assert texts[0] + "\n\n" + tail == texts[0] + "\n" + ("" + "\n" + tail);
    }
  }

  /** With at least one paragraph and no newline inside any, the content
      splits back into the paragraphs, one per line, with an empty line
      between consecutive ones. */
  lemma ContentParagraphs(paragraphs: seq<Option<string>>)
    requires |paragraphs| >= 1
    requires forall i :: 0 <= i < |paragraphs| ==> '\n' !in Text(paragraphs[i])
    ensures Split(GetContent(paragraphs), '\n') == Spaced(Texts(paragraphs))
  {
    var texts := Texts(paragraphs);
    var lines := Spaced(texts);
    JoinSpaced(texts);
    SpacedFreeOf(texts, '\n');
    SplitJoin(lines, '\n');
  }

  lemma {:induction false} SpacedFreeOf(texts: seq<string>, c: char)
    requires forall i :: 0 <= i < |texts| ==> c !in texts[i]
    ensures forall k :: 0 <= k < |Spaced(texts)| ==> c !in Spaced(texts)[k]
    decreases |texts|
  {
    if |texts| > 1 {
      SpacedFreeOf(texts[1..], c);
      var rest := Spaced(texts[1..]);
      assert Spaced(texts) == [texts[0], ""] + rest;
      assert forall k :: 2 <= k < |Spaced(texts)| ==> Spaced(texts)[k] == rest[k - 2];
    }
  }

  /** `fetchOne` after navigation: the title check, the content join, then
      the analyst's verdict on title and content. */
  function FetchOne(url: string, title: Option<string>, paragraphs: seq<Option<string>>,
                    analyse: (string, string) -> Result<Analysis>): (r: Result<Article>)
    ensures GetTitle(title).Failure? ==> r == Failure(TitleNotFound)
    ensures GetTitle(title).Success? && analyse(title.value, GetContent(paragraphs)).Failure? ==>
      r == Failure(analyse(title.value, GetContent(paragraphs)).error)
    ensures r.Success? ==>
      && title == Some(r.value.title) && r.value.title != ""
      && r.value.content == GetContent(paragraphs)
      && r.value.url == url
      && var a := analyse(r.value.title, r.value.content).value;
        r.value.primaryTeam == a.primaryTeam && r.value.summary == a.summary && r.value.league == a.league
  {
    var text :- GetTitle(title);
    var content := GetContent(paragraphs);
    var analysis :- analyse(text, content);
    Success(Article(text, content, analysis.summary, url, analysis.primaryTeam, analysis.league))
  }

  /** `list()`: the cached articles, or a fresh `fetchAll` when nothing is cached yet. */
  function List(cache: Option<seq<Article>>, urls: Result<seq<string>>, fetchOne: string -> Result<Article>): (c: Memo.Call<seq<Article>>)
    ensures cache.Some? ==> !c.fetched && c.result == Success(cache.value)
    ensures cache.None? && urls.Success? ==> c.fetched && c.result == Success(FetchAll(urls.value, fetchOne))
    ensures cache.None? && urls.Failure? ==> c.fetched && c.result == Failure(urls.error)
    ensures c.cache == if c.result.Success? then Some(c.result.value) else None
  {
    Memo.List(cache, if urls.Success? then Success(FetchAll(urls.value, fetchOne)) else Failure(urls.error))
  }
}
