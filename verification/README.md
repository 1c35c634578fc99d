# Pick-ems table engine and repositories, in Dafny

The repository scrapes NFL data (team stats, weekly matches, team names,
news articles) from web pages and hands it to a language model that picks
winners. This project models the part of it that does not touch the
browser or the model:

- the table engine of `src/utils/tables/`: flattening nested `<thead>`
  rows into one path per leaf column, driven by `colspan`
  (`header.ts`); mapping extractor functions over the header paths and the
  body cells (`header.ts`, `body.ts`, `map.ts`); joining tables side by
  side (`concat.ts`) and stacking them (`append.ts`); rendering a table as
  a Markdown pipe table (`markdown.ts`);
- `distinct` (`src/utils/distinct.ts`);
- `TeamStats.toTable` and the record building, collection and lookup in
  `TeamStatsRepo` (`src/repos/stats/`);
- the row validation of `MatchRepo`, the lookups and null filter of
  `TeamRepo`, and the filter, skip-on-failure loop, title check and
  paragraph join of `ArticleRepo`;
- the `list()` cache the four repositories share.

Modules follow the source files: `Header`, `Body`, `TableMap`, `Concat`,
`Append`, `Markdown`, `Distinct`, `StatsEntity`, `StatsRepo`, `Matches`,
`Teams`, `Articles`. They share `Results` (`Option`, `Result`, the error
kinds, JavaScript's out-of-range read `At`, an in-order map for
`Promise.all` and `for await`), `Seqs` (first/last index, `Join`, `Split`),
`Tables` (the `Table` value), `Records` (a plain JavaScript object as an
insertion-ordered association list) and `Memo` (the cache).

How the JavaScript is read:

- A thrown `Error` is a `Failure` with one of the kinds in `Results.Error`;
  `null` and `undefined` are `None`. `arr[i]` past the end is `None`, so
  tables built by `appendTable` hold `Option` cells and the records built
  by `fetchType` hold `Option` values.
- `flatten` is an async generator. A generator is described by its
  `Trace`: the paths it emitted and whether it then throws. The parent
  pulls one child path per claimed column, so it sees only a prefix of the
  children and never a throw that comes later (`Header.LazyLowerLevels`).
- `parseInt(colspan || "1")` is reduced to its outcome: `Missing` (absent or
  empty attribute) counts as 1, `Numeric(n)` as `n`, `NotNumeric` as `NaN`.
  A loop `i < colspan` runs `max(n, 0)` times and never for `NaN`.
- DOM cells are opaque handles; page reads (`textContent`, attributes) and
  foreign calls (navigation, the news analyst) are function parameters or
  inputs.
- `Promise.all` and `for await` are sequential maps that keep order.
- Each `list()` cache is a sequential `Option` state.

Three behaviours of the code are easy to misread. The model follows the code
in each case.

- The caches hold no pending state. `list()` only tests the static field
  for `null` before its `await` (src/repos/stats/repo.ts:48-53, and the same
  shape in the other three repositories). So every caller that arrives while
  the field is still empty fetches for itself. `Memo` has no pending state
  either.
- `flatten` fails only on an over-claim. It throws only when a level's
  spans claim more child paths than the level below yields
  (src/utils/tables/header.ts:60-66). Unclaimed trailing child paths are
  dropped silently (`Header.FlattenClaims`). A header whose spans do not add
  up to its leaf count is therefore not always rejected.
- `appendTable`'s guard rejects only a proper prefix. The doc comment asks
  for the same headers (src/utils/tables/append.ts:3-6). The condition at
  lines 56-59 rejects only a first header list that is a proper prefix of
  the second (`Append.GuardRejectsProperPrefix`). See "## Findings".

## Model

| member | source | states |
|---|---|---|
| `Results.MapInOrderFirstFailure` | src/utils/tables/header.ts:87-89 | When element `k` fails and every earlier element succeeds, the map fails with element `k`'s error. |
| `Results.MapInOrder` | src/utils/tables/body.ts:17-20 | Succeeds iff every element's call succeeds; then one result per element, in order. A failure is the error of the first failing element, and all earlier elements succeeded. |
| `Distinct.Distinct` | src/utils/distinct.ts:7-9 | The result has no duplicates. Every result element is an input element. Every input element is in the result. |
| `Distinct.DistinctLength` | src/utils/distinct.ts:7-9 | The result is never longer than the input. It is exactly as long iff the input has no duplicates. |
| `Distinct.DistinctOrder` | src/utils/distinct.ts:7-9 | Result order is the order of first occurrence in the input. |
| `Distinct.DistinctOfNoDup` | src/utils/distinct.ts:7-9 | A duplicate-free input comes back unchanged. |
| `Distinct.DistinctIdempotent` | src/utils/distinct.ts:7-9 | Applying `distinct` twice is the same as applying it once. |
| `Distinct.DistinctSnoc` | src/utils/distinct.ts:8 | Re-inserting a value the Set already holds changes nothing. A new value goes last. |
| `Header.UnspannedRow` | src/utils/tables/header.ts:3-6 | A cell without a colspan attribute counts as `colspan="1"` (`Header.GetColspan`, and `Header.Claims` for how often the loop at line 62 runs). So a row with no colspans claims exactly one lower path per cell. |
| `Header.UnspannedGridFlattens` | src/utils/tables/header.ts:39-67 | A rectangular header grid with no colspans never throws. It yields one path per leaf cell. |
| `Header.Claim` | src/utils/tables/header.ts:62-65 | The inner loop throws iff it needs more child paths than remain after the cursor. It pairs the owner with each consecutive child path it pulls, up to what remains. |
| `Header.Distribute` | src/utils/tables/header.ts:60-66 | The outer loop throws iff the head cells' total span exceeds the child paths after the cursor. It pulls min(total span, remaining) child paths in order, each paired with a head cell. Which cell is stated by `Header.DistributeOwners`. |
| `Header.OwnerCovers` | src/utils/tables/header.ts:60-62 | Every lower path a row claims has an owning cell. The cells before the owner claim no more than the path's position, and the cells up to and including the owner claim more than it. |
| `Header.DistributeOwners` | src/utils/tables/header.ts:60-66 | The `j`-th child path pulled is paired with the head cell whose claimed range holds position `j`. Each cell gets `colspan` consecutive child paths, in cell order. |
| `Header.Flatten` | src/utils/tables/header.ts:39-67 | No levels: nothing, no throw. One level: one singleton path per cell, no throw. Otherwise at most one path per leaf cell, and path `k` is all non-leaf rows followed by leaf cell `k`. |
| `Header.FlattenClaims` | src/utils/tables/header.ts:55-66 | With two or more levels: throws iff the top row's span total exceeds the number of lower paths. It yields min(span total, lower paths) paths, each the top row followed by the matching lower path. Unclaimed lower paths are dropped. |
| `Header.FlattenWellFormed` | src/utils/tables/header.ts:39-67 | If every non-leaf level's spans add up to the leaf count (as colspans in a well-formed HTML header do), flattening does not throw and yields one path per leaf cell. |
| `Header.FlattenPerLevel` | src/utils/tables/header.ts:8-34 | The flattening the doc comment describes. Each path holds one cell per level, the cell at level `d` comes from row `d`, and path `k` ends with leaf cell `k`. |
| `Header.PerLevelAncestors` | src/utils/tables/header.ts:8-34 | On every grid, the documented flattening puts the owner of position `k` in row `d` at level `d` of path `k`. That cell is the leaf's ancestor in the header tree. |
| `Header.PerLevelAgreesOnLeaves` | src/utils/tables/header.ts:64 | The as-written and the documented flattening yield the same number of paths, throw on the same grids, and end each path with the same leaf cell. The last cell is the only one the stats header extractors read. |
| `Header.FlattenPrependsWholeRow` | src/utils/tables/header.ts:64 | On the doc comment's grid cut to two levels (A spans F and G, B spans H), the code yields [A,B,F], [A,B,G], [A,B,H]. |
| `Header.PerLevelMatchesDoc` | src/utils/tables/header.ts:24-34 | On the same grid, the documented flattening yields [A,F], [A,G], [B,H], as the doc comment shows. |
| `Header.LazyLowerLevels` | src/utils/tables/header.ts:56-66 | An example of the generators' laziness. On the grid [[a], [b colspan 5], [c]], the lower two levels throw on their own. The whole grid does not throw and yields just [a, b, c]. The general rule is `Header.FlattenClaims`. |
| `Header.MapHeaders` | src/utils/tables/header.ts:78-91 | Succeeds iff flattening does not throw and the extractor succeeds on every path. It then gives one header per path, in order, from the extractor called with that path's position. A failing extractor stops the loop, so the error is the first failing path's. The spread-of-undefined error comes only when every emitted path maps and the generator then throws. |
| `Body.MapBody` | src/utils/tables/body.ts:10-23 | Succeeds iff the extractor succeeds on every cell. It then keeps the row count and each row's width, and each cell is the extractor's value for that cell, its column index and its row. |
| `TableMap.MapTable` | src/utils/tables/map.ts:22-34 | Succeeds iff both the header and the body mapping succeed. A header failure wins over a body failure. On success the headers and the body are the two mappings' results. |
| `TableMap.MapTableContents` | src/utils/tables/map.ts:6-15 | A mapped table has one header per flattened path, made at that path's position. It keeps the number of rows and the cells per row, each cell mapped in place. |
| `TableMap.MapTableShape` | src/utils/tables/map.ts:31-33 | There is no width check. The result is well shaped iff every source row has one cell per flattened header path. |
| `Concat.ConcatTables` | src/utils/tables/concat.ts:46-65 | Fails iff the row counts differ. Otherwise the headers are left then right, and row `k` is left row `k` followed by right row `k`. Two well-shaped inputs give a well-shaped result. |
| `Concat.SplitConcat` | src/utils/tables/concat.ts:50-62 | Splitting a concatenation after the left table's columns gives back both inputs. |
| `Concat.ConcatSplit` | src/utils/tables/concat.ts:57-62 | Concatenating the two column halves of a well-shaped table rebuilds it. |
| `Append.GuardRejectsProperPrefix` | src/utils/tables/append.ts:56-61 | The header check of lines 56-59 (the predicate `Append.GuardRejects`, with `append.headers[k]` past its end read as `undefined`) rejects exactly when the first header list is a proper prefix of the second. |
| `Append.ColumnIndex` | src/utils/tables/append.ts:65-68 | The index object has exactly the header names as keys. Each name maps to the last column carrying it. |
| `Append.AppendTable` | src/utils/tables/append.ts:54-80 | Fails iff the header check rejects. Otherwise it keeps the first table's headers, and gives its rows then the appended rows, every one re-read through the first table's column index and well shaped. |
| `Append.Realign` | src/utils/tables/append.ts:72-76 | A re-read row has one cell per header. The cell under header `h` is the row's value at the column the index gives `h`, or `undefined` past the row's end. |
| `Append.RealignByLastIndex` | src/utils/tables/append.ts:70-77 | Output column `k` takes the row's value at the last column named like column `k`. With distinct headers every row stays positional. |
| `Append.RealignComplete` | src/utils/tables/append.ts:72 | A row at least as wide as the headers loses no cell. |
| `Append.AppendIgnoresAppendedHeaders` | src/utils/tables/append.ts:74-76 | Apart from the check, the appended table's headers play no part. |
| `Append.MismatchedHeadersAccepted` | src/utils/tables/append.ts:56-59 | Any two tables whose header lists have equal length pass the check, whatever the names are. The result keeps the first table's headers. |
| `Append.ReorderedHeadersNotRealigned` | src/utils/tables/append.ts:74-76 | Appending a table with headers [Yards, Team] under [Team, Yards] puts the yards value in the Team column. |
| `Append.AppendAligned` | src/utils/tables/append.ts:3-6 | The stacking the doc comment intends. It fails iff the two header sets differ. Otherwise each appended row is re-read through its own table's column index. |
| `Append.AppendAlignedByName` | src/utils/tables/append.ts:3-6 | With distinct headers, the first table's rows keep their columns. Each appended value lands in the column with the same header name. |
| `Append.ReorderedHeadersAligned` | src/utils/tables/append.ts:3-6 | Under the intended stacking the reordered example puts "Bills" under Team and "100" under Yards. |
| `Markdown.ToMarkdownIsJoinedLines` | src/utils/tables/markdown.ts:9-17 | `toMarkdown` (the function `Markdown.ToMarkdown`) is its lines joined with newlines: header row, divider, then the body rows, or one empty line when there are no rows. |
| `Markdown.MarkdownLines` | src/utils/tables/markdown.ts:14-16 | If no text contains a newline, splitting the rendering on newlines gives exactly those lines. |
| `Markdown.HeaderRowCells` | src/utils/tables/markdown.ts:10-12 | The header row is the headers, each padded with one space per side, framed and separated by pipes. |
| `Markdown.RenderRowCells` | src/utils/tables/markdown.ts:14 | A non-empty body row is its cells, padded, framed and separated by pipes. An empty row renders exactly like a row of one empty cell. |
| `Markdown.DividerShape` | src/utils/tables/markdown.ts:13 | The divider is `\| --- ` once per column and then `\|`, and has no newline. |
| `Markdown.MarkdownRoundTrip` | src/utils/tables/markdown.ts:9-17 | Reading the rendering back gives the table when no text holds a pipe or a newline and no row is empty. |
| `Markdown.NewlineInCellSplitsRow` | src/utils/tables/markdown.ts:14 | An example showing that nothing is escaped. The table with header A and the one cell "a\nb" renders as the four lines "\| A \|", "\| --- \|", "\| a" and "b \|". The general round trip, which needs newline-free texts, is `Markdown.MarkdownRoundTrip`. |
| `Memo.List` | src/repos/stats/repo.ts:48-53 | A held value is returned without fetching. An empty cache fetches and returns the fetch's outcome. The cache then holds the value on success and stays empty on failure. |
| `Memo.Run` | src/repos/stats/repo.ts:48-53 | A series of `n` calls returns `n` results and fetches at most `n` times. |
| `Memo.CachedIsStable` | src/repos/stats/repo.ts:48-53 | Once the cache is set, no call fetches and every call returns the cached value. |
| `Memo.RunFromEmpty` | src/repos/stats/repo.ts:48-53 | From an empty cache, calls fetch until the first success. Earlier calls return their failures and leave the cache empty. The first success is cached and returned by every later call. |
| `Records.FromEntries` | src/repos/stats/repo.ts:86-88 | The built object never holds a key twice. |
| `Records.Delete` | src/repos/stats/repo.ts:89 | After `delete` the key is absent, and the object is no larger. |
| `Records.FromEntriesKeys` | src/repos/stats/repo.ts:86-88 | `Object.fromEntries` keeps one key per distinct header, in order of first occurrence. |
| `Records.FromEntriesValues` | src/repos/stats/repo.ts:86-88 | Each key holds the value of its last pair. |
| `Records.DeleteContents` | src/repos/stats/repo.ts:89 | `delete` removes exactly that key, keeps the other keys in order, and changes no other key's value. |
| `StatsEntity.ToTable` | src/repos/stats/entity.ts:33-43 | Header 0 is "Team" and cell 0 is the team. There is exactly one row, as wide as the headers (1 + number of stats). Header and cell `i+1` are the `i`-th stat's name and value. |
| `StatsEntity.ToTableColumns` | src/repos/stats/entity.ts:37-40 | With distinct stat names the table is well shaped, and each stat column holds what the record holds under that column's header. |
| `StatsRepo.IndexOf` | src/repos/stats/repo.ts:80 | `indexOf` gives the first index of the name, or -1 when it is absent. |
| `StatsRepo.RowStats` | src/repos/stats/repo.ts:83-91 | A record is tagged with the requested kind. Its team is the row's value under the first "Team" header, and absent when there is no such header or the row is too short. |
| `StatsRepo.RowStatsKeys` | src/repos/stats/repo.ts:86-89 | The record's keys are the distinct headers other than "Team", in order of first appearance. It has no "Team" key. |
| `StatsRepo.RowStatsValues` | src/repos/stats/repo.ts:86-89 | Each key holds the row's value in the last column with that header. A name that is no header is not a key. |
| `StatsRepo.FetchType` | src/repos/stats/repo.ts:77-95 | There is one record per body row, in row order. |
| `StatsRepo.FetchTypeOfToTable` | src/repos/stats/entity.ts:33-43 | Reading back the one-row table `toTable` builds gives the original record, if its stat names are distinct and none is "Team". |
| `StatsRepo.FetchKinds` | src/repos/stats/repo.ts:63-66 | Succeeds iff every kind's table is read. It then gives the per-kind records concatenated in the order of the kinds. A failure is the first failing kind's error. |
| `StatsRepo.FetchAll` | src/repos/stats/repo.ts:60-69 | Succeeds iff all four tables are read. It then gives the offense, defense, turnover and special-teams records, in that order. |
| `StatsRepo.FetchAllOrdered` | src/repos/stats/entity.ts:3-8 | The collected records are grouped by kind in the enum's declaration order. |
| `StatsRepo.FindByTeamAndType` | src/repos/stats/repo.ts:31-43 | Succeeds iff some record matches both team and kind, and then returns the first match. Otherwise it fails with "No stats found". |
| `StatsRepo.ParseStatsTables` | src/repos/stats/repo.ts:127-137 | Fewer than two stats tables fail with the missing-tables error. Otherwise it succeeds iff both tables are read and their row counts agree. A names-table error comes before a data-table error. On success the headers are the names headers then the data headers, and each row is the names row followed by the data row. |
| `StatsRepo.ParseStatsTablesReadsTwo` | src/repos/stats/repo.ts:128 | Only the first two tables matter: further tables on the page change nothing. |
| `StatsRepo.List` | src/repos/stats/repo.ts:48-53 | A held list is returned without fetching. Otherwise `fetchAll` runs and its outcome is cached only on success. |
| `Matches.AnyBadShape` | src/repos/matches/repo.ts:60 | True iff some row does not hold exactly two team texts. |
| `Matches.AnyEmptyCell` | src/repos/matches/repo.ts:65-69 | True iff some team text of some row is empty. |
| `Matches.BuildMatches` | src/repos/matches/repo.ts:59-74 | Fails with the shape error iff some row does not have exactly two texts. Only then does it fail with the empty-cell error, iff some text is empty. Otherwise it gives one match per row, in order, away = text 0 and home = text 1, both non-empty. |
| `Matches.BuildMatchesRoundTrip` | src/repos/matches/repo.ts:74 | Matches with non-empty names are read back exactly from their rows. Every successful read is of rows of that form. |
| `Matches.Fetch` | src/repos/matches/repo.ts:50-74 | A scraping error propagates without validation. Scraped rows are validated as `Matches.BuildMatches` states. |
| `Matches.List` | src/repos/matches/repo.ts:24-29 | A held list is returned without fetching. With an empty cache a scraping failure is returned as is. Scraped rows are validated as `BuildMatches` states. The outcome is cached only on success. |
| `Teams.Find` | src/repos/teams/repo.ts:22-32 | Succeeds iff some team has the name, and returns the first such team. Otherwise it fails with "Could not find team" for that name. |
| `Teams.FindAll` | src/repos/teams/repo.ts:41-43 | Succeeds iff every requested name exists, giving one team per name in request order. Otherwise it fails for a missing name. |
| `Teams.FindAllNames` | src/repos/teams/repo.ts:41-43 | Asking for every team's name, when the names are distinct, gives back the team list. |
| `Teams.Fetch` | src/repos/teams/repo.ts:66 | Null entries are dropped. Every team comes from a non-null text, and every non-null text gives a team. |
| `Teams.FetchAppend` | src/repos/teams/repo.ts:66 | The filter keeps order: the teams of two runs of texts are each run's teams in turn. |
| `Teams.FetchWithoutNulls` | src/repos/teams/repo.ts:66 | Without nulls there is one team per text, in the same order. |
| `Teams.List` | src/repos/teams/repo.ts:50-55 | A held list is returned without fetching. Otherwise the filtered texts are fetched and cached only on success. |
| `Articles.FindByTeams` | src/repos/articles/repo.ts:25-34 | Keeps exactly the articles whose primary team is one of the teams and whose league is the given one, never adding any. |
| `Articles.FindByTeamsAppend` | src/repos/articles/repo.ts:30-33 | The filter keeps order: filtering two runs of articles is filtering each in turn. |
| `Articles.DefaultLeagueIsNfl` | src/repos/articles/repo.ts:27 | Without a league argument the league is "NFL", and only NFL articles are kept. |
| `Articles.FetchAll` | src/repos/articles/repo.ts:54-73 | Failed URLs are skipped. There are never more articles than URLs, and exactly as many iff every fetch succeeds. Each article comes from some successful fetch, and every successful fetch's article is kept. |
| `Articles.KeptFacts` | src/repos/articles/repo.ts:61-70 | The loop (the function `Articles.Kept`) keeps at most one article per URL. It keeps exactly one per URL iff every fetch succeeds. |
| `Articles.FetchAllAppend` | src/repos/articles/repo.ts:61-70 | Skipping keeps URL order: the articles of two runs of URLs are each run's articles in turn. |
| `Articles.GetTitle` | src/repos/articles/repo.ts:97-105 | Fails iff the title is missing or empty. Otherwise returns it unchanged. |
| `Articles.GetContent` | src/repos/articles/repo.ts:113-117 | No paragraphs give the empty string. One paragraph gives its text, with null read as empty. |
| `Articles.GetContentSnoc` | src/repos/articles/repo.ts:113-117 | Adding a paragraph after at least one other appends a blank line and its text, with null read as empty. Together with `Articles.GetContent` this fixes the join for every paragraph count. |
| `Articles.ContentParagraphs` | src/repos/articles/repo.ts:116 | If no paragraph contains a newline, the content splits back into the paragraphs, one per line, with an empty line between consecutive ones. |
| `Articles.FetchOne` | src/repos/articles/repo.ts:81-89 | A missing or empty title fails with the title error, whatever the analyst would return. With a title, an analyst failure propagates. An article keeps the page's title and joined content, the URL, and the analyst's team, summary and league. |
| `Articles.List` | src/repos/articles/repo.ts:41-46 | A held list is returned without fetching. Otherwise `fetchAll` runs over the headline URLs and its outcome is cached only on success. |

## Left out

- Browser and DOM: `src/utils/browser.ts` and every `Locator` call. Header and body cells are opaque handles, and what a page read returns is an input.
- `getTeamNamesTable` and `getTeamDataTable` (src/repos/stats/repo.ts:139-218): they only select DOM tables and read text and attributes. They are the parameters `names` and `data` of `StatsRepo.ParseStatsTables`. The mapping they do is `TableMap.MapTable`. The page URL in the missing-tables message is not modelled.
- Navigation and URL constants, `getHeadlineUrls` (`src/repos/articles/headlines.ts`), the news analyst and the language-model client (`src/tools/`, `src/utils/llm/`), `src/config.ts` and `src/index.ts`: foreign calls, configuration and the command-line driver. Where a repository needs their results, they are parameters.
- The entity classes in `src/repos/matches/entity.ts` and `src/repos/teams/entity.ts`: orchestration over the repositories. The article entity is only the `Article` datatype.
- Concurrency: interleaved callers of a `list()` cache, and the parallel evaluation of `Promise.all`. Calls are taken one at a time, and `Promise.all` is an in-order map.
- Body.MapBody: on failure it names only some failing cell's error. Concurrent `Promise.all` over a row rejects with whichever cell fails first in time, which a sequential model cannot fix.
- `parseInt` in full: hexadecimal, leading-digit prefixes, fractions and whitespace are reduced to the `SpanAttr` outcome they produce.
- Records: keys that look like array indices, which `Object.keys` would list first, and the `__proto__` key, which `Object.fromEntries` and plain objects treat specially. Records are in insertion order.
- Concat.ConcatTables: the source's `Table<T | U>` is modelled with one cell type.
- Matches.BuildMatches: `allTextContents` returns strings, so the source's `team == null` test cannot fire and team texts are plain strings.
- Teams.Fetch: team texts stay `Option<string>` so that the null filter of src/repos/teams/repo.ts:66 is visible, although `allTextContents` yields no nulls. `Teams.FetchWithoutNulls` covers the null-free case.
- Articles.Article: the `URL` object is kept as its string.
- Header.Flatten: only the outcome of awaiting `getColspan` matters, not the order of the awaits.

## Findings

| source | as written | input that shows it | evidently intended | confidence | as-written member | corrected member |
|---|---|---|---|---|---|---|
| src/utils/tables/header.ts:64 | `yield [...head, ...child.value]` puts the whole top row in front of every child path | levels [[A colspan 2, B], [F, G, H]] yield [A,B,F], [A,B,G], [A,B,H] | put only the owning cell in front (`[h, ...child.value]`), giving [A,F], [A,G], [B,H] as the doc comment at lines 24-34 shows | high; not executed | `Header.FlattenPrependsWholeRow` | `Header.PerLevelMatchesDoc` |
| src/utils/tables/append.ts:56-59 | the guard joins "lengths differ" and "every header matches" with `&&` | headers [A, B] and [C, D] pass; only a proper prefix such as [A] against [A, B] is rejected | reject unless both tables carry the same header names, as the doc comment at lines 3-6 asks; the name index built at lines 65-76 presumes the names may come in another order | high; not executed | `Append.MismatchedHeadersAccepted` | `Append.AppendAligned` |
| src/utils/tables/append.ts:74-76 | appended rows are read through the first table's column index | [Team, Yards] with no rows, appended [Yards, Team] with row ["100", "Bills"], gives row ["100", "Bills"] under [Team, Yards] | look each appended value up by header name in the appended table, giving ["Bills", "100"] | medium; not executed | `Append.ReorderedHeadersNotRealigned` | `Append.ReorderedHeadersAligned` |

`Header.MapHeaders` keeps the as-written flattening, because it models
`mapTableHeaders` itself. `Header.PerLevelAgreesOnLeaves` shows that both
flattenings give the same paths to extractors that read only the last cell,
and every extractor in the repository reads only the last cell.
