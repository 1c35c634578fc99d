/** The `list()` cache every repository keeps in a static field:
    `if (cache == null) { cache = await fetch(); } return cache;`

    Calls are taken one at a time; interleaved concurrent callers are not
    modelled. A fetch is an input: the outcome the fetch would have on the
    call that runs it. */
module Memo {
  import opened Results

  /** What one `list()` call returns, the cache it leaves, and whether it fetched. */
  datatype Call<T> = Call(result: Result<T>, cache: Option<T>, fetched: bool)

  /** One `list()` call on `cache`, where `fetch` is what fetching would give. */
  function List<T>(cache: Option<T>, fetch: Result<T>): (c: Call<T>)
    ensures c.fetched <==> cache.None?
    ensures cache.Some? ==> c.result == Success(cache.value) && c.cache == cache
    ensures cache.None? ==> c.result == fetch
    ensures c.result.Success? ==> c.cache == Some(c.result.value)
    ensures c.result.Failure? ==> c.cache == None
  {
    match cache
    case Some(held) => Call(Success(held), cache, false)
    case None =>
      match fetch
      case Success(value) => Call(fetch, Some(value), true)
      case Failure(_) => Call(fetch, None, true)
  }

  /** What a series of calls returned, the cache left at the end, and how many fetched. */
  datatype Session<T> = Session(results: seq<Result<T>>, cache: Option<T>, fetches: nat)

  /** Calls `list()` once per element of `outcomes`; the i-th element is what
      fetching would give on the i-th call. */
  function Run<T>(cache: Option<T>, outcomes: seq<Result<T>>): (s: Session<T>)
    ensures |s.results| == |outcomes|
    ensures s.fetches <= |outcomes|
    decreases |outcomes|
  {
    if |outcomes| == 0 then Session([], cache, 0)
    else
      var first := List(cache, outcomes[0]);
      var rest := Run(first.cache, outcomes[1..]);
      Session([first.result] + rest.results, rest.cache, rest.fetches + (if first.fetched then 1 else 0))
  }

  /** The number of failing outcomes before the first success. */
  function LeadingFailures<T>(outcomes: seq<Result<T>>): (n: nat)
    ensures n <= |outcomes|
    ensures forall i :: 0 <= i < n ==> outcomes[i].Failure?
    ensures n < |outcomes| ==> outcomes[n].Success?
    decreases |outcomes|
  {
    if |outcomes| == 0 || outcomes[0].Success? then 0 else 1 + LeadingFailures(outcomes[1..])
  }

  /** Once the cache holds a value, no call fetches and every call returns it. */
  lemma {:induction false} CachedIsStable<T>(value: T, outcomes: seq<Result<T>>)
    ensures Run(Some(value), outcomes).fetches == 0
    ensures Run(Some(value), outcomes).cache == Some(value)
    ensures forall i :: 0 <= i < |outcomes| ==> Run(Some(value), outcomes).results[i] == Success(value)
    decreases |outcomes|
  {
    if |outcomes| > 0 {
      CachedIsStable(value, outcomes[1..]);
    }
  }

  /** From an empty cache, calls keep fetching until the first success, which
      is cached and returned by every later call; failures leave the cache
      empty, so the next call fetches again. */
  lemma {:induction false} RunFromEmpty<T>(outcomes: seq<Result<T>>)
    ensures var n := LeadingFailures(outcomes);
      var s := Run(None, outcomes);
      && (forall i :: 0 <= i < n ==> s.results[i] == outcomes[i])
      && (n == |outcomes| ==> s.cache == None && s.fetches == |outcomes|)
      && (n < |outcomes| ==>
        && s.fetches == n + 1
        && s.cache == Some(outcomes[n].value)
        && forall i :: n <= i < |outcomes| ==> s.results[i] == Success(outcomes[n].value))
    decreases |outcomes|
  {
    if |outcomes| > 0 {
      if outcomes[0].Success? {
        CachedIsStable(outcomes[0].value, outcomes[1..]);
      } else {
        RunFromEmpty(outcomes[1..]);
      }
    }
  }
}
