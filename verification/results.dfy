/** Failure-compatible wrappers shared by every module of the model.

    The repository signals failure by throwing a JavaScript `Error`; here a
    thrown error becomes a `Failure` carrying one of the `Error` kinds below,
    and JavaScript's `undefined`/`null` becomes `None`.
 */
module Results {

  /** A value that may be absent: `None` stands for JavaScript's `null` or `undefined`. */
  datatype Option<+T> = None | Some(value: T)

  /** Every way an operation of the model can fail. */
  datatype Error =
    | UndefinedChildPath        // header.ts spreads `child.value` after the lower levels are exhausted
    | Extraction(reason: string) // raised by a caller-supplied header or cell extractor
    | RowCountMismatch          // concatTables: "Tables must have the same number of rows"
    | HeaderMismatch            // appendTable: "Tables must have the same headers."
    | TablesMissing             // parseStatsTables: fewer than two tables on the page
    | StatsNotFound             // findByTeamAndType: no entry for the team and type
    | UnexpectedTeamCount       // a match row without exactly two team texts
    | EmptyTeamCell             // a match row with an empty team text
    | TeamNotFound(name: string)
    | TitleNotFound             // an article page without a title
    | Fetch(reason: string)     // navigation or another foreign call failed

  datatype Result<+T> = Success(value: T) | Failure(error: Error) {

    predicate IsFailure() {
      Failure?
    }

    function PropagateFailure<U>(): Result<U>
      requires Failure?
    {
      Failure(error)
    }

    function Extract(): T
      requires Success?
    {
      value
    }
  }

  /** JavaScript's `s[i]`: the element when `i` is an index of `s`, `undefined` otherwise. */
  function At<T>(s: seq<T>, i: int): (r: Option<T>)
    ensures r.Some? <==> 0 <= i < |s|
    ensures r.Some? ==> r.value == s[i]
  {
    if 0 <= i < |s| then Some(s[i]) else None
  }

  /** Applies `f` to every element with its index, in order, and fails with the
      first failure: the sequential reading of a `for ... await` loop or of
      `Promise.all` over `xs.map(f)`. */
  function MapInOrder<X, T>(xs: seq<X>, f: (X, nat) -> Result<T>): (r: Result<seq<T>>)
    ensures r.Success? <==> forall i :: 0 <= i < |xs| ==> f(xs[i], i).Success?
    ensures r.Success? ==> |r.value| == |xs|
    ensures r.Success? ==> forall i :: 0 <= i < |xs| ==> r.value[i] == f(xs[i], i).value
    ensures r.Failure? ==>
      exists i :: 0 <= i < |xs| && f(xs[i], i) == Failure(r.error) &&
        forall j :: 0 <= j < i ==> f(xs[j], j).Success?
    decreases |xs|
  {
    if |xs| == 0 then Success([])
    else
      var init :- MapInOrder(xs[..|xs| - 1], f);
      var last :- f(xs[|xs| - 1], |xs| - 1);
      Success(init + [last])
  }

  /** The failure of an in-order map is fixed: it is the error of the first
      element whose call fails. */
  lemma MapInOrderFirstFailure<X, T>(xs: seq<X>, f: (X, nat) -> Result<T>)
    ensures forall k :: 0 <= k < |xs| && f(xs[k], k).Failure? && (forall j :: 0 <= j < k ==> f(xs[j], j).Success?) ==>
      MapInOrder(xs, f) == Failure(f(xs[k], k).error)
  {
    forall k | 0 <= k < |xs| && f(xs[k], k).Failure? && (forall j :: 0 <= j < k ==> f(xs[j], j).Success?)
      ensures MapInOrder(xs, f) == Failure(f(xs[k], k).error)
    {
      var r := MapInOrder(xs, f);
      var i :| 0 <= i < |xs| && f(xs[i], i) == Failure(r.error) && forall j :: 0 <= j < i ==> f(xs[j], j).Success?;
    }
  }
}
