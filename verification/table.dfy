/** The uniform table value every extraction and algebra operation produces. */
module Tables {

  /** A table: one header string per column and the body rows in source order.
      Header strings need not be distinct. */
  datatype Table<T> = Table(headers: seq<string>, body: seq<seq<T>>) {

    /** The shape invariant: every row has exactly one entry per header. */
    predicate WellShaped() {
      forall i :: 0 <= i < |body| ==> |body[i]| == |headers|
    }
  }
}
