/** The column check of `load_data` (train.py:23-28). */
module Schema {
  import opened Wrappers

  /** The two input tables. */
  datatype Table = RatingsCsv | BooksCsv

  /** The `ValueError` raised for the first required column that is absent. */
  datatype SchemaError = MissingColumn(table: Table, column: string)

  /** The columns ratings.csv must have, in the order they are checked. */
  const RatingsRequired: seq<string> := ["user_id", "book_id", "rating"]

  /** The columns books.csv must have, in the order they are checked. */
  const BooksRequired: seq<string> := ["book_id", "title"]

  /** `c` is the first entry of `required` that `present` lacks. */
  ghost predicate IsFirstMissing(required: seq<string>, present: seq<string>, c: string)
  {
    exists j :: 0 <= j < |required| && required[j] == c && c !in present &&
      forall i :: 0 <= i < j ==> required[i] in present
  }

  ghost predicate HasAll(required: seq<string>, present: seq<string>)
  {
    forall c :: c in required ==> c in present
  }

  /** The fixed part of the error text for each table. */
  function Prefix(t: Table): string
  {
    match t
    case RatingsCsv => "ratings.csv must include column "
    case BooksCsv => "books.csv must include column "
  }

  /** The text of the `ValueError` raised for a missing column. */
  function Message(e: SchemaError): string
  {
    Prefix(e.table) + e.column
  }

  /** The message identifies the error: two errors have the same text exactly when
      they name the same table and the same column. */
  lemma MessageIdentifiesError(e1: SchemaError, e2: SchemaError)
    ensures Message(e1) == Message(e2) <==> e1 == e2
  {
    if Message(e1) == Message(e2) {
      assert Message(e1)[0] == Prefix(e1.table)[0];
      assert Message(e2)[0] == Prefix(e2.table)[0];
      assert e1.table == e2.table;
      var n := |Prefix(e1.table)|;
      assert e1.column == Message(e1)[n..];
      assert e2.column == Message(e2)[n..];
    }
  }

  /** Checks the required columns of both tables in the source's order:
      it fails iff a required column is absent, and it names the first one. */
  method CheckColumns(ratingsColumns: seq<string>, booksColumns: seq<string>) returns (r: Option<SchemaError>)
    ensures r.None? <==> HasAll(RatingsRequired, ratingsColumns) && HasAll(BooksRequired, booksColumns)
    ensures r.Some? && r.value.table == RatingsCsv ==> IsFirstMissing(RatingsRequired, ratingsColumns, r.value.column)
    ensures r.Some? && r.value.table == BooksCsv ==>
      HasAll(RatingsRequired, ratingsColumns) && IsFirstMissing(BooksRequired, booksColumns, r.value.column)
  {
    for j := 0 to |RatingsRequired|
      invariant forall i :: 0 <= i < j ==> RatingsRequired[i] in ratingsColumns
    {
      if RatingsRequired[j] !in ratingsColumns {
        return Some(MissingColumn(RatingsCsv, RatingsRequired[j]));
      }
    }
    for j := 0 to |BooksRequired|
      invariant forall i :: 0 <= i < j ==> BooksRequired[i] in booksColumns
    {
      if BooksRequired[j] !in booksColumns {
        return Some(MissingColumn(BooksCsv, BooksRequired[j]));
      }
    }
    return None;
  }
}
