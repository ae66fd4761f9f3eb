/** The rating rows the builder and the histories read, held in memory. */
module Ratings {

  /** One row of the ratings table, after `user_id` and `book_id` are cast to `str`. */
  datatype Rating = Rating(user: string, book: string, rating: real)

  /** The `user_id` column, in row order. */
  function UserIds(rows: seq<Rating>): (ids: seq<string>)
    ensures |ids| == |rows|
    ensures forall j :: 0 <= j < |rows| ==> ids[j] == rows[j].user
  {
    seq(|rows|, j requires 0 <= j < |rows| => rows[j].user)
  }

  /** The `book_id` column, in row order. */
  function BookIds(rows: seq<Rating>): (ids: seq<string>)
    ensures |ids| == |rows|
    ensures forall j :: 0 <= j < |rows| ==> ids[j] == rows[j].book
  {
    seq(|rows|, j requires 0 <= j < |rows| => rows[j].book)
  }

  /** The distinct user ids that occur in the rows. */
  function UserSet(rows: seq<Rating>): set<string>
  {
    set r | r in rows :: r.user
  }

  /** The distinct book ids that occur in the rows. */
  function BookSet(rows: seq<Rating>): set<string>
  {
    set r | r in rows :: r.book
  }

  function Sum(xs: seq<real>): real
  {
    if xs == [] then 0.0 else Sum(xs[..|xs| - 1]) + xs[|xs| - 1]
  }

  /** Arithmetic mean, 0.0 for an empty sequence. */
  function Mean(xs: seq<real>): real
  {
    if xs == [] then 0.0 else Sum(xs) / (|xs| as real)
  }
}
