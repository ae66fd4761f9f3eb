/** The rated-items index: each user's set of rated book ids. */
module Histories {
  import opened Ratings

  /** The set of book ids on user `u`'s rows: one group of the grouping by user. */
  function BooksOf(rows: seq<Rating>, u: string): set<string>
  {
    set r | r in rows && r.user == u :: r.book
  }

  /** The rated-items index built by grouping the rows by user: one entry per user
      with at least one row, holding exactly the books on that user's rows. */
  function HistoryOf(rows: seq<Rating>): (h: map<string, set<string>>)
    ensures h.Keys == UserSet(rows)
    ensures forall u :: u in h ==> h[u] != {}
    ensures forall u, b :: u in h ==> (b in h[u] <==> exists r :: r in rows && r.user == u && r.book == b)
  {
    var h := map u | u in UserSet(rows) :: BooksOf(rows, u);
    assert forall u :: u in h ==> h[u] != {} by {
      forall u | u in h ensures h[u] != {} {
        var r :| r in rows && r.user == u;
        assert r.book in BooksOf(rows, u);
      }
    }
    h
  }

  /** Looks a user up in the index, with the empty set as the default for absent users. */
  function Get(h: map<string, set<string>>, u: string): set<string>
  {
    if u in h then h[u] else {}
  }

  /** A user's looked-up history is exactly the books on their rows, and is empty
      for a user with no rows. */
  lemma GetHistoryOf(rows: seq<Rating>, u: string, b: string)
    ensures b in Get(HistoryOf(rows), u) <==> exists r :: r in rows && r.user == u && r.book == b
  {
    if r :| r in rows && r.user == u && r.book == b {
      assert u in UserSet(rows);
    }
  }
}
