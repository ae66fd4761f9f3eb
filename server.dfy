/** The API's scoring (app/main.py): the rated-items index, `similar_books` and `recommend`,
    all over the bundle loaded at start-up. */
module Server {
  import opened Wrappers
  import opened Ratings
  import opened Ranking
  import opened Histories
  import opened Scoring

  /** The `HTTPException` the endpoint raises. */
  datatype HttpError = HttpError(status: nat, detail: string)

  /** `build_user_histories`: with the ratings file present (`Some`), one entry per
      `groupby("user_id")` group holding that group's book ids; with it absent, nothing. */
  method BuildUserHistories(ratings: Option<seq<Rating>>) returns (userRated: map<string, set<string>>)
    ensures ratings.None? ==> userRated == map[]
    ensures ratings.Some? ==> userRated == HistoryOf(ratings.value)
  {
    userRated := map[];
    if ratings.Some? {
      var rows := ratings.value;
      var groups := UserSet(rows);
      while groups != {}
        invariant groups <= UserSet(rows)
        invariant userRated == map u | u in UserSet(rows) - groups :: BooksOf(rows, u)
        decreases groups
      {
        var u :| u in groups;
        userRated := userRated[u := BooksOf(rows, u)];
        groups := groups - {u};
      }
      assert UserSet(rows) - groups == UserSet(rows);
    }
  }

  /** `similar_books`: 404 for a book the index does not know; otherwise the top-k of the
      book's similarity row, the book itself not excluded. */
  function SimilarBooks(b: Bundle, bookId: string, k: nat): (r: Result<seq<Scored>, HttpError>)
    requires b.Valid()
    ensures r.Failure? <==> bookId !in b.itemIndex
    ensures r.Failure? ==> r.error == HttpError(404, "Unknown book_id")
    ensures r.Success? ==> r.value == b.Ranked(b.itemSim[b.itemIndex[bookId]], k)
  {
    if bookId !in b.itemIndex then Failure(HttpError(404, "Unknown book_id"))
    else Success(b.Ranked(b.itemSim[b.itemIndex[bookId]], k))
  }

  /** With k at least the catalogue size the queried book itself is listed, scored by
      its own diagonal entry; on a zero-diagonal matrix that score is 0.0. */
  lemma SimilarListsQueried(b: Bundle, bookId: string, k: nat)
    requires b.Valid() && bookId in b.itemIndex && k >= |b.itemMeans|
    ensures SimilarBooks(b, bookId, k).Success?
    ensures exists p ::
              && 0 <= p < |SimilarBooks(b, bookId, k).value|
              && SimilarBooks(b, bookId, k).value[p].bookId == bookId
              && SimilarBooks(b, bookId, k).value[p].score == b.itemSim[b.itemIndex[bookId]][b.itemIndex[bookId]]
    ensures b.ZeroDiagonal() ==> exists p ::
              && 0 <= p < |SimilarBooks(b, bookId, k).value|
              && SimilarBooks(b, bookId, k).value[p].bookId == bookId
              && SimilarBooks(b, bookId, k).value[p].score == 0.0
  {
    var i := b.itemIndex[bookId];
    RankedAll(b, b.itemSim[i], k);
    var r := SimilarBooks(b, bookId, k).value;
    assert bookId in Books(r);
    var p :| 0 <= p < |r| && r[p].bookId == bookId;
  }

  /** `recommend`: the fallback chain. An unknown user, a known user without history and
      a history without an indexed book each rank the item means under their own tag;
      otherwise the warm path ranks the sunk aggregate. */
  method Recommend(b: Bundle, userRated: map<string, set<string>>, userId: string, k: nat) returns (rec: Recommendation)
    requires b.Valid()
    ensures rec.userId == userId
    ensures rec.strategy == ColdStartItemMeans <==> userId !in b.userIndex
    ensures rec.strategy == NoHistoryItemMeans <==> userId in b.userIndex && Get(userRated, userId) == {}
    ensures rec.strategy == NoLikedFound <==>
      userId in b.userIndex && Get(userRated, userId) != {} && IndexedRated(b.itemIndex, Get(userRated, userId)) == {}
    ensures rec.strategy != ItemSimAggregate ==> rec.items == b.Ranked(b.itemMeans, k)
    ensures rec.strategy == ItemSimAggregate ==> rec.items == b.Ranked(WarmScores(b, Get(userRated, userId)), k)
  {
    if userId !in b.userIndex {
      return Recommendation(userId, ColdStartItemMeans, b.Ranked(b.itemMeans, k));
    }
    var rated := Get(userRated, userId);
    if rated == {} {
      return Recommendation(userId, NoHistoryItemMeans, b.Ranked(b.itemMeans, k));
    }
    var liked := IndexedRated(b.itemIndex, rated);
    if liked == {} {
      return Recommendation(userId, NoLikedFound, b.Ranked(b.itemMeans, k));
    }
    var items := RankWarm(b, rated, k);
    return Recommendation(userId, ItemSimAggregate, items);
  }
}
