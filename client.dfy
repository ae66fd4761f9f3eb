/** The Streamlit client's local mode (cliente/bookrec_streamlit.py): the same scoring with
    a shorter fallback chain and an empty list for an unknown book. */
module Client {
  import opened Wrappers
  import opened Ratings
  import opened Ranking
  import opened Histories
  import opened Scoring
  import Server

  /** `load_user_hist`: an empty map when the ratings file is missing (`None`), otherwise
      each user with a row mapped to the nonempty set of books on their rows. */
  function LoadUserHist(ratings: Option<seq<Rating>>): (h: map<string, set<string>>)
    ensures ratings.None? ==> h == map[]
    ensures forall u :: u in h ==> h[u] != {}
    ensures forall u, x :: x in Get(h, u) <==> ratings.Some? && exists r :: r in ratings.value && r.user == u && r.book == x
  {
    match ratings
    case None => map[]
    case Some(rows) =>
      assert forall u, x :: x in Get(HistoryOf(rows), u) <==> exists r :: r in rows && r.user == u && r.book == x by {
        forall u, x ensures x in Get(HistoryOf(rows), u) <==> exists r :: r in rows && r.user == u && r.book == x {
          GetHistoryOf(rows, u, x);
        }
      }
      HistoryOf(rows)
  }

  /** `local_recommend`: an empty history (an unknown user included) is a cold start,
      a history without an indexed book is "no-liked-found", and otherwise the warm path. */
  method LocalRecommend(b: Bundle, userHist: map<string, set<string>>, userId: string, k: nat) returns (rec: Recommendation)
    requires b.Valid()
    ensures rec.userId == userId
    ensures rec.strategy != NoHistoryItemMeans
    ensures rec.strategy == ColdStartItemMeans <==> Get(userHist, userId) == {}
    ensures rec.strategy == NoLikedFound <==>
      Get(userHist, userId) != {} && IndexedRated(b.itemIndex, Get(userHist, userId)) == {}
    ensures rec.strategy != ItemSimAggregate ==> rec.items == b.Ranked(b.itemMeans, k)
    ensures rec.strategy == ItemSimAggregate ==> rec.items == b.Ranked(WarmScores(b, Get(userHist, userId)), k)
  {
    var rated := Get(userHist, userId);
    if rated == {} {
      return Recommendation(userId, ColdStartItemMeans, b.Ranked(b.itemMeans, k));
    }
    var liked := IndexedRated(b.itemIndex, rated);
    if liked == {} {
      return Recommendation(userId, NoLikedFound, b.Ranked(b.itemMeans, k));
    }
    var items := RankWarm(b, rated, k);
    return Recommendation(userId, ItemSimAggregate, items);
  }

  /** `local_similar`: an empty list for an unknown book, otherwise the top-k of the
      book's whole similarity row. */
  function LocalSimilar(b: Bundle, bookId: string, k: nat): (r: seq<Scored>)
    requires b.Valid()
    ensures bookId !in b.itemIndex ==> r == []
    ensures bookId in b.itemIndex ==> r == b.Ranked(b.itemSim[b.itemIndex[bookId]], k)
  {
    if bookId !in b.itemIndex then [] else b.Ranked(b.itemSim[b.itemIndex[bookId]], k)
  }

  /** The client answers like the API for a known book and with an empty list where the
      API raises 404. */
  lemma LocalSimilarMatchesServer(b: Bundle, bookId: string, k: nat)
    requires b.Valid()
    ensures Server.SimilarBooks(b, bookId, k).Failure? ==> LocalSimilar(b, bookId, k) == []
    ensures Server.SimilarBooks(b, bookId, k).Success? ==> LocalSimilar(b, bookId, k) == Server.SimilarBooks(b, bookId, k).value
  {
  }

  /** With k at least the catalogue size the whole row is ranked, the queried book
      among the rest, in non-increasing score order. */
  lemma LocalSimilarRanksWholeRow(b: Bundle, bookId: string, k: nat)
    requires b.Valid() && bookId in b.itemIndex && k >= |b.itemMeans|
    ensures |LocalSimilar(b, bookId, k)| == |b.itemMeans|
    ensures forall x :: x in b.itemIndex ==> x in Books(LocalSimilar(b, bookId, k))
    ensures bookId in Books(LocalSimilar(b, bookId, k))
    ensures forall p, q :: 0 <= p < q < |LocalSimilar(b, bookId, k)| ==>
      LocalSimilar(b, bookId, k)[p].score >= LocalSimilar(b, bookId, k)[q].score
  {
    RankedAll(b, b.itemSim[b.itemIndex[bookId]], k);
  }
}
