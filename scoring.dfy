/** The serving-time bundle and the scoring both front ends share: ranking a score
    vector into (book id, score) pairs, and the warm path's aggregate and sentinel. */
module Scoring {
  import opened Collections
  import opened Ranking

  /** One ranked entry: the book id and the score it was ranked by. */
  datatype Scored = Scored(bookId: string, score: real)

  /** The fallback chain's strategy tags. */
  datatype Strategy = ColdStartItemMeans | NoHistoryItemMeans | NoLikedFound | ItemSimAggregate

  function Label(s: Strategy): string
  {
    match s
    case ColdStartItemMeans => "cold-start-item-means"
    case NoHistoryItemMeans => "no-history-item-means"
    case NoLikedFound => "no-liked-found"
    case ItemSimAggregate => "item-sim-aggregate"
  }

  lemma LabelsDistinct(s: Strategy, t: Strategy)
    ensures Label(s) == Label(t) ==> s == t
  {
  }

  /** A recommendation response without its metadata decoration. */
  datatype Recommendation = Recommendation(userId: string, strategy: Strategy, items: seq<Scored>)

  /** The book ids of a ranked list. */
  function Books(r: seq<Scored>): set<string>
  {
    set p | 0 <= p < |r| :: r[p].bookId
  }

  /** The artifacts loaded once at start-up: ITEM_INDEX, INDEX_ITEM, USER_INDEX,
      ITEM_SIM and ITEM_MEANS. */
  datatype Bundle = Bundle(
    itemIndex: map<string, nat>, indexItem: map<nat, string>, userIndex: map<string, nat>,
    itemSim: seq<seq<real>>, itemMeans: seq<real>)
  {
    /** The artifacts come from one training run: a square similarity matrix and a mean
        per item, and item maps that are inverse bijections onto the item indices. */
    ghost predicate Valid()
    {
      var n := |itemMeans|;
      && |itemSim| == n
      && (forall j :: 0 <= j < n ==> |itemSim[j]| == n)
      && (forall b :: b in itemIndex ==> itemIndex[b] < n && itemIndex[b] in indexItem && indexItem[itemIndex[b]] == b)
      && (forall i: nat :: i < n ==> i in indexItem && indexItem[i] in itemIndex && itemIndex[indexItem[i]] == i)
    }

    /** The diagonal of the similarity matrix is zero, as the builder leaves it. */
    ghost predicate ZeroDiagonal()
    {
      forall i :: 0 <= i < |itemSim| && i < |itemSim[i]| ==> itemSim[i][i] == 0.0
    }

    /** Every similarity is at least -1, as cosine similarities are. */
    ghost predicate SimBoundedBelow()
    {
      forall j, l :: 0 <= j < |itemSim| && 0 <= l < |itemSim[j]| ==> -1.0 <= itemSim[j][l]
    }

    /** The output list for the top k of a score vector, each index turned back into its book id:
        min(k, n) distinct books, each with its own score, best first, and no book
        left out scores above a listed one. */
    function Ranked(v: seq<real>, k: nat): (r: seq<Scored>)
      requires Valid() && |v| == |itemMeans|
      ensures |r| == Min(k, |v|)
      ensures forall p :: 0 <= p < |r| ==> r[p].bookId in itemIndex && r[p].score == v[itemIndex[r[p].bookId]]
      ensures forall p :: 0 <= p < |r| ==> itemIndex[r[p].bookId] == TopK(v, k)[p]
      ensures forall p, q :: 0 <= p < q < |r| ==> r[p].bookId != r[q].bookId
      ensures forall p, q :: 0 <= p < q < |r| ==> r[p].score >= r[q].score
      ensures forall b, p :: b in itemIndex && b !in Books(r) && 0 <= p < |r| ==> v[itemIndex[b]] <= r[p].score
    {
      var top := TopK(v, k);
      var r := seq(|top|, p requires 0 <= p < |top| => Scored(indexItem[top[p]], v[top[p]]));
      assert forall b, p :: b in itemIndex && b !in Books(r) && 0 <= p < |r| ==> v[itemIndex[b]] <= r[p].score by {
        forall b, p | b in itemIndex && b !in Books(r) && 0 <= p < |r| ensures v[itemIndex[b]] <= r[p].score {
          forall q | 0 <= q < |top| ensures top[q] != itemIndex[b] {
            assert r[q].bookId in Books(r);
          }
        }
      }
      r
    }
  }

  /** When k reaches the catalogue size, every book is ranked. */
  lemma RankedAll(b: Bundle, v: seq<real>, k: nat)
    requires b.Valid() && |v| == |b.itemMeans| && k >= |v|
    ensures forall x :: x in b.itemIndex ==> x in Books(b.Ranked(v, k))
  {
    TopKAll(v, k);
    forall x | x in b.itemIndex ensures x in Books(b.Ranked(v, k)) {
      RankedLists(b, v, k, x);
    }
  }

  /** A book whose index top-k selects is listed. */
  lemma RankedLists(b: Bundle, v: seq<real>, k: nat, x: string)
    requires b.Valid() && |v| == |b.itemMeans| && x in b.itemIndex && b.itemIndex[x] in TopK(v, k)
    ensures x in Books(b.Ranked(v, k))
  {
  }

  /** The score `recommend` writes over the aggregate of a rated item. */
  const Sentinel: real := -1000000000.0

  /** The indices of the rated books that the item index knows: both `liked_idx` and the
      entries the sentinel loop overwrites. */
  function IndexedRated(itemIndex: map<string, nat>, rated: set<string>): set<nat>
  {
    set b | b in rated && b in itemIndex :: itemIndex[b]
  }

  /** The sum of `row[l]` over the liked indices l below m. */
  function RowSum(row: seq<real>, liked: set<nat>, m: nat): real
    requires m <= |row|
  {
    if m == 0 then 0.0
    else RowSum(row, liked, m - 1) + (if m - 1 in liked then row[m - 1] else 0.0)
  }

  /** No liked index below m: the sum is 0.0 (in particular for no liked index at all). */
  lemma {:induction false} RowSumNoneLiked(row: seq<real>, liked: set<nat>, m: nat)
    requires m <= |row|
    requires forall l :: l in liked ==> l >= m
    ensures RowSum(row, liked, m) == 0.0
  {
    if m > 0 {
      RowSumNoneLiked(row, liked, m - 1);
    }
  }

  lemma {:induction false} RowSumSingleton(row: seq<real>, l: nat, m: nat)
    requires l < m <= |row|
    ensures RowSum(row, {l}, m) == row[l]
  {
    if m - 1 > l {
      RowSumSingleton(row, l, m - 1);
    } else {
      RowSumNoneLiked(row, {l}, m - 1);
    }
  }

  /** Summing over disjoint liked sets adds up: with the two lemmas above this makes
      `RowSum` the sum over the set of liked columns, whatever order they are listed in. */
  lemma {:induction false} RowSumUnion(row: seq<real>, a: set<nat>, b: set<nat>, m: nat)
    requires m <= |row| && a !! b
    ensures RowSum(row, a + b, m) == RowSum(row, a, m) + RowSum(row, b, m)
  {
    if m > 0 {
      RowSumUnion(row, a, b, m - 1);
    }
  }

  /** With every entry at least -1, a sum over liked entries below m is at least -m. */
  lemma {:induction false} RowSumLowerBound(row: seq<real>, liked: set<nat>, m: nat)
    requires m <= |row|
    requires forall l :: 0 <= l < |row| ==> -1.0 <= row[l]
    ensures RowSum(row, liked, m) >= -(m as real)
  {
    if m > 0 {
      RowSumLowerBound(row, liked, m - 1);
    }
  }

  /** For each item, the sum of its similarities to the liked items. */
  function Aggregate(sim: seq<seq<real>>, liked: set<nat>): (agg: seq<real>)
    requires forall j :: 0 <= j < |sim| ==> |sim[j]| == |sim|
    ensures |agg| == |sim|
  {
    seq(|sim|, j requires 0 <= j < |sim| => RowSum(sim[j], liked, |sim|))
  }

  /** The scores after the sentinel loop: the entries in `sunk` are the sentinel. */
  function Sunk(agg: seq<real>, sunk: set<nat>): (r: seq<real>)
    ensures |r| == |agg|
  {
    seq(|agg|, j requires 0 <= j < |agg| => if j in sunk then Sentinel else agg[j])
  }

  /** The vector the warm path ranks. */
  function WarmScores(b: Bundle, rated: set<string>): seq<real>
    requires b.Valid()
  {
    var liked := IndexedRated(b.itemIndex, rated);
    Sunk(Aggregate(b.itemSim, liked), liked)
  }

  /** The loop over the rated set: every rated book that has an index gets the
      sentinel written over its aggregate, in place; every other entry keeps its value. */
  method SinkRated(agg: array<real>, rated: set<string>, itemIndex: map<string, nat>)
    requires forall x :: x in itemIndex ==> itemIndex[x] < agg.Length
    modifies agg
    ensures agg[..] == Sunk(old(agg[..]), IndexedRated(itemIndex, rated))
  {
    var rest := rated;
    ghost var done: set<string> := {};
    while rest != {}
      invariant done + rest == rated && done !! rest
      invariant forall j :: 0 <= j < agg.Length ==>
        agg[j] == if j in IndexedRated(itemIndex, done) then Sentinel else old(agg[j])
      decreases rest
    {
      var x :| x in rest;
      assert forall j :: j in IndexedRated(itemIndex, done + {x}) <==>
        j in IndexedRated(itemIndex, done) || (x in itemIndex && j == itemIndex[x]);
      if x in itemIndex {
        agg[itemIndex[x]] := Sentinel;
      }
      rest := rest - {x};
      done := done + {x};
    }
  }

  /** The warm path of both front ends: the aggregate over the liked columns in a fresh
      array, the sentinel over every rated indexed item, then top-k. */
  method RankWarm(b: Bundle, rated: set<string>, k: nat) returns (items: seq<Scored>)
    requires b.Valid()
    ensures items == b.Ranked(WarmScores(b, rated), k)
  {
    var liked := IndexedRated(b.itemIndex, rated);
    var aggregate := Aggregate(b.itemSim, liked);
    var agg := new real[|aggregate|](j requires 0 <= j < |aggregate| => aggregate[j]);
    assert agg[..] == aggregate;
    SinkRated(agg, rated, b.itemIndex);
    items := b.Ranked(agg[..], k);
  }

  /** Under cosine bounds and a catalogue below 10^9 items, every unrated item's warm
      score lies above the sentinel and every rated indexed item's score is the sentinel. */
  lemma WarmScoresSeparate(b: Bundle, rated: set<string>)
    requires b.Valid() && b.SimBoundedBelow() && |b.itemMeans| < 1000000000
    ensures forall j :: 0 <= j < |b.itemMeans| && j in IndexedRated(b.itemIndex, rated) ==> WarmScores(b, rated)[j] == Sentinel
    ensures forall j :: 0 <= j < |b.itemMeans| && j !in IndexedRated(b.itemIndex, rated) ==> WarmScores(b, rated)[j] > Sentinel
  {
    var n := |b.itemMeans|;
    var liked := IndexedRated(b.itemIndex, rated);
    forall j | 0 <= j < n && j !in liked ensures WarmScores(b, rated)[j] > Sentinel {
      RowSumLowerBound(b.itemSim[j], liked, n);
    }
  }

  /** With k no larger than the number of unrated catalogue items, the warm list holds
      no book the user has rated. */
  lemma WarmExcludesRated(b: Bundle, rated: set<string>, k: nat)
    requires b.Valid() && b.SimBoundedBelow() && |b.itemMeans| < 1000000000
    requires k + |IndexedRated(b.itemIndex, rated)| <= |b.itemMeans|
    ensures forall p :: 0 <= p < |b.Ranked(WarmScores(b, rated), k)| ==> b.Ranked(WarmScores(b, rated), k)[p].bookId !in rated
  {
    var v := WarmScores(b, rated);
    var sunk := IndexedRated(b.itemIndex, rated);
    WarmScoresSeparate(b, rated);
    OutsideCard(|v|, sunk);
    TopKAvoidsSunk(v, k, sunk, Sentinel);
    var r := b.Ranked(v, k);
    forall p | 0 <= p < |r| ensures r[p].bookId !in rated {
      assert b.itemIndex[r[p].bookId] == TopK(v, k)[p];
    }
  }

  /** Rated items are sunk, not removed: each one that is ranked carries the sentinel
      score and comes after every unrated item. Once k exceeds the number of unrated
      items, every unrated indexed book is listed and rated ones reappear; with k at
      least the catalogue size every rated indexed book is listed. */
  lemma WarmSinksRated(b: Bundle, rated: set<string>, k: nat)
    requires b.Valid() && b.SimBoundedBelow() && |b.itemMeans| < 1000000000
    ensures forall p :: 0 <= p < |b.Ranked(WarmScores(b, rated), k)| && b.Ranked(WarmScores(b, rated), k)[p].bookId in rated ==>
      b.Ranked(WarmScores(b, rated), k)[p].score == Sentinel
    ensures forall p, q :: 0 <= p < q < |b.Ranked(WarmScores(b, rated), k)| && b.Ranked(WarmScores(b, rated), k)[p].bookId in rated ==>
      b.Ranked(WarmScores(b, rated), k)[q].bookId in rated
    ensures k + |IndexedRated(b.itemIndex, rated)| > |b.itemMeans| ==>
      forall x :: x in b.itemIndex && x !in rated ==> x in Books(b.Ranked(WarmScores(b, rated), k))
    ensures k + |IndexedRated(b.itemIndex, rated)| > |b.itemMeans| && IndexedRated(b.itemIndex, rated) != {} ==>
      exists p :: 0 <= p < |b.Ranked(WarmScores(b, rated), k)| && b.Ranked(WarmScores(b, rated), k)[p].bookId in rated
    ensures k >= |b.itemMeans| ==> forall x :: x in rated && x in b.itemIndex ==> x in Books(b.Ranked(WarmScores(b, rated), k))
  {
    var v := WarmScores(b, rated);
    var sunk := IndexedRated(b.itemIndex, rated);
    WarmScoresSeparate(b, rated);
    var r := b.Ranked(v, k);
    forall p | 0 <= p < |r| ensures r[p].bookId in rated <==> b.itemIndex[r[p].bookId] in sunk {
      var x := r[p].bookId;
      if b.itemIndex[x] in sunk {
        var y :| y in rated && y in b.itemIndex && b.itemIndex[y] == b.itemIndex[x];
        assert b.indexItem[b.itemIndex[y]] == y;
      }
    }
    if k + |sunk| > |v| {
      WarmRatedReappear(b, rated, k);
    }
    if k >= |b.itemMeans| {
      RankedAll(b, v, k);
    }
  }

  /** Once k exceeds the number of unrated items, every unrated indexed book is listed
      and, if the user rated an indexed book, some rated book is listed too. */
  lemma WarmRatedReappear(b: Bundle, rated: set<string>, k: nat)
    requires b.Valid() && b.SimBoundedBelow() && |b.itemMeans| < 1000000000
    requires k + |IndexedRated(b.itemIndex, rated)| > |b.itemMeans|
    ensures forall x :: x in b.itemIndex && x !in rated ==> x in Books(b.Ranked(WarmScores(b, rated), k))
    ensures IndexedRated(b.itemIndex, rated) != {} ==>
      exists p :: 0 <= p < |b.Ranked(WarmScores(b, rated), k)| && b.Ranked(WarmScores(b, rated), k)[p].bookId in rated
  {
    var v := WarmScores(b, rated);
    var sunk := IndexedRated(b.itemIndex, rated);
    WarmScoresSeparate(b, rated);
    OutsideCard(|v|, sunk);
    if sunk == {} {
      TopKAll(v, k);
    } else {
      TopKReachesSunk(v, k, sunk, Sentinel);
      WarmRatedListed(b, rated, k);
    }
    forall x | x in b.itemIndex && x !in rated ensures x in Books(b.Ranked(v, k)) {
      WarmUnratedOutside(b, rated, x);
      assert b.itemIndex[x] in Elements(TopK(v, k));
      RankedLists(b, v, k, x);
    }
  }

  /** A rated index that top-k selects puts a rated book in the list. */
  lemma WarmRatedListed(b: Bundle, rated: set<string>, k: nat)
    requires b.Valid()
    requires exists p :: 0 <= p < |TopK(WarmScores(b, rated), k)| && TopK(WarmScores(b, rated), k)[p] in IndexedRated(b.itemIndex, rated)
    ensures exists p :: 0 <= p < |b.Ranked(WarmScores(b, rated), k)| && b.Ranked(WarmScores(b, rated), k)[p].bookId in rated
  {
    var v := WarmScores(b, rated);
    var r := b.Ranked(v, k);
    var p :| 0 <= p < |TopK(v, k)| && TopK(v, k)[p] in IndexedRated(b.itemIndex, rated);
    var y :| y in rated && y in b.itemIndex && b.itemIndex[y] == TopK(v, k)[p];
    assert b.indexItem[b.itemIndex[y]] == y;
    assert r[p].bookId == y;
  }

  /** An indexed book the user has not rated has its index outside the rated indices. */
  lemma WarmUnratedOutside(b: Bundle, rated: set<string>, x: string)
    requires b.Valid() && x in b.itemIndex && x !in rated
    ensures b.itemIndex[x] in Outside(|b.itemMeans|, IndexedRated(b.itemIndex, rated))
  {
  }
}
