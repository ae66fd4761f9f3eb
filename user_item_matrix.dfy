/** `build_user_item_matrix` (train.py:42-54): the dense matrix of per-cell mean ratings. */
module UserItemMatrix {
  import opened Ratings
  import opened Mappings

  /** Every row's ids are in the maps (otherwise the source raises `KeyError`). */
  ghost predicate Covers(rows: seq<Rating>, userToIdx: map<string, nat>, itemToIdx: map<string, nat>)
  {
    forall r :: r in rows ==> r.user in userToIdx && r.book in itemToIdx
  }

  /** Every index is inside the matrix the map's size gives. */
  ghost predicate InRange(m: map<string, nat>)
  {
    forall x :: x in m ==> m[x] < |m|
  }

  /** Whether row `r` lands in cell (u, i). */
  predicate InCell(r: Rating, userToIdx: map<string, nat>, itemToIdx: map<string, nat>, u: nat, i: nat)
  {
    r.user in userToIdx && r.book in itemToIdx && userToIdx[r.user] == u && itemToIdx[r.book] == i
  }

  /** `counts[u, i]` after the rows: how many rows land in the cell. */
  function CellCount(rows: seq<Rating>, userToIdx: map<string, nat>, itemToIdx: map<string, nat>, u: nat, i: nat): nat
  {
    if rows == [] then 0
    else
      var last := rows[|rows| - 1];
      CellCount(rows[..|rows| - 1], userToIdx, itemToIdx, u, i) + (if InCell(last, userToIdx, itemToIdx, u, i) then 1 else 0)
  }

  /** `mat[u, i]` after the rows: the sum of the ratings that land in the cell. */
  function CellSum(rows: seq<Rating>, userToIdx: map<string, nat>, itemToIdx: map<string, nat>, u: nat, i: nat): real
  {
    if rows == [] then 0.0
    else
      var last := rows[|rows| - 1];
      CellSum(rows[..|rows| - 1], userToIdx, itemToIdx, u, i) + (if InCell(last, userToIdx, itemToIdx, u, i) then last.rating else 0.0)
  }

  /** The final cell: sum / count where the count is positive, else 0.0 (train.py:52-53). */
  function CellMean(rows: seq<Rating>, userToIdx: map<string, nat>, itemToIdx: map<string, nat>, u: nat, i: nat): real
  {
    var c := CellCount(rows, userToIdx, itemToIdx, u, i);
    if c > 0 then CellSum(rows, userToIdx, itemToIdx, u, i) / (c as real) else 0.0
  }

  /** One pass over the rows accumulates a sum and a count per cell; each cell then
      becomes sum / count, or 0.0 where no row landed. */
  method BuildUserItemMatrix(rows: seq<Rating>, userToIdx: map<string, nat>, itemToIdx: map<string, nat>)
    returns (userItem: array2<real>)
    requires Covers(rows, userToIdx, itemToIdx)
    requires InRange(userToIdx) && InRange(itemToIdx)
    ensures fresh(userItem)
    ensures userItem.Length0 == |userToIdx| && userItem.Length1 == |itemToIdx|
    ensures forall u, i :: 0 <= u < userItem.Length0 && 0 <= i < userItem.Length1 ==>
      userItem[u, i] == CellMean(rows, userToIdx, itemToIdx, u, i)
  {
    var nUsers := |userToIdx|;
    var nItems := |itemToIdx|;
    var mat := new real[nUsers, nItems]((u, i) => 0.0);
    var counts := new nat[nUsers, nItems]((u, i) => 0);
    for k := 0 to |rows|
      invariant forall u, i :: 0 <= u < nUsers && 0 <= i < nItems ==>
        mat[u, i] == CellSum(rows[..k], userToIdx, itemToIdx, u, i) &&
        counts[u, i] == CellCount(rows[..k], userToIdx, itemToIdx, u, i)
    {
      assert rows[..k + 1][..k] == rows[..k];
      assert rows[k] in rows;
      var ui := userToIdx[rows[k].user];
      var ii := itemToIdx[rows[k].book];
      mat[ui, ii] := mat[ui, ii] + rows[k].rating;
      counts[ui, ii] := counts[ui, ii] + 1;
    }
    assert rows[..|rows|] == rows;
    userItem := new real[nUsers, nItems];
    forall u, i | 0 <= u < nUsers && 0 <= i < nItems {
      userItem[u, i] := if counts[u, i] > 0 then mat[u, i] / (counts[u, i] as real) else 0.0;
    }
  }

  /** The ratings of the rows for one (user, book) pair, in row order. */
  function PairRatings(rows: seq<Rating>, user: string, book: string): seq<real>
  {
    if rows == [] then []
    else
      var last := rows[|rows| - 1];
      PairRatings(rows[..|rows| - 1], user, book) + (if last.user == user && last.book == book then [last.rating] else [])
  }

  lemma {:induction false} CellIsPairAccumulation(rows: seq<Rating>, userToIdx: map<string, nat>, itemToIdx: map<string, nat>, user: string, book: string)
    requires Injective(userToIdx) && Injective(itemToIdx)
    requires user in userToIdx && book in itemToIdx
    ensures CellCount(rows, userToIdx, itemToIdx, userToIdx[user], itemToIdx[book]) == |PairRatings(rows, user, book)|
    ensures CellSum(rows, userToIdx, itemToIdx, userToIdx[user], itemToIdx[book]) == Sum(PairRatings(rows, user, book))
  {
    if rows != [] {
      var init := rows[..|rows| - 1];
      var last := rows[|rows| - 1];
      CellIsPairAccumulation(init, userToIdx, itemToIdx, user, book);
      var prev := PairRatings(init, user, book);
      assert InCell(last, userToIdx, itemToIdx, userToIdx[user], itemToIdx[book]) <==> last.user == user && last.book == book;
      if last.user == user && last.book == book {
        assert PairRatings(rows, user, book) == prev + [last.rating];
        assert (prev + [last.rating])[..|prev|] == prev;
      } else {
        assert PairRatings(rows, user, book) == prev;
      }
    }
  }

  /** A matrix cell is the arithmetic mean of all ratings given for that (user, book) pair,
      and 0.0 for a pair with no rating. */
  lemma CellMeanIsPairMean(rows: seq<Rating>, userToIdx: map<string, nat>, itemToIdx: map<string, nat>, user: string, book: string)
    requires Injective(userToIdx) && Injective(itemToIdx)
    requires user in userToIdx && book in itemToIdx
    ensures CellMean(rows, userToIdx, itemToIdx, userToIdx[user], itemToIdx[book]) == Mean(PairRatings(rows, user, book))
  {
    CellIsPairAccumulation(rows, userToIdx, itemToIdx, user, book);
  }

  lemma {:induction false} PairRatingsEmpty(rows: seq<Rating>, user: string, book: string)
    ensures PairRatings(rows, user, book) == [] <==> forall r :: r in rows ==> !(r.user == user && r.book == book)
  {
    if rows != [] {
      PairRatingsEmpty(rows[..|rows| - 1], user, book);
      assert rows == rows[..|rows| - 1] + [rows[|rows| - 1]];
    }
  }

  lemma DenseIndexFits(forward: map<string, nat>, inverse: map<nat, string>, ids: set<string>)
    requires DenseIndex(forward, inverse, ids)
    ensures InRange(forward) && Injective(forward)
  {
    assert |forward| == |ids| by { assert forward.Keys == ids; }
    forall x, y | x in forward && y in forward && x != y ensures forward[x] != forward[y] {
      assert inverse[forward[x]] == x && inverse[forward[y]] == y;
    }
  }

  /** The maps `build_mappings` returns meet what the matrix builder needs
      for the same rows. */
  lemma MappingsFitMatrix(rows: seq<Rating>)
    ensures Covers(rows, BuildMappings(rows).userToIdx, BuildMappings(rows).itemToIdx)
    ensures InRange(BuildMappings(rows).userToIdx) && InRange(BuildMappings(rows).itemToIdx)
    ensures Injective(BuildMappings(rows).userToIdx) && Injective(BuildMappings(rows).itemToIdx)
  {
    var m := BuildMappings(rows);
    DenseIndexFits(m.userToIdx, m.idxToUser, UserSet(rows));
    DenseIndexFits(m.itemToIdx, m.idxToItem, BookSet(rows));
  }
}
