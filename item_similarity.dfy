/** `compute_item_similarity` (train.py:56-65): item means, centring and the diagonal fill.
    The cosine similarity itself is an external computation; its result enters as an array. */
module ItemSimilarity {
  import opened Ratings

  /** The number of nonzero entries of column `i` among the first `rows` rows. */
  function NonzeroCount(m: array2<real>, i: nat, rows: nat): nat
    reads m
    requires i < m.Length1 && rows <= m.Length0
  {
    if rows == 0 then 0
    else NonzeroCount(m, i, rows - 1) + (if m[rows - 1, i] != 0.0 then 1 else 0)
  }

  /** The sum of column `i` over the first `rows` rows. */
  function ColumnSum(m: array2<real>, i: nat, rows: nat): real
    reads m
    requires i < m.Length1 && rows <= m.Length0
  {
    if rows == 0 then 0.0
    else ColumnSum(m, i, rows - 1) + m[rows - 1, i]
  }

  /** The nonzero entries of column `i` among the first `rows` rows, top to bottom. */
  function NonzeroEntries(m: array2<real>, i: nat, rows: nat): seq<real>
    reads m
    requires i < m.Length1 && rows <= m.Length0
  {
    if rows == 0 then []
    else NonzeroEntries(m, i, rows - 1) + (if m[rows - 1, i] != 0.0 then [m[rows - 1, i]] else [])
  }

  /** Whether column `i` has any nonzero entry (`counts > 0`). */
  predicate Rated(m: array2<real>, i: nat)
    reads m
    requires i < m.Length1
  {
    NonzeroCount(m, i, m.Length0) > 0
  }

  /** `means[i]` as train.py:60 computes it. */
  function ItemMean(m: array2<real>, i: nat): real
    reads m
    requires i < m.Length1
  {
    var c := NonzeroCount(m, i, m.Length0);
    if c > 0 then ColumnSum(m, i, m.Length0) / (c as real) else 0.0
  }

  /** The column means, then the centred matrix: every cell of a column with a nonzero
      entry loses that column's mean (zeros included), and every cell of an all-zero
      column is 0.0. */
  method CenterItems(userItem: array2<real>) returns (centered: array2<real>, means: array<real>)
    ensures fresh(centered) && fresh(means)
    ensures centered.Length0 == userItem.Length0 && centered.Length1 == userItem.Length1
    ensures means.Length == userItem.Length1
    ensures forall i :: 0 <= i < means.Length ==> means[i] == ItemMean(userItem, i)
    ensures forall u, i :: 0 <= u < centered.Length0 && 0 <= i < centered.Length1 ==>
      centered[u, i] == if Rated(userItem, i) then userItem[u, i] - means[i] else 0.0
  {
    var nUsers, nItems := userItem.Length0, userItem.Length1;
    var counts := new nat[nItems];
    var sums := new real[nItems];
    forall i | 0 <= i < nItems {
      counts[i] := NonzeroCount(userItem, i, nUsers);
    }
    forall i | 0 <= i < nItems {
      sums[i] := ColumnSum(userItem, i, nUsers);
    }
    means := new real[nItems];
    forall i | 0 <= i < nItems {
      means[i] := if counts[i] > 0 then sums[i] / (counts[i] as real) else 0.0;
    }
    centered := new real[nUsers, nItems];
    forall u, i | 0 <= u < nUsers && 0 <= i < nItems {
      centered[u, i] := userItem[u, i] - means[i];
    }
    forall u, i | 0 <= u < nUsers && 0 <= i < nItems && counts[i] == 0 {
      centered[u, i] := 0.0;
    }
  }

  lemma {:induction false} ColumnAccumulation(m: array2<real>, i: nat, rows: nat)
    requires i < m.Length1 && rows <= m.Length0
    ensures NonzeroCount(m, i, rows) == |NonzeroEntries(m, i, rows)|
    ensures ColumnSum(m, i, rows) == Sum(NonzeroEntries(m, i, rows))
    ensures forall x :: x in NonzeroEntries(m, i, rows) ==> x != 0.0
  {
    if rows > 0 {
      ColumnAccumulation(m, i, rows - 1);
      var prev := NonzeroEntries(m, i, rows - 1);
      var x := m[rows - 1, i];
      if x != 0.0 {
        assert NonzeroEntries(m, i, rows) == prev + [x];
        assert (prev + [x])[..|prev|] == prev;
      } else {
        assert NonzeroEntries(m, i, rows) == prev;
      }
    }
  }

  /** Zeros add nothing to the column sum, so `means[i]` is the mean of the column's
      nonzero entries, and 0.0 for a column that has none. */
  lemma ItemMeanIsMeanOfNonzero(m: array2<real>, i: nat)
    requires i < m.Length1
    ensures ItemMean(m, i) == Mean(NonzeroEntries(m, i, m.Length0))
    ensures !Rated(m, i) ==> ItemMean(m, i) == 0.0 && NonzeroEntries(m, i, m.Length0) == []
    ensures forall x :: x in NonzeroEntries(m, i, m.Length0) ==> x != 0.0
  {
    ColumnAccumulation(m, i, m.Length0);
  }

  /** The similarity matrix is square and symmetric. */
  ghost predicate Symmetric(s: array2<real>)
    reads s
  {
    s.Length0 == s.Length1 &&
    forall i, j :: 0 <= i < s.Length0 && 0 <= j < s.Length0 ==> s[i, j] == s[j, i]
  }

  /** Every similarity lies in [-1, 1]. */
  ghost predicate UnitBounded(s: array2<real>)
    reads s
  {
    forall i, j :: 0 <= i < s.Length0 && 0 <= j < s.Length1 ==> -1.0 <= s[i, j] <= 1.0
  }

  /** Zeroes the diagonal in place: each diagonal entry becomes 0.0 and nothing else changes,
      so a symmetric matrix stays symmetric and entries in [-1, 1] stay there. */
  method FillDiagonalZero(sim: array2<real>)
    modifies sim
    ensures forall i :: 0 <= i < sim.Length0 && i < sim.Length1 ==> sim[i, i] == 0.0
    ensures forall i, j :: 0 <= i < sim.Length0 && 0 <= j < sim.Length1 && i != j ==> sim[i, j] == old(sim[i, j])
    ensures old(Symmetric(sim)) ==> Symmetric(sim)
    ensures old(UnitBounded(sim)) ==> UnitBounded(sim)
  {
    forall i | 0 <= i < sim.Length0 && i < sim.Length1 {
      sim[i, i] := 0.0;
    }
  }
}
