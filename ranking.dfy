/** Top-k selection by descending argsort: the indices of the k largest scores, best first. */
module Ranking {
  import opened Collections

  function Min(a: nat, b: nat): nat
  {
    if a <= b then a else b
  }

  /** The order of the model's argsort: higher score first, ties by lower index.
      (numpy's default argsort does not fix the order of ties; this is one order it may produce.) */
  predicate Before(v: seq<real>, a: nat, b: nat)
    requires a < |v| && b < |v|
  {
    v[a] > v[b] || (v[a] == v[b] && a < b)
  }

  predicate SortedDesc(v: seq<real>, s: seq<nat>)
  {
    (forall p :: 0 <= p < |s| ==> s[p] < |v|) &&
    forall p, q :: 0 <= p < q < |s| ==> Before(v, s[p], s[q])
  }

  /** Inserts index `i`, larger than every index in `s`, into its place in `s`. */
  function Insert(v: seq<real>, i: nat, s: seq<nat>): (r: seq<nat>)
    requires i < |v| && SortedDesc(v, s)
    requires forall p :: 0 <= p < |s| ==> s[p] < i
    ensures SortedDesc(v, r) && |r| == |s| + 1
    ensures forall x :: x in r <==> x == i || x in s
    decreases |s|
  {
    if s == [] then [i]
    else if v[s[0]] < v[i] then
      assert forall q :: 0 <= q < |s| ==> Before(v, i, s[q]) by {
        forall q | 0 <= q < |s| ensures Before(v, i, s[q]) {
          if q > 0 {
            assert Before(v, s[0], s[q]);
          }
        }
      }
      [i] + s
    else
      var t := Insert(v, i, s[1..]);
      assert s == [s[0]] + s[1..];
      assert forall q :: 0 <= q < |t| ==> Before(v, s[0], t[q]) by {
        forall q | 0 <= q < |t| ensures Before(v, s[0], t[q]) {
          assert t[q] in t;
          if t[q] != i {
            var p :| 0 <= p < |s[1..]| && s[1..][p] == t[q];
            assert Before(v, s[0], s[p + 1]);
          }
        }
      }
      [s[0]] + t
  }

  /** The indices 0 .. m-1 in `Before` order. */
  function ArgSortDesc(v: seq<real>, m: nat): (r: seq<nat>)
    requires m <= |v|
    ensures SortedDesc(v, r) && |r| == m
    ensures forall x: nat :: x in r <==> x < m
  {
    if m == 0 then []
    else
      var s := ArgSortDesc(v, m - 1);
      assert forall p :: 0 <= p < |s| ==> s[p] < m - 1 by {
        forall p | 0 <= p < |s| ensures s[p] < m - 1 {
          assert s[p] in s;
        }
      }
      Insert(v, m - 1, s)
  }

  /** Top-k selection: min(k, |v|) distinct in-range indices with non-increasing
      scores, and no index left out scores above one that was chosen. */
  function TopK(v: seq<real>, k: nat): (r: seq<nat>)
    ensures |r| == Min(k, |v|)
    ensures forall p :: 0 <= p < |r| ==> r[p] < |v|
    ensures forall p, q :: 0 <= p < q < |r| ==> r[p] != r[q]
    ensures forall p, q :: 0 <= p < q < |r| ==> v[r[p]] >= v[r[q]]
    ensures forall j, p :: 0 <= j < |v| && j !in r && 0 <= p < |r| ==> v[j] <= v[r[p]]
  {
    var sorted := ArgSortDesc(v, |v|);
    var r := sorted[..Min(k, |v|)];
    assert forall p, q :: 0 <= p < q < |r| ==> Before(v, r[p], r[q]);
    assert forall j, p :: 0 <= j < |v| && j !in r && 0 <= p < |r| ==> v[j] <= v[r[p]] by {
      forall j, p | 0 <= j < |v| && j !in r && 0 <= p < |r| ensures v[j] <= v[r[p]] {
        assert j in sorted;
        var q :| 0 <= q < |sorted| && sorted[q] == j;
        assert q >= |r|;
        assert Before(v, sorted[p], sorted[q]);
      }
    }
    r
  }

  /** The deterministic refinement of this model: among equal scores the lower index comes first. */
  lemma TopKTieBreak(v: seq<real>, k: nat)
    ensures forall p, q :: 0 <= p < q < |TopK(v, k)| && v[TopK(v, k)[p]] == v[TopK(v, k)[q]] ==>
      TopK(v, k)[p] < TopK(v, k)[q]
  {
    var sorted := ArgSortDesc(v, |v|);
    assert TopK(v, k) == sorted[..Min(k, |v|)];
  }

  /** When k reaches the number of scores, every index is ranked. */
  lemma TopKAll(v: seq<real>, k: nat)
    requires k >= |v|
    ensures forall j :: 0 <= j < |v| ==> j in TopK(v, k)
  {
    var sorted := ArgSortDesc(v, |v|);
    assert TopK(v, k) == sorted[..|v|] == sorted;
  }

  /** The indices below `n` outside `s`. */
  function Outside(n: nat, s: set<nat>): set<nat>
  {
    Range(n) - s
  }

  lemma OutsideCard(n: nat, s: set<nat>)
    requires forall j :: j in s ==> j < n
    ensures |Outside(n, s)| == n - |s|
  {
    RangeCard(n);
    assert Range(n) == Outside(n, s) + s;
  }

  lemma OutsideAllChosen(v: seq<real>, k: nat, sunk: set<nat>, floor: real, p: nat)
    requires forall j :: 0 <= j < |v| && j in sunk ==> v[j] <= floor
    requires forall j :: 0 <= j < |v| && j !in sunk ==> v[j] > floor
    requires p < |TopK(v, k)| && TopK(v, k)[p] in sunk
    ensures Outside(|v|, sunk) <= Elements(TopK(v, k))
  {
    var r := TopK(v, k);
    forall j | j in Outside(|v|, sunk) ensures j in Elements(r) {
      if j !in r {
        assert v[j] <= v[r[p]];
      }
    }
  }

  /** With every index of `sunk` scored at or below `floor` and every other index above it,
      and k no larger than the number of other indices, top-k picks no index of `sunk`. */
  lemma TopKAvoidsSunk(v: seq<real>, k: nat, sunk: set<nat>, floor: real)
    requires forall j :: 0 <= j < |v| && j in sunk ==> v[j] <= floor
    requires forall j :: 0 <= j < |v| && j !in sunk ==> v[j] > floor
    requires k <= |Outside(|v|, sunk)|
    ensures forall p :: 0 <= p < |TopK(v, k)| ==> TopK(v, k)[p] !in sunk
  {
    var r := TopK(v, k);
    if p :| 0 <= p < |r| && r[p] in sunk {
      var out := Outside(|v|, sunk);
      OutsideAllChosen(v, k, sunk, floor, p);
      DistinctCard(r);
      assert r[p] in Elements(r) && r[p] !in out;
      SubsetCard(out + {r[p]}, Elements(r));
      assert false;
    }
  }

  /** Under the same separation, once k exceeds the number of other indices every one of
      them is ranked, and at least one index of a nonempty `sunk` is ranked too. */
  lemma TopKReachesSunk(v: seq<real>, k: nat, sunk: set<nat>, floor: real)
    requires forall j :: j in sunk ==> j < |v|
    requires forall j :: 0 <= j < |v| && j in sunk ==> v[j] <= floor
    requires forall j :: 0 <= j < |v| && j !in sunk ==> v[j] > floor
    requires k > |Outside(|v|, sunk)|
    ensures Outside(|v|, sunk) <= Elements(TopK(v, k))
    ensures sunk != {} ==> exists p :: 0 <= p < |TopK(v, k)| && TopK(v, k)[p] in sunk
  {
    var r := TopK(v, k);
    var out := Outside(|v|, sunk);
    OutsideCard(|v|, sunk);
    DistinctCard(r);
    if sunk == {} {
      TopKAll(v, k);
      return;
    }
    if forall p :: 0 <= p < |r| ==> r[p] !in sunk {
      assert Elements(r) <= out;
      SubsetCard(Elements(r), out);
      assert false;
    }
    var p :| 0 <= p < |r| && r[p] in sunk;
    OutsideAllChosen(v, k, sunk, floor, p);
  }

  /** Indices of `sunk` that are ranked come after every ranked index outside it. */
  lemma TopKSunkAtTail(v: seq<real>, k: nat, sunk: set<nat>, floor: real)
    requires forall j :: 0 <= j < |v| && j in sunk ==> v[j] <= floor
    requires forall j :: 0 <= j < |v| && j !in sunk ==> v[j] > floor
    ensures forall p, q :: 0 <= p < q < |TopK(v, k)| && TopK(v, k)[p] in sunk ==> TopK(v, k)[q] in sunk
  {
  }
}
