/** `build_mappings` (train.py:33-40): dense indices for the distinct ids, in sorted order. */
module Mappings {
  import opened StringOrder
  import opened Ratings
  import opened Collections

  /** Every earlier entry is `Less` than every later one (so the entries are distinct). */
  predicate StrictlySorted(s: seq<string>)
  {
    forall p, q :: 0 <= p < q < |s| ==> Less(s[p], s[q])
  }

  predicate Injective<K, V(==)>(m: map<K, V>)
  {
    forall x, y :: x in m && y in m && x != y ==> m[x] != m[y]
  }

  lemma StrictlySortedIsDistinct(s: seq<string>)
    requires StrictlySorted(s)
    ensures Distinct(s)
  {
    forall p, q | 0 <= p < q < |s| ensures s[p] != s[q] {
      LessIrreflexive(s[p]);
    }
  }

  lemma {:induction false} HeadBeforeTail(s: seq<string>)
    requires StrictlySorted(s) && |s| > 0
    ensures forall y :: y in s[1..] ==> Less(s[0], y)
  {
    forall y | y in s[1..] ensures Less(s[0], y) {
      var j :| 0 <= j < |s[1..]| && s[1..][j] == y;
      assert s[j + 1] == y;
    }
  }

  /** Inserts `x` into a strictly sorted sequence, keeping it strictly sorted and duplicate-free. */
  function InsertUnique(x: string, s: seq<string>): (r: seq<string>)
    requires StrictlySorted(s)
    ensures StrictlySorted(r)
    ensures forall y :: y in r <==> y == x || y in s
    decreases |s|
  {
    if s == [] then [x]
    else if x == s[0] then s
    else if Less(x, s[0]) then
      assert forall q :: 0 < q < |s| ==> Less(x, s[q]) by {
        forall q | 0 < q < |s| ensures Less(x, s[q]) {
          LessTransitive(x, s[0], s[q]);
        }
      }
      [x] + s
    else
      LessTotal(x, s[0]);
      HeadBeforeTail(s);
      var t := InsertUnique(x, s[1..]);
      assert s == [s[0]] + s[1..];
      assert forall q :: 0 <= q < |t| ==> Less(s[0], t[q]) by {
        forall q | 0 <= q < |t| ensures Less(s[0], t[q]) {
          assert t[q] in t;
        }
      }
      [s[0]] + t
  }

  /** `sorted(unique(ids))`: the distinct ids in ascending string order. */
  function SortedUnique(ids: seq<string>): (r: seq<string>)
    ensures StrictlySorted(r)
    ensures forall y :: y in r <==> y in ids
  {
    if ids == [] then []
    else
      assert ids == ids[..|ids| - 1] + [ids[|ids| - 1]];
      InsertUnique(ids[|ids| - 1], SortedUnique(ids[..|ids| - 1]))
  }

  /** Two strictly sorted sequences with the same elements are equal. */
  lemma {:induction false} SortedSetUnique(a: seq<string>, b: seq<string>)
    requires StrictlySorted(a) && StrictlySorted(b)
    requires forall y :: y in a <==> y in b
    ensures a == b
    decreases |a|
  {
    EmptyTogether(a, b);
    if a != [] && b != [] {
      HeadBeforeTail(a);
      HeadBeforeTail(b);
      assert a == [a[0]] + a[1..] && b == [b[0]] + b[1..];
      assert a[0] in a && b[0] in b;
      if a[0] != b[0] {
        assert a[0] in b[1..];
        assert b[0] in a[1..];
        LessAsymmetric(a[0], b[0]);
        assert false;
      }
      forall y ensures y in a[1..] <==> y in b[1..] {
        if y in a[1..] {
          LessIrreflexive(y);
          assert y in a && y != b[0];
          assert y in b;
        }
        if y in b[1..] {
          LessIrreflexive(y);
          assert y in b && y != a[0];
          assert y in a;
        }
      }
      SortedSetUnique(a[1..], b[1..]);
    }
  }

  lemma EmptyTogether(a: seq<string>, b: seq<string>)
    requires forall y :: y in a <==> y in b
    ensures a == [] <==> b == []
  {
    if a != [] {
      assert a[0] in a;
    }
    if b != [] {
      assert b[0] in b;
    }
  }

  /** Maps each id to its position in `ids`. */
  function IndexMap(ids: seq<string>): map<string, nat>
    requires Distinct(ids)
  {
    map i | 0 <= i < |ids| :: ids[i] := i
  }

  /** Swaps the keys and values of an injective map. */
  function Inverse(forward: map<string, nat>): map<nat, string>
    requires Injective(forward)
  {
    map x | x in forward :: forward[x] := x
  }

  /** `forward` maps `ids` onto [0, |ids|) and `inverse` is its exact inverse. */
  ghost predicate DenseIndex(forward: map<string, nat>, inverse: map<nat, string>, ids: set<string>)
  {
    && forward.Keys == ids
    && (forall x :: x in forward ==> forward[x] < |ids|)
    && (forall i: nat :: i in inverse <==> i < |ids|)
    && (forall x :: x in forward ==> forward[x] in inverse && inverse[forward[x]] == x)
    && (forall i :: i in inverse ==> inverse[i] in forward && forward[inverse[i]] == i)
  }

  /** Indices follow string order. */
  ghost predicate OrderPreserving(forward: map<string, nat>)
  {
    forall a, b :: a in forward && b in forward && Less(a, b) ==> forward[a] < forward[b]
  }

  lemma IndexMapAt(ids: seq<string>)
    requires Distinct(ids)
    ensures forall i :: 0 <= i < |ids| ==> ids[i] in IndexMap(ids) && IndexMap(ids)[ids[i]] == i
    ensures forall x :: x in IndexMap(ids) ==> IndexMap(ids)[x] < |ids| && ids[IndexMap(ids)[x]] == x
    ensures IndexMap(ids).Keys == Elements(ids)
  {
  }

  lemma IndexMapInjective(ids: seq<string>)
    requires Distinct(ids)
    ensures Injective(IndexMap(ids))
  {
    IndexMapAt(ids);
  }

  lemma IndexMapOrder(ids: seq<string>)
    requires StrictlySorted(ids)
    ensures Distinct(ids)
    ensures OrderPreserving(IndexMap(ids))
  {
    StrictlySortedIsDistinct(ids);
    IndexMapAt(ids);
    var fwd := IndexMap(ids);
    forall a, b | a in fwd && b in fwd && Less(a, b) ensures fwd[a] < fwd[b] {
      if fwd[b] == fwd[a] {
        LessIrreflexive(a);
      } else if fwd[b] < fwd[a] {
        LessAsymmetric(ids[fwd[b]], ids[fwd[a]]);
      }
    }
  }

  lemma IndexMapDense(ids: seq<string>)
    requires Distinct(ids)
    ensures Injective(IndexMap(ids))
    ensures DenseIndex(IndexMap(ids), Inverse(IndexMap(ids)), Elements(ids))
  {
    DistinctCard(ids);
    IndexMapAt(ids);
    IndexMapInjective(ids);
    var fwd := IndexMap(ids);
    var inv := Inverse(fwd);
    forall i: nat ensures i in inv <==> i < |ids| {
      if i < |ids| {
        assert ids[i] in fwd && fwd[ids[i]] == i;
      }
    }
    forall x | x in fwd ensures fwd[x] in inv && inv[fwd[x]] == x {
    }
    forall i | i in inv ensures inv[i] in fwd && fwd[inv[i]] == i {
      var x :| x in fwd && fwd[x] == i;
    }
  }

  lemma IndexMapProperties(ids: seq<string>)
    requires StrictlySorted(ids)
    ensures Distinct(ids)
    ensures Injective(IndexMap(ids))
    ensures DenseIndex(IndexMap(ids), Inverse(IndexMap(ids)), Elements(ids))
    ensures OrderPreserving(IndexMap(ids))
  {
    IndexMapOrder(ids);
    IndexMapDense(ids);
  }

  /** The four maps `build_mappings` returns. */
  datatype IndexMaps = IndexMaps(
    userToIdx: map<string, nat>, idxToUser: map<nat, string>,
    itemToIdx: map<string, nat>, idxToItem: map<nat, string>)

  function BuildMappings(rows: seq<Rating>): (r: IndexMaps)
    ensures DenseIndex(r.userToIdx, r.idxToUser, UserSet(rows)) && OrderPreserving(r.userToIdx)
    ensures DenseIndex(r.itemToIdx, r.idxToItem, BookSet(rows)) && OrderPreserving(r.itemToIdx)
  {
    var users := SortedUnique(UserIds(rows));
    var items := SortedUnique(BookIds(rows));
    IndexMapProperties(users);
    IndexMapProperties(items);
    IdsAsSets(rows, users, items);
    IndexMaps(IndexMap(users), Inverse(IndexMap(users)), IndexMap(items), Inverse(IndexMap(items)))
  }

  lemma IdsAsSets(rows: seq<Rating>, users: seq<string>, items: seq<string>)
    requires forall y :: y in users <==> y in UserIds(rows)
    requires forall y :: y in items <==> y in BookIds(rows)
    ensures forall y :: y in users <==> y in UserSet(rows)
    ensures forall y :: y in items <==> y in BookSet(rows)
    ensures (set x | x in users) == UserSet(rows)
    ensures (set x | x in items) == BookSet(rows)
  {
    forall y | y in UserSet(rows) ensures y in users {
      var r :| r in rows && r.user == y;
      var j :| 0 <= j < |rows| && rows[j] == r;
      assert UserIds(rows)[j] == y;
    }
    forall y | y in BookSet(rows) ensures y in items {
      var r :| r in rows && r.book == y;
      var j :| 0 <= j < |rows| && rows[j] == r;
      assert BookIds(rows)[j] == y;
    }
  }

  /** Index assignment depends only on the sets of ids, not on row order or repetition. */
  lemma BuildMappingsDependsOnlyOnIdSets(rows1: seq<Rating>, rows2: seq<Rating>)
    requires UserSet(rows1) == UserSet(rows2) && BookSet(rows1) == BookSet(rows2)
    ensures BuildMappings(rows1) == BuildMappings(rows2)
  {
    var u1, u2 := SortedUnique(UserIds(rows1)), SortedUnique(UserIds(rows2));
    var i1, i2 := SortedUnique(BookIds(rows1)), SortedUnique(BookIds(rows2));
    IdsAsSets(rows1, u1, i1);
    IdsAsSets(rows2, u2, i2);
    SortedSetUnique(u1, u2);
    SortedSetUnique(i1, i2);
  }
}
