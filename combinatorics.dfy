/**
 * Index matching and complement utilities whose behaviour
 * test/test_combinatorics.cpp pins down: matching two lists of landmark ids,
 * listing the current ids without a reference partner, and turning a list of
 * inlier indices into the ascending list of outlier indices.
 */
module Combinatorics {
  import opened Wrappers

  /** A pair (index into the current ids, index into the reference ids). */
  type Match = (nat, nat)

  predicate StrictlyIncreasing(s: seq<nat>) {
    forall a, b :: 0 <= a < b < |s| ==> s[a] < s[b]
  }

  /** Two strictly increasing sequences with the same elements are equal. */
  lemma {:induction false} StrictlyIncreasingUnique(a: seq<nat>, b: seq<nat>)
    requires StrictlyIncreasing(a) && StrictlyIncreasing(b)
    requires forall x :: x in a <==> x in b
    ensures a == b
  {
    assert |a| > 0 ==> a[0] in a;
    assert |b| > 0 ==> b[0] in b;
    if |a| > 0 && |b| > 0 {
      assert a[0] == b[0] by {
        assert a[0] in b && b[0] in a;
      }
      forall x ensures x in a[1..] <==> x in b[1..] {
        if x in a[1..] {
          assert x > a[0];
          assert x in b;
        }
        if x in b[1..] {
          assert x > b[0];
          assert x in a;
        }
      }
      StrictlyIncreasingUnique(a[1..], b[1..]);
      assert a == [a[0]] + a[1..];
      assert b == [b[0]] + b[1..];
    }
  }

  /** The first position of `x` in `ids`, if any. */
  function FirstIndexOf(ids: seq<int>, x: int): (r: Option<nat>)
    ensures r.Some? ==> r.value < |ids|
  {
    if |ids| == 0 then None
    else if ids[0] == x then Some(0)
    else match FirstIndexOf(ids[1..], x)
      case None => None
      case Some(k) => Some(k + 1)
  }

  /** `FirstIndexOf` finds `x` exactly when it occurs, and then at its first occurrence. */
  lemma {:induction false} FirstIndexOfCorrect(ids: seq<int>, x: int)
    ensures FirstIndexOf(ids, x).Some? <==> x in ids
    ensures FirstIndexOf(ids, x).Some? ==>
      var j := FirstIndexOf(ids, x).value; ids[j] == x && forall k :: 0 <= k < j ==> ids[k] != x
  {
    if |ids| > 0 && ids[0] != x {
      FirstIndexOfCorrect(ids[1..], x);
      assert ids == [ids[0]] + ids[1..];
    }
  }

  function Firsts(m: seq<Match>): (s: seq<nat>)
    ensures |s| == |m| && forall k :: 0 <= k < |m| ==> s[k] == m[k].0
  {
    seq(|m|, k requires 0 <= k < |m| => m[k].0)
  }

  /** Matches among the first `upTo` current ids. */
  function MatchPrefix(idsCur: seq<int>, idsRef: seq<int>, isValid: int -> bool, upTo: nat): (m: seq<Match>)
    requires upTo <= |idsCur|
    ensures |m| <= upTo
  {
    if upTo == 0 then []
    else
      var m := MatchPrefix(idsCur, idsRef, isValid, upTo - 1);
      var i := upTo - 1;
      if isValid(idsCur[i]) then
        match FirstIndexOf(idsRef, idsCur[i])
        case Some(j) => m + [(i, j)]
        case None => m
      else m
  }

  /** The properties of a match list the matching must establish. */
  predicate IsMatching(idsCur: seq<int>, idsRef: seq<int>, isValid: int -> bool, upTo: nat, m: seq<Match>)
    requires upTo <= |idsCur|
  {
    && (forall k :: 0 <= k < |m| ==>
      m[k].0 < upTo && m[k].1 < |idsRef| && isValid(idsCur[m[k].0]) && idsCur[m[k].0] == idsRef[m[k].1]
      && forall j :: 0 <= j < m[k].1 ==> idsRef[j] != idsCur[m[k].0])
    && StrictlyIncreasing(Firsts(m))
    && (forall i :: 0 <= i < upTo ==> (i in Firsts(m) <==> isValid(idsCur[i]) && idsCur[i] in idsRef))
  }

  lemma FirstsAppend(m: seq<Match>, p: Match)
    ensures Firsts(m + [p]) == Firsts(m) + [p.0]
  {
  }

  /** Extending the scan by one current id that has no valid partner keeps the match list. */
  lemma MatchingSkip(idsCur: seq<int>, idsRef: seq<int>, isValid: int -> bool, i: nat, m: seq<Match>)
    requires i < |idsCur| && IsMatching(idsCur, idsRef, isValid, i, m)
    requires !(isValid(idsCur[i]) && idsCur[i] in idsRef)
    ensures IsMatching(idsCur, idsRef, isValid, i + 1, m)
  {
    FirstIndexOfCorrect(idsRef, idsCur[i]);
    assert i !in Firsts(m);
  }

  /** Extending the scan by one current id with first partner `j` appends the pair `(i, j)`. */
  lemma MatchingAppend(idsCur: seq<int>, idsRef: seq<int>, isValid: int -> bool, i: nat, j: nat, m: seq<Match>)
    requires i < |idsCur| && IsMatching(idsCur, idsRef, isValid, i, m)
    requires isValid(idsCur[i]) && FirstIndexOf(idsRef, idsCur[i]) == Some(j)
    ensures IsMatching(idsCur, idsRef, isValid, i + 1, m + [(i, j)])
  {
    FirstIndexOfCorrect(idsRef, idsCur[i]);
    FirstsAppend(m, (i, j));
    var m' := m + [(i, j)];
    assert forall k :: 0 <= k < |m| ==> m'[k] == m[k];
  }

  lemma {:induction false} MatchPrefixIsMatching(idsCur: seq<int>, idsRef: seq<int>, isValid: int -> bool, upTo: nat)
    requires upTo <= |idsCur|
    ensures IsMatching(idsCur, idsRef, isValid, upTo, MatchPrefix(idsCur, idsRef, isValid, upTo))
  {
    if upTo > 0 {
      var m := MatchPrefix(idsCur, idsRef, isValid, upTo - 1);
      MatchPrefixIsMatching(idsCur, idsRef, isValid, upTo - 1);
      var i := upTo - 1;
      if isValid(idsCur[i]) && FirstIndexOf(idsRef, idsCur[i]).Some? {
        MatchingAppend(idsCur, idsRef, isValid, i, FirstIndexOf(idsRef, idsCur[i]).value, m);
      } else {
        FirstIndexOfCorrect(idsRef, idsCur[i]);
        MatchingSkip(idsCur, idsRef, isValid, i, m);
      }
    }
  }

  /**
   * `getMatchIndices`: every valid current id that occurs in the reference list,
   * paired with its first position there, in ascending order of current index.
   * Ids the validity predicate rejects are never matched.
   */
  function GetMatchIndices(idsCur: seq<int>, idsRef: seq<int>, isValid: int -> bool): (m: seq<Match>)
    ensures forall k :: 0 <= k < |m| ==>
      m[k].0 < |idsCur| && m[k].1 < |idsRef| && isValid(idsCur[m[k].0]) && idsCur[m[k].0] == idsRef[m[k].1]
    ensures forall k :: 0 <= k < |m| ==> forall j :: 0 <= j < m[k].1 ==> idsRef[j] != idsCur[m[k].0]
    ensures StrictlyIncreasing(Firsts(m))
    ensures forall i :: 0 <= i < |idsCur| ==> (i in Firsts(m) <==> isValid(idsCur[i]) && idsCur[i] in idsRef)
  {
    MatchPrefixIsMatching(idsCur, idsRef, isValid, |idsCur|);
    MatchPrefix(idsCur, idsRef, isValid, |idsCur|)
  }

  /** Unmatched indices among the first `upTo` current ids. */
  function UnmatchedPrefix(idsCur: seq<int>, idsRef: seq<int>, isValid: int -> bool, upTo: nat): (u: seq<nat>)
    requires upTo <= |idsCur|
    ensures |u| <= upTo
  {
    if upTo == 0 then []
    else
      var u := UnmatchedPrefix(idsCur, idsRef, isValid, upTo - 1);
      var i := upTo - 1;
      if isValid(idsCur[i]) && idsCur[i] !in idsRef then u + [i] else u
  }

  lemma {:induction false} UnmatchedPrefixCorrect(idsCur: seq<int>, idsRef: seq<int>, isValid: int -> bool, upTo: nat)
    requires upTo <= |idsCur|
    ensures var u := UnmatchedPrefix(idsCur, idsRef, isValid, upTo);
      && StrictlyIncreasing(u)
      && (forall k :: 0 <= k < |u| ==> u[k] < upTo)
      && (forall i :: i in u <==> 0 <= i < upTo && isValid(idsCur[i]) && idsCur[i] !in idsRef)
  {
    if upTo > 0 {
      UnmatchedPrefixCorrect(idsCur, idsRef, isValid, upTo - 1);
    }
  }

  /**
   * `getUnmatchedIndices`: the ascending indices of the valid current ids that
   * do not occur in the reference list.
   */
  function GetUnmatchedIndices(idsCur: seq<int>, idsRef: seq<int>, isValid: int -> bool): (u: seq<nat>)
    ensures StrictlyIncreasing(u)
    ensures forall k :: 0 <= k < |u| ==> u[k] < |idsCur|
    ensures forall i :: i in u <==> 0 <= i < |idsCur| && isValid(idsCur[i]) && idsCur[i] !in idsRef
  {
    UnmatchedPrefixCorrect(idsCur, idsRef, isValid, |idsCur|);
    UnmatchedPrefix(idsCur, idsRef, isValid, |idsCur|)
  }

  /** Matched and unmatched indices split the valid current indices between them. */
  lemma MatchedUnmatchedPartition(idsCur: seq<int>, idsRef: seq<int>, isValid: int -> bool, i: nat)
    requires i < |idsCur|
    ensures isValid(idsCur[i]) <==> (i in Firsts(GetMatchIndices(idsCur, idsRef, isValid)) || i in GetUnmatchedIndices(idsCur, idsRef, isValid))
    ensures !(i in Firsts(GetMatchIndices(idsCur, idsRef, isValid)) && i in GetUnmatchedIndices(idsCur, idsRef, isValid))
  {
  }

  /** Outlier indices below `upTo`: those not among the inliers. */
  function OutlierPrefix(inliers: seq<int>, upTo: nat): (o: seq<nat>)
    ensures StrictlyIncreasing(o)
    ensures forall k :: 0 <= k < |o| ==> o[k] < upTo
    ensures forall x :: x in o <==> 0 <= x < upTo && x !in inliers
  {
    if upTo == 0 then []
    else
      var o := OutlierPrefix(inliers, upTo - 1);
      if upTo - 1 in inliers then o else o + [upTo - 1]
  }

  /**
   * `getOutlierIndicesFromInlierIndices(inliers, n)`: the ascending complement
   * of the inliers in [0, n), whatever the order of the inliers.
   */
  function GetOutlierIndicesFromInlierIndices(inliers: seq<int>, n: nat): (o: seq<nat>)
    ensures StrictlyIncreasing(o)
    ensures forall x :: x in o <==> 0 <= x < n && x !in inliers
  {
    OutlierPrefix(inliers, n)
  }

  /** The distinct inliers below `n`. */
  function InliersBelow(inliers: seq<int>, n: nat): (s: set<nat>) {
    set x: nat | x < n && x in inliers
  }

  lemma {:induction false} OutlierPrefixCount(inliers: seq<int>, upTo: nat)
    ensures |OutlierPrefix(inliers, upTo)| + |InliersBelow(inliers, upTo)| == upTo
  {
    if upTo > 0 {
      OutlierPrefixCount(inliers, upTo - 1);
      var below := InliersBelow(inliers, upTo - 1);
      if upTo - 1 in inliers {
        assert InliersBelow(inliers, upTo) == below + {upTo - 1};
      } else {
        assert InliersBelow(inliers, upTo) == below;
      }
    } else {
      assert InliersBelow(inliers, 0) == {};
    }
  }

  /** The number of outliers is n minus the number of distinct inliers below n. */
  lemma OutlierCount(inliers: seq<int>, n: nat)
    ensures |GetOutlierIndicesFromInlierIndices(inliers, n)| == n - |InliersBelow(inliers, n)|
  {
    OutlierPrefixCount(inliers, n);
  }

  /** When the inliers cover [0, n) there are no outliers. */
  lemma AllInliersNoOutliers(inliers: seq<int>, n: nat)
    requires forall x :: 0 <= x < n ==> x in inliers
    ensures GetOutlierIndicesFromInlierIndices(inliers, n) == []
  {
    StrictlyIncreasingUnique(GetOutlierIndicesFromInlierIndices(inliers, n), []);
  }

  /**
   * The complement by a boolean mask: mark every inlier below `n`, then list
   * the unmarked indices in ascending order.
   */
  method OutlierIndicesByMask(inliers: seq<int>, n: nat) returns (outliers: seq<nat>)
    ensures outliers == GetOutlierIndicesFromInlierIndices(inliers, n)
  {
    var isInlier := new bool[n](_ => false);
    for k := 0 to |inliers|
      invariant forall x :: 0 <= x < n ==> (isInlier[x] <==> x in inliers[..k])
    {
      var x := inliers[k];
      if 0 <= x < n {
        isInlier[x] := true;
      }
      assert inliers[..k + 1] == inliers[..k] + [x];
    }
    assert inliers[..|inliers|] == inliers;
    outliers := [];
    for i := 0 to n
      invariant outliers == OutlierPrefix(inliers, i)
    {
      if !isInlier[i] {
        outliers := outliers + [i];
      }
    }
  }

  /** The validity test the tests pass in: every landmark id except the marker -1 is valid. */
  function IsValidLandmarkId(id: int): (b: bool)
    ensures !b <==> id == -1
  {
    id != -1
  }

  /**
   * The fixtures of the tests.  The inputs are parameters pinned by `requires`
   * so that the recursion is unfolded one step per assertion.
   */
  predicate IsTestFixture(cur: seq<int>, ref: seq<int>) {
    cur == [-1, 2, 3, 7, 9, -1, 10, 12, 4, 5] && ref == [-1, 1, 2, 3, 12, 9, -1]
  }

  /** Where the matched ids of the current fixture first occur in the reference fixture. */
  lemma FixtureFirstIndices(ref: seq<int>)
    requires ref == [-1, 1, 2, 3, 12, 9, -1]
    ensures FirstIndexOf(ref, 2) == Some(2) && FirstIndexOf(ref, 3) == Some(3)
    ensures FirstIndexOf(ref, 9) == Some(5) && FirstIndexOf(ref, 12) == Some(4)
  {
    // The first occurrence is the only one, so the general characterisation pins it.
    FirstIndexOfCorrect(ref, 2);
    FirstIndexOfCorrect(ref, 3);
    FirstIndexOfCorrect(ref, 9);
    FirstIndexOfCorrect(ref, 12);
    assert ref[2] == 2 && ref[3] == 3 && ref[5] == 9 && ref[4] == 12;
  }

  /** The unmatched ids of the current fixture do not occur in the reference fixture. */
  lemma FixtureAbsent(ref: seq<int>)
    requires ref == [-1, 1, 2, 3, 12, 9, -1]
    ensures FirstIndexOf(ref, 7) == None && FirstIndexOf(ref, 10) == None
    ensures FirstIndexOf(ref, 4) == None && FirstIndexOf(ref, 5) == None
  {
    // None of the four occurs, so the general characterisation finds none of them.
    FirstIndexOfCorrect(ref, 7);
    FirstIndexOfCorrect(ref, 10);
    FirstIndexOfCorrect(ref, 4);
    FirstIndexOfCorrect(ref, 5);
  }

  /** The matching fixture of the tests: four matches, each with its first reference partner. */
  lemma MatchFixture(cur: seq<int>, ref: seq<int>)
    requires IsTestFixture(cur, ref)
    ensures GetMatchIndices(cur, ref, IsValidLandmarkId) == [(1, 2), (2, 3), (4, 5), (7, 4)]
  {
    FixtureFirstIndices(ref);
    FixtureAbsent(ref);
    assert MatchPrefix(cur, ref, IsValidLandmarkId, 1) == [];
    assert MatchPrefix(cur, ref, IsValidLandmarkId, 2) == [(1, 2)];
    assert MatchPrefix(cur, ref, IsValidLandmarkId, 3) == [(1, 2), (2, 3)];
    assert MatchPrefix(cur, ref, IsValidLandmarkId, 4) == [(1, 2), (2, 3)];
    assert MatchPrefix(cur, ref, IsValidLandmarkId, 5) == [(1, 2), (2, 3), (4, 5)];
    assert MatchPrefix(cur, ref, IsValidLandmarkId, 6) == [(1, 2), (2, 3), (4, 5)];
    assert MatchPrefix(cur, ref, IsValidLandmarkId, 7) == [(1, 2), (2, 3), (4, 5)];
    assert MatchPrefix(cur, ref, IsValidLandmarkId, 8) == [(1, 2), (2, 3), (4, 5), (7, 4)];
    assert MatchPrefix(cur, ref, IsValidLandmarkId, 9) == [(1, 2), (2, 3), (4, 5), (7, 4)];
  }

  /** Which ids of the current fixture occur in the reference fixture. */
  lemma FixtureMembership(ref: seq<int>)
    requires ref == [-1, 1, 2, 3, 12, 9, -1]
    ensures 2 in ref && 3 in ref && 9 in ref && 12 in ref
    ensures 7 !in ref && 10 !in ref && 4 !in ref && 5 !in ref
  {
    FixtureFirstIndices(ref);
    FixtureAbsent(ref);
    FirstIndexOfCorrect(ref, 2);
    FirstIndexOfCorrect(ref, 3);
    FirstIndexOfCorrect(ref, 9);
    FirstIndexOfCorrect(ref, 12);
    FirstIndexOfCorrect(ref, 7);
    FirstIndexOfCorrect(ref, 10);
    FirstIndexOfCorrect(ref, 4);
    FirstIndexOfCorrect(ref, 5);
  }

  /** The unmatched fixture of the tests. */
  lemma UnmatchedFixture(cur: seq<int>, ref: seq<int>)
    requires IsTestFixture(cur, ref)
    ensures GetUnmatchedIndices(cur, ref, IsValidLandmarkId) == [3, 6, 8, 9]
  {
    FixtureMembership(ref);
    assert UnmatchedPrefix(cur, ref, IsValidLandmarkId, 1) == [];
    assert UnmatchedPrefix(cur, ref, IsValidLandmarkId, 2) == [];
    assert UnmatchedPrefix(cur, ref, IsValidLandmarkId, 3) == [];
    assert UnmatchedPrefix(cur, ref, IsValidLandmarkId, 4) == [3];
    assert UnmatchedPrefix(cur, ref, IsValidLandmarkId, 5) == [3];
    assert UnmatchedPrefix(cur, ref, IsValidLandmarkId, 6) == [3];
    assert UnmatchedPrefix(cur, ref, IsValidLandmarkId, 7) == [3, 6];
    assert UnmatchedPrefix(cur, ref, IsValidLandmarkId, 8) == [3, 6];
    assert UnmatchedPrefix(cur, ref, IsValidLandmarkId, 9) == [3, 6, 8];
  }

  lemma OutlierFixture(inliers: seq<int>)
    requires inliers == [0, 1, 5, 4]
    ensures GetOutlierIndicesFromInlierIndices(inliers, 7) == [2, 3, 6]
  {
    assert OutlierPrefix(inliers, 1) == [];
    assert OutlierPrefix(inliers, 2) == [];
    assert OutlierPrefix(inliers, 3) == [2];
    assert OutlierPrefix(inliers, 4) == [2, 3];
    assert OutlierPrefix(inliers, 5) == [2, 3];
    assert OutlierPrefix(inliers, 6) == [2, 3];
  }

  lemma NoOutlierFixture(inliers: seq<int>)
    requires inliers == [0, 1, 2]
    ensures GetOutlierIndicesFromInlierIndices(inliers, 3) == []
  {
    assert inliers[0] == 0 && inliers[1] == 1 && inliers[2] == 2;
    AllInliersNoOutliers(inliers, 3);
  }
}
