/**
 * mergeRectangles: each box not yet absorbed becomes a seed that repeatedly absorbs every
 * later unused box it overlaps or comes within 10 pixels of, until a whole pass absorbs
 * nothing. The used flags are a local slice, modelled as a sequence the loops reassign.
 */
module BoxMerge {
  import opened Boxes

  /** The number of boxes not yet absorbed. */
  function Unused(used: seq<bool>): nat
  {
    if |used| == 0 then 0 else Unused(used[..|used| - 1]) + (if used[|used| - 1] then 0 else 1)
  }

  /** Marking more boxes used never raises the count, and marking a new one lowers it. */
  lemma {:induction false} UnusedShrinks(before: seq<bool>, after: seq<bool>)
    requires |before| == |after|
    requires forall k :: 0 <= k < |before| && before[k] ==> after[k]
    ensures Unused(after) <= Unused(before)
    ensures (exists k :: 0 <= k < |before| && !before[k] && after[k]) ==> Unused(after) < Unused(before)
  {
    if |before| > 0 {
      var n := |before| - 1;
      UnusedShrinks(before[..n], after[..n]);
      if exists k :: 0 <= k < |before| && !before[k] && after[k] {
        var k :| 0 <= k < |before| && !before[k] && after[k];
        if k < n {
          assert !before[..n][k] && after[..n][k];
        }
      }
    }
  }

  /** B encloses every box that moved from unused to used. */
  ghost predicate BoundsNew(b: Box, rects: seq<Box>, used: seq<bool>, used': seq<bool>)
  {
    |used| == |rects| && |used'| == |rects| &&
    forall k :: 0 <= k < |rects| && used'[k] && !used[k] ==> Encloses(b, rects[k])
  }

  /** B encloses every input the output m absorbed. */
  ghost predicate BoundsOwned(b: Box, rects: seq<Box>, owner: seq<int>, m: int)
  {
    |owner| == |rects| &&
    forall k :: 0 <= k < |rects| && owner[k] == m ==> Encloses(b, rects[k])
  }

  /**
   * One pass of the inner for loop over j in (i, n): every unused box that the current box
   * can merge with is combined into it and marked used.
   */
  method MergePass(rects: seq<Box>, used: seq<bool>, i: nat, current: Box)
    returns (used': seq<bool>, current': Box, mergedAny: bool)
    requires |used| == |rects| && i < |rects|
    ensures |used'| == |rects|
    ensures forall k :: 0 <= k < |rects| && used[k] ==> used'[k]
    ensures forall k :: 0 <= k <= i ==> used'[k] == used[k]
    ensures Encloses(current', current)
    ensures forall k :: 0 <= k < |rects| && used'[k] && !used[k] ==> Encloses(current', rects[k])
    // and no larger than it must be
    ensures forall b :: Encloses(b, current) && BoundsNew(b, rects, used, used') ==> Encloses(b, current')
    ensures mergedAny ==> exists k :: 0 <= k < |rects| && !used[k] && used'[k]
    ensures !mergedAny ==> used' == used && current' == current
    ensures !mergedAny ==> forall k :: i < k < |rects| && !used[k] ==> !Mergeable(current, rects[k])
  {
    used', current', mergedAny := used, current, false;
    var j := i + 1;
    while j < |rects|
      invariant i + 1 <= j <= |rects|
      invariant |used'| == |rects|
      invariant forall k :: 0 <= k < |rects| && used[k] ==> used'[k]
      invariant forall k :: 0 <= k < |rects| && (k <= i || j <= k) ==> used'[k] == used[k]
      invariant Encloses(current', current)
      invariant forall k :: 0 <= k < |rects| && used'[k] && !used[k] ==> Encloses(current', rects[k])
      invariant forall b :: Encloses(b, current) && BoundsNew(b, rects, used, used') ==> Encloses(b, current')
      invariant mergedAny ==> exists k :: 0 <= k < |rects| && !used[k] && used'[k]
      invariant !mergedAny ==> used' == used && current' == current
      invariant !mergedAny ==> forall k :: i < k < j && !used[k] ==> !Mergeable(current, rects[k])
    {
      if !used'[j] && Mergeable(current', rects[j]) {
        var next := Combine(current', rects[j]);
        forall k | 0 <= k < |rects| && used'[k] && !used[k]
          ensures Encloses(next, rects[k])
        {
          EnclosesTransitive(next, current', rects[k]);
        }
        EnclosesTransitive(next, current', current);
        forall b | Encloses(b, current) && BoundsNew(b, rects, used, used'[j := true])
          ensures Encloses(b, next)
        {
          assert BoundsNew(b, rects, used, used') by {
            forall k | 0 <= k < |rects| && used'[k] && !used[k]
              ensures Encloses(b, rects[k])
            {
              assert used'[j := true][k];
            }
          }
          assert Encloses(b, rects[j]) by {
            assert used'[j := true][j] && !used[j];
          }
          CombineSmallest(current', rects[j], b);
        }
        used', current', mergedAny := used'[j := true], next, true;
      }
      j := j + 1;
    }
  }

  /**
   * mergeRectangles. Besides the merged boxes it yields, as ghost results, the index of each
   * output's seed and the output that absorbed each input.
   */
  method MergeRectangles(rects: seq<Box>) returns (merged: seq<Box>, ghost seeds: seq<int>, ghost owner: seq<int>)
    ensures |rects| <= 1 ==> merged == rects
    ensures |merged| <= |rects|
    ensures |seeds| == |merged| && |owner| == |rects|
    // every output grows from a distinct input, taken in input order
    ensures forall m :: 0 <= m < |merged| ==> 0 <= seeds[m] < |rects| && owner[seeds[m]] == m
    ensures forall m, m2 :: 0 <= m < m2 < |merged| ==> seeds[m] < seeds[m2]
    // every input belongs to exactly one output, no earlier than its seed, which encloses it
    ensures forall k :: 0 <= k < |rects| ==>
              0 <= owner[k] < |merged| && seeds[owner[k]] <= k && Encloses(merged[owner[k]], rects[k])
    // a later seed was too far from every earlier output to be merged into it
    ensures forall m, m2 :: 0 <= m < m2 < |merged| ==> !Mergeable(merged[m], rects[seeds[m2]])
    // an output is the smallest box enclosing the inputs it absorbed
    ensures forall m, b :: 0 <= m < |merged| && BoundsOwned(b, rects, owner, m) ==> Encloses(b, merged[m])
  {
    var n := |rects|;
    if n <= 1 {
      merged := rects;
      seeds := if n == 0 then [] else [0];
      owner := seeds;
      forall m, b | 0 <= m < |merged| && BoundsOwned(b, rects, owner, m)
        ensures Encloses(b, merged[m])
      {
        assert owner[0] == 0;
      }
      return;
    }
    merged := [];
    seeds := [];
    owner := seq(n, k => -1);
    var used := seq(n, k => false);
    var i := 0;
    while i < n
      invariant 0 <= i <= n
      invariant MergeState(rects, used, i, merged, seeds, owner)
    {
      if !used[i] {
        var current, seedUsed := MergeSeed(rects, used, i);
        SeedStep(rects, used, i, merged, seeds, owner, current, seedUsed);
        owner := Absorbed(used, seedUsed, i, |merged|, owner);
        merged := merged + [current];
        seeds := seeds + [i];
        used := seedUsed;
      }
      i := i + 1;
    }
  }

  /** What holds after the seeds below i are done. */
  ghost predicate MergeState(rects: seq<Box>, used: seq<bool>, i: int, merged: seq<Box>, seeds: seq<int>, owner: seq<int>)
  {
    var n := |rects|;
    i <= n && |used| == n && |owner| == n && |seeds| == |merged| <= i &&
    (forall k :: 0 <= k < n ==> (owner[k] >= 0 <==> k < i || used[k])) &&
    (forall k :: 0 <= k < n && owner[k] >= 0 ==>
       owner[k] < |merged| && 0 <= seeds[owner[k]] <= k && Encloses(merged[owner[k]], rects[k])) &&
    (forall m :: 0 <= m < |merged| ==> 0 <= seeds[m] < i && owner[seeds[m]] == m) &&
    (forall m, m2 :: 0 <= m < m2 < |merged| ==> seeds[m] < seeds[m2]) &&
    (forall m, m2 :: 0 <= m < m2 < |merged| ==> !Mergeable(merged[m], rects[seeds[m2]])) &&
    (forall m, j :: 0 <= m < |merged| && i <= j < n && !used[j] ==> !Mergeable(merged[m], rects[j])) &&
    (forall m, b :: 0 <= m < |merged| && BoundsOwned(b, rects, owner, m) ==> Encloses(b, merged[m]))
  }

  /** The owners after seed i, becoming output m, absorbed the boxes newly marked used. */
  ghost function Absorbed(used: seq<bool>, used': seq<bool>, i: int, m: int, owner: seq<int>): (o: seq<int>)
    requires |used| == |used'| == |owner|
    ensures |o| == |owner|
  {
    seq(|owner|, k requires 0 <= k < |owner| => if k == i || (used'[k] && !used[k]) then m else owner[k])
  }

  /** Turning unused box i into the next output keeps the merge state. */
  lemma SeedStep(rects: seq<Box>, used: seq<bool>, i: int, merged: seq<Box>, seeds: seq<int>, owner: seq<int>,
                 current: Box, used': seq<bool>)
    requires 0 <= i < |rects| && MergeState(rects, used, i, merged, seeds, owner) && !used[i]
    requires |used'| == |rects|
    requires forall k :: 0 <= k < |rects| && used[k] ==> used'[k]
    requires forall k :: 0 <= k <= i ==> used'[k] == used[k]
    requires Encloses(current, rects[i])
    requires forall k :: 0 <= k < |rects| && used'[k] && !used[k] ==> Encloses(current, rects[k])
    requires forall k :: i < k < |rects| && !used'[k] ==> !Mergeable(current, rects[k])
    requires forall b :: Encloses(b, rects[i]) && BoundsNew(b, rects, used, used') ==> Encloses(b, current)
    ensures MergeState(rects, used', i + 1, merged + [current], seeds + [i], Absorbed(used, used', i, |merged|, owner))
  {
    var n, m := |rects|, |merged|;
    var merged', seeds', owner' := merged + [current], seeds + [i], Absorbed(used, used', i, m, owner);
    forall k | 0 <= k < n && owner'[k] >= 0
      ensures owner'[k] < |merged'| && 0 <= seeds'[owner'[k]] <= k && Encloses(merged'[owner'[k]], rects[k])
    {
      if k == i || (used'[k] && !used[k]) {
        assert owner'[k] == m;
      } else {
        assert owner'[k] == owner[k];
      }
    }
    forall m1 | 0 <= m1 < |merged'|
      ensures 0 <= seeds'[m1] < i + 1 && owner'[seeds'[m1]] == m1
    {
      if m1 < m {
        assert owner[seeds[m1]] == m1;
      }
    }
    forall m1, b | 0 <= m1 < |merged'| && BoundsOwned(b, rects, owner', m1)
      ensures Encloses(b, merged'[m1])
    {
      if m1 < m {
        OwnedBefore(rects, used, i, merged, seeds, owner, used', b, m1);
      } else {
        assert Encloses(b, rects[i]) by {
          assert owner'[i] == m;
        }
        assert BoundsNew(b, rects, used, used') by {
          forall k | 0 <= k < n && used'[k] && !used[k]
            ensures Encloses(b, rects[k])
          {
            assert owner'[k] == m;
          }
        }
      }
    }
  }

  /** An earlier output owns the same inputs after seed i as before it. */
  lemma OwnedBefore(rects: seq<Box>, used: seq<bool>, i: int, merged: seq<Box>, seeds: seq<int>, owner: seq<int>,
                    used': seq<bool>, b: Box, m1: int)
    requires 0 <= i < |rects| && MergeState(rects, used, i, merged, seeds, owner) && !used[i]
    requires |used'| == |rects|
    requires forall k :: 0 <= k <= i ==> used'[k] == used[k]
    requires 0 <= m1 < |merged| && BoundsOwned(b, rects, Absorbed(used, used', i, |merged|, owner), m1)
    ensures BoundsOwned(b, rects, owner, m1)
  {
    var owner' := Absorbed(used, used', i, |merged|, owner);
    forall k | 0 <= k < |rects| && owner[k] == m1
      ensures Encloses(b, rects[k])
    {
      assert k != i;
      assert !(used'[k] && !used[k]);
      assert owner'[k] == m1;
    }
  }

  /** Bounding what moved since the start bounds what moved before a pass and what the pass moved. */
  lemma NewSplits(b: Box, rects: seq<Box>, used: seq<bool>, mid: seq<bool>, after: seq<bool>)
    requires BoundsNew(b, rects, used, after) && |mid| == |rects|
    requires forall k :: 0 <= k < |rects| && used[k] ==> mid[k]
    requires forall k :: 0 <= k < |rects| && mid[k] ==> after[k]
    ensures BoundsNew(b, rects, used, mid) && BoundsNew(b, rects, mid, after)
  {
  }

  /** The repeated passes for seed i: until a pass absorbs nothing. */
  method MergeSeed(rects: seq<Box>, used: seq<bool>, i: nat) returns (current: Box, used': seq<bool>)
    requires |used| == |rects| && i < |rects|
    ensures |used'| == |rects|
    ensures forall k :: 0 <= k < |rects| && used[k] ==> used'[k]
    ensures forall k :: 0 <= k <= i ==> used'[k] == used[k]
    ensures Encloses(current, rects[i])
    ensures forall k :: 0 <= k < |rects| && used'[k] && !used[k] ==> Encloses(current, rects[k])
    ensures forall k :: i < k < |rects| && !used'[k] ==> !Mergeable(current, rects[k])
    ensures forall b :: Encloses(b, rects[i]) && BoundsNew(b, rects, used, used') ==> Encloses(b, current)
  {
    current, used' := rects[i], used;
    var mergedAny := true;
    while mergedAny
      invariant |used'| == |rects|
      invariant forall k :: 0 <= k < |rects| && used[k] ==> used'[k]
      invariant forall k :: 0 <= k <= i ==> used'[k] == used[k]
      invariant Encloses(current, rects[i])
      invariant forall k :: 0 <= k < |rects| && used'[k] && !used[k] ==> Encloses(current, rects[k])
      invariant !mergedAny ==> forall k :: i < k < |rects| && !used'[k] ==> !Mergeable(current, rects[k])
      invariant forall b :: Encloses(b, rects[i]) && BoundsNew(b, rects, used, used') ==> Encloses(b, current)
      decreases Unused(used'), mergedAny
    {
      var u, c, any := MergePass(rects, used', i, current);
      if any {
        UnusedShrinks(used', u);
      }
      forall k | 0 <= k < |rects| && u[k] && !used[k]
        ensures Encloses(c, rects[k])
      {
        if used'[k] {
          EnclosesTransitive(c, current, rects[k]);
        }
      }
      EnclosesTransitive(c, current, rects[i]);
      forall b | Encloses(b, rects[i]) && BoundsNew(b, rects, used, u)
        ensures Encloses(b, c)
      {
        NewSplits(b, rects, used, used', u);
      }
      used', current, mergedAny := u, c, any;
    }
  }
}
