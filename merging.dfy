/** The box-merge engine: boxes that touch or overlap are replaced by their
    common bounding box until no two boxes of the working list touch.

    `MergeAll` is the reference definition (the first touching pair in
    ascending (i, j) order is merged, then the search restarts);
    `MergeTouching` is the engine's nested-loop implementation, proved equal
    to it. */
module Merging {
  import opened Wrappers
  import opened Geometry

  // ---------------------------------------------------------------------------
  // Touching and merging two boxes
  // ---------------------------------------------------------------------------

  /** `axis_overlap`: the closed intervals [a0, a1] and [b0, b1] meet, checked
      as "an endpoint of one lies inside the other". */
  predicate AxisOverlap(a0: real, a1: real, b0: real, b1: real)
    ensures a0 <= a1 && b0 <= b1 ==>
      (AxisOverlap(a0, a1, b0, b1) <==> Max(a0, b0) <= Min(a1, b1))
  {
    (b0 >= a0 && b0 <= a1) || (b1 >= a0 && b1 <= a1) ||
    (a0 >= b0 && a0 <= b1) || (a1 >= b0 && a1 <= b1)
  }

  /** `axis_overlap` does not depend on the order of its two intervals, and
      for well-formed intervals it holds exactly when the intersection
      [max(a0, b0), min(a1, b1)] is non-empty, shared endpoints included. */
  lemma AxisOverlapSpec(a0: real, a1: real, b0: real, b1: real)
    ensures AxisOverlap(a0, a1, b0, b1) == AxisOverlap(b0, b1, a0, a1)
    ensures a0 <= a1 && b0 <= b1 ==>
      (AxisOverlap(a0, a1, b0, b1) <==> Max(a0, b0) <= Min(a1, b1))
  {
  }

  /** `touching`: the boxes overlap, or share a boundary, on all three axes. */
  predicate Touching(a: AABox, b: AABox)
  {
    AxisOverlap(a.minX, a.maxX, b.minX, b.maxX) &&
    AxisOverlap(a.minY, a.maxY, b.minY, b.maxY) &&
    AxisOverlap(a.minZ, a.maxZ, b.minZ, b.maxZ)
  }

  /** `touching` is symmetric; for well-formed boxes it says the two closed
      boxes have a point in common. */
  lemma TouchingSpec(a: AABox, b: AABox)
    ensures Touching(a, b) == Touching(b, a)
    ensures a.WellFormed() && b.WellFormed() ==>
      (Touching(a, b) <==> exists p: Vec3 {:trigger a.Holds(p)} :: a.Holds(p) && b.Holds(p))
  {
    if a.WellFormed() && b.WellFormed() && Touching(a, b) {
      var p := Vec3(Max(a.minX, b.minX), Max(a.minY, b.minY), Max(a.minZ, b.minZ));
      AxisOverlapSpec(a.minX, a.maxX, b.minX, b.maxX);
      AxisOverlapSpec(a.minY, a.maxY, b.minY, b.maxY);
      AxisOverlapSpec(a.minZ, a.maxZ, b.minZ, b.maxZ);
      assert a.Holds(p) && b.Holds(p);
    }
  }

  /** `b` lies inside `a` on every axis. */
  predicate Contains(a: AABox, b: AABox) {
    a.minX <= b.minX && b.maxX <= a.maxX &&
    a.minY <= b.minY && b.maxY <= a.maxY &&
    a.minZ <= b.minZ && b.maxZ <= a.maxZ
  }

  /** `merge`: the componentwise minimum of the minima and maximum of the
      maxima. */
  function Merge(a: AABox, b: AABox): (r: AABox)
    ensures Contains(r, a) && Contains(r, b)
    ensures a.WellFormed() || b.WellFormed() ==> r.WellFormed()
  {
    AABox(Min(a.minX, b.minX), Min(a.minY, b.minY), Min(a.minZ, b.minZ),
          Max(a.maxX, b.maxX), Max(a.maxY, b.maxY), Max(a.maxZ, b.maxZ))
  }

  /** The merged box contains both arguments, is the least box that does,
      does not depend on the order of its arguments, and is well formed when
      either argument is. */
  lemma MergeSpec(a: AABox, b: AABox)
    ensures Contains(Merge(a, b), a) && Contains(Merge(a, b), b)
    ensures forall c :: Contains(c, a) && Contains(c, b) ==> Contains(c, Merge(a, b))
    ensures Merge(a, b) == Merge(b, a)
    ensures a.WellFormed() || b.WellFormed() ==> Merge(a, b).WellFormed()
  {
  }

  /** Containment is transitive. */
  lemma ContainsTrans(a: AABox, b: AABox, c: AABox)
    requires Contains(a, b) && Contains(b, c)
    ensures Contains(a, c)
  {
  }

  // ---------------------------------------------------------------------------
  // The reference definition
  // ---------------------------------------------------------------------------

  /** (p, q) comes before (i, j) in the engine's scan order. */
  predicate Before(p: nat, q: nat, i: nat, j: nat) {
    p < i || (p == i && q < j)
  }

  /** No two boxes at distinct positions touch. */
  predicate NoneTouching(xs: seq<AABox>) {
    forall p, q :: 0 <= p < |xs| && 0 <= q < |xs| && p != q ==> !Touching(xs[p], xs[q])
  }

  /** Some box of `ys` contains `b`. */
  predicate CoveredBy(ys: seq<AABox>, b: AABox) {
    exists q :: 0 <= q < |ys| && Contains(ys[q], b)
  }

  /** Every box of `xs` lies inside some box of `ys`. */
  predicate Covers(ys: seq<AABox>, xs: seq<AABox>) {
    forall p :: 0 <= p < |xs| ==> CoveredBy(ys, xs[p])
  }

  /** The first touching pair at or after (i, j) in scan order. */
  function FirstTouchingFrom(xs: seq<AABox>, i: nat, j: nat): (r: Option<(nat, nat)>)
    requires i <= |xs| && j <= |xs|
    ensures r.Some? ==> r.value.0 < |xs| && r.value.1 < |xs| && r.value.0 != r.value.1
    ensures r.Some? ==> Touching(xs[r.value.0], xs[r.value.1]) && !Before(r.value.0, r.value.1, i, j)
    ensures r.Some? ==>
      forall p, q :: 0 <= p < |xs| && 0 <= q < |xs| && p != q && Before(p, q, r.value.0, r.value.1) && !Before(p, q, i, j) ==>
        !Touching(xs[p], xs[q])
    ensures r.None? ==>
      forall p, q :: 0 <= p < |xs| && 0 <= q < |xs| && p != q && !Before(p, q, i, j) ==>
        !Touching(xs[p], xs[q])
    decreases |xs| - i, |xs| - j
  {
    if i == |xs| then None
    else if j == |xs| then FirstTouchingFrom(xs, i + 1, 0)
    else if i != j && Touching(xs[i], xs[j]) then Some((i, j))
    else FirstTouchingFrom(xs, i, j + 1)
  }

  /** The first touching pair of the whole list in scan order. */
  function FirstTouching(xs: seq<AABox>): (r: Option<(nat, nat)>)
    ensures r.None? <==> NoneTouching(xs)
    ensures r.Some? ==> r.value.0 < |xs| && r.value.1 < |xs| && r.value.0 != r.value.1
    ensures r.Some? ==> Touching(xs[r.value.0], xs[r.value.1])
    ensures r.Some? ==> forall p, q :: 0 <= p < |xs| && 0 <= q < |xs| && p != q && Before(p, q, r.value.0, r.value.1) ==>
      !Touching(xs[p], xs[q])
  {
    FirstTouchingFrom(xs, 0, 0)
  }

  /** The list without its element at index `k` (`Vec::remove`). */
  function RemoveAt(xs: seq<AABox>, k: nat): (r: seq<AABox>)
    requires k < |xs|
    ensures |r| == |xs| - 1
  {
    xs[..k] + xs[k + 1..]
  }

  /** One merge step on the pair (i, j): the box at the larger index is
      removed first, then the one at the smaller index, and their merge
      (larger-index box first) is appended. */
  function MergeStep(xs: seq<AABox>, i: nat, j: nat): seq<AABox>
    requires i < |xs| && j < |xs| && i != j
  {
    var lo := if i < j then i else j;
    var hi := if i < j then j else i;
    RemoveAt(RemoveAt(xs, hi), lo) + [Merge(xs[hi], xs[lo])]
  }

  /** A merge step shortens the list by exactly one, keeps every other box in
      its relative order, and puts the merged box last. */
  lemma MergeStepSpec(xs: seq<AABox>, i: nat, j: nat)
    requires i < |xs| && j < |xs| && i != j
    ensures |MergeStep(xs, i, j)| == |xs| - 1
    ensures var lo, hi := Min2(i, j), Max2(i, j);
      MergeStep(xs, i, j) == xs[..lo] + xs[lo + 1..hi] + xs[hi + 1..] + [Merge(xs[i], xs[j])]
  {
    var lo, hi := Min2(i, j), Max2(i, j);
    MergeSpec(xs[i], xs[j]);
    assert RemoveAt(xs, hi)[..lo] == xs[..lo];
    assert RemoveAt(xs, hi)[lo + 1..] == xs[lo + 1..hi] + xs[hi + 1..];
  }

  function Min2(i: nat, j: nat): nat { if i < j then i else j }
  function Max2(i: nat, j: nat): nat { if i < j then j else i }

  /** The engine's result: merge the first touching pair and start over,
      until no pair touches. */
  function MergeAll(xs: seq<AABox>): (r: seq<AABox>)
    ensures |r| <= |xs|
    ensures |xs| > 0 ==> |r| > 0
    decreases |xs|
  {
    match FirstTouching(xs)
    case None => xs
    case Some((i, j)) => MergeAll(MergeStep(xs, i, j))
  }

  // ---------------------------------------------------------------------------
  // Properties of the reference definition
  // ---------------------------------------------------------------------------

  /** The first touching pair always has i < j: since touching is symmetric,
      a pair (i, j) with j < i would have been found earlier as (j, i). */
  lemma FirstTouchingOrdered(xs: seq<AABox>)
    requires FirstTouching(xs).Some?
    ensures FirstTouching(xs).value.0 < FirstTouching(xs).value.1
  {
    var i, j := FirstTouching(xs).value.0, FirstTouching(xs).value.1;
    TouchingSpec(xs[i], xs[j]);
    assert Touching(xs[j], xs[i]);
  }

  /** One unfolding of `MergeAll` on a list that has a touching pair. */
  lemma MergeAllUnfold(xs: seq<AABox>)
    requires FirstTouching(xs).Some?
    ensures var (i, j) := FirstTouching(xs).value; MergeAll(xs) == MergeAll(MergeStep(xs, i, j))
  {
  }

  /** The result has no two touching boxes, is no longer than the input, and
      covers every input box. */
  lemma {:induction false} MergeAllSpec(xs: seq<AABox>)
    ensures NoneTouching(MergeAll(xs))
    ensures |MergeAll(xs)| <= |xs|
    ensures Covers(MergeAll(xs), xs)
    decreases |xs|
  {
    if FirstTouching(xs).None? {
      assert MergeAll(xs) == xs;
      CoversSelf(xs);
    } else {
      var i, j := FirstTouching(xs).value.0, FirstTouching(xs).value.1;
      var ys := MergeStep(xs, i, j);
      MergeAllUnfold(xs);
      MergeAllSpec(ys);
      StepCovers(xs, i, j);
      CoversTrans(MergeAll(ys), ys, xs);
    }
  }

  /** Every list covers itself. */
  lemma CoversSelf(xs: seq<AABox>)
    ensures Covers(xs, xs)
  {
    forall p | 0 <= p < |xs| ensures CoveredBy(xs, xs[p]) {
      assert Contains(xs[p], xs[p]);
    }
  }

  /** The list after a merge step covers the list before it. */
  lemma StepCovers(xs: seq<AABox>, i: nat, j: nat)
    requires i < |xs| && j < |xs| && i != j
    ensures Covers(MergeStep(xs, i, j), xs)
  {
    var ys := MergeStep(xs, i, j);
    var lo, hi := Min2(i, j), Max2(i, j);
    MergeStepSpec(xs, i, j);
    MergeSpec(xs[i], xs[j]);
    forall p | 0 <= p < |xs| ensures CoveredBy(ys, xs[p]) {
      if p == i || p == j {
        assert Contains(ys[|ys| - 1], xs[p]);
      } else if p < lo {
        assert ys[p] == xs[p];
        assert Contains(ys[p], xs[p]);
      } else if p < hi {
        assert ys[p - 1] == xs[p];
        assert Contains(ys[p - 1], xs[p]);
      } else {
        assert ys[p - 2] == xs[p];
        assert Contains(ys[p - 2], xs[p]);
      }
    }
  }

  /** Covering is transitive. */
  lemma CoversTrans(zs: seq<AABox>, ys: seq<AABox>, xs: seq<AABox>)
    requires Covers(zs, ys) && Covers(ys, xs)
    ensures Covers(zs, xs)
  {
    forall p | 0 <= p < |xs| ensures CoveredBy(zs, xs[p]) {
      var q :| 0 <= q < |ys| && Contains(ys[q], xs[p]);
      var r :| 0 <= r < |zs| && Contains(zs[r], ys[q]);
      ContainsTrans(zs[r], ys[q], xs[p]);
      assert 0 <= r < |zs| && Contains(zs[r], xs[p]);
    }
  }

  /** A list in which no two boxes touch comes back unchanged, in the same
      order, and only such a list does; hence merging is idempotent. */
  lemma MergeAllFixpoint(xs: seq<AABox>)
    ensures NoneTouching(xs) <==> MergeAll(xs) == xs
    ensures MergeAll(MergeAll(xs)) == MergeAll(xs)
  {
    if !NoneTouching(xs) {
      var i, j := FirstTouching(xs).value.0, FirstTouching(xs).value.1;
      MergeAllUnfold(xs);
      MergeAllSpec(MergeStep(xs, i, j));
    }
    MergeAllSpec(xs);
    assert FirstTouching(MergeAll(xs)).None?;
  }

  /** Some box of `xs` has `v` as its minimum along `a`. */
  predicate LoFrom(xs: seq<AABox>, a: Axis, v: real) {
    exists p :: 0 <= p < |xs| && xs[p].Lo().At(a) == v
  }

  /** Some box of `xs` has `v` as its maximum along `a`. */
  predicate HiFrom(xs: seq<AABox>, a: Axis, v: real) {
    exists p :: 0 <= p < |xs| && xs[p].Hi().At(a) == v
  }

  /** Every bound of every box of `ys` is the same bound of some box of `xs`. */
  predicate BoundsFrom(ys: seq<AABox>, xs: seq<AABox>) {
    forall q, a: Axis :: 0 <= q < |ys| ==> LoFrom(xs, a, ys[q].Lo().At(a)) && HiFrom(xs, a, ys[q].Hi().At(a))
  }

  /** A merge step takes every bound of its result from the list before it. */
  lemma StepBoundsFrom(xs: seq<AABox>, i: nat, j: nat)
    requires i < |xs| && j < |xs| && i != j
    ensures BoundsFrom(MergeStep(xs, i, j), xs)
  {
    var ys := MergeStep(xs, i, j);
    var lo, hi := Min2(i, j), Max2(i, j);
    MergeStepSpec(xs, i, j);
    forall q, a: Axis | 0 <= q < |ys| ensures LoFrom(xs, a, ys[q].Lo().At(a)) && HiFrom(xs, a, ys[q].Hi().At(a)) {
      var p: nat;
      if q == |ys| - 1 {
        var m := Merge(xs[i], xs[j]);
        var pl := if m.Lo().At(a) == xs[i].Lo().At(a) then i else j;
        var ph := if m.Hi().At(a) == xs[i].Hi().At(a) then i else j;
        assert xs[pl].Lo().At(a) == ys[q].Lo().At(a);
        assert xs[ph].Hi().At(a) == ys[q].Hi().At(a);
      } else {
        p := if q < lo then q else if q < hi - 1 then q + 1 else q + 2;
        assert ys[q] == xs[p];
      }
    }
  }

  /** `BoundsFrom` is transitive. */
  lemma BoundsFromTrans(zs: seq<AABox>, ys: seq<AABox>, xs: seq<AABox>)
    requires BoundsFrom(zs, ys) && BoundsFrom(ys, xs)
    ensures BoundsFrom(zs, xs)
  {
    forall r, a: Axis | 0 <= r < |zs| ensures LoFrom(xs, a, zs[r].Lo().At(a)) && HiFrom(xs, a, zs[r].Hi().At(a)) {
      assert LoFrom(ys, a, zs[r].Lo().At(a)) && HiFrom(ys, a, zs[r].Hi().At(a));
      var ql :| 0 <= ql < |ys| && ys[ql].Lo().At(a) == zs[r].Lo().At(a);
      var qh :| 0 <= qh < |ys| && ys[qh].Hi().At(a) == zs[r].Hi().At(a);
      assert LoFrom(xs, a, ys[ql].Lo().At(a)) && HiFrom(xs, a, ys[qh].Hi().At(a));
    }
  }

  /** Merging never invents a coordinate: every bound of every output box is
      the same bound of some input box, so each output box is the bounding box
      of a group of input boxes. */
  lemma {:induction false} MergeAllBoundsFrom(xs: seq<AABox>)
    ensures BoundsFrom(MergeAll(xs), xs)
    decreases |xs|
  {
    if FirstTouching(xs).None? {
      forall q, a: Axis | 0 <= q < |xs| ensures LoFrom(xs, a, xs[q].Lo().At(a)) && HiFrom(xs, a, xs[q].Hi().At(a)) {
      }
    } else {
      var i, j := FirstTouching(xs).value.0, FirstTouching(xs).value.1;
      var ys := MergeStep(xs, i, j);
      MergeAllUnfold(xs);
      MergeStepSpec(xs, i, j);
      MergeAllBoundsFrom(ys);
      StepBoundsFrom(xs, i, j);
      BoundsFromTrans(MergeAll(ys), ys, xs);
    }
  }

  // ---------------------------------------------------------------------------
  // Independence of the input order
  // ---------------------------------------------------------------------------

  /** Every box of the list is well formed. */
  predicate AllWellFormed(xs: seq<AABox>) {
    forall p :: 0 <= p < |xs| ==> xs[p].WellFormed()
  }

  /** No box occurs twice. */
  predicate Distinct(xs: seq<AABox>) {
    forall p, q :: 0 <= p < |xs| && 0 <= q < |xs| && p != q ==> xs[p] != xs[q]
  }

  /** A well-formed box touches every box that contains it. */
  lemma ContainsTouches(q: AABox, a: AABox)
    requires a.WellFormed() && Contains(q, a)
    ensures Touching(q, a)
  {
  }

  /** Touching survives growing both boxes: boxes containing two touching
      well-formed boxes touch. */
  lemma TouchingGrows(a: AABox, b: AABox, p: AABox, q: AABox)
    requires a.WellFormed() && b.WellFormed() && Touching(a, b)
    requires Contains(p, a) && Contains(q, b)
    ensures Touching(p, q)
  {
    AxisOverlapSpec(a.minX, a.maxX, b.minX, b.maxX);
    AxisOverlapSpec(a.minY, a.maxY, b.minY, b.maxY);
    AxisOverlapSpec(a.minZ, a.maxZ, b.minZ, b.maxZ);
    AxisOverlapSpec(p.minX, p.maxX, q.minX, q.maxX);
    AxisOverlapSpec(p.minY, p.maxY, q.minY, q.maxY);
    AxisOverlapSpec(p.minZ, p.maxZ, q.minZ, q.maxZ);
  }

  /** The boxes after a merge step: the untouched ones, each taken from the
      list before, and their merge last. */
  lemma StepMembers(xs: seq<AABox>, i: nat, j: nat)
    requires i < |xs| && j < |xs| && i != j
    ensures |MergeStep(xs, i, j)| == |xs| - 1
    ensures MergeStep(xs, i, j)[|xs| - 2] == Merge(xs[i], xs[j])
    ensures forall k :: 0 <= k < |xs| - 2 ==> MergeStep(xs, i, j)[k] in xs
  {
    var ys := MergeStep(xs, i, j);
    var lo, hi := Min2(i, j), Max2(i, j);
    MergeStepSpec(xs, i, j);
    forall k | 0 <= k < |xs| - 2 ensures ys[k] in xs {
      if k < lo {
        assert ys[k] == xs[k];
      } else if k < hi - 1 {
        assert ys[k] == xs[k + 1];
      } else {
        assert ys[k] == xs[k + 2];
      }
    }
  }

  /** A merge step keeps every box well formed. */
  lemma StepWellFormed(xs: seq<AABox>, i: nat, j: nat)
    requires i < |xs| && j < |xs| && i != j && AllWellFormed(xs)
    ensures AllWellFormed(MergeStep(xs, i, j))
  {
    StepMembers(xs, i, j);
    MergeSpec(xs[i], xs[j]);
    var ys := MergeStep(xs, i, j);
    forall k | 0 <= k < |ys| ensures ys[k].WellFormed() {
      if k < |ys| - 1 {
        var p :| 0 <= p < |xs| && xs[p] == ys[k];
      }
    }
  }

  /** Merging keeps every box well formed. */
  lemma {:induction false} MergeAllWellFormed(xs: seq<AABox>)
    requires AllWellFormed(xs)
    ensures AllWellFormed(MergeAll(xs))
    decreases |xs|
  {
    if FirstTouching(xs).Some? {
      var i, j := FirstTouching(xs).value.0, FirstTouching(xs).value.1;
      MergeAllUnfold(xs);
      StepWellFormed(xs, i, j);
      MergeAllWellFormed(MergeStep(xs, i, j));
    }
  }

  /** A merge step stays inside any list of pairwise non-touching boxes that
      covers the list before it: the two merged boxes touch, so they lie in
      the same covering box, and so does their merge. */
  lemma StepWithin(xs: seq<AABox>, i: nat, j: nat, qs: seq<AABox>)
    requires i < |xs| && j < |xs| && i != j && Touching(xs[i], xs[j])
    requires AllWellFormed(xs) && NoneTouching(qs) && Covers(qs, xs)
    ensures Covers(qs, MergeStep(xs, i, j))
  {
    var ys := MergeStep(xs, i, j);
    StepMembers(xs, i, j);
    var p :| 0 <= p < |qs| && Contains(qs[p], xs[i]);
    var q :| 0 <= q < |qs| && Contains(qs[q], xs[j]);
    TouchingGrows(xs[i], xs[j], qs[p], qs[q]);
    assert p == q;
    MergeSpec(xs[i], xs[j]);
    assert Contains(qs[p], ys[|ys| - 1]);
    forall k | 0 <= k < |ys| ensures CoveredBy(qs, ys[k]) {
      if k < |ys| - 1 {
        var r :| 0 <= r < |xs| && xs[r] == ys[k];
        assert CoveredBy(qs, xs[r]);
      }
    }
  }

  /** Every box of the result lies inside some box of any list of pairwise
      non-touching boxes that covers the input. */
  lemma {:induction false} MergeAllWithin(xs: seq<AABox>, qs: seq<AABox>)
    requires AllWellFormed(xs) && NoneTouching(qs) && Covers(qs, xs)
    ensures Covers(qs, MergeAll(xs))
    decreases |xs|
  {
    if FirstTouching(xs).Some? {
      var i, j := FirstTouching(xs).value.0, FirstTouching(xs).value.1;
      MergeAllUnfold(xs);
      StepWithin(xs, i, j, qs);
      StepWellFormed(xs, i, j);
      MergeAllWithin(MergeStep(xs, i, j), qs);
    }
  }

  /** In a well-formed, pairwise non-touching list, a box lying inside a box
      of the list that lies inside another box of the list is that box:
      otherwise the outer box would contain, and so touch, a different box. */
  lemma SandwichedIsSame(rs: seq<AABox>, p: nat, p': nat, mid: AABox)
    requires p < |rs| && p' < |rs| && rs[p].WellFormed()
    requires p' != p ==> !Touching(rs[p'], rs[p])
    requires Contains(mid, rs[p]) && Contains(rs[p'], mid)
    ensures rs[p] == mid
  {
    ContainsTrans(rs[p'], mid, rs[p]);
    if p' != p {
      ContainsTouches(rs[p'], rs[p]);
    }
  }

  /** A box of one of two well-formed, pairwise non-touching lists that cover
      each other occurs in the other list. */
  lemma CoveredBoxOccurs(rs: seq<AABox>, ss: seq<AABox>, p: nat)
    requires p < |rs| && rs[p].WellFormed() && NoneTouching(rs)
    requires CoveredBy(ss, rs[p]) && Covers(rs, ss)
    ensures rs[p] in ss
  {
    var q :| 0 <= q < |ss| && Contains(ss[q], rs[p]);
    assert CoveredBy(rs, ss[q]);
    var p' :| 0 <= p' < |rs| && Contains(rs[p'], ss[q]);
    SandwichedIsSame(rs, p, p', ss[q]);
  }

  /** Two lists of well-formed, pairwise non-touching boxes that cover each
      other hold the same boxes. */
  lemma MutualCoverSame(rs: seq<AABox>, ss: seq<AABox>)
    requires AllWellFormed(rs) && NoneTouching(rs) && Covers(ss, rs) && Covers(rs, ss)
    ensures forall p :: 0 <= p < |rs| ==> rs[p] in ss
  {
    forall p | 0 <= p < |rs| ensures rs[p] in ss {
      CoveredBoxOccurs(rs, ss, p);
    }
  }

  /** Well-formed boxes that pairwise do not touch are distinct, since a
      well-formed box touches itself. */
  lemma NoneTouchingDistinct(xs: seq<AABox>)
    requires AllWellFormed(xs) && NoneTouching(xs)
    ensures Distinct(xs)
  {
    forall p, q | 0 <= p < |xs| && 0 <= q < |xs| && p != q ensures xs[p] != xs[q] {
      ContainsTouches(xs[p], xs[p]);
    }
  }

  /** A list without repeats holds each of its boxes exactly once. */
  lemma {:induction false} DistinctCount(xs: seq<AABox>, b: AABox)
    requires Distinct(xs)
    ensures multiset(xs)[b] == if b in xs then 1 else 0
    decreases |xs|
  {
    if xs != [] {
      var init := xs[..|xs| - 1];
      assert xs == init + [xs[|xs| - 1]];
      assert Distinct(init);
      DistinctCount(init, b);
      assert xs[|xs| - 1] !in init;
      assert b in xs <==> b in init || b == xs[|xs| - 1];
    }
  }

  /** Two lists without repeats that hold the same boxes are permutations of
      each other. */
  lemma DistinctSameMultiset(xs: seq<AABox>, ys: seq<AABox>)
    requires Distinct(xs) && Distinct(ys)
    requires forall b :: b in xs <==> b in ys
    ensures multiset(xs) == multiset(ys)
  {
    forall b ensures multiset(xs)[b] == multiset(ys)[b] {
      DistinctCount(xs, b);
      DistinctCount(ys, b);
    }
  }

  /** A list covers every permutation of a list it covers. */
  lemma CoversPermuted(rs: seq<AABox>, xs: seq<AABox>, ys: seq<AABox>)
    requires multiset(xs) == multiset(ys) && Covers(rs, xs)
    ensures Covers(rs, ys)
  {
    forall k | 0 <= k < |ys| ensures CoveredBy(rs, ys[k]) {
      assert ys[k] in multiset(xs);
      var p :| 0 <= p < |xs| && xs[p] == ys[k];
    }
  }

  /** For well-formed boxes the result does not depend on the order of the
      input: permuted inputs give permuted results. */
  lemma MergeAllOrderFree(xs: seq<AABox>, ys: seq<AABox>)
    requires multiset(xs) == multiset(ys) && AllWellFormed(xs)
    ensures multiset(MergeAll(xs)) == multiset(MergeAll(ys))
  {
    assert AllWellFormed(ys) by {
      forall k | 0 <= k < |ys| ensures ys[k].WellFormed() {
        assert ys[k] in multiset(xs);
        var p :| 0 <= p < |xs| && xs[p] == ys[k];
      }
    }
    var rs, ss := MergeAll(xs), MergeAll(ys);
    MergeAllSpec(xs);
    MergeAllSpec(ys);
    MergeAllWellFormed(xs);
    MergeAllWellFormed(ys);
    CoversPermuted(ss, ys, xs);
    CoversPermuted(rs, xs, ys);
    MergeAllWithin(xs, ss);
    MergeAllWithin(ys, rs);
    MutualCoverSame(rs, ss);
    MutualCoverSame(ss, rs);
    NoneTouchingDistinct(rs);
    NoneTouchingDistinct(ss);
    DistinctSameMultiset(rs, ss);
  }

  /** Two boxes sharing the face x = 8 merge into the whole cell. */
  lemma FaceSharingFixture()
    ensures MergeAll([AABox(0.0, 0.0, 0.0, 8.0, 16.0, 16.0), AABox(8.0, 0.0, 0.0, 16.0, 16.0, 16.0)])
         == [AABox(0.0, 0.0, 0.0, 16.0, 16.0, 16.0)]
  {
    var xs := [AABox(0.0, 0.0, 0.0, 8.0, 16.0, 16.0), AABox(8.0, 0.0, 0.0, 16.0, 16.0, 16.0)];
    assert FirstTouchingFrom(xs, 0, 1) == Some((0, 1));
    var ys := MergeStep(xs, 0, 1);
    assert ys == [AABox(0.0, 0.0, 0.0, 16.0, 16.0, 16.0)];
    assert FirstTouching(ys).None?;
  }

  /** Two boxes apart on every axis stay two boxes. */
  lemma DisjointFixture()
    ensures MergeAll([AABox(0.0, 0.0, 0.0, 4.0, 4.0, 4.0), AABox(10.0, 10.0, 10.0, 14.0, 14.0, 14.0)])
         == [AABox(0.0, 0.0, 0.0, 4.0, 4.0, 4.0), AABox(10.0, 10.0, 10.0, 14.0, 14.0, 14.0)]
  {
    var xs := [AABox(0.0, 0.0, 0.0, 4.0, 4.0, 4.0), AABox(10.0, 10.0, 10.0, 14.0, 14.0, 14.0)];
    assert !Touching(xs[0], xs[1]) && !Touching(xs[1], xs[0]);
    assert NoneTouching(xs);
  }

  /** Without well-formedness the order does matter: the box `a` below has
      its x-minimum above its x-maximum and touches both `b` and `c`, which
      do not touch each other, so whichever of them comes first is absorbed
      and the other is left alone. */
  lemma IllFormedOrderMatters()
    ensures var a, b, c := AABox(5.0, 0.0, 0.0, 0.0, 10.0, 1.0),
                           AABox(4.0, 0.0, 0.0, 6.0, 1.0, 1.0),
                           AABox(-1.0, 0.0, 0.0, 1.0, 1.0, 1.0);
      MergeAll([a, b, c]) == [c, AABox(4.0, 0.0, 0.0, 6.0, 10.0, 1.0)] &&
      MergeAll([a, c, b]) == [b, AABox(-1.0, 0.0, 0.0, 1.0, 10.0, 1.0)]
  {
    var a, b, c := AABox(5.0, 0.0, 0.0, 0.0, 10.0, 1.0),
                   AABox(4.0, 0.0, 0.0, 6.0, 1.0, 1.0),
                   AABox(-1.0, 0.0, 0.0, 1.0, 1.0, 1.0);
    assert Touching(a, b) && Touching(a, c);
    var xs, zs := [a, b, c], [a, c, b];
    assert FirstTouchingFrom(xs, 0, 1) == Some((0, 1));
    assert FirstTouchingFrom(zs, 0, 1) == Some((0, 1));
    var ys := MergeStep(xs, 0, 1);
    assert ys == [c, AABox(4.0, 0.0, 0.0, 6.0, 10.0, 1.0)];
    assert !Touching(ys[0], ys[1]) && !Touching(ys[1], ys[0]);
    assert NoneTouching(ys);
    var ws := MergeStep(zs, 0, 1);
    assert ws == [b, AABox(-1.0, 0.0, 0.0, 1.0, 10.0, 1.0)];
    assert !Touching(ws[0], ws[1]) && !Touching(ws[1], ws[0]);
    assert NoneTouching(ws);
  }

  // ---------------------------------------------------------------------------
  // The engine
  // ---------------------------------------------------------------------------

  /** The engine's removals and push, at the first touching pair, are one
      merge step, so they leave the final result unchanged and shorten the
      list. */
  lemma StepKeepsMergeAll(xs: seq<AABox>, i: nat, j: nat, lo: nat, hi: nat, a: AABox, b: AABox, ys: seq<AABox>)
    requires FirstTouching(xs) == Some((i, j))
    requires lo == Min2(i, j) && hi == Max2(i, j) && a == xs[hi]
    requires b == RemoveAt(xs, hi)[lo] && ys == RemoveAt(RemoveAt(xs, hi), lo) + [Merge(a, b)]
    ensures MergeAll(ys) == MergeAll(xs) && |ys| < |xs|
  {
    assert RemoveAt(xs, hi)[lo] == xs[lo];
    assert ys == MergeStep(xs, i, j);
    MergeAllUnfold(xs);
  }

  /** `merge_touching`: copy the boxes into a working list; scan all (i, j)
      with i != j in ascending order; on the first touching pair remove both
      (larger index first), append their merge and rescan; stop after a full
      scan that finds nothing. */
  method MergeTouching(boxes: seq<AABox>) returns (work: seq<AABox>)
    ensures work == MergeAll(boxes)
  {
    work := boxes;
    while true
      invariant MergeAll(work) == MergeAll(boxes)
      decreases |work|
    {
      ghost var start := work;
      var count := |work|;
      var brek := false;
      for i := 0 to count
        invariant work == start && !brek
        invariant FirstTouching(work) == FirstTouchingFrom(work, i, 0)
      {
        for j := 0 to count
          invariant work == start && !brek
          invariant FirstTouching(work) == FirstTouchingFrom(work, i, j)
        {
          if i == j {
            continue;
          }
          if Touching(work[i], work[j]) {
            assert FirstTouching(start) == Some((i, j));
            // Remove the larger index first so that the smaller stays valid.
            var lo := if i < j then i else j;
            var hi := if i < j then j else i;
            var a := work[hi];
            work := RemoveAt(work, hi);
            var b := work[lo];
            work := RemoveAt(work, lo);
            work := work + [Merge(a, b)];
            StepKeepsMergeAll(start, i, j, lo, hi, a, b, work);
            brek := true;
            break;
          }
        }
        if brek {
          break;
        }
      }
      if !brek {
        assert FirstTouching(work).None?;
        break;
      }
    }
  }
}
