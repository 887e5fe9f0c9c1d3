/**
  Calendar versions (registry/calver.go): Compare on parsed values. Versions of different
  formats may have different numbers of segments; missing ones count as zero.
 */
module CalVers {
  import opened Int64
  import opened ThreeWay
  import opened PreRelease
  import opened SemVers
  import opened Item11
  import opened Item11Names

  datatype CalVer = CalVer(v: string, segments: seq<int>, preRelease: string, buildMetadata: string, original: string)

  function Max(a: nat, b: nat): nat { if a < b then b else a }

  function Segment(a: seq<int>, i: nat): int {
    if i < |a| then a[i] else 0
  }

  /** The loop over the segments; 0 when none differs. */
  function CompareSegments(a: seq<int>, b: seq<int>, i: nat): int
    decreases Max(|a|, |b|) - i
  {
    if i >= Max(|a|, |b|) then 0
    else if Segment(a, i) != Segment(b, i) then Wrap64(Segment(a, i) - Segment(b, i))
    else CompareSegments(a, b, i + 1)
  }

  function CompareCalVer(x: CalVer, y: CalVer): int {
    var c := CompareSegments(x.segments, y.segments, 0);
    if c != 0 then c else ComparePre(x.preRelease, y.preRelease)
  }

  // ----- the order -----

  function Pad(a: seq<int>, n: nat): seq<int> {
    seq(n, i requires 0 <= i => Segment(a, i))
  }

  function SegmentOrder(a: seq<int>, b: seq<int>): int {
    Lex(IntCmp, Pad(a, Max(|a|, |b|)), Pad(b, Max(|a|, |b|)))
  }

  /** Padded segments first, then a pre-release below the release, then the key order of pre-releases. */
  function CalOrder(x: CalVer, y: CalVer): int {
    var c := SegmentOrder(x.segments, y.segments);
    if c != 0 then c else StableFirst(x.preRelease, y.preRelease)
  }

  lemma {:induction false} LexCommonSuffix(x: seq<int>, y: seq<int>, z: seq<int>)
    requires |x| == |y|
    ensures Lex(IntCmp, x + z, y + z) == Lex(IntCmp, x, y)
  {
    if x == [] {
      IntCmpTotal();
      LexZero(IntCmp, z, z);
      assert x + z == z && y + z == z;
    } else {
      assert (x + z)[1..] == x[1..] + z && (y + z)[1..] == y[1..] + z;
      LexCommonSuffix(x[1..], y[1..], z);
    }
  }

  /** More padding changes nothing. */
  lemma PadFurther(a: seq<int>, b: seq<int>, n: nat)
    requires n >= Max(|a|, |b|)
    ensures Lex(IntCmp, Pad(a, n), Pad(b, n)) == SegmentOrder(a, b)
  {
    var m := Max(|a|, |b|);
    var zeros := seq(n - m, _ => 0);
    assert Pad(a, n) == Pad(a, m) + zeros && Pad(b, n) == Pad(b, m) + zeros;
    LexCommonSuffix(Pad(a, m), Pad(b, m), zeros);
  }

  lemma SegmentOrderLaws(a: seq<int>, b: seq<int>, c: seq<int>)
    ensures SegmentOrder(a, b) == 0 <==> forall i: nat :: Segment(a, i) == Segment(b, i)
    ensures SegmentOrder(a, b) == -SegmentOrder(b, a)
    ensures SegmentOrder(a, b) <= 0 && SegmentOrder(b, c) <= 0 ==> SegmentOrder(a, c) <= 0
  {
    var n := |a| + |b| + |c|;
    PadFurther(a, b, n);
    PadFurther(b, a, n);
    PadFurther(b, c, n);
    PadFurther(a, c, n);
    IntCmpTotal();
    LexZero(IntCmp, Pad(a, n), Pad(b, n));
    LexFlip(IntCmp, Pad(a, n), Pad(b, n));
    SamePadding(a, b, n);
    if SegmentOrder(a, b) <= 0 && SegmentOrder(b, c) <= 0 {
      LexTransitive(IntCmp, Pad(a, n), Pad(b, n), Pad(c, n));
    }
  }

  lemma SamePadding(a: seq<int>, b: seq<int>, n: nat)
    requires n >= |a| && n >= |b|
    ensures Pad(a, n) == Pad(b, n) <==> forall i: nat :: Segment(a, i) == Segment(b, i)
  {
    if Pad(a, n) == Pad(b, n) {
      forall i: nat ensures Segment(a, i) == Segment(b, i) {
        if i < n { assert Pad(a, n)[i] == Pad(b, n)[i]; }
      }
    }
  }

  lemma SameSegmentOrder(a: seq<int>, b: seq<int>, c: seq<int>)
    requires forall i: nat :: Segment(a, i) == Segment(b, i)
    ensures SegmentOrder(a, c) == SegmentOrder(b, c) && SegmentOrder(c, a) == SegmentOrder(c, b)
  {
    var n := |a| + |b| + |c|;
    PadFurther(a, c, n);
    PadFurther(b, c, n);
    PadFurther(c, a, n);
    PadFurther(c, b, n);
    assert Pad(a, n) == Pad(b, n);
  }

  /** The calendar version order is a total preorder, also across formats. */
  lemma CalOrderLaws(x: CalVer, y: CalVer, z: CalVer)
    ensures CalOrder(x, x) == 0
    ensures CalOrder(x, y) == -CalOrder(y, x)
    ensures CalOrder(x, y) <= 0 && CalOrder(y, z) <= 0 ==> CalOrder(x, z) <= 0
  {
    SegmentOrderLaws(x.segments, x.segments, x.segments);
    SegmentOrderLaws(x.segments, y.segments, z.segments);
    SegmentOrderLaws(y.segments, z.segments, x.segments);
    StableFirstLaws(x.preRelease, y.preRelease, z.preRelease);
    if SegmentOrder(x.segments, y.segments) == 0 {
      SameSegmentOrder(x.segments, y.segments, z.segments);
    } else if SegmentOrder(y.segments, z.segments) == 0 {
      SameSegmentOrder(y.segments, z.segments, x.segments);
    } else if SegmentOrder(x.segments, z.segments) == 0 {
      SegmentOrderLaws(x.segments, z.segments, z.segments);
      SameSegmentOrder(x.segments, z.segments, y.segments);
    }
  }

  // ----- Compare against the order -----

  predicate SegmentsInRange(a: seq<int>) {
    forall i :: 0 <= i < |a| ==> 0 <= a[i] <= INT64_MAX
  }

  lemma {:induction false} SegmentsSign(a: seq<int>, b: seq<int>, i: nat)
    requires SegmentsInRange(a) && SegmentsInRange(b) && i <= Max(|a|, |b|)
    ensures var n := Max(|a|, |b|); Sign(CompareSegments(a, b, i)) == Lex(IntCmp, Pad(a, n)[i..], Pad(b, n)[i..])
    decreases Max(|a|, |b|) - i
  {
    var n := Max(|a|, |b|);
    if i < n {
      SegmentsSign(a, b, i + 1);
      assert Pad(a, n)[i..][1..] == Pad(a, n)[i + 1..] && Pad(b, n)[i..][1..] == Pad(b, n)[i + 1..];
      assert 0 <= Segment(a, i) <= INT64_MAX && 0 <= Segment(b, i) <= INT64_MAX;
    }
  }

  /** Same segments up to trailing zeros. */
  predicate SameSegments(x: CalVer, y: CalVer) {
    forall i :: 0 <= i < Max(|x.segments|, |y.segments|) ==> Segment(x.segments, i) == Segment(y.segments, i)
  }

  predicate CalOverflows(x: CalVer, y: CalVer) {
    SameSegments(x, y) && PreOverflows(x.preRelease, y.preRelease)
  }

  lemma SegmentsDecide(x: CalVer, y: CalVer)
    requires SegmentsInRange(x.segments) && SegmentsInRange(y.segments)
    ensures Sign(CompareSegments(x.segments, y.segments, 0)) == SegmentOrder(x.segments, y.segments)
    ensures SegmentOrder(x.segments, y.segments) == 0 <==> SameSegments(x, y)
  {
    var a, b := x.segments, y.segments;
    var n := Max(|a|, |b|);
    SegmentsSign(a, b, 0);
    assert Pad(a, n)[0..] == Pad(a, n) && Pad(b, n)[0..] == Pad(b, n);
    SegmentOrderLaws(a, b, b);
  }

  /** On parsed versions Compare has the sign of the order exactly when its deciding pre-release
      difference, if it comes to that, does not overflow. */
  lemma CalComparesInOrder(x: CalVer, y: CalVer)
    requires SegmentsInRange(x.segments) && SegmentsInRange(y.segments)
    ensures Sign(CompareCalVer(x, y)) == CalOrder(x, y) <==> !CalOverflows(x, y)
  {
    SegmentsDecide(x, y);
    PreSign(x.preRelease, y.preRelease);
  }

  lemma {:induction false} SameSegmentsCompareSame(a: seq<int>, a': seq<int>, b: seq<int>, i: nat, n: nat)
    requires (forall j: nat :: Segment(a, j) == Segment(a', j)) && n >= |a| && n >= |a'| && n >= |b|
    ensures CompareSegments(a, b, i) == CompareSegments(a', b, i) && CompareSegments(b, a, i) == CompareSegments(b, a', i)
    decreases n - i
  {
    if i < n {
      SameSegmentsCompareSame(a, a', b, i + 1, n);
      AllEqualFrom(a, b, i);
      AllEqualFrom(a', b, i);
    }
  }

  /** Beyond both lengths there is nothing left to compare. */
  lemma AllEqualFrom(a: seq<int>, b: seq<int>, i: nat)
    ensures i >= |a| && i >= |b| ==>
              CompareSegments(a, b, i) == 0 && CompareSegments(b, a, i) == 0 && CompareSegments(a, b, i + 1) == 0 &&
              CompareSegments(b, a, i + 1) == 0 && Segment(a, i) == Segment(b, i)
  {
  }

  lemma CalOrderIsSign(x: CalVer, y: CalVer)
    ensures Sign(CalOrder(x, y)) == CalOrder(x, y)
  {
    var n := Max(|x.segments|, |y.segments|);
    LexIsSign(IntCmp, Pad(x.segments, n), Pad(y.segments, n));
    StableFirstIsSign(x.preRelease, y.preRelease);
  }

  lemma CalEqualRank(x: CalVer, x': CalVer, y: CalVer)
    requires SegmentsInRange(x.segments) && SegmentsInRange(x'.segments) && SegmentsInRange(y.segments)
    ensures CompareCalVer(x, x') == 0 <==> CalOrder(x, x') == 0
    ensures CalOrder(x, x') == 0 ==> CompareCalVer(x, y) == CompareCalVer(x', y) && CompareCalVer(y, x) == CompareCalVer(y, x')
  {
    SegmentsDecide(x, x');
    EqualPre(x.preRelease, x'.preRelease, y.preRelease);
    if CalOrder(x, x') == 0 {
      SameSegmentsCompareSame(x.segments, x'.segments, y.segments, 0, |x.segments| + |x'.segments| + |y.segments|);
    }
  }

  // ----- against item 11 -----

  ghost predicate LessAt(a: seq<int>, b: seq<int>, k: nat) {
    Segment(a, k) < Segment(b, k) && forall j: nat :: j < k ==> Segment(a, j) == Segment(b, j)
  }

  /** Decided at the first segment that differs, missing ones being zero. */
  ghost predicate SegmentsLess(a: seq<int>, b: seq<int>) {
    exists k: nat :: LessAt(a, b, k)
  }

  lemma PadPrefix(a: seq<int>, b: seq<int>, n: nat, k: nat)
    requires k <= n
    ensures Pad(a, n)[..k] == Pad(b, n)[..k] <==> forall j: nat :: j < k ==> Segment(a, j) == Segment(b, j)
  {
    var x, y := Pad(a, n)[..k], Pad(b, n)[..k];
    if x == y {
      forall j: nat | j < k ensures Segment(a, j) == Segment(b, j) {
        assert x[j] == y[j];
      }
    }
  }

  lemma LessAtIsBefore(a: seq<int>, b: seq<int>, k: nat)
    ensures var n := Max(|a|, |b|); Before(IntCmp, Pad(a, n), Pad(b, n), k) <==> LessAt(a, b, k)
  {
    var n := Max(|a|, |b|);
    if k <= n { PadPrefix(a, b, n, k); }
  }

  lemma SegmentsLessIsOrder(a: seq<int>, b: seq<int>)
    ensures SegmentOrder(a, b) < 0 <==> SegmentsLess(a, b)
  {
    var n := Max(|a|, |b|);
    IntCmpTotal();
    LexFirstDifference(IntCmp, Pad(a, n), Pad(b, n));
    forall k: nat ensures Before(IntCmp, Pad(a, n), Pad(b, n), k) <==> LessAt(a, b, k) {
      LessAtIsBefore(a, b, k);
    }
  }

  /** Lower by the segments, or by items 11.3 and 11.4 on the same segments. */
  ghost predicate CalLess(x: CalVer, y: CalVer) {
    SegmentsLess(x.segments, y.segments) || (SameSegments(x, y) && PreLess(x.preRelease, y.preRelease))
  }

  ghost predicate CalAgrees(x: CalVer, y: CalVer) {
    (CompareCalVer(x, y) < 0 <==> CalLess(x, y)) && (CompareCalVer(x, y) > 0 <==> CalLess(y, x))
  }

  predicate CalInScope(x: CalVer) {
    SegmentsInRange(x.segments) && (x.preRelease != "" ==> AllInScope(Split(x.preRelease)))
  }

  lemma CalOrderIsItem11(x: CalVer, y: CalVer)
    requires CalInScope(x) && CalInScope(y)
    ensures CalOrder(x, y) < 0 <==> CalLess(x, y)
  {
    SegmentsDecide(x, y);
    SegmentsLessIsOrder(x.segments, y.segments);
    PreOrderIsItem11(x.preRelease, y.preRelease);
  }

  lemma CalScopeFits(x: CalVer, y: CalVer)
    requires CalInScope(x) && CalInScope(y)
    ensures !CalOverflows(x, y)
  {
    if x.preRelease != "" && y.preRelease != "" {
      InScopeNonNegative(Split(x.preRelease));
      InScopeNonNegative(Split(y.preRelease));
      NonNegativeNeverOverflows(Split(x.preRelease), Split(y.preRelease));
    }
  }

  lemma CalFollowsItem11(x: CalVer, y: CalVer)
    requires CalInScope(x) && CalInScope(y)
    ensures CalAgrees(x, y)
  {
    CalScopeFits(x, y);
    CalComparesInOrder(x, y);
    CalOrderIsItem11(x, y);
    CalOrderIsItem11(y, x);
    CalOrderLaws(x, y, y);
  }

  lemma SameSegmentsDecide(x: CalVer, y: CalVer)
    requires x.segments == y.segments && x.preRelease != "" && y.preRelease != ""
    ensures CompareCalVer(x, y) == ComparePreRelease(x.preRelease, y.preRelease)
    ensures SameSegments(x, y) && SameSegments(y, x)
  {
    SelfSegments(x.segments, 0);
  }

  lemma {:induction false} SelfSegments(a: seq<int>, i: nat)
    ensures CompareSegments(a, a, i) == 0
    decreases |a| - i
  {
    if i < |a| { SelfSegments(a, i + 1); }
  }

  /** A calendar version with a valid pre-release is compared with every one in scope by its segments
      and then as item 11 says exactly when no identifier of its pre-release is misread. */
  lemma CalFollowsItem11Exactly(x: CalVer)
    requires SegmentsInRange(x.segments) && (x.preRelease != "" ==> AllValid(Split(x.preRelease)))
    ensures (forall y :: CalInScope(y) ==> CalAgrees(x, y)) <==> CalInScope(x)
  {
    if CalInScope(x) {
      forall y | CalInScope(y) ensures CalAgrees(x, y) { CalFollowsItem11(x, y); }
    } else {
      var b := MisreadWitness(x.preRelease);
      InScopeWord(b);
      var y := x.(preRelease := b);
      SameSegmentsDecide(x, y);
      assert CalInScope(y) && !CalAgrees(x, y);
    }
  }
}
