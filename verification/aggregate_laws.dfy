/**
 The aggregations mean what their names say: laws over real values, for every non-empty input.
 */
module AggregateLaws {
  import opened Numbers
  import opened Aggregates
  import opened RealAlgebra

  // ---------- Order does not matter ----------

  function Without(xs: seq<real>, i: nat): seq<real>
    requires i < |xs|
  {
    xs[..i] + xs[i + 1..]
  }

  lemma WithoutOne(xs: seq<real>, i: nat)
    requires i < |xs|
    ensures multiset(Without(xs, i)) == multiset(xs) - multiset{xs[i]}
  {
    assert xs == xs[..i] + [xs[i]] + xs[i + 1..];
  }

  lemma TotalWithout(w: Weight, xs: seq<real>, i: nat)
    requires i < |xs|
    ensures Total(w, xs) == Total(w, Without(xs, i)) + At(w, xs[i])
  {
    hide Total, At;
    var before, after := xs[..i], xs[i + 1..];
    assert xs == before + [xs[i]] + after;
    TotalAppend(w, before, after);
    TotalAppend(w, before + [xs[i]], after);
    TotalStep(w, before, xs[i]);
  }

  lemma {:induction false} TotalReordered(w: Weight, xs: seq<real>, ys: seq<real>)
    requires multiset(xs) == multiset(ys)
    ensures Total(w, xs) == Total(w, ys)
  {
    hide Total, At, Without;
    SameSize(xs, ys);
    if xs == [] {
      assert ys == [];
    } else {
      var n := |xs| - 1;
      assert xs[n] in multiset(ys);
      var i :| 0 <= i < |ys| && ys[i] == xs[n];
      WithoutOne(xs, n);
      WithoutOne(ys, i);
      TotalWithout(w, xs, n);
      TotalWithout(w, ys, i);
      WithoutLast(xs);
      TotalReordered(w, Without(xs, n), Without(ys, i));
    }
  }

  lemma WithoutLast(xs: seq<real>)
    requires xs != []
    ensures |Without(xs, |xs| - 1)| < |xs| && Without(xs, |xs| - 1) == xs[..|xs| - 1]
  {
  }

  lemma SameSize(xs: seq<real>, ys: seq<real>)
    requires multiset(xs) == multiset(ys)
    ensures |xs| == |ys|
  {
    assert |multiset(xs)| == |xs| && |multiset(ys)| == |ys|;
  }

  lemma GreatestReordered(xs: seq<real>, ys: seq<real>)
    requires xs != [] && multiset(xs) == multiset(ys)
    ensures ys != [] && Greatest(xs) == Greatest(ys) && Least(xs) == Least(ys)
  {
    SameSize(xs, ys);
    GreatestIsGreatest(xs);
    GreatestIsGreatest(ys);
    LeastIsLeast(xs);
    LeastIsLeast(ys);
    SameMembers(xs, ys);
    assert Greatest(xs) in ys && Greatest(ys) in xs && Least(xs) in ys && Least(ys) in xs;
  }

  lemma SameMembers(xs: seq<real>, ys: seq<real>)
    requires multiset(xs) == multiset(ys)
    ensures forall x :: x in xs <==> x in ys
  {
    forall x ensures x in xs <==> x in ys {
      assert x in xs <==> x in multiset(xs);
      assert x in ys <==> x in multiset(ys);
    }
  }

  lemma SameLast(xs: seq<real>, ys: seq<real>)
    requires xs != [] && ys != [] && IsSorted(xs) && IsSorted(ys) && multiset(xs) == multiset(ys)
    ensures xs[|xs| - 1] == ys[|ys| - 1]
  {
    SameMembers(xs, ys);
    LastIsGreatest(xs, ys[|ys| - 1]);
    LastIsGreatest(ys, xs[|xs| - 1]);
  }

  lemma LastIsGreatest(xs: seq<real>, x: real)
    requires xs != [] && IsSorted(xs) && (x in xs || x == xs[|xs| - 1])
    ensures xs[|xs| - 1] in xs && x <= xs[|xs| - 1]
  {
  }

  /** There is only one way to sort. */
  lemma {:induction false} SortedUnique(xs: seq<real>, ys: seq<real>)
    requires IsSorted(xs) && IsSorted(ys) && multiset(xs) == multiset(ys)
    ensures xs == ys
  {
    SameSize(xs, ys);
    if xs == [] {
    } else {
      var n := |xs| - 1;
      SameLast(xs, ys);
      WithoutOne(xs, n);
      WithoutOne(ys, n);
      WithoutLast(xs);
      WithoutLast(ys);
      SortedUnique(xs[..n], ys[..n]);
      assert xs == xs[..n] + [xs[n]];
      assert ys == ys[..n] + [ys[n]];
    }
  }

  /** Every aggregation depends on the values only, not on the order the messages came in. */
  lemma AggregatesReordered(xs: seq<real>, ys: seq<real>, value: real, strictlyBelow: bool, factor: real)
    requires xs != [] && multiset(xs) == multiset(ys)
    ensures ys != []
    ensures Total(Value, xs) == Total(Value, ys) && Mean(xs) == Mean(ys) && Variance(xs) == Variance(ys)
    ensures Greatest(xs) == Greatest(ys) && Least(xs) == Least(ys) && Median(xs) == Median(ys)
    ensures Tiles(xs, value, strictlyBelow, factor) == Tiles(ys, value, strictlyBelow, factor)
  {
    hide Total, Greatest, Least, Sort, Middle, IsSorted;
    SameSize(xs, ys);
    TotalReordered(Value, xs, ys);
    TotalReordered(SquareAbout(Mean(xs)), xs, ys);
    TotalReordered(Below(value), xs, ys);
    TotalReordered(Equal(value), xs, ys);
    GreatestReordered(xs, ys);
    SortedUnique(Sort(xs), Sort(ys));
  }

  // ---------- Comparing sums ----------

  lemma {:induction false} TotalAtMost(v: Weight, w: Weight, xs: seq<real>)
    requires forall i | 0 <= i < |xs| :: At(v, xs[i]) <= At(w, xs[i])
    ensures Total(v, xs) <= Total(w, xs)
  {
    if xs == [] {
    } else {
      TotalAtMost(v, w, xs[..|xs| - 1]);
    }
  }

  /** Squared distances from a point, multiplied out. */
  lemma {:induction false} SquaresExpanded(c: real, xs: seq<real>)
    ensures Total(SquareAbout(c), xs) == Total(Square, xs) - 2.0 * (c * Total(Value, xs)) + Size(xs) * Sq(c)
  {
    hide Sq;
    if xs == [] {
    } else {
      var n := |xs| - 1;
      var x := xs[n];
      SquaresExpanded(c, xs[..n]);
      SqDifference(x, c);
      var s, k := Total(Value, xs[..n]), n as real;
      assert c * (s + x) == c * s + c * x;
      AddOne(Sq(c), k);
    }
  }

  lemma MeanTimesSize(xs: seq<real>)
    requires xs != []
    ensures Size(xs) > 0.0
    ensures Mean(xs) * Size(xs) == Total(Value, xs)
    ensures Variance(xs) * Size(xs) == Total(SquareAbout(Mean(xs)), xs)
  {
    hide Total;
    QuotientTimes(Total(Value, xs), Size(xs));
    QuotientTimes(Total(SquareAbout(Mean(xs)), xs), Size(xs));
  }

  /** Moving away from the mean adds the squared distance for every value. */
  lemma SquaresAboutMean(c: real, xs: seq<real>)
    requires xs != []
    ensures Total(SquareAbout(c), xs)
         == Total(SquareAbout(Mean(xs)), xs) + Size(xs) * Sq(c - Mean(xs))
  {
    hide Total, Mean, Variance, Size, Sq;
    MeanTimesSize(xs);
    SquaresExpanded(c, xs);
    SquaresExpanded(Mean(xs), xs);
    AboutMean(Total(Square, xs), Total(Value, xs), Size(xs), Mean(xs), c);
  }

  /** The mean minimises the sum of squared distances. */
  lemma MeanMinimisesSquares(c: real, xs: seq<real>)
    requires xs != []
    ensures Total(SquareAbout(Mean(xs)), xs) <= Total(SquareAbout(c), xs)
  {
    hide Total, Mean, Variance, Size, Sq;
    MeanTimesSize(xs);
    SquaresAboutMean(c, xs);
    SqSign(c - Mean(xs));
    ProductSign(Size(xs), Sq(c - Mean(xs)));
  }

  /** The variance is the mean of the squares minus the square of the mean. */
  lemma VarianceByMoments(xs: seq<real>)
    requires xs != []
    ensures Variance(xs) == Total(Square, xs) / Size(xs) - Sq(Mean(xs))
    ensures Variance(xs) >= 0.0
  {
    hide Total, Mean, Size, Sq;
    MeanTimesSize(xs);
    SquaresExpanded(Mean(xs), xs);
    SquaresAreNonNegative(Mean(xs), xs);
    MomentForm(Total(Square, xs), Total(Value, xs), Size(xs), Mean(xs));
    Cancel(0.0, Variance(xs), Size(xs));
  }

  lemma {:induction false} ZeroSquares(c: real, xs: seq<real>)
    ensures Total(SquareAbout(c), xs) == 0.0 <==> forall i | 0 <= i < |xs| :: xs[i] == c
  {
    hide Sq;
    if xs == [] {
    } else {
      var n := |xs| - 1;
      ZeroSquares(c, xs[..n]);
      SquaresAreNonNegative(c, xs[..n]);
      SqSign(xs[n] - c);
      assert forall i | 0 <= i < n :: xs[..n][i] == xs[i];
    }
  }

  /** The variance is zero exactly when all values are the same. */
  lemma VarianceZero(xs: seq<real>)
    requires xs != []
    ensures Variance(xs) == 0.0 <==> forall i | 0 <= i < |xs| :: xs[i] == xs[0]
  {
    hide Total, Mean, Size, Variance;
    var m := Mean(xs);
    MeanTimesSize(xs);
    ZeroSquares(m, xs);
    Cancel(Variance(xs), 0.0, Size(xs));
    if forall i | 0 <= i < |xs| :: xs[i] == xs[0] {
      ConstantTotal(xs[0], xs);
      Cancel(m, xs[0], Size(xs));
    }
  }

  lemma {:induction false} ConstantTotal(c: real, xs: seq<real>)
    requires forall i | 0 <= i < |xs| :: xs[i] == c
    ensures Total(Value, xs) == c * Size(xs)
  {
    if xs == [] {
    } else {
      ConstantTotal(c, xs[..|xs| - 1]);
      assert c * (Size(xs[..|xs| - 1]) + 1.0) == c * Size(xs[..|xs| - 1]) + c;
    }
  }

  // ---------- Bounds ----------

  lemma {:induction false} TotalBetween(low: real, high: real, xs: seq<real>)
    requires forall i | 0 <= i < |xs| :: low <= xs[i] <= high
    ensures low * Size(xs) <= Total(Value, xs) <= high * Size(xs)
  {
    if xs == [] {
    } else {
      TotalBetween(low, high, xs[..|xs| - 1]);
      var k := Size(xs[..|xs| - 1]);
      assert low * (k + 1.0) == low * k + low && high * (k + 1.0) == high * k + high;
    }
  }

  lemma MiddleIn(xs: seq<real>, i: nat)
    requires i < |xs|
    ensures xs[i] in xs
  {
  }

  /** The mean and the median lie between the least and the greatest value. */
  lemma CentresWithinRange(xs: seq<real>)
    requires xs != []
    ensures Least(xs) <= Mean(xs) <= Greatest(xs)
    ensures Least(xs) <= Median(xs) <= Greatest(xs)
  {
    hide Total, Mean, Size, Variance, Least, Greatest, Sort, IsSorted;
    GreatestIsGreatest(xs);
    LeastIsLeast(xs);
    TotalBetween(Least(xs), Greatest(xs), xs);
    MeanTimesSize(xs);
    Cancel(Least(xs), Mean(xs), Size(xs));
    Cancel(Mean(xs), Greatest(xs), Size(xs));
    var s := Sort(xs);
    SameMembers(s, xs);
    MiddleIn(s, |s| / 2);
    if |s| % 2 == 0 {
      MiddleIn(s, |s| / 2 - 1);
    }
  }

  lemma {:induction false} SpreadBound(low: real, high: real, xs: seq<real>)
    requires forall i | 0 <= i < |xs| :: low <= xs[i] <= high
    ensures Total(Square, xs) <= (low + high) * Total(Value, xs) - Size(xs) * (low * high)
  {
    hide Sq;
    if xs == [] {
    } else {
      var n := |xs| - 1;
      var x, s, k := xs[n], Total(Value, xs[..n]), Size(xs[..n]);
      SpreadBound(low, high, xs[..n]);
      SpreadStep(x, s, k, low, high);
    }
  }

  /** The variance is at most the product of the distances of the mean from both ends of the range. */
  lemma VarianceBound(xs: seq<real>)
    requires xs != []
    ensures Variance(xs) <= (Greatest(xs) - Mean(xs)) * (Mean(xs) - Least(xs))
  {
    hide Total, Mean, Size, Variance, Least, Greatest, Sq;
    GreatestIsGreatest(xs);
    LeastIsLeast(xs);
    SpreadBound(Least(xs), Greatest(xs), xs);
    MeanTimesSize(xs);
    VarianceByMoments(xs);
    SpreadForm(Total(Square, xs), Total(Value, xs), Size(xs), Mean(xs), Least(xs), Greatest(xs));
  }

  // ---------- The median ----------

  /** A sorted sequence without its ends. */
  lemma MiddleWithin(s: seq<real>)
    requires |s| >= 3
    ensures Middle(s) == Middle(s[1..|s| - 1])
  {
    var t := s[1..|s| - 1];
    assert |t| / 2 == |s| / 2 - 1 && |t| % 2 == |s| % 2;
  }

  lemma TotalEnds(w: Weight, s: seq<real>)
    requires |s| >= 2
    ensures Total(w, s) == At(w, s[0]) + Total(w, s[1..|s| - 1]) + At(w, s[|s| - 1])
  {
    var n := |s| - 1;
    assert s == [s[0]] + s[1..n] + [s[n]];
    TotalStep(w, [s[0]] + s[1..n], s[n]);
    TotalAppend(w, [s[0]], s[1..n]);
    TotalStep(w, [], s[0]);
    assert [] + [s[0]] == [s[0]];
  }

  lemma {:induction false} MiddleMinimises(s: seq<real>, c: real)
    requires s != [] && IsSorted(s)
    ensures s[0] <= Middle(s) <= s[|s| - 1]
    ensures Total(GapFrom(Middle(s)), s) <= Total(GapFrom(c), s)
  {
    if |s| == 1 {
      assert s[..0] == [];
    } else {
      var n := |s| - 1;
      var inner := s[1..n];
      TotalEnds(GapFrom(c), s);
      TotalEnds(GapFrom(Middle(s)), s);
      if |s| >= 3 {
        MiddleWithin(s);
        MiddleMinimises(inner, c);
      }
    }
  }

  /** The median minimises the sum of distances. */
  lemma MedianMinimisesGaps(xs: seq<real>, c: real)
    requires xs != []
    ensures Total(GapFrom(Median(xs)), xs) <= Total(GapFrom(c), xs)
  {
    var s := Sort(xs);
    MiddleMinimises(s, c);
    TotalReordered(GapFrom(c), xs, s);
    TotalReordered(GapFrom(Median(xs)), xs, s);
  }

  function Gaps(c: real, xs: seq<real>): seq<real> {
    if xs == [] then [] else Gaps(c, xs[..|xs| - 1]) + [Abs(xs[|xs| - 1] - c)]
  }

  lemma {:induction false} GapTotals(c: real, xs: seq<real>)
    ensures |Gaps(c, xs)| == |xs|
    ensures Total(Value, Gaps(c, xs)) == Total(GapFrom(c), xs)
    ensures Total(Square, Gaps(c, xs)) == Total(SquareAbout(c), xs)
  {
    hide Sq;
    if xs == [] {
    } else {
      var n := |xs| - 1;
      GapTotals(c, xs[..n]);
      var gap := Abs(xs[n] - c);
      SqOfAbs(xs[n] - c, gap);
      TotalStep(Value, Gaps(c, xs[..n]), gap);
      TotalStep(Square, Gaps(c, xs[..n]), gap);
    }
  }

  lemma {:induction false} OffsetTotal(c: real, xs: seq<real>)
    ensures Total(Offset(c), xs) == Total(Value, xs) - c * Size(xs)
    ensures Abs(Total(Offset(c), xs)) <= Total(GapFrom(c), xs)
  {
    if xs == [] {
    } else {
      var n := |xs| - 1;
      OffsetTotal(c, xs[..n]);
      AddOne(c, Size(xs[..n]));
      assert Size(xs) == Size(xs[..n]) + 1.0;
    }
  }

  /** The mean distance from the mean is at most the standard deviation. */
  lemma MeanGap(xs: seq<real>)
    requires xs != []
    ensures Sq(Total(GapFrom(Mean(xs)), xs) / Size(xs)) <= Variance(xs)
  {
    hide Total, Mean, Size, Gaps, Sq;
    var gaps := Gaps(Mean(xs), xs);
    GapTotals(Mean(xs), xs);
    VarianceByMoments(gaps);
    SizeDefined(gaps, xs);
  }

  lemma SizeDefined(xs: seq<real>, ys: seq<real>)
    requires |xs| == |ys| && xs != []
    ensures Size(xs) == Size(ys) > 0.0
    ensures Mean(xs) == Total(Value, xs) / Size(xs)
  {
  }

  /** The mean and the median are never further apart than one standard deviation. */
  lemma MedianNearMean(xs: seq<real>)
    requires xs != []
    ensures Sq(Mean(xs) - Median(xs)) <= Variance(xs)
  {
    hide Total, Mean, Size, Variance, Median, Sq;
    var mean, median := Mean(xs), Median(xs);
    MeanGap(xs);
    OffsetTotal(median, xs);
    MedianMinimisesGaps(xs, mean);
    MeanTimesSize(xs);
    NearMean(Total(Value, xs), Size(xs), mean, median, Total(GapFrom(mean), xs));
  }

  lemma NearMean(s: real, n: real, mean: real, median: real, gap: real)
    requires n > 0.0 && s == mean * n && Abs(s - median * n) <= gap
    ensures Sq(mean - median) <= Sq(gap / n)
  {
    hide Sq;
    var d, g := mean - median, gap / n;
    QuotientTimes(gap, n);
    assert d * n == s - median * n;
    QuotientWithin(d, g, n, d * n, gap);
    SquareMonotone(d, g);
  }

  // ---------- The deviation ----------

  /** With a square root for `sqrt`, the deviation is non-negative and its square is the variance; it
      bounds the distance of the mean from the median. */
  lemma DeviationLaws(xs: seq<real>, deviation: real)
    requires xs != []
    requires deviation >= 0.0 && Sq(deviation) == Variance(xs)
    ensures deviation == 0.0 <==> forall i | 0 <= i < |xs| :: xs[i] == xs[0]
    ensures -deviation <= Mean(xs) - Median(xs) <= deviation
  {
    hide Mean, Median, Variance, Sq;
    VarianceZero(xs);
    SqSign(deviation);
    MedianNearMean(xs);
    RootBound(Mean(xs) - Median(xs), deviation);
  }

  // ---------- Tiles ----------

  lemma {:induction false} CountsWithinSize(v: real, xs: seq<real>)
    ensures 0.0 <= Total(Below(v), xs) && 0.0 <= Total(Equal(v), xs)
    ensures Total(Below(v), xs) + Total(Equal(v), xs) <= Size(xs)
  {
    if xs == [] {
    } else {
      CountsWithinSize(v, xs[..|xs| - 1]);
    }
  }

  lemma ShareWithinSize(xs: seq<real>, v: real, strictlyBelow: bool)
    ensures 0.0 <= Share(xs, v, strictlyBelow) <= Size(xs)
    ensures Share(xs, v, true) <= Share(xs, v, false)
  {
    CountsWithinSize(v, xs);
  }

  /** The result lies between nothing and the multiplicator, and counting the equal values by half
      never lowers it. */
  lemma TilesRange(xs: seq<real>, v: real, strictlyBelow: bool, k: real)
    requires xs != [] && k >= 0.0
    ensures 0.0 <= Tiles(xs, v, strictlyBelow, k) <= k
    ensures Tiles(xs, v, true, k) <= Tiles(xs, v, false, k)
  {
    hide Share;
    var n, share := Size(xs), Share(xs, v, strictlyBelow);
    var strict, half := Share(xs, v, true), Share(xs, v, false);
    ShareWithinSize(xs, v, strictlyBelow);
    ScaledEnds(n, k);
    Scaled(0.0, share, n, k);
    Scaled(share, n, n, k);
    Scaled(strict, half, n, k);
    assert Tiles(xs, v, strictlyBelow, k) == share / n * k;
    assert Tiles(xs, v, true, k) == strict / n * k && Tiles(xs, v, false, k) == half / n * k;
  }

  lemma {:induction false} ShareGrows(xs: seq<real>, v: real, w: real)
    requires v <= w
    ensures Total(Below(v), xs) <= Total(Below(w), xs)
    ensures v < w ==> Total(Below(v), xs) + Total(Equal(v), xs) <= Total(Below(w), xs)
    ensures 0.0 <= Total(Equal(v), xs) && 0.0 <= Total(Equal(w), xs)
  {
    if xs == [] {
    } else {
      ShareGrows(xs[..|xs| - 1], v, w);
    }
  }

  /** A higher threshold never gives a lower result. */
  lemma TilesMonotone(xs: seq<real>, v: real, w: real, strictlyBelow: bool, k: real)
    requires xs != [] && k >= 0.0 && v <= w
    ensures Tiles(xs, v, strictlyBelow, k) <= Tiles(xs, w, strictlyBelow, k)
  {
    hide Total;
    ShareGrows(xs, v, w);
    Scaled(Share(xs, v, strictlyBelow), Share(xs, w, strictlyBelow), Size(xs), k);
  }

  function Negated(xs: seq<real>): seq<real> {
    if xs == [] then [] else Negated(xs[..|xs| - 1]) + [-xs[|xs| - 1]]
  }

  lemma {:induction false} NegatedShares(xs: seq<real>, v: real)
    ensures |Negated(xs)| == |xs|
    ensures Share(xs, v, false) + Share(Negated(xs), -v, false) == Size(xs)
  {
    if xs == [] {
    } else {
      var n := |xs| - 1;
      NegatedShares(xs[..n], v);
      TotalStep(Below(-v), Negated(xs[..n]), -xs[n]);
      TotalStep(Equal(-v), Negated(xs[..n]), -xs[n]);
    }
  }

  /** Counting equal values by half treats both sides of the threshold alike. */
  lemma TilesMirror(xs: seq<real>, v: real, k: real)
    requires xs != []
    ensures Negated(xs) != []
    ensures Tiles(xs, v, false, k) + Tiles(Negated(xs), -v, false, k) == k
  {
    hide Total, Negated;
    NegatedShares(xs, v);
    SharesAddUp(Share(xs, v, false), Share(Negated(xs), -v, false), Size(xs), k);
  }
}
