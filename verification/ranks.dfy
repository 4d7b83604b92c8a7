/**
 The median and the tiles in terms of how many values lie where.
 */
module Ranks {
  import opened Aggregates
  import opened AggregateLaws
  import opened RealAlgebra

  // ---------- Counting ----------

  /** What each value contributes to a sum, in plain arithmetic. */
  lemma WeightsInFull(x: real, c: real)
    ensures At(Value, x) == x && At(Square, x) == x * x
    ensures At(Offset(c), x) == x - c && At(SquareAbout(c), x) == (x - c) * (x - c)
    ensures At(GapFrom(c), x) == if x < c then c - x else x - c
    ensures At(Below(c), x) == if x < c then 1.0 else 0.0
    ensures At(Equal(c), x) == if x == c then 1.0 else 0.0
  {
  }

  lemma TotalOfNone(w: Weight)
    ensures Total(w, []) == 0.0
  {
  }

  lemma {:induction false} CountBelow(v: real, xs: seq<real>)
    ensures Total(Below(v), xs) == |set i | 0 <= i < |xs| && xs[i] < v| as real
  {
    var counted := set i | 0 <= i < |xs| && xs[i] < v;
    if xs == [] {
      assert counted == {};
    } else {
      var n := |xs| - 1;
      var before := set i | 0 <= i < |xs[..n]| && xs[..n][i] < v;
      CountBelow(v, xs[..n]);
      assert counted == if xs[n] < v then before + {n} else before;
    }
  }

  lemma {:induction false} CountEqual(v: real, xs: seq<real>)
    ensures Total(Equal(v), xs) == |set i | 0 <= i < |xs| && xs[i] == v| as real
  {
    var counted := set i | 0 <= i < |xs| && xs[i] == v;
    if xs == [] {
      assert counted == {};
    } else {
      var n := |xs| - 1;
      var before := set i | 0 <= i < |xs[..n]| && xs[..n][i] == v;
      CountEqual(v, xs[..n]);
      assert counted == if xs[n] == v then before + {n} else before;
    }
  }

  lemma CountUpTo(v: real, xs: seq<real>)
    ensures Total(Below(v), xs) + Total(Equal(v), xs) == |set i | 0 <= i < |xs| && xs[i] <= v| as real
  {
    hide Total;
    CountBelow(v, xs);
    CountEqual(v, xs);
    var below, equal := (set i | 0 <= i < |xs| && xs[i] < v), (set i | 0 <= i < |xs| && xs[i] == v);
    assert (set i | 0 <= i < |xs| && xs[i] <= v) == below + equal && below !! equal;
  }

  function Indices(n: nat): (r: set<int>)
    ensures forall i :: i in r <==> 0 <= i < n
    ensures |r| == n
  {
    if n == 0 then {} else Indices(n - 1) + {n - 1}
  }

  lemma CountWithin(part: set<int>, n: nat)
    requires forall i | i in part :: 0 <= i < n
    ensures |part| <= n
  {
    Subset(part, Indices(n));
  }

  lemma CountAtLeast(part: set<int>, n: nat)
    requires forall i | 0 <= i < n :: i in part
    ensures |part| >= n
  {
    Subset(Indices(n), part);
  }

  lemma Subset(a: set<int>, b: set<int>)
    requires a <= b
    ensures |a| <= |b|
  {
    assert b == a + (b - a);
  }

  // ---------- Ranks ----------

  /** Exactly `rank` values precede `v` when the values are lined up: no more than that lie below it, and
      more than that lie below it or are equal to it. */
  ghost predicate HasRank(xs: seq<real>, v: real, rank: int) {
    |set i | 0 <= i < |xs| && xs[i] < v| <= rank < |set i | 0 <= i < |xs| && xs[i] <= v|
  }

  lemma RankReordered(xs: seq<real>, ys: seq<real>, v: real, rank: int)
    requires multiset(xs) == multiset(ys) && HasRank(xs, v, rank)
    ensures HasRank(ys, v, rank)
  {
    hide Total;
    TotalReordered(Below(v), xs, ys);
    TotalReordered(Equal(v), xs, ys);
    CountBelow(v, xs);
    CountBelow(v, ys);
    CountUpTo(v, xs);
    CountUpTo(v, ys);
  }

  lemma SortedRank(s: seq<real>, rank: nat)
    requires IsSorted(s) && rank < |s|
    ensures HasRank(s, s[rank], rank)
  {
    CountWithin((set i | 0 <= i < |s| && s[i] < s[rank]), rank);
    CountAtLeast((set i | 0 <= i < |s| && s[i] <= s[rank]), rank + 1);
  }

  /** Only one value has a given rank. */
  lemma RankUnique(s: seq<real>, v: real, rank: nat)
    requires IsSorted(s) && rank < |s| && HasRank(s, v, rank)
    ensures v == s[rank]
  {
    if s[rank] < v {
      CountAtLeast((set i | 0 <= i < |s| && s[i] < v), rank + 1);
    } else if v < s[rank] {
      CountWithin((set i | 0 <= i < |s| && s[i] <= v), rank);
    }
  }

  /** The median is half the sum of the two values in the middle, which are one and the same for an odd
      number of values. */
  lemma MedianByRank(xs: seq<real>, low: real, high: real)
    requires xs != []
    requires |set i | 0 <= i < |xs| && xs[i] < low| <= (|xs| - 1) / 2 < |set i | 0 <= i < |xs| && xs[i] <= low|
    requires |set i | 0 <= i < |xs| && xs[i] < high| <= |xs| / 2 < |set i | 0 <= i < |xs| && xs[i] <= high|
    ensures Median(xs) == (low + high) / 2.0
  {
    hide Sort, IsSorted;
    assert HasRank(xs, low, (|xs| - 1) / 2) && HasRank(xs, high, |xs| / 2);
    RankReordered(xs, Sort(xs), low, (|xs| - 1) / 2);
    RankReordered(xs, Sort(xs), high, |xs| / 2);
    RankUnique(Sort(xs), low, (|xs| - 1) / 2);
    RankUnique(Sort(xs), high, |xs| / 2);
  }

  /** There always are two such values among the given ones. */
  lemma MiddleValues(xs: seq<real>) returns (low: real, high: real)
    requires xs != []
    ensures low in xs && high in xs && low <= high && (|xs| % 2 != 0 ==> low == high)
    ensures |set i | 0 <= i < |xs| && xs[i] < low| <= (|xs| - 1) / 2 < |set i | 0 <= i < |xs| && xs[i] <= low|
    ensures |set i | 0 <= i < |xs| && xs[i] < high| <= |xs| / 2 < |set i | 0 <= i < |xs| && xs[i] <= high|
    ensures Median(xs) == (low + high) / 2.0
  {
    hide Sort;
    var s := Sort(xs);
    low, high := s[(|s| - 1) / 2], s[|s| / 2];
    SameMembers(xs, s);
    SortedRank(s, (|s| - 1) / 2);
    SortedRank(s, |s| / 2);
    RankReordered(s, xs, low, (|xs| - 1) / 2);
    RankReordered(s, xs, high, |xs| / 2);
    assert HasRank(xs, low, (|xs| - 1) / 2) && HasRank(xs, high, |xs| / 2);
    MedianByRank(xs, low, high);
  }

  // ---------- Moving and mirroring ----------

  function Moved(xs: seq<real>, d: real): (r: seq<real>)
    ensures |r| == |xs| && forall i | 0 <= i < |r| :: r[i] == xs[i] + d
  {
    seq(|xs|, i requires 0 <= i < |xs| => xs[i] + d)
  }

  /** The median moves along when all values are moved. */
  lemma MedianMoves(xs: seq<real>, d: real)
    requires xs != []
    ensures Median(Moved(xs, d)) == Median(xs) + d
  {
    hide Median;
    var low, high := MiddleValues(xs);
    MovedCounts(xs, d, low);
    MovedCounts(xs, d, high);
    MedianByRank(Moved(xs, d), low + d, high + d);
  }

  lemma MovedCounts(xs: seq<real>, d: real, v: real)
    ensures var ys := Moved(xs, d);
      && (set i | 0 <= i < |ys| && ys[i] < v + d) == (set i | 0 <= i < |xs| && xs[i] < v)
      && (set i | 0 <= i < |ys| && ys[i] <= v + d) == (set i | 0 <= i < |xs| && xs[i] <= v)
  {
  }

  /** The median of the negated values is the negated median. */
  lemma MedianMirrors(xs: seq<real>)
    requires xs != []
    ensures Negated(xs) != [] && Median(Negated(xs)) == -Median(xs)
  {
    hide Negated, Median;
    var low, high := MiddleValues(xs);
    NegatedAt(xs);
    MirroredCounts(xs, low);
    MirroredCounts(xs, high);
    MedianByRank(Negated(xs), -high, -low);
  }

  lemma {:induction false} NegatedAt(xs: seq<real>)
    ensures |Negated(xs)| == |xs| && forall i | 0 <= i < |xs| :: Negated(xs)[i] == -xs[i]
  {
    if xs == [] {
    } else {
      NegatedAt(xs[..|xs| - 1]);
    }
  }

  lemma MirroredCounts(xs: seq<real>, v: real)
    ensures var ys := Negated(xs);
      && |set i | 0 <= i < |ys| && ys[i] < -v| == |xs| - |set i | 0 <= i < |xs| && xs[i] <= v|
      && |set i | 0 <= i < |ys| && ys[i] <= -v| == |xs| - |set i | 0 <= i < |xs| && xs[i] < v|
  {
    var ys := Negated(xs);
    NegatedAt(xs);
    var upTo, below := (set i | 0 <= i < |xs| && xs[i] <= v), (set i | 0 <= i < |xs| && xs[i] < v);
    var above, from := (set i | 0 <= i < |ys| && ys[i] < -v), (set i | 0 <= i < |ys| && ys[i] <= -v);
    assert above + upTo == from + below;
    assert above !! upTo && from !! below;
    WholeCount(above + upTo, |xs|);
  }

  lemma WholeCount(part: set<int>, n: nat)
    requires forall i :: i in part <==> 0 <= i < n
    ensures |part| == n
  {
    CountWithin(part, n);
    CountAtLeast(part, n);
  }

  // ---------- Tiles ----------

  /** The strict form scales the share of the values below the threshold. */
  lemma StrictTiles(xs: seq<real>, v: real, k: real)
    requires xs != []
    ensures Tiles(xs, v, true, k) * |xs| as real == k * |set i | 0 <= i < |xs| && xs[i] < v| as real
  {
    hide Total;
    CountBelow(v, xs);
    ScaledBack(Total(Below(v), xs), |xs| as real, k);
  }

  /** The mid-rank form adds half the share of the values equal to it. */
  lemma MidRankTiles(xs: seq<real>, v: real, k: real)
    requires xs != []
    ensures Tiles(xs, v, false, k) * |xs| as real
         == k * (|set i | 0 <= i < |xs| && xs[i] < v| as real + 0.5 * |set i | 0 <= i < |xs| && xs[i] == v| as real)
  {
    hide Total;
    CountBelow(v, xs);
    CountEqual(v, xs);
    ScaledBack(Share(xs, v, false), |xs| as real, k);
  }

  lemma ScaledBack(share: real, n: real, k: real)
    requires n > 0.0
    ensures share / n * k * n == k * share
  {
    QuotientTimes(share, n);
    Regrouped(share / n, n, k);
  }

  lemma Regrouped(q: real, n: real, k: real)
    ensures q * k * n == k * (q * n)
  {
  }
}
