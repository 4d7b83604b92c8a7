/**
 The eight aggregations of the maths pipeline: what each computes from the values of its messages.
 */
module Aggregates {
  import opened Messages
  import opened Numbers
  import opened RealAlgebra

  // ---------- Sums ----------

  /** What a value contributes to a sum. */
  datatype Weight =
    | Value
    | Square
    | SquareAbout(c: real)  // squared distance from c
    | Offset(c: real)       // signed distance from c
    | GapFrom(c: real)      // distance from c
    | Below(c: real)        // one for the values below c
    | Equal(c: real)        // one for the values equal to c

  function At(w: Weight, x: real): real {
    match w
    case Value => x
    case Square => Sq(x)
    case SquareAbout(c) => Sq(x - c)
    case Offset(c) => x - c
    case GapFrom(c) => Abs(x - c)
    case Below(c) => if x < c then 1.0 else 0.0
    case Equal(c) => if x == c then 1.0 else 0.0
  }

  function Total(w: Weight, xs: seq<real>): real {
    if xs == [] then 0.0 else Total(w, xs[..|xs| - 1]) + At(w, xs[|xs| - 1])
  }

  lemma TotalStep(w: Weight, xs: seq<real>, x: real)
    ensures Total(w, xs + [x]) == Total(w, xs) + At(w, x)
  {
    assert (xs + [x])[..|xs|] == xs;
  }

  lemma TotalPrefix(w: Weight, xs: seq<real>, i: nat)
    requires i < |xs|
    ensures Total(w, xs[..i + 1]) == Total(w, xs[..i]) + At(w, xs[i])
  {
    assert xs[..i + 1] == xs[..i] + [xs[i]];
    TotalStep(w, xs[..i], xs[i]);
  }

  lemma {:induction false} TotalAppend(w: Weight, a: seq<real>, b: seq<real>)
    ensures Total(w, a + b) == Total(w, a) + Total(w, b)
  {
    if b == [] {
      assert a + b == a;
    } else {
      var n := |b| - 1;
      assert (a + b)[..|a + b| - 1] == a + b[..n];
      TotalAppend(w, a, b[..n]);
    }
  }

  // ---------- Specifications ----------

  function Size(xs: seq<real>): real {
    |xs| as real
  }

  function Mean(xs: seq<real>): real
    requires xs != []
  {
    Total(Value, xs) / Size(xs)
  }

  function Variance(xs: seq<real>): real
    requires xs != []
  {
    Total(SquareAbout(Mean(xs)), xs) / Size(xs)
  }

  lemma {:induction false} SquaresAreNonNegative(c: real, xs: seq<real>)
    ensures Total(SquareAbout(c), xs) >= 0.0
  {
    hide Sq;
    if xs == [] {
    } else {
      SquaresAreNonNegative(c, xs[..|xs| - 1]);
      SqSign(xs[|xs| - 1] - c);
    }
  }

  lemma VarianceNotNegative(xs: seq<real>)
    requires xs != []
    ensures Variance(xs) >= 0.0
  {
    hide Total, Mean;
    SquaresAreNonNegative(Mean(xs), xs);
  }

  predicate IsGreatest(x: real, xs: seq<real>) {
    x in xs && forall i | 0 <= i < |xs| :: xs[i] <= x
  }

  predicate IsLeast(x: real, xs: seq<real>) {
    x in xs && forall i | 0 <= i < |xs| :: x <= xs[i]
  }

  function Greatest(xs: seq<real>): real
    requires xs != []
  {
    var last := xs[|xs| - 1];
    if |xs| == 1 then last
    else var g := Greatest(xs[..|xs| - 1]); if last > g then last else g
  }

  function Least(xs: seq<real>): real
    requires xs != []
  {
    var last := xs[|xs| - 1];
    if |xs| == 1 then last
    else var l := Least(xs[..|xs| - 1]); if last < l then last else l
  }

  lemma {:induction false} GreatestIsGreatest(xs: seq<real>)
    requires xs != []
    ensures IsGreatest(Greatest(xs), xs)
  {
    if |xs| == 1 {
    } else {
      GreatestIsGreatest(xs[..|xs| - 1]);
    }
  }

  lemma {:induction false} LeastIsLeast(xs: seq<real>)
    requires xs != []
    ensures IsLeast(Least(xs), xs)
  {
    if |xs| == 1 {
    } else {
      LeastIsLeast(xs[..|xs| - 1]);
    }
  }

  predicate IsSorted(xs: seq<real>) {
    forall i, j | 0 <= i <= j < |xs| :: xs[i] <= xs[j]
  }

  function Insert(x: real, xs: seq<real>): (r: seq<real>)
    requires IsSorted(xs)
    ensures IsSorted(r) && multiset(r) == multiset(xs) + multiset{x}
    ensures |r| == |xs| + 1
  {
    if xs == [] || x >= xs[|xs| - 1] then xs + [x]
    else
      var n := |xs| - 1;
      var front := Insert(x, xs[..n]);
      assert xs == xs[..n] + [xs[n]];
      InsertBelow(x, xs, front);
      front + [xs[n]]
  }

  lemma InsertBelow(x: real, xs: seq<real>, front: seq<real>)
    requires xs != [] && IsSorted(xs) && x < xs[|xs| - 1]
    requires multiset(front) == multiset(xs[..|xs| - 1]) + multiset{x}
    ensures forall i | 0 <= i < |front| :: front[i] <= xs[|xs| - 1]
  {
    forall i | 0 <= i < |front| ensures front[i] <= xs[|xs| - 1] {
      assert front[i] in multiset(front);
    }
  }

  /** `std::sort` */
  function Sort(xs: seq<real>): (r: seq<real>)
    ensures IsSorted(r) && multiset(r) == multiset(xs) && |r| == |xs|
  {
    if xs == [] then []
    else
      assert xs == xs[..|xs| - 1] + [xs[|xs| - 1]];
      Insert(xs[|xs| - 1], Sort(xs[..|xs| - 1]))
  }

  /** The middle of a sorted sequence: the middle value, or the mean of the two middle ones. */
  function Middle(s: seq<real>): real
    requires s != []
  {
    var m := |s| / 2;
    if |s| % 2 != 0 then s[m] else (s[m] + s[m - 1]) / 2.0
  }

  function Median(xs: seq<real>): real
    requires xs != []
  {
    Middle(Sort(xs))
  }

  /** The values below `v`, and half of those equal to it unless they are left out. */
  function Share(xs: seq<real>, v: real, strictlyBelow: bool): real {
    Total(Below(v), xs) + 0.5 * if strictlyBelow then 0.0 else Total(Equal(v), xs)
  }

  function Tiles(xs: seq<real>, value: real, strictlyBelow: bool, multiplicator: real): real
    requires xs != []
  {
    Share(xs, value, strictlyBelow) / Size(xs) * multiplicator
  }

  // ---------- The computations ----------

  function Values(ms: seq<Message>): (r: seq<real>)
    ensures |r| == |ms| && forall i | 0 <= i < |ms| :: r[i] == ms[i].value
  {
    seq(|ms|, i requires 0 <= i < |ms| => ms[i].value)
  }

  /** The invalid message a computation on nothing yields. */
  const NOTHING := Message("", 0.0, 0)

  /** An aggregation computes `value` from its messages: the result carries the metric of the first one
      and the time of the computation. */
  predicate Yields(ms: seq<Message>, now: ULong, result: Message, value: real) {
    if ms == [] then result == NOTHING else result == Message(ms[0].kind, value, now)
  }

  method Sum(ms: seq<Message>, now: ULong) returns (r: Message)
    ensures Yields(ms, now, r, Total(Value, Values(ms)))
  {
    if ms == [] {
      return NOTHING;
    }
    ghost var xs := Values(ms);
    var result := ms[0].value;
    TotalPrefix(Value, xs, 0);
    for i := 1 to |ms|
      invariant result == Total(Value, xs[..i])
    {
      TotalPrefix(Value, xs, i);
      result := result + ms[i].value;
    }
    assert xs[..|ms|] == xs;
    r := Message(ms[0].kind, result, now);
  }

  method Average(ms: seq<Message>, now: ULong) returns (r: Message)
    ensures Yields(ms, now, r, if ms == [] then 0.0 else Mean(Values(ms)))
  {
    if ms == [] {
      return NOTHING;
    }
    ghost var xs := Values(ms);
    var result := ms[0].value;
    TotalPrefix(Value, xs, 0);
    for i := 1 to |ms|
      invariant result == Total(Value, xs[..i])
    {
      TotalPrefix(Value, xs, i);
      result := result + ms[i].value;
    }
    assert xs[..|ms|] == xs;
    result := result / |ms| as real;
    r := Message(ms[0].kind, result, now);
  }

  method ComputeVariance(ms: seq<Message>, now: ULong) returns (r: Message)
    ensures Yields(ms, now, r, if ms == [] then 0.0 else Variance(Values(ms)))
  {
    if ms == [] {
      return NOTHING;
    }
    ghost var xs := Values(ms);
    var mean := Average(ms, now);
    var average := mean.value;
    var result := 0.0;
    for i := 0 to |ms|
      invariant result == Total(SquareAbout(average), xs[..i])
    {
      TotalPrefix(SquareAbout(average), xs, i);
      var difference := ms[i].value - average;
      result := result + difference * difference;
    }
    assert xs[..|ms|] == xs;
    result := result / |ms| as real;
    r := Message(ms[0].kind, result, now);
  }

  /** What the library's square root promises. */
  ghost predicate IsRoot(sqrt: real -> real) {
    forall x | x >= 0.0 :: sqrt(x) >= 0.0 && Sq(sqrt(x)) == x
  }

  method Deviation(ms: seq<Message>, sqrt: real -> real, now: ULong) returns (r: Message)
    ensures Yields(ms, now, r, if ms == [] then 0.0 else sqrt(Variance(Values(ms))))
    ensures IsRoot(sqrt) && ms != [] ==> r.value >= 0.0 && Sq(r.value) == Variance(Values(ms))
  {
    if ms == [] {
      return NOTHING;
    }
    var variance := ComputeVariance(ms, now);
    VarianceNotNegative(Values(ms));
    r := Message(ms[0].kind, sqrt(variance.value), now);
  }

  method Maximum(ms: seq<Message>, now: ULong) returns (r: Message)
    ensures Yields(ms, now, r, if ms == [] then 0.0 else Greatest(Values(ms)))
  {
    if ms == [] {
      return NOTHING;
    }
    ghost var xs := Values(ms);
    var result := ms[0].value;
    for i := 1 to |ms|
      invariant result == Greatest(xs[..i])
    {
      assert xs[..i + 1][..i] == xs[..i];
      if ms[i].value > result {
        result := ms[i].value;
      }
    }
    assert xs[..|ms|] == xs;
    r := Message(ms[0].kind, result, now);
  }

  method Minimum(ms: seq<Message>, now: ULong) returns (r: Message)
    ensures Yields(ms, now, r, if ms == [] then 0.0 else Least(Values(ms)))
  {
    if ms == [] {
      return NOTHING;
    }
    ghost var xs := Values(ms);
    var result := ms[0].value;
    for i := 1 to |ms|
      invariant result == Least(xs[..i])
    {
      assert xs[..i + 1][..i] == xs[..i];
      if ms[i].value < result {
        result := ms[i].value;
      }
    }
    assert xs[..|ms|] == xs;
    r := Message(ms[0].kind, result, now);
  }

  method ComputeMedian(ms: seq<Message>, now: ULong) returns (r: Message)
    ensures Yields(ms, now, r, if ms == [] then 0.0 else Median(Values(ms)))
  {
    if ms == [] {
      return NOTHING;
    }
    var size := |ms|;
    var middle := size / 2;
    var values: seq<real> := [];
    for i := 0 to size
      invariant values == Values(ms)[..i]
    {
      values := values + [ms[i].value];
    }
    assert values == Values(ms);
    values := Sort(values);
    var value := if size % 2 != 0 then values[middle] else (values[middle] + values[middle - 1]) / 2.0;
    r := Message(ms[0].kind, value, now);
  }

  method ComputeTiles(ms: seq<Message>, value: real, strictlyBelow: bool, multiplicator: real, now: ULong)
    returns (r: Message)
    ensures Yields(ms, now, r, if ms == [] then 0.0 else Tiles(Values(ms), value, strictlyBelow, multiplicator))
  {
    if ms == [] {
      return NOTHING;
    }
    ghost var xs := Values(ms);
    var below, equal := 0, 0;
    for i := 0 to |ms|
      invariant below as real == Total(Below(value), xs[..i])
      invariant equal as real == if strictlyBelow then 0.0 else Total(Equal(value), xs[..i])
    {
      TotalPrefix(Below(value), xs, i);
      TotalPrefix(Equal(value), xs, i);
      if ms[i].value < value {
        below := below + 1;
      } else if !strictlyBelow && ms[i].value == value {
        equal := equal + 1;
      }
    }
    assert xs[..|ms|] == xs;
    var result := (below as real + 0.5 * equal as real) / |ms| as real * multiplicator;
    r := Message(ms[0].kind, result, now);
  }
}
