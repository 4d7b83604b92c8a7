/**
 What one computation makes of a batch of messages.
 */
module Evaluation {
  import opened Wrappers
  import opened Messages
  import opened Numbers
  import opened Computations
  import Aggregates
  import AggregateLaws
  import Ranks

  /** The flag of a `tiles` computation: `true`, `false`, or a digit. */
  function ParseFlag(s: string): Option<bool> {
    if s == "true" || s == "1" then Some(true)
    else if s == "false" || s == "0" then Some(false)
    else None
  }

  /** The messages a computation of non-empty `ms` hands to the global buffer: one, or none when its
      options cannot be read. `sqrt` is the library's square root. */
  function Outcome(ms: seq<Message>, c: Computation, sqrt: real -> real, now: ULong): seq<Message>
    requires ms != []
  {
    var xs := Aggregates.Values(ms);
    var kind := ms[0].kind;
    match c.kind
    case Sum => [Message(kind, Aggregates.Total(Aggregates.Value, xs), now)]
    case Average => [Message(kind, Aggregates.Mean(xs), now)]
    case Max => [Message(kind, Aggregates.Greatest(xs), now)]
    case Min => [Message(kind, Aggregates.Least(xs), now)]
    case Median => [Message(kind, Aggregates.Median(xs), now)]
    case Variance => [Message(kind, Aggregates.Variance(xs), now)]
    case Deviation => [Message(kind, sqrt(Aggregates.Variance(xs)), now)]
    case Tiles =>
      var below := ParseFlag(GetOption(c.options, "below"));
      var value := ParseValue(GetOption(c.options, "value"));
      var factor := ParseValue(GetOption(c.options, "multiplicator"));
      if below.None? || value.None? || factor.None? then []
      else [Message(kind, Aggregates.Tiles(xs, value.value, below.value, factor.value), now)]
    case Unknown => []
  }

  function Outcomes(batches: seq<seq<Message>>, c: Computation, sqrt: real -> real, now: ULong): seq<Message> {
    if batches == [] then []
    else
      var last := batches[|batches| - 1];
      Outcomes(batches[..|batches| - 1], c, sqrt, now) + if last == [] then [] else Outcome(last, c, sqrt, now)
  }

  lemma OutcomesNone(c: Computation, sqrt: real -> real, now: ULong)
    ensures Outcomes([], c, sqrt, now) == []
  {
  }

  lemma OutcomesStep(batches: seq<seq<Message>>, batch: seq<Message>, c: Computation, sqrt: real -> real, now: ULong)
    requires batch != []
    ensures Outcomes(batches + [batch], c, sqrt, now) == Outcomes(batches, c, sqrt, now) + Outcome(batch, c, sqrt, now)
  {
    assert (batches + [batch])[..|batches|] == batches;
  }

  lemma OutcomeIgnoresLast(ms: seq<Message>, c: Computation, d: Computation, sqrt: real -> real, now: ULong)
    requires ms != [] && d == c.(last := d.last)
    ensures Outcome(ms, c, sqrt, now) == Outcome(ms, d, sqrt, now)
  {
  }

  // ---------- Type by type ----------

  /** Every type but tiles and an unknown one yields one message, which carries the metric of the first
      message and the time of the computation. */
  lemma OneResult(ms: seq<Message>, c: Computation, sqrt: real -> real, now: ULong)
    requires ms != []
    ensures var r := Outcome(ms, c, sqrt, now);
      && |r| <= 1 && (c.kind.Unknown? ==> r == [])
      && (!c.kind.Unknown? && !c.kind.Tiles? ==> |r| == 1)
      && (|r| == 1 ==> r[0].kind == ms[0].kind && r[0].timestamp == now)
  {
  }

  /** The greatest and the least value are among the values, and none lies beyond. */
  lemma ExtremesYielded(ms: seq<Message>, c: Computation, sqrt: real -> real, now: ULong)
    requires ms != []
    ensures c.kind.Max? ==> var r := Outcome(ms, c, sqrt, now);
      |r| == 1 && (exists i | 0 <= i < |ms| :: ms[i].value == r[0].value)
      && forall i | 0 <= i < |ms| :: ms[i].value <= r[0].value
    ensures c.kind.Min? ==> var r := Outcome(ms, c, sqrt, now);
      |r| == 1 && (exists i | 0 <= i < |ms| :: ms[i].value == r[0].value)
      && forall i | 0 <= i < |ms| :: r[0].value <= ms[i].value
  {
    hide Aggregates.Greatest, Aggregates.Least;
    var xs := Aggregates.Values(ms);
    Aggregates.GreatestIsGreatest(xs);
    Aggregates.LeastIsLeast(xs);
    assert forall i | 0 <= i < |ms| :: xs[i] == ms[i].value;
  }

  /** The average times the number of messages is the sum. */
  lemma AverageYielded(ms: seq<Message>, c: Computation, sqrt: real -> real, now: ULong)
    requires ms != []
    ensures c.kind.Sum? ==> var r := Outcome(ms, c, sqrt, now);
      |r| == 1 && r[0].value == Aggregates.Total(Aggregates.Value, Aggregates.Values(ms))
    ensures c.kind.Average? ==> var r := Outcome(ms, c, sqrt, now);
      |r| == 1 && r[0].value * |ms| as real == Aggregates.Total(Aggregates.Value, Aggregates.Values(ms))
  {
    hide Aggregates.Mean, Aggregates.Total;
    AggregateLaws.MeanTimesSize(Aggregates.Values(ms));
  }

  /** The median is half the sum of the two values in the middle. */
  lemma MedianYielded(ms: seq<Message>, c: Computation, sqrt: real -> real, now: ULong, low: real, high: real)
    requires ms != [] && c.kind.Median?
    requires |set i | 0 <= i < |ms| && ms[i].value < low| <= (|ms| - 1) / 2
    requires (|ms| - 1) / 2 < |set i | 0 <= i < |ms| && ms[i].value <= low|
    requires |set i | 0 <= i < |ms| && ms[i].value < high| <= |ms| / 2
    requires |ms| / 2 < |set i | 0 <= i < |ms| && ms[i].value <= high|
    ensures var r := Outcome(ms, c, sqrt, now); |r| == 1 && r[0].value == (low + high) / 2.0
  {
    hide Aggregates.Median;
    SameCounts(ms, low);
    SameCounts(ms, high);
    Ranks.MedianByRank(Aggregates.Values(ms), low, high);
  }

  lemma SameCounts(ms: seq<Message>, v: real)
    ensures var xs := Aggregates.Values(ms);
      && (set i | 0 <= i < |ms| && ms[i].value < v) == (set i | 0 <= i < |xs| && xs[i] < v)
      && (set i | 0 <= i < |ms| && ms[i].value <= v) == (set i | 0 <= i < |xs| && xs[i] <= v)
      && (set i | 0 <= i < |ms| && ms[i].value == v) == (set i | 0 <= i < |xs| && xs[i] == v)
  {
  }

  /** The variance is the mean of the squares without the square of the mean, and the deviation is its
      non-negative root. */
  lemma SpreadYielded(ms: seq<Message>, c: Computation, sqrt: real -> real, now: ULong)
    requires ms != []
    ensures var xs := Aggregates.Values(ms);
      var n, r := |xs| as real, Outcome(ms, c, sqrt, now);
      var mean, square := Aggregates.Total(Aggregates.Value, xs) / n, Aggregates.Total(Aggregates.Square, xs) / n;
      var moments := square - mean * mean;
      && (c.kind.Variance? ==> |r| == 1 && r[0].value == moments)
      && (c.kind.Deviation? && Aggregates.IsRoot(sqrt) ==>
            |r| == 1 && r[0].value >= 0.0 && r[0].value * r[0].value == moments)
  {
    hide Aggregates.Variance, Aggregates.Total;
    var xs := Aggregates.Values(ms);
    AggregateLaws.VarianceByMoments(xs);
    Aggregates.VarianceNotNegative(xs);
  }

  /** Tiles with all three options count the values below the threshold, and half of those equal to it
      when the flag says so, as a share of all values times the multiplicator. */
  lemma TilesYielded(ms: seq<Message>, c: Computation, sqrt: real -> real, now: ULong, v: real, k: real)
    requires ms != [] && c.kind.Tiles? && {"below", "value", "multiplicator"} <= c.options.Keys
    requires ParseValue(c.options["value"]) == Some(v) && ParseValue(c.options["multiplicator"]) == Some(k)
    ensures var r, flag := Outcome(ms, c, sqrt, now), c.options["below"];
      var below, equal := (set i | 0 <= i < |ms| && ms[i].value < v), (set i | 0 <= i < |ms| && ms[i].value == v);
      && (flag == "true" || flag == "1" ==> |r| == 1 && r[0].value * |ms| as real == k * |below| as real)
      && (flag == "false" || flag == "0" ==>
            |r| == 1 && r[0].value * |ms| as real == k * (|below| as real + 0.5 * |equal| as real))
  {
    hide Aggregates.Tiles, ParseValue;
    SameCounts(ms, v);
    Ranks.StrictTiles(Aggregates.Values(ms), v, k);
    Ranks.MidRankTiles(Aggregates.Values(ms), v, k);
  }

  /** Without an option that can be read they yield nothing. */
  lemma TilesRefused(ms: seq<Message>, c: Computation, sqrt: real -> real, now: ULong)
    requires ms != [] && c.kind.Tiles?
    requires
      || "below" !in c.options || c.options["below"] !in ["true", "1", "false", "0"]
      || "value" !in c.options || ParseValue(c.options["value"]).None?
      || "multiplicator" !in c.options || ParseValue(c.options["multiplicator"]).None?
    ensures Outcome(ms, c, sqrt, now) == []
  {
    hide ParseValue;
    OthersAreNoValues("");
  }
}
