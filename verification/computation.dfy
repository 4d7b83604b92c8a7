/**
 One configured computation: which aggregation, and whether it waits for a number of messages or for
 a span of time.
 */
module Computations {
  import opened MessageBuffers

  datatype ComputationType =
    Sum | Average | Min | Max | Median | Tiles | Variance | Deviation | Unknown

  function TypeName(t: ComputationType): string {
    match t
    case Sum => "sum"
    case Average => "average"
    case Min => "min"
    case Max => "max"
    case Median => "median"
    case Tiles => "tiles"
    case Variance => "variance"
    case Deviation => "deviation"
    case Unknown => "unknown"
  }

  function Lower(c: char): char {
    if 'A' <= c <= 'Z' then (c as int + 32) as char else c
  }

  function LowerCase(s: string): (r: string)
    ensures |r| == |s| && forall i | 0 <= i < |s| :: r[i] == Lower(s[i])
  {
    seq(|s|, i requires 0 <= i < |s| => Lower(s[i]))
  }

  function TypeOf(name: string): ComputationType {
    var s := LowerCase(name);
    if s == "sum" then Sum
    else if s == "average" then Average
    else if s == "max" then Max
    else if s == "min" then Min
    else if s == "median" then Median
    else if s == "tiles" then Tiles
    else if s == "variance" then Variance
    else if s == "deviation" then Deviation
    else Unknown
  }

  /** A computation type is read back from its name, in upper or lower case. */
  lemma TypeRoundTrip(t: ComputationType, name: string)
    ensures LowerCase(name) == TypeName(t) ==> TypeOf(name) == t
    ensures TypeOf(TypeName(t)) == t
  {
    var s := TypeName(t);
    assert forall i | 0 <= i < |s| :: Lower(s[i]) == s[i];
    assert LowerCase(s) == s;
  }

  /** Different types have different names, and none of them would break up a saved line. */
  lemma TypeNames(a: ComputationType, b: ComputationType)
    ensures TypeName(a) == TypeName(b) ==> a == b
    ensures TypeName(a) != "" && ' ' !in TypeName(a) && '\n' !in TypeName(a) && '\0' !in TypeName(a)
    ensures |TypeName(a)| <= 9
  {
    hide TypeOf, LowerCase;
    TypeRoundTrip(a, "");
    TypeRoundTrip(b, "");
  }

  /** The names, as they stand in configurations and save files. */
  lemma NamesAre()
    ensures TypeName(Sum) == "sum" && TypeName(Average) == "average" && TypeName(Min) == "min"
    ensures TypeName(Max) == "max" && TypeName(Median) == "median" && TypeName(Tiles) == "tiles"
    ensures TypeName(Variance) == "variance" && TypeName(Deviation) == "deviation" && TypeName(Unknown) == "unknown"
    ensures TypeOf("SUM") == Sum && TypeOf("Max") == Max && TypeOf("mean") == Unknown
  {
    assert LowerCase("SUM") == "sum" && LowerCase("Max") == "max" && LowerCase("mean") == "mean";
  }

  /** A computation as configured, together with when it last ran. `value` is a number of seconds for a
      computation on time, else a number of messages. */
  datatype Computation = Computation(
    kind: ComputationType,
    onTime: bool,
    value: nat,
    last: nat,
    options: map<string, string>)

  function GetOption(options: map<string, string>, name: string): string {
    if name in options then options[name] else ""
  }

  /** What the configuration loader admits. */
  predicate Admissible(c: Computation) {
    c.value > if c.onTime then 0 else 1
  }

  class MathComputation {
    const kind: ComputationType
    const onTime: bool
    const value: nat
    const options: map<string, string>
    ghost const place: Place
    var lastComputeTime: nat

    ghost function State(): Computation
      reads this
    {
      Computation(kind, onTime, value, lastComputeTime, options)
    }

    constructor (c: Computation, ghost place: Place)
      ensures State() == c && this.place == place
    {
      this.place := place;
      kind, onTime, value, options, lastComputeTime := c.kind, c.onTime, c.value, c.options, c.last;
    }

    method IncrementLastComputeTime()
      modifies this
      ensures State() == old(State()).(last := old(lastComputeTime) + value)
    {
      lastComputeTime := lastComputeTime + value;
    }

    method SetLastComputeTime(time: nat)
      modifies this
      ensures State() == old(State()).(last := time)
    {
      lastComputeTime := time;
    }

    function Count(): nat {
      if onTime then 0 else value
    }

    /** The next moment a computation on time is due. */
    function NextIterationTime(): nat
      reads this
    {
      if onTime then lastComputeTime + value else 0
    }
  }
}
