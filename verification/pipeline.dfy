/**
 The maths pipeline: for every wanted metric, the operations of its category, each with a buffer of its
 own; iterations hand what they compute to the global buffer.
 */
module Pipelines {
  import opened Wrappers
  import opened Messages
  import opened Numbers
  import opened Queues
  import opened Store
  import opened MessageBuffers
  import opened GlobalBuffers
  import opened Computations
  import opened Windows
  import opened Runs
  import opened Evaluation
  import Aggregates
  import Ordering

  // ---------- What a run hands out ----------

  /** The messages an operation hands to the global buffer in a run. */
  function Results(capacity: Capacity, h: History, events: seq<Event>, sqrt: real -> real): seq<Message> {
    if events == [] then []
    else
      var front, last := events[..|events| - 1], events[|events| - 1];
      Results(capacity, h, front, sqrt) + ResultsOf(Run(capacity, h, front).op, last, sqrt)
  }

  function ResultsOf(op: Operation, e: Event, sqrt: real -> real): seq<Message> {
    match e
    case Arrive(_) => []
    case Tick(now) => Outcomes(Batches(op, now), op.computation, sqrt, now)
  }

  lemma {:induction false} SumOfOutcomes(batches: seq<seq<Message>>, c: Computation, sqrt: real -> real, now: ULong)
    requires c.kind.Sum?
    ensures SumOf(Outcomes(batches, c, sqrt, now)) == SumOfAll(batches)
  {
    hide SumOf, Outcome;
    if batches == [] {
      SumOfNone();
    } else {
      var n := |batches| - 1;
      SumOfOutcomes(batches[..n], c, sqrt, now);
      if batches[n] == [] {
        SumOfNone();
        assert Outcomes(batches, c, sqrt, now) == Outcomes(batches[..n], c, sqrt, now);
      } else {
        SumOfOutcome(batches[n], c, sqrt, now);
        SumAppend(Outcomes(batches[..n], c, sqrt, now), Outcome(batches[n], c, sqrt, now));
      }
    }
  }

  lemma SumOfNone()
    ensures SumOf([]) == 0.0
  {
  }

  lemma SumOfOutcome(ms: seq<Message>, c: Computation, sqrt: real -> real, now: ULong)
    requires ms != [] && c.kind.Sum?
    ensures SumOf(Outcome(ms, c, sqrt, now)) == SumOf(ms)
  {
    var result := Outcome(ms, c, sqrt, now);
    assert Aggregates.Values(result) == [] + [result[0].value];
    Aggregates.TotalStep(Aggregates.Value, [], result[0].value);
  }

  lemma {:induction false} ResultsOfSum(capacity: Capacity, c: Computation, clock: nat, events: seq<Event>,
                                        sqrt: real -> real)
    requires c.kind.Sum?
    ensures var h := Run(capacity, Start(c, clock), events);
      && h.op.computation.kind == c.kind
      && SumOf(Results(capacity, Start(c, clock), events, sqrt)) == SumOfAll(h.batches)
  {
    hide SumOf, Outcomes, SumOfAll, Push;
    SumOfAllParts([], []);
    SumOfNone();
    if events == [] {
    } else {
      var front, e := events[..|events| - 1], events[|events| - 1];
      var h := Run(capacity, Start(c, clock), front);
      ResultsOfSum(capacity, c, clock, front, sqrt);
      SumAppend(Results(capacity, Start(c, clock), front, sqrt), ResultsOf(h.op, e, sqrt));
      if e.Tick? {
        SumOfOutcomes(Batches(h.op, e.now), h.op.computation, sqrt, e.now);
        SumOfAllParts(h.batches, Batches(h.op, e.now));
      }
    }
  }

  lemma {:induction false} SumOfAllParts(a: seq<seq<Message>>, b: seq<seq<Message>>)
    ensures SumOfAll(a + b) == SumOfAll(a) + SumOfAll(b)
    ensures SumOfAll([]) == 0.0
  {
    hide SumOf;
    if b == [] {
      assert a + b == a;
    } else {
      var n := |b| - 1;
      assert (a + b)[..|a + b| - 1] == a + b[..n];
      SumOfAllParts(a, b[..n]);
    }
  }

  /** For a sum, on count or on time: the values handed to the global buffer and what is still buffered
      add up to everything accepted. */
  lemma SumIsConserved(capacity: Capacity, c: Computation, clock: nat, events: seq<Event>, sqrt: real -> real)
    requires c.kind.Sum?
    ensures var h := Run(capacity, Start(c, clock), events);
      SumOf(h.accepted)
      == SumOf(Results(capacity, Start(c, clock), events, sqrt)) + SumOf(h.op.queue.items)
  {
    hide SumOf, SumOfAll, Results, Run;
    SumConservation(capacity, c, clock, events);
    ResultsOfSum(capacity, c, clock, events, sqrt);
  }

  // ---------- Operations ----------

  /** A filter on metric names, with the computations for the metrics it matches. */
  datatype Category = Category(filter: string, computations: seq<Computation>)

  /** Whether a filter, a regular expression, matches a metric name: the library's business. */
  type Matches = (string, string) -> bool

  class MathOperation {
    const computation: MathComputation
    const buffer: MessageBuffer

    ghost function State(): Operation
      reads computation, buffer
    {
      Operation(computation.State(), buffer.State())
    }

    constructor (c: Computation, name: string, policy: Policy, ghost place: Place)
      ensures fresh(computation) && fresh(buffer)
      ensures State() == Operation(c, EMPTY) && buffer.Valid()
      ensures buffer.policy == policy && buffer.place == place && computation.place == place
    {
      var comp := new MathComputation(c, place);
      var buf := new MessageBuffer(name, policy, place);
      computation, buffer := comp, buf;
    }
  }

  // ---------- One iteration, as values ----------

  function IteratedAll(ops: seq<Operation>, now: nat): (r: seq<Operation>)
    ensures |r| == |ops| && forall i | 0 <= i < |ops| :: r[i] == Iterated(ops[i], now)
  {
    seq(|ops|, i requires 0 <= i < |ops| => Iterated(ops[i], now))
  }

  lemma IteratedNext(ops: seq<Operation>, i: nat, now: nat)
    requires i < |ops|
    ensures (IteratedAll(ops[..i], now) + ops[i..])[i := Iterated(ops[i], now)]
         == IteratedAll(ops[..i + 1], now) + ops[i + 1..]
  {
    hide Iterated;
  }

  /** What the operations of one metric hand out, operation by operation. */
  function Emitted(ops: seq<Operation>, sqrt: real -> real, now: ULong): seq<Message> {
    if ops == [] then []
    else
      var last := ops[|ops| - 1];
      Emitted(ops[..|ops| - 1], sqrt, now) + Outcomes(Batches(last, now), last.computation, sqrt, now)
  }

  lemma EmittedNext(ops: seq<Operation>, i: nat, sqrt: real -> real, now: ULong)
    requires i < |ops|
    ensures Emitted(ops[..i + 1], sqrt, now)
         == Emitted(ops[..i], sqrt, now) + Outcomes(Batches(ops[i], now), ops[i].computation, sqrt, now)
  {
    assert ops[..i + 1][..i] == ops[..i];
  }

  lemma EmittedNone(sqrt: real -> real, now: ULong)
    ensures Emitted([], sqrt, now) == []
  {
  }

  type MathsState = map<string, seq<Operation>>

  function IteratedState(s: MathsState, now: nat): MathsState {
    map k | k in s :: IteratedAll(s[k], now)
  }

  /** What the given metrics hand out, metric by metric. */
  function EmittedBy(s: MathsState, keys: seq<string>, sqrt: real -> real, now: ULong): seq<Message>
    requires forall k | k in keys :: k in s
  {
    if keys == [] then []
    else EmittedBy(s, keys[..|keys| - 1], sqrt, now) + Emitted(s[keys[|keys| - 1]], sqrt, now)
  }

  lemma EmittedByNext(s: MathsState, keys: seq<string>, i: nat, sqrt: real -> real, now: ULong)
    requires forall k | k in keys :: k in s
    requires i < |keys|
    ensures EmittedBy(s, keys[..i + 1], sqrt, now)
         == EmittedBy(s, keys[..i], sqrt, now) + Emitted(s[keys[i]], sqrt, now)
  {
    assert keys[..i + 1][..i] == keys[..i];
  }

  lemma EmittedByNone(s: MathsState, sqrt: real -> real, now: ULong)
    ensures EmittedBy(s, [], sqrt, now) == []
  {
  }

  // ---------- Adding, as values ----------

  /** The first category whose filter matches the metric. */
  function Wanted(categories: seq<Category>, matches: Matches, kind: string): Option<Category> {
    if categories == [] then None
    else if matches(categories[0].filter, kind) then Some(categories[0])
    else Wanted(categories[1..], matches, kind)
  }

  lemma WantedStep(categories: seq<Category>, matches: Matches, kind: string)
    ensures Wanted(categories, matches, kind)
         == if categories == [] then None
            else if matches(categories[0].filter, kind) then Some(categories[0])
            else Wanted(categories[1..], matches, kind)
  {
  }

  /** It is wanted when some filter matches, and then the first such category has it. */
  lemma {:induction false} WantedIsFirst(categories: seq<Category>, matches: Matches, kind: string)
    ensures var category := Wanted(categories, matches, kind);
      && (category.None? <==> forall i | 0 <= i < |categories| :: !matches(categories[i].filter, kind))
      && (category.Some? ==> exists i | 0 <= i < |categories| ::
            && category.value == categories[i] && matches(categories[i].filter, kind)
            && forall j | 0 <= j < i :: !matches(categories[j].filter, kind))
  {
    if categories == [] {
    } else if matches(categories[0].filter, kind) {
      assert Wanted(categories, matches, kind).value == categories[0];
    } else {
      var rest := categories[1..];
      WantedIsFirst(rest, matches, kind);
      assert forall i | 0 <= i < |rest| :: rest[i] == categories[i + 1];
      assert forall i | 1 <= i < |categories| :: categories[i] == rest[i - 1];
      if Wanted(rest, matches, kind).Some? {
        var i :| 0 <= i < |rest| && Wanted(rest, matches, kind).value == rest[i] && matches(rest[i].filter, kind)
          && forall j | 0 <= j < i :: !matches(rest[j].filter, kind);
        assert categories[i + 1] == rest[i];
        assert forall j | 0 <= j < i + 1 :: !matches(categories[j].filter, kind);
      }
    }
  }

  function NewOperations(computations: seq<Computation>): (r: seq<Operation>)
    ensures |r| == |computations|
    ensures forall i | 0 <= i < |r| :: r[i] == Operation(computations[i], EMPTY)
  {
    seq(|computations|, i requires 0 <= i < |computations| => Operation(computations[i], EMPTY))
  }

  function Pushed(p: Policy, op: Operation, m: Message): Operation {
    op.(queue := Push(p, op.queue, m))
  }

  /** The first operation of the given type, or the number of operations. */
  function FirstOfType(ops: seq<Operation>, name: string): (i: nat)
    ensures i <= |ops|
    ensures i < |ops| ==> TypeName(ops[i].computation.kind) == name
    ensures forall j | 0 <= j < i :: TypeName(ops[j].computation.kind) != name
  {
    if ops == [] then 0
    else if TypeName(ops[0].computation.kind) == name then 0
    else 1 + FirstOfType(ops[1..], name)
  }

  /** A message goes to every operation of its metric, or, when a type is given, to the first operation
      of that type only. */
  function AddTo(p: Policy, ops: seq<Operation>, name: string, m: Message): (r: seq<Operation>)
    ensures |r| == |ops|
    ensures name == "" ==> forall i | 0 <= i < |ops| :: r[i] == Pushed(p, ops[i], m)
    ensures name != "" ==> forall i | 0 <= i < |ops| ::
      r[i] == if TypeName(ops[i].computation.kind) == name
                 && (forall j | 0 <= j < i :: TypeName(ops[j].computation.kind) != name)
              then Pushed(p, ops[i], m) else ops[i]
  {
    if name == "" then seq(|ops|, i requires 0 <= i < |ops| => Pushed(p, ops[i], m))
    else
      var i := FirstOfType(ops, name);
      if i < |ops| then ops[i := Pushed(p, ops[i], m)] else ops
  }

  function AddMessage(categories: seq<Category>, matches: Matches, p: Policy, s: MathsState,
                      m: Message, name: string): MathsState
  {
    var category := Wanted(categories, matches, m.kind);
    if category.None? then s
    else
      var ops := if m.kind in s then s[m.kind] else NewOperations(category.value.computations);
      s[m.kind := AddTo(p, ops, name, m)]
  }

  // ---------- The pipeline ----------

  ghost function States(ops: seq<MathOperation>): (r: seq<Operation>)
    reads set op | op in ops :: op.computation
    reads set op | op in ops :: op.buffer
    ensures |r| == |ops| && forall i | 0 <= i < |ops| :: r[i] == ops[i].State()
  {
    if ops == [] then [] else States(ops[..|ops| - 1]) + [ops[|ops| - 1].State()]
  }

  class MathsPipeline {
    const buffer: GlobalBuffer
    const categories: seq<Category>
    const matches: Matches
    const sqrt: real -> real
    const capacity: Capacity
    /** The buffers of the operations refuse new messages when full. */
    const policy := Policy(capacity, false)
    var buffers: map<string, seq<MathOperation>>

    constructor (buffer: GlobalBuffer, categories: seq<Category>, matches: Matches, sqrt: real -> real,
                 capacity: Capacity)
      ensures this.buffer == buffer && this.categories == categories && this.matches == matches
      ensures this.sqrt == sqrt && this.capacity == capacity && buffers == map[]
    {
      this.buffer, this.categories, this.matches, this.sqrt := buffer, categories, matches, sqrt;
      this.capacity, buffers := capacity, map[];
    }

    /** Runs the aggregation of a computation. */
    method Evaluate(ms: seq<Message>, computation: MathComputation, now: ULong) returns (results: seq<Message>)
      requires ms != []
      ensures results == Outcome(ms, computation.State(), sqrt, now)
      ensures computation.kind.Unknown? ==> results == []
      ensures !computation.kind.Unknown? && !computation.kind.Tiles? ==> |results| == 1
      ensures |results| == 1 ==> results[0].kind == ms[0].kind && results[0].timestamp == now
      ensures computation.kind.Sum? ==> results[0].value == Aggregates.Total(Aggregates.Value, Aggregates.Values(ms))
      ensures computation.kind.Average? ==>
        results[0].value * |ms| as real == Aggregates.Total(Aggregates.Value, Aggregates.Values(ms))
      ensures computation.kind.Max? ==>
        (exists i | 0 <= i < |ms| :: ms[i].value == results[0].value)
        && forall i | 0 <= i < |ms| :: ms[i].value <= results[0].value
      ensures computation.kind.Min? ==>
        (exists i | 0 <= i < |ms| :: ms[i].value == results[0].value)
        && forall i | 0 <= i < |ms| :: results[0].value <= ms[i].value
    {
      hide Aggregates.Total, Aggregates.Mean, Aggregates.Greatest, Aggregates.Least;
      hide Aggregates.Median, Aggregates.Variance, Aggregates.Tiles, ParseFlag, ParseValue;
      ghost var c := computation.State();
      OneResult(ms, c, sqrt, now);
      ExtremesYielded(ms, c, sqrt, now);
      AverageYielded(ms, c, sqrt, now);
      var result := Aggregates.NOTHING;
      match computation.kind {
      case Sum => result := Aggregates.Sum(ms, now);
      case Average => result := Aggregates.Average(ms, now);
      case Max => result := Aggregates.Maximum(ms, now);
      case Min => result := Aggregates.Minimum(ms, now);
      case Median => result := Aggregates.ComputeMedian(ms, now);
      case Variance => result := Aggregates.ComputeVariance(ms, now);
      case Deviation => result := Aggregates.Deviation(ms, sqrt, now);
      case Tiles =>
        var below := ParseFlag(GetOption(computation.options, "below"));
        var value := ParseValue(GetOption(computation.options, "value"));
        var factor := ParseValue(GetOption(computation.options, "multiplicator"));
        if below.None? || value.None? || factor.None? {
          return [];
        }
        result := Aggregates.ComputeTiles(ms, value.value, below.value, factor.value, now);
      case Unknown =>
        return [];
      }
      return [result];
    }

    /** Adds what is computed from `ms` to the global buffer. */
    method Compute(ms: seq<Message>, computation: MathComputation, now: ULong)
      requires buffer.Valid() && ms != []
      modifies buffer, buffer.client, buffer.buffers.Values
      ensures buffer.Valid() && fresh(buffer.Repr() - old(buffer.Repr()))
      ensures buffer.View()
           == AddAll(buffer.policy, buffer.client.link, old(buffer.View()),
                     Outcome(ms, computation.State(), sqrt, now))
    {
      hide Store.Add, AddAll, WellFormed, Outcome, GlobalBuffer.BufferOk, GlobalBuffer.Held, Largest, Payload;
      var results := Evaluate(ms, computation, now);
      AddAllNone(buffer.policy, buffer.client.link, buffer.View());
      if results != [] {
        AddAllStep(buffer.policy, buffer.client.link, buffer.View(), [], results[0]);
        OneResult(ms, computation.State(), sqrt, now);
        assert [] + [results[0]] == results;
        var _ := buffer.Add(results[0]);
      }
    }

    // ---------- One operation ----------

    ghost predicate OperationOk(op: MathOperation, kind: string, index: nat)
      reads op.buffer
    {
      && op.buffer.Valid()
      && op.buffer.policy == policy
      && op.buffer.place == op.computation.place == Maths(kind, index)
      && forall m | m in op.buffer.messages :: m.kind == kind
    }

    method ComputeOnCount(op: MathOperation, now: ULong)
      requires buffer.Valid() && op.buffer.Valid() && op.buffer !in buffer.buffers.Values
      requires !op.computation.onTime && |op.buffer.messages| >= op.computation.value
      modifies op.buffer`messages, op.buffer`sizes, buffer, buffer.client, buffer.buffers.Values
      ensures buffer.Valid() && fresh(buffer.Repr() - old(buffer.Repr()))
      ensures op.buffer !in buffer.buffers.Values
      ensures op.buffer.Valid() && op.State() == Iterated(old(op.State()), now)
      ensures buffer.View()
           == AddAll(buffer.policy, buffer.client.link, old(buffer.View()),
                     Outcomes(Batches(old(op.State()), now), old(op.computation.State()), sqrt, now))
    {
      hide AddAll, Outcome, Iterated, Batches, Outcomes, GlobalBuffer.BufferOk, GlobalBuffer.Held, Largest, Payload;
      hide GlobalBuffer.Valid, GlobalBuffer.View;
      ghost var c, link := op.computation.State(), buffer.client.link;
      ghost var batches := Batches(op.State(), now);
      BlockIsBatch(op.State(), now);
      OutcomesNone(c, sqrt, now);
      AddAllNone(buffer.policy, link, buffer.View());
      var messages := op.buffer.Get([], op.computation.Count());
      assert messages == old(op.buffer.messages)[..BlockSize(c, |old(op.buffer.messages)|)];
      assert buffer.View() == old(buffer.View());
      if messages != [] {
        OutcomesStep([], messages, c, sqrt, now);
        assert [] + [messages] == [messages] == batches;
        assert [] + Outcome(messages, c, sqrt, now) == Outcome(messages, c, sqrt, now);
        Compute(messages, op.computation, now);
      }
    }

    /** One window of the catch-up loop; tells whether the next window is over already. */
    method ComputeWindow(op: MathOperation, now: ULong) returns (more: bool)
      requires buffer.Valid() && op.buffer.Valid() && op.buffer !in buffer.buffers.Values && op.computation.onTime
      modifies op.buffer`messages, op.buffer`sizes, op.computation, buffer, buffer.client, buffer.buffers.Values
      ensures buffer.Valid() && fresh(buffer.Repr() - old(buffer.Repr()))
      ensures op.buffer !in buffer.buffers.Values
      ensures op.buffer.Valid() && op.buffer.maxMessages == old(op.buffer.maxMessages)
      ensures var c, items := old(op.computation.State()), old(op.buffer.messages);
        var due := Select(UpTo(c.last + c.value), items);
        if due == [] then
          && !more
          && op.buffer.messages == items && op.computation.State() == c.(last := now)
          && buffer.View() == old(buffer.View())
        else
          && more == (now > c.last + c.value + c.value)
          && op.buffer.messages == Select(After(c.last + c.value), items)
          && op.computation.State() == c.(last := c.last + c.value)
          && buffer.View()
             == AddAll(buffer.policy, buffer.client.link, old(buffer.View()), Outcome(due, c, sqrt, now))
    {
      hide AddAll, Outcome, Select, GlobalBuffer.BufferOk, GlobalBuffer.Held, Largest, Payload;
      ghost var c, items := op.computation.State(), op.buffer.messages;
      var messages := op.buffer.GetOlderThan([], op.computation.NextIterationTime());
      assert [] + Select(UpTo(c.last + c.value), items) == Select(UpTo(c.last + c.value), items);
      if messages == [] {
        NothingDue(c.last + c.value, items);
        op.computation.SetLastComputeTime(now);
        more := false;
      } else {
        Compute(messages, op.computation, now);
        op.computation.IncrementLastComputeTime();
        more := now > op.computation.NextIterationTime();
      }
    }

    method ComputeOnTime(op: MathOperation, now: ULong)
      requires buffer.Valid() && op.buffer.Valid() && op.buffer !in buffer.buffers.Values && op.computation.onTime
      requires now >= op.computation.lastComputeTime + op.computation.value
      modifies op.buffer`messages, op.buffer`sizes, op.computation, buffer, buffer.client, buffer.buffers.Values
      ensures buffer.Valid() && fresh(buffer.Repr() - old(buffer.Repr()))
      ensures op.buffer !in buffer.buffers.Values
      ensures op.buffer.Valid() && op.State() == Iterated(old(op.State()), now)
      ensures buffer.View()
           == AddAll(buffer.policy, buffer.client.link, old(buffer.View()),
                     Outcomes(Batches(old(op.State()), now), old(op.computation.State()), sqrt, now))
    {
      hide AddAll, Outcome, Select, Outcomes, Store.Add, WellFormed, GlobalBuffer.BufferOk, GlobalBuffer.Held,
        Largest, Payload, CatchUp;
      ghost var c, items, view := op.computation.State(), op.buffer.messages, buffer.View();
      ghost var all := CatchUp(items, c.last, c.value, now);
      ghost var done: seq<seq<Message>> := [];
      OutcomesNone(c, sqrt, now);
      AddAllNone(buffer.policy, buffer.client.link, view);
      var more := true;
      assert [] + all.batches == all.batches;
      while more
        invariant buffer.Valid() && fresh(buffer.Repr() - old(buffer.Repr()))
        invariant op.buffer !in buffer.buffers.Values
        invariant op.buffer.Valid() && op.buffer.maxMessages == old(op.buffer.maxMessages)
        invariant op.computation.State() == c.(last := op.computation.lastComputeTime)
        invariant if more then
            all == Prepend(done, CatchUp(op.buffer.messages, op.computation.lastComputeTime, c.value, now))
          else
            all == Sweep(done, op.buffer.messages, op.computation.lastComputeTime)
        invariant buffer.View() == AddAll(buffer.policy, buffer.client.link, view, Outcomes(done, c, sqrt, now))
        decreases more, |op.buffer.messages|
      {
        ghost var d, rest := op.computation.State(), op.buffer.messages;
        ghost var due := Select(UpTo(d.last + d.value), rest);
        SelectLess(d.last + d.value, rest);
        CatchUpStep(done, rest, d.last, d.value, now);
        more := ComputeWindow(op, now);
        if due != [] {
          OutcomesStep(done, due, c, sqrt, now);
          OutcomeIgnoresLast(due, c, d, sqrt, now);
          AddAllAppend(buffer.policy, buffer.client.link, view,
                       Outcomes(done, c, sqrt, now), Outcome(due, c, sqrt, now));
          done := done + [due];
        }
      }
    }

    /** The body of the loops of an iteration: one operation runs if it is due. */
    method IterateOperation(op: MathOperation, now: ULong)
      requires buffer.Valid() && op.buffer.Valid() && op.buffer !in buffer.buffers.Values
      modifies op.buffer`messages, op.buffer`sizes, op.computation, buffer, buffer.client, buffer.buffers.Values
      ensures buffer.Valid() && fresh(buffer.Repr() - old(buffer.Repr()))
      ensures op.buffer.Valid() && op.State() == Iterated(old(op.State()), now)
      ensures buffer.View()
           == AddAll(buffer.policy, buffer.client.link, old(buffer.View()),
                     Outcomes(Batches(old(op.State()), now), old(op.computation.State()), sqrt, now))
    {
      hide AddAll, Outcomes, WellFormed, GlobalBuffer.BufferOk, GlobalBuffer.Held, Largest, Payload, CatchUp;
      OutcomesNone(op.computation.State(), sqrt, now);
      AddAllNone(buffer.policy, buffer.client.link, buffer.View());
      if !op.computation.onTime {
        if |op.buffer.messages| >= op.computation.Count() {
          ComputeOnCount(op, now);
        }
      } else if now >= op.computation.NextIterationTime() {
        ComputeOnTime(op, now);
      }
    }

    ghost predicate OperationsOk(kind: string, ops: seq<MathOperation>)
      reads set op | op in ops :: op.buffer
    {
      forall i | 0 <= i < |ops| :: OperationOk(ops[i], kind, i)
    }

    lemma OperationsApart(kind: string, ops: seq<MathOperation>, i: nat)
      requires buffer.Valid() && OperationsOk(kind, ops) && i < |ops|
      ensures forall j | 0 <= j < |ops| :: ops[j].buffer !in buffer.buffers.Values && ops[j].buffer.Valid()
      ensures forall j | 0 <= j < |ops| && j != i ::
        ops[j].buffer != ops[i].buffer && ops[j].computation != ops[i].computation
    {
      forall j | 0 <= j < |ops| ensures ops[j].buffer !in buffer.buffers.Values && ops[j].buffer.Valid() {
        assert OperationOk(ops[j], kind, j);
        buffer.Apart(ops[j].buffer);
      }
      assert OperationOk(ops[i], kind, i);
      forall j | 0 <= j < |ops| && j != i
        ensures ops[j].buffer != ops[i].buffer && ops[j].computation != ops[i].computation
      {
        assert OperationOk(ops[j], kind, j);
      }
    }

    lemma OperationsApart'(kind: string, ops: seq<MathOperation>)
      requires buffer.Valid() && OperationsOk(kind, ops)
      ensures forall op | op in ops :: op.buffer !in buffer.buffers.Values
    {
      forall op | op in ops ensures op.buffer !in buffer.buffers.Values {
        var i :| 0 <= i < |ops| && ops[i] == op;
        OperationsApart(kind, ops, i);
      }
    }

    lemma IteratedStaysOk(op: MathOperation, before: Operation, kind: string, index: nat, now: nat)
      requires op.buffer.Valid() && op.buffer.policy == policy
      requires op.buffer.place == op.computation.place == Maths(kind, index)
      requires forall m | m in before.queue.items :: m.kind == kind
      requires op.State() == Iterated(before, now)
      ensures OperationOk(op, kind, index)
    {
      IterationConserves(before, now);
      forall m | m in op.buffer.messages ensures m.kind == kind {
        assert m in multiset(before.queue.items);
      }
    }

    /** One operation of a metric runs; the others are untouched. */
    method IterateAt(kind: string, ops: seq<MathOperation>, i: nat, now: ULong)
      requires buffer.Valid() && OperationsOk(kind, ops) && i < |ops|
      modifies ops[i].buffer, ops[i].computation, buffer, buffer.client, buffer.buffers.Values
      ensures buffer.Valid() && fresh(buffer.Repr() - old(buffer.Repr()))
      ensures OperationsOk(kind, ops)
      ensures States(ops) == old(States(ops))[i := Iterated(old(ops[i].State()), now)]
      ensures buffer.View()
           == AddAll(buffer.policy, buffer.client.link, old(buffer.View()),
                     Outcomes(Batches(old(ops[i].State()), now), old(ops[i].computation.State()), sqrt, now))
    {
      hide AddAll, Outcomes, Batches, Iterated, WellFormed, GlobalBuffer.BufferOk, GlobalBuffer.Held, Largest, Payload;
      hide States, Store.Add;
      OperationsApart(kind, ops, i);
      assert OperationOk(ops[i], kind, i);
      ghost var before := States(ops);
      IterateOperation(ops[i], now);
      IteratedStaysOk(ops[i], before[i], kind, i, now);
      forall j | 0 <= j < |ops| ensures OperationOk(ops[j], kind, j) {
        if j != i {
          assert old(OperationOk(ops[j], kind, j));
        }
      }
      assert States(ops) == before[i := Iterated(before[i], now)];
    }

    method IterateMetric(kind: string, ops: seq<MathOperation>, now: ULong)
      requires buffer.Valid() && OperationsOk(kind, ops)
      modifies set op | op in ops :: op.buffer
      modifies set op | op in ops :: op.computation
      modifies buffer, buffer.client, buffer.buffers.Values
      ensures buffer.Valid() && fresh(buffer.Repr() - old(buffer.Repr()))
      ensures OperationsOk(kind, ops) && States(ops) == IteratedAll(old(States(ops)), now)
      ensures buffer.View()
           == AddAll(buffer.policy, buffer.client.link, old(buffer.View()), Emitted(old(States(ops)), sqrt, now))
    {
      hide AddAll, Outcomes, Batches, Iterated, WellFormed, GlobalBuffer.BufferOk, GlobalBuffer.Held, Largest, Payload;
      hide States, Store.Add, Emitted, OperationsOk, IteratedAll;
      ghost var before, view, p, link := States(ops), buffer.View(), buffer.policy, buffer.client.link;
      EmittedNone(sqrt, now);
      AddAllNone(p, link, view);
      assert before[..0] == [] && before[..|ops|] == before;
      for i := 0 to |ops|
        invariant buffer.Valid() && fresh(buffer.Repr() - old(buffer.Repr()))
        invariant OperationsOk(kind, ops)
        invariant States(ops) == IteratedAll(before[..i], now) + before[i..]
        invariant buffer.View() == AddAll(p, link, view, Emitted(before[..i], sqrt, now))
      {
        assert ops[i].State() == States(ops)[i] == before[i];
        IteratedNext(before, i, now);
        IterateAt(kind, ops, i, now);
        EmittedNext(before, i, sqrt, now);
        AddAllAppend(p, link, view, Emitted(before[..i], sqrt, now),
                     Outcomes(Batches(before[i], now), before[i].computation, sqrt, now));
      }
      assert IteratedAll(before, now) + before[|ops|..] == IteratedAll(before, now);
    }

    // ---------- The whole pipeline ----------

    ghost function Owned(): set<object>
      reads this`buffers
    {
      (set k, i | k in buffers && 0 <= i < |buffers[k]| :: buffers[k][i].buffer as object)
      + (set k, i | k in buffers && 0 <= i < |buffers[k]| :: buffers[k][i].computation as object)
    }

    /** There are no operations but those there were before and new ones. */
    twostate predicate Grown()
      reads this`buffers
    {
      forall o | o in Owned() :: o in old(Owned()) || fresh(o)
    }

    ghost predicate Valid()
      reads this`buffers, Owned(), buffer, buffer.client, buffer.buffers.Values
    {
      && buffer.Valid()
      && forall k | k in buffers :: OperationsOk(k, buffers[k])
    }

    ghost function View(): MathsState
      reads this`buffers, Owned()
    {
      map k | k in buffers :: States(buffers[k])
    }

    /** The operations of one metric run; the other metrics are untouched. */
    method IterateKind(kind: string, now: ULong)
      requires Valid() && kind in buffers
      modifies Owned(), buffer, buffer.client, buffer.buffers.Values
      ensures buffers == old(buffers)
      ensures Valid() && buffer.Grown()
      ensures States(buffers[kind]) == IteratedAll(old(States(buffers[kind])), now)
      ensures forall k | k in buffers && k != kind :: States(buffers[k]) == old(States(buffers[k]))
      ensures buffer.View()
           == AddAll(buffer.policy, buffer.client.link, old(buffer.View()),
                     Emitted(old(States(buffers[kind])), sqrt, now))
    {
      hide AddAll, IteratedAll, Emitted, WellFormed, GlobalBuffer.BufferOk, GlobalBuffer.Held, Largest, Payload;
      hide States, Store.Add, GlobalBuffer.Valid, GlobalBuffer.View;
      hide OperationsOk, Valid, Owned, GlobalBuffer.Repr, GlobalBuffer.Grown;
      ValidParts();
      KindsApart(kind);
      OwnsAll(kind);
      IterateMetric(kind, buffers[kind], now);
      buffer.ReprGrown();
      OthersUntouched(kind);
    }

    lemma ValidParts()
      requires Valid()
      ensures buffer.Valid() && forall k | k in buffers :: OperationsOk(k, buffers[k])
    {
    }

    /** When the operations of one metric have run and no others have changed. */
    twostate lemma OthersUntouched(kind: string)
      requires old(Valid()) && kind in old(buffers) && buffers == old(buffers)
      requires buffer.Valid() && OperationsOk(kind, buffers[kind])
      requires forall k, op | k in buffers && k != kind && op in buffers[k] ::
        unchanged(op.buffer) && unchanged(op.computation)
      ensures Valid()
      ensures forall k | k in buffers && k != kind :: States(buffers[k]) == old(States(buffers[k]))
    {
      hide States, GlobalBuffer.Valid;
      forall k | k in buffers ensures OperationsOk(k, buffers[k]) {
        assert old(OperationsOk(k, buffers[k]));
      }
    }

    /** The metrics in `done` have run, the others are as they were. */
    ghost predicate Halfway(before: MathsState, done: set<string>, now: nat)
      reads this`buffers, Owned()
    {
      && before.Keys == buffers.Keys
      && forall k | k in before :: States(buffers[k]) == if k in done then IteratedAll(before[k], now) else before[k]
    }

    method IterateNext(kind: string, now: ULong, ghost before: MathsState, ghost done: set<string>)
      requires Valid() && Halfway(before, done, now) && kind in before && kind !in done
      modifies Owned(), buffer, buffer.client, buffer.buffers.Values
      ensures buffers == old(buffers)
      ensures Valid() && buffer.Grown()
      ensures Halfway(before, done + {kind}, now)
      ensures buffer.View()
           == AddAll(buffer.policy, buffer.client.link, old(buffer.View()), Emitted(before[kind], sqrt, now))
    {
      hide AddAll, IteratedAll, Emitted, GlobalBuffer.Valid, GlobalBuffer.View, States, Valid;
      IterateKind(kind, now);
    }

    /** Goes over the given metrics, which are all there are. */
    method IterateKinds(keys: seq<string>, now: ULong, ghost before: MathsState)
      requires Valid() && keys == Ordering.InOrder(before.Keys) && Halfway(before, {}, now)
      modifies Owned(), buffer, buffer.client, buffer.buffers.Values
      ensures buffers == old(buffers)
      ensures Valid() && buffer.Grown()
      ensures Halfway(before, before.Keys, now)
      ensures buffer.View()
           == AddAll(buffer.policy, buffer.client.link, old(buffer.View()), EmittedBy(before, keys, sqrt, now))
    {
      hide AddAll, Emitted, EmittedBy, Ordering.Elements, GlobalBuffer.Valid, GlobalBuffer.View, Valid, Halfway, Owned;
      ghost var view, p, link := buffer.View(), buffer.policy, buffer.client.link;
      EmittedByNone(before, sqrt, now);
      AddAllNone(p, link, view);
      Ordering.ElementsEnds(before.Keys);
      assert keys[..0] == [] && keys[..|keys|] == keys;
      ghost var done: set<string> := {};
      for i := 0 to |keys|
        invariant buffers == old(buffers)
        invariant Valid() && buffer.Grown()
        invariant done == Ordering.Elements(keys[..i]) && Halfway(before, done, now)
        invariant buffer.View() == AddAll(p, link, view, EmittedBy(before, keys[..i], sqrt, now))
      {
        var kind := keys[i];
        Ordering.ElementsStep(keys, i);
        IterateNext(kind, now, before, done);
        EmittedByNext(before, keys, i, sqrt, now);
        AddAllAppend(p, link, view, EmittedBy(before, keys[..i], sqrt, now), Emitted(before[kind], sqrt, now));
        done := done + {kind};
      }
    }

    /** Runs every operation that is due, metric by metric, and adds the results to the global buffer. */
    method Iteration(now: ULong)
      requires Valid()
      modifies Owned(), buffer, buffer.client, buffer.buffers.Values
      ensures buffers == old(buffers)
      ensures Valid() && buffer.Grown()
      ensures View() == IteratedState(old(View()), now)
      ensures buffer.View()
           == AddAll(buffer.policy, buffer.client.link, old(buffer.View()),
                     EmittedBy(old(View()), Ordering.InOrder(old(View()).Keys), sqrt, now))
    {
      hide AddAll, IteratedAll, Emitted, WellFormed, GlobalBuffer.BufferOk, GlobalBuffer.Held, Largest, Payload;
      hide States, Store.Add, EmittedBy, OperationsOk, Owned, GlobalBuffer.Valid, GlobalBuffer.View;
      ghost var before := View();
      assert before.Keys == buffers.Keys;
      IterateKinds(Ordering.InOrder(buffers.Keys), now, before);
    }

    lemma OwnsAll(kind: string)
      requires kind in buffers
      ensures forall op | op in buffers[kind] :: op.buffer in Owned() && op.computation in Owned()
      ensures (set op | op in buffers[kind] :: op.buffer as object) <= Owned()
    {
      forall op | op in buffers[kind] ensures op.buffer in Owned() && op.computation in Owned() {
        var i :| 0 <= i < |buffers[kind]| && buffers[kind][i] == op;
        assert buffers[kind][i].buffer in Owned();
      }
    }

    lemma KindsApart(kind: string)
      requires Valid() && kind in buffers
      ensures forall k, op, other | k in buffers && k != kind && op in buffers[k] && other in buffers[kind] ::
        op.buffer != other.buffer && op.computation != other.computation
      ensures forall k, op | k in buffers && op in buffers[k] :: op.buffer !in buffer.buffers.Values
    {
      forall k, op, other | k in buffers && k != kind && op in buffers[k] && other in buffers[kind]
        ensures op.buffer != other.buffer && op.computation != other.computation
      {
        var i :| 0 <= i < |buffers[k]| && buffers[k][i] == op;
        var j :| 0 <= j < |buffers[kind]| && buffers[kind][j] == other;
        assert OperationOk(op, k, i) && OperationOk(other, kind, j);
      }
      forall k, op | k in buffers && op in buffers[k] ensures op.buffer !in buffer.buffers.Values {
        var i :| 0 <= i < |buffers[k]| && buffers[k][i] == op;
        assert OperationOk(op, k, i);
        buffer.Apart(op.buffer);
      }
    }

    // ---------- Adding ----------

    method IsWanted(kind: string) returns (category: Option<Category>)
      ensures category == Wanted(categories, matches, kind)
      ensures category.None? <==> forall i | 0 <= i < |categories| :: !matches(categories[i].filter, kind)
      ensures category.Some? ==> exists i | 0 <= i < |categories| ::
        && category.value == categories[i] && matches(categories[i].filter, kind)
        && forall j | 0 <= j < i :: !matches(categories[j].filter, kind)
    {
      hide Wanted;
      WantedIsFirst(categories, matches, kind);
      assert categories[0..] == categories;
      for i := 0 to |categories|
        invariant Wanted(categories, matches, kind) == Wanted(categories[i..], matches, kind)
      {
        WantedStep(categories[i..], matches, kind);
        assert categories[i..][1..] == categories[i + 1..];
        if matches(categories[i].filter, kind) {
          return Some(categories[i]);
        }
      }
      assert categories[|categories|..] == [];
      WantedStep([], matches, kind);
      return None;
    }

    method CreateOperations(kind: string, computations: seq<Computation>) returns (ops: seq<MathOperation>)
      ensures OperationsOk(kind, ops) && States(ops) == NewOperations(computations)
      ensures forall op | op in ops :: fresh(op) && fresh(op.buffer) && fresh(op.computation)
    {
      hide Largest;
      ops := [];
      for i := 0 to |computations|
        invariant |ops| == i && OperationsOk(kind, ops)
        invariant forall j | 0 <= j < i :: ops[j].State() == Operation(computations[j], EMPTY)
        invariant forall op | op in ops :: fresh(op) && fresh(op.buffer) && fresh(op.computation)
      {
        var c := computations[i];
        var op := new MathOperation(c, kind + " " + TypeName(c.kind), policy, Maths(kind, i));
        ops := ops + [op];
        assert OperationOk(op, kind, i);
      }
      assert States(ops) == NewOperations(computations);
    }

    /** One operation of a metric accepts a message; the others are untouched. */
    method AddAt(kind: string, ops: seq<MathOperation>, i: nat, message: Message)
      requires OperationsOk(kind, ops) && i < |ops| && message.kind == kind
      modifies ops[i].buffer
      ensures OperationsOk(kind, ops)
      ensures States(ops) == old(States(ops))[i := Pushed(policy, old(ops[i].State()), message)]
    {
      hide Largest, States;
      assert OperationOk(ops[i], kind, i);
      ghost var before := States(ops);
      var _ := ops[i].buffer.Add(message);
      forall j | 0 <= j < |ops| ensures OperationOk(ops[j], kind, j) {
        assert old(OperationOk(ops[j], kind, j));
      }
      forall j | 0 <= j < |ops| && j != i ensures ops[j].State() == before[j] {
        assert OperationOk(ops[j], kind, j) && OperationOk(ops[i], kind, i);
      }
      assert States(ops) == before[i := Pushed(policy, before[i], message)];
    }

    method AddToOperations(kind: string, ops: seq<MathOperation>, name: string, message: Message)
      requires OperationsOk(kind, ops) && message.kind == kind
      modifies set op | op in ops :: op.buffer
      ensures OperationsOk(kind, ops) && States(ops) == AddTo(policy, old(States(ops)), name, message)
    {
      hide Largest, States, OperationsOk, Push;
      ghost var before := States(ops);
      if name != "" {
        for i := 0 to |ops|
          invariant OperationsOk(kind, ops) && States(ops) == before
          invariant forall j | 0 <= j < i :: TypeName(before[j].computation.kind) != name
        {
          assert before[i] == ops[i].State();
          if TypeName(ops[i].computation.kind) == name {
            AddAt(kind, ops, i, message);
            assert FirstOfType(before, name) == i;
            break;
          }
        }
      } else {
        for i := 0 to |ops|
          invariant OperationsOk(kind, ops)
          invariant forall j | 0 <= j < |ops| ::
            States(ops)[j] == if j < i then Pushed(policy, before[j], message) else before[j]
        {
          assert States(ops)[i] == ops[i].State();
          AddAt(kind, ops, i, message);
        }
        assert States(ops) == AddTo(policy, before, name, message);
      }
    }

    /** Adds a message to the operations of its metric; tells whether any category wants it. */
    method Add(message: Message, name: string) returns (ok: bool)
      requires Valid()
      modifies this`buffers, Owned()
      ensures Valid() && Grown()
      ensures ok <==> Wanted(categories, matches, message.kind).Some?
      ensures View() == AddMessage(categories, matches, policy, old(View()), message, name)
    {
      hide States, OperationsOk, GlobalBuffer.Valid;
      if categories == [] {
        return false;
      }
      var category := IsWanted(message.kind);
      assert View() == old(View()) && Owned() == old(Owned());
      if category.None? {
        return false;
      }
      AddWanted(category.value, message, name);
      return true;
    }

    /** When the operations of one more metric have been put into the map. */
    twostate lemma OneMoreMetric(kind: string, new ops: seq<MathOperation>)
      requires old(Valid()) && buffer.Valid() && kind !in old(buffers) && buffers == old(buffers)[kind := ops]
      requires OperationsOk(kind, ops) && forall op | op in ops :: fresh(op.buffer) && fresh(op.computation)
      requires forall k, op | k in old(buffers) && op in old(buffers)[k] ::
        unchanged(op.buffer) && unchanged(op.computation)
      ensures Valid() && View() == old(View())[kind := States(ops)]
    {
      hide States, OperationsOk, GlobalBuffer.Valid, Owned;
      forall k | k in old(buffers)
        ensures OperationsOk(k, buffers[k]) && States(buffers[k]) == old(States(buffers[k]))
      {
        assert old(OperationsOk(k, buffers[k]));
      }
    }

    twostate lemma GrownByOne(kind: string, new ops: seq<MathOperation>)
      requires kind !in old(buffers) && buffers == old(buffers)[kind := ops]
      requires forall op | op in ops :: fresh(op.buffer) && fresh(op.computation)
      ensures Grown()
    {
    }

    /** The operations of a metric, created when there are none yet. */
    method OperationsFor(kind: string, category: Category) returns (ops: seq<MathOperation>)
      requires Valid()
      modifies this`buffers
      ensures Valid() && Grown()
      ensures kind in buffers && buffers[kind] == ops
      ensures View() == old(View())[kind :=
        if kind in old(buffers) then old(States(buffers[kind])) else NewOperations(category.computations)]
    {
      hide States, NewOperations, OperationsOk, GlobalBuffer.Valid, WellFormed;
      if kind in buffers {
        ops := buffers[kind];
      } else {
        ops := AddMetric(kind, category.computations);
      }
    }

    method AddMetric(kind: string, computations: seq<Computation>) returns (ops: seq<MathOperation>)
      requires Valid() && kind !in buffers
      modifies this`buffers
      ensures Valid() && Grown()
      ensures buffers == old(buffers)[kind := ops]
      ensures View() == old(View())[kind := NewOperations(computations)]
    {
      hide States, NewOperations, OperationsOk, GlobalBuffer.Valid, View, Grown;
      ops := CreateOperations(kind, computations);
      buffers := buffers[kind := ops];
      OneMoreMetric(kind, ops);
      GrownByOne(kind, ops);
    }

    /** Adds a message to the operations of a metric that has some. */
    method AddToMetric(message: Message, name: string)
      requires Valid() && message.kind in buffers
      modifies set op | op in buffers[message.kind] :: op.buffer
      ensures buffers == old(buffers) && Valid()
      ensures View() == old(View())[message.kind := AddTo(policy, old(View())[message.kind], name, message)]
    {
      hide States, OperationsOk, GlobalBuffer.Valid, WellFormed, AddTo;
      ghost var before := View();
      var kind := message.kind;
      KindsApart(kind);
      AddToOperations(kind, buffers[kind], name, message);
      forall k | k in buffers && k != kind
        ensures OperationsOk(k, buffers[k]) && States(buffers[k]) == before[k]
      {
        assert old(OperationsOk(k, buffers[k]));
      }
      assert View() == before[kind := AddTo(policy, before[kind], name, message)];
    }

    method AddWanted(category: Category, message: Message, name: string)
      requires Valid()
      requires Wanted(categories, matches, message.kind) == Some(category)
      modifies this`buffers, Owned()
      ensures Valid() && Grown()
      ensures View() == AddMessage(categories, matches, policy, old(View()), message, name)
    {
      hide States, NewOperations, GlobalBuffer.Valid, WellFormed, AddTo, Wanted, OperationsOk;
      ghost var before := View();
      AddMessageInSteps(categories, matches, policy, before, message, name);
      var _ := OperationsFor(message.kind, category);
      OwnsAll(message.kind);
      AddToMetric(message, name);
    }
  }

  lemma AddMessageInSteps(categories: seq<Category>, matches: Matches, p: Policy, s: MathsState,
                          m: Message, name: string)
    requires Wanted(categories, matches, m.kind).Some?
    ensures var category := Wanted(categories, matches, m.kind).value;
      var found := s[m.kind := if m.kind in s then s[m.kind] else NewOperations(category.computations)];
      AddMessage(categories, matches, p, s, m, name) == found[m.kind := AddTo(p, found[m.kind], name, m)]
  {
    hide NewOperations, AddTo, Wanted;
  }

  lemma BlockIsBatch(op: Operation, now: nat)
    requires !op.computation.onTime && |op.queue.items| >= op.computation.value
    ensures var n := BlockSize(op.computation, |op.queue.items|);
      && Iterated(op, now) == op.(queue := Queue(op.queue.items[n..], op.queue.peak))
      && Batches(op, now) == if op.queue.items == [] then [] else [op.queue.items[..n]]
  {
  }
}
