/**
 Whole runs of the maths pipeline: messages are accepted and iterations happen, in any order. Seen from
 one operation, a run of the pipeline is a run of that operation from the moment it is created.
 */
module PipelineRuns {
  import opened Messages
  import opened Numbers
  import opened Queues
  import opened Computations
  import opened Windows
  import opened Runs
  import opened Evaluation
  import opened Pipelines
  import opened SaveLoad
  import Ordering

  // ---------- The operations of a metric ----------

  /** The operations of a metric as its category has them, when its first message arrives. */
  function Types(c: Settings, kind: string): seq<Operation>
    requires IsWanted(c, kind)
  {
    NewOperations(Wanted(c.categories, c.matches, kind).value.computations)
  }

  function NameOf(op: Operation): string {
    TypeName(op.computation.kind)
  }

  /** The same computation, apart from when it last ran. */
  predicate SameComputation(a: Operation, b: Operation) {
    a.computation == b.computation.(last := a.computation.last)
  }

  predicate SameComputations(a: seq<Operation>, b: seq<Operation>) {
    |a| == |b| && forall i | 0 <= i < |a| :: SameComputation(a[i], b[i])
  }

  lemma SameFirst(a: seq<Operation>, b: seq<Operation>, name: string)
    requires SameComputations(a, b)
    ensures FirstOfType(a, name) == FirstOfType(b, name)
  {
    var i, j := FirstOfType(a, name), FirstOfType(b, name);
    assert i < |a| ==> SameComputation(a[i], b[i]);
    assert j < |b| ==> SameComputation(a[j], b[j]);
  }

  predicate QueueFits(c: Settings, q: Queue, kind: string) {
    |q.items| <= c.mathsCapacity && forall m | m in q.items :: m.kind == kind
  }

  /** A metric some category wants has the operations of that category, which hold messages of the metric
      within capacity. */
  ghost predicate ConfiguredFor(c: Settings, ops: seq<Operation>, kind: string) {
    && IsWanted(c, kind)
    && SameComputations(ops, Types(c, kind))
    && forall i | 0 <= i < |ops| :: QueueFits(c, ops[i].queue, kind)
  }

  ghost predicate Configured(c: Settings, s: MathsState) {
    forall k | k in s :: ConfiguredFor(c, s[k], k)
  }

  /** An operation of a metric; as created when there is none yet. */
  function OperationAt(c: Settings, s: MathsState, kind: string, i: nat): Operation
    requires IsWanted(c, kind) && i < |Types(c, kind)|
  {
    if kind in s && i < |s[kind]| then s[kind][i] else Types(c, kind)[i]
  }

  // ---------- One message ----------

  function Accepted(c: Settings, s: MathsState, m: Message, name: string): MathsState {
    AddMessage(c.categories, c.matches, c.MathsPolicy(), s, m, name)
  }

  /** Whether operation `i` of a metric gets a message that was added under the given type. */
  predicate Takes(c: Settings, m: Message, name: string, kind: string, i: nat)
    requires IsWanted(c, kind)
  {
    m.kind == kind && (name == "" || FirstOfType(Types(c, kind), name) == i)
  }

  function Taken(c: Settings, op: Operation, m: Message, name: string, kind: string, i: nat): Operation
    requires IsWanted(c, kind)
  {
    if Takes(c, m, name, kind, i) then Pushed(c.MathsPolicy(), op, m) else op
  }

  function Found(c: Settings, s: MathsState, kind: string): seq<Operation>
    requires IsWanted(c, kind)
  {
    if kind in s then s[kind] else Types(c, kind)
  }

  lemma AcceptedState(c: Settings, s: MathsState, m: Message, name: string)
    ensures Accepted(c, s, m, name)
         == if IsWanted(c, m.kind) then s[m.kind := AddTo(c.MathsPolicy(), Found(c, s, m.kind), name, m)] else s
  {
    hide AddTo, NewOperations;
  }

  lemma NewIsConfigured(c: Settings, kind: string)
    requires IsWanted(c, kind)
    ensures ConfiguredFor(c, Types(c, kind), kind)
  {
    hide TypeName;
  }

  lemma AddToOps(c: Settings, ops: seq<Operation>, m: Message, name: string)
    requires ConfiguredFor(c, ops, m.kind)
    ensures var r := AddTo(c.MathsPolicy(), ops, name, m);
      && ConfiguredFor(c, r, m.kind)
      && forall i | 0 <= i < |r| :: r[i] == Taken(c, ops[i], m, name, m.kind, i)
  {
    hide Types, IsWanted, FirstOfType;
    SameFirst(ops, Types(c, m.kind), name);
    var r := AddTo(c.MathsPolicy(), ops, name, m);
    forall i | 0 <= i < |r|
      ensures r[i] == Taken(c, ops[i], m, name, m.kind, i)
      ensures SameComputation(r[i], Types(c, m.kind)[i]) && QueueFits(c, r[i].queue, m.kind)
    {
      assert SameComputation(ops[i], Types(c, m.kind)[i]) && QueueFits(c, ops[i].queue, m.kind);
    }
  }

  /** A message reaches the operations it is for, creates those of its metric, and touches no other. */
  lemma AcceptOne(c: Settings, s: MathsState, m: Message, name: string)
    requires Configured(c, s)
    ensures var t := Accepted(c, s, m, name);
      && Configured(c, t)
      && t.Keys == s.Keys + (if IsWanted(c, m.kind) then {m.kind} else {})
  {
    hide AddTo, Found, ConfiguredFor, IsWanted;
    AcceptedState(c, s, m, name);
    if IsWanted(c, m.kind) {
      FoundIsConfigured(c, s, m.kind);
      AddToOps(c, Found(c, s, m.kind), m, name);
    }
  }

  lemma FoundIsConfigured(c: Settings, s: MathsState, kind: string)
    requires Configured(c, s) && IsWanted(c, kind)
    ensures ConfiguredFor(c, Found(c, s, kind), kind)
  {
    hide ConfiguredFor;
    NewIsConfigured(c, kind);
  }

  lemma AcceptAt(c: Settings, s: MathsState, m: Message, name: string, kind: string, i: nat)
    requires Configured(c, s) && IsWanted(c, kind) && i < |Types(c, kind)|
    ensures OperationAt(c, Accepted(c, s, m, name), kind, i)
         == Taken(c, OperationAt(c, s, kind, i), m, name, kind, i)
  {
    hide AddTo, FirstOfType, Types, IsWanted, Push;
    AcceptedState(c, s, m, name);
    if m.kind == kind {
      FoundIsConfigured(c, s, kind);
      AddToOps(c, Found(c, s, kind), m, name);
    }
  }

  // ---------- One iteration ----------

  lemma IteratedFits(c: Settings, op: Operation, kind: string, now: nat)
    requires QueueFits(c, op.queue, kind)
    ensures QueueFits(c, Iterated(op, now).queue, kind) && SameComputation(Iterated(op, now), op)
  {
    hide Batches, Flatten;
    var before, after := op.queue.items, Iterated(op, now).queue.items;
    IterationConserves(op, now);
    assert |multiset(before)| == |before| && |multiset(after)| == |after|;
    forall m | m in after ensures m.kind == kind {
      assert m in multiset(before);
    }
  }

  lemma IterateAll(c: Settings, s: MathsState, now: nat)
    requires Configured(c, s)
    ensures Configured(c, IteratedState(s, now))
  {
    hide Types, IsWanted, Iterated;
    forall k | k in s ensures ConfiguredFor(c, IteratedAll(s[k], now), k) {
      assert ConfiguredFor(c, s[k], k);
      forall i | 0 <= i < |s[k]|
        ensures QueueFits(c, Iterated(s[k][i], now).queue, k)
        ensures SameComputation(Iterated(s[k][i], now), Types(c, k)[i])
      {
        assert QueueFits(c, s[k][i].queue, k) && SameComputation(s[k][i], Types(c, k)[i]);
        IteratedFits(c, s[k][i], k, now);
      }
    }
  }

  lemma IterateOne(c: Settings, s: MathsState, now: nat, kind: string, i: nat)
    requires Configured(c, s) && IsWanted(c, kind) && i < |Types(c, kind)|
    ensures OperationAt(c, IteratedState(s, now), kind, i)
         == if kind in s then Iterated(OperationAt(c, s, kind, i), now) else OperationAt(c, s, kind, i)
  {
    hide Types, IsWanted, Iterated;
    assert kind in s ==> ConfiguredFor(c, s[kind], kind);
  }

  // ---------- Runs ----------

  /** What happens to a pipeline: `MathsPipeline.Add` and `MathsPipeline.Iteration`. */
  datatype PipelineEvent = Accept(message: Message, name: string) | Iterate(now: ULong)

  function NextState(c: Settings, s: MathsState, e: PipelineEvent): MathsState {
    match e
    case Accept(m, name) => Accepted(c, s, m, name)
    case Iterate(now) => IteratedState(s, now)
  }

  function PipelineRun(c: Settings, events: seq<PipelineEvent>): MathsState {
    if events == [] then map[] else NextState(c, PipelineRun(c, events[..|events| - 1]), events[|events| - 1])
  }

  /** In every state a pipeline can reach, a metric has the operations of its category, holding its own
      messages within capacity. */
  lemma {:induction false} RunIsConfigured(c: Settings, events: seq<PipelineEvent>)
    ensures Configured(c, PipelineRun(c, events))
  {
    hide Accepted, IteratedState, ConfiguredFor;
    if events == [] {
    } else {
      var s := PipelineRun(c, events[..|events| - 1]);
      RunIsConfigured(c, events[..|events| - 1]);
      match events[|events| - 1]
      case Accept(m, name) => AcceptOne(c, s, m, name);
      case Iterate(now) => IterateAll(c, s, now);
    }
  }

  /** What happens to one operation, which is created with its metric. */
  function Projected(c: Settings, events: seq<PipelineEvent>, kind: string, i: nat): seq<Runs.Event>
    requires IsWanted(c, kind)
  {
    if events == [] then []
    else
      var front := events[..|events| - 1];
      Projected(c, front, kind, i) + OwnEvent(c, PipelineRun(c, front), events[|events| - 1], kind, i)
  }

  function OwnEvent(c: Settings, s: MathsState, e: PipelineEvent, kind: string, i: nat): seq<Runs.Event>
    requires IsWanted(c, kind)
  {
    match e
    case Accept(m, name) => if Takes(c, m, name, kind, i) then [Arrive(m)] else []
    case Iterate(now) => if kind in s then [Tick(now)] else []
  }

  /** The operation with its history. */
  function HistoryOf(c: Settings, events: seq<PipelineEvent>, kind: string, i: nat, clock: nat): History
    requires IsWanted(c, kind) && i < |Types(c, kind)|
  {
    Run(c.mathsCapacity, Start(Types(c, kind)[i].computation, clock), Projected(c, events, kind, i))
  }

  lemma HistoryNext(c: Settings, events: seq<PipelineEvent>, kind: string, i: nat, clock: nat)
    requires IsWanted(c, kind) && i < |Types(c, kind)| && events != []
    ensures var front := events[..|events| - 1];
      var h, own := HistoryOf(c, front, kind, i, clock),
        OwnEvent(c, PipelineRun(c, front), events[|events| - 1], kind, i);
      HistoryOf(c, events, kind, i, clock) == if own == [] then h else Step(c.mathsCapacity, h, own[0])
  {
    hide Types, IsWanted, Takes, Step, PipelineRun;
    var front := events[..|events| - 1];
    var before, own := Projected(c, front, kind, i), OwnEvent(c, PipelineRun(c, front), events[|events| - 1], kind, i);
    if own == [] {
      assert before + own == before;
    } else {
      assert (before + own)[..|before + own| - 1] == before;
    }
  }

  /** The state of an operation in a run of the pipeline is what its own run makes of it. */
  lemma {:induction false} RunProjects(c: Settings, events: seq<PipelineEvent>, kind: string, i: nat, clock: nat)
    requires IsWanted(c, kind) && i < |Types(c, kind)|
    ensures OperationAt(c, PipelineRun(c, events), kind, i) == HistoryOf(c, events, kind, i, clock).op
    ensures kind in PipelineRun(c, events) ==> |PipelineRun(c, events)[kind]| == |Types(c, kind)|
  {
    hide Types, IsWanted, Takes, Iterated, Batches, HistoryOf, Push, OperationAt, Accepted, IteratedState;
    if events == [] {
      NoHistory(c, kind, i, clock);
    } else {
      var front, e := events[..|events| - 1], events[|events| - 1];
      RunProjects(c, front, kind, i, clock);
      RunIsConfigured(c, front);
      HistoryNext(c, events, kind, i, clock);
      match e
      case Accept(m, name) => AcceptAt(c, PipelineRun(c, front), m, name, kind, i);
      case Iterate(now) => IterateOne(c, PipelineRun(c, front), now, kind, i);
    }
    RunIsConfigured(c, events);
    assert kind in PipelineRun(c, events) ==> ConfiguredFor(c, PipelineRun(c, events)[kind], kind);
  }

  lemma NoHistory(c: Settings, kind: string, i: nat, clock: nat)
    requires IsWanted(c, kind) && i < |Types(c, kind)|
    ensures HistoryOf(c, [], kind, i, clock).op == OperationAt(c, map[], kind, i)
  {
  }

  // ---------- What that means for a pipeline ----------

  function LastTime(events: seq<PipelineEvent>, clock: nat): nat {
    if events == [] then clock
    else
      match events[|events| - 1]
      case Accept(_, _) => LastTime(events[..|events| - 1], clock)
      case Iterate(now) => now
  }

  /** The clock never goes back. */
  predicate InTime(events: seq<PipelineEvent>, clock: nat) {
    events == [] ||
    var front, last := events[..|events| - 1], events[|events| - 1];
    InTime(front, clock) && (last.Iterate? ==> LastTime(front, clock) <= last.now)
  }

  lemma {:induction false} ProjectedInTime(c: Settings, events: seq<PipelineEvent>, kind: string, i: nat, clock: nat)
    requires IsWanted(c, kind) && i < |Types(c, kind)| && InTime(events, clock)
    ensures HistoryOf(c, events, kind, i, clock).clock <= LastTime(events, clock)
    ensures Chronological(c.mathsCapacity, Start(Types(c, kind)[i].computation, clock), Projected(c, events, kind, i))
  {
    hide Types, IsWanted, Takes, PipelineRun, Run;
    if events == [] {
      RunOfNothing(c.mathsCapacity, Start(Types(c, kind)[i].computation, clock));
    } else {
      var front, e := events[..|events| - 1], events[|events| - 1];
      ProjectedInTime(c, front, kind, i, clock);
      HistoryNext(c, events, kind, i, clock);
      var before, own := Projected(c, front, kind, i), OwnEvent(c, PipelineRun(c, front), e, kind, i);
      if own == [] {
        assert before + own == before;
      } else {
        assert (before + own)[..|before + own| - 1] == before && (before + own)[|before + own| - 1] == own[0];
      }
    }
  }

  lemma RunOfNothing(capacity: Capacity, h: History)
    ensures Run(capacity, h, []) == h
  {
  }

  /** Over every run of the pipeline under a clock that does not go back: after an iteration no operation
      on time lags more than one window behind, and none has computed a message from the future. */
  lemma {:induction false} PipelineStaysInTime(c: Settings, events: seq<PipelineEvent>, now: ULong,
                                               kind: string, i: nat, clock: nat)
    requires InTime(events + [Iterate(now)], clock)
    requires kind in PipelineRun(c, events) && IsWanted(c, kind) && i < |Types(c, kind)|
    requires Types(c, kind)[i].computation.onTime && Types(c, kind)[i].computation.last <= clock
    ensures var computation := OperationAt(c, PipelineRun(c, events + [Iterate(now)]), kind, i).computation;
      computation.last <= now <= computation.last + computation.value
    ensures var h := HistoryOf(c, events + [Iterate(now)], kind, i, clock);
      h.clock == now && forall m | m in Flatten(h.batches) :: m.timestamp <= now
  {
    hide Types, IsWanted, Takes, OperationAt, NextState, Iterated, Flatten, Batches;
    var all := events + [Iterate(now)];
    assert all[..|all| - 1] == events;
    RunProjects(c, all, kind, i, clock);
    ProjectedInTime(c, all, kind, i, clock);
    HistoryNext(c, all, kind, i, clock);
    var projected := Projected(c, all, kind, i);
    assert OwnEvent(c, PipelineRun(c, events), Iterate(now), kind, i) == [Tick(now)];
    assert projected == Projected(c, events, kind, i) + [Tick(now)];
    BoundedStaleness(c.mathsCapacity, Types(c, kind)[i].computation, clock, projected);
  }

  /** Metrics stay. */
  lemma {:induction false} MetricsStay(c: Settings, events: seq<PipelineEvent>, more: seq<PipelineEvent>)
    ensures PipelineRun(c, events).Keys <= PipelineRun(c, events + more).Keys
  {
    hide IsWanted, AddTo, NewOperations, IteratedAll;
    if more == [] {
      assert events + more == events;
    } else {
      var n := |more| - 1;
      MetricsStay(c, events, more[..n]);
      assert (events + more)[..|events + more| - 1] == events + more[..n];
    }
  }

  /** More events add to what has happened to an operation; the iterations among them reach it once it is
      there. */
  lemma {:induction false} ProjectedMore(c: Settings, events: seq<PipelineEvent>, more: seq<PipelineEvent>,
                                         kind: string, i: nat)
    requires IsWanted(c, kind)
    ensures Projected(c, events, kind, i) <= Projected(c, events + more, kind, i)
    ensures kind in PipelineRun(c, events) ==> forall j | 0 <= j < |more| && more[j].Iterate? ::
      Tick(more[j].now) in Projected(c, events + more, kind, i)[|Projected(c, events, kind, i)|..]
  {
    hide IsWanted, Takes, PipelineRun;
    if more == [] {
      assert events + more == events;
    } else {
      var n := |more| - 1;
      var all, front, last := events + more, events + more[..n], more[n];
      assert all[..|all| - 1] == front;
      ProjectedMore(c, events, more[..n], kind, i);
      MetricsStay(c, events, more[..n]);
      var before := Projected(c, front, kind, i);
      var own := OwnEvent(c, PipelineRun(c, front), last, kind, i);
      TicksMore(before, own, |Projected(c, events, kind, i)|, more);
    }
  }

  lemma TicksMore(before: seq<Runs.Event>, own: seq<Runs.Event>, size: nat, more: seq<PipelineEvent>)
    requires size <= |before| && more != []
    ensures var n := |more| - 1;
      (forall j | 0 <= j < n && more[..n][j].Iterate? :: Tick(more[..n][j].now) in before[size..])
      && (more[n].Iterate? ==> own == [Tick(more[n].now)])
      ==> forall j | 0 <= j < |more| && more[j].Iterate? :: Tick(more[j].now) in (before + own)[size..]
  {
    var n := |more| - 1;
    assert (before + own)[size..] == before[size..] + own;
    assert forall j | 0 <= j < n :: more[..n][j] == more[j];
  }

  lemma {:induction false} RunInParts(capacity: Capacity, h: History, a: seq<Runs.Event>, b: seq<Runs.Event>)
    ensures Run(capacity, h, a + b) == Run(capacity, Run(capacity, h, a), b)
  {
    hide Step;
    if b == [] {
      assert a + b == a;
    } else {
      var n := |b| - 1;
      assert (a + b)[..|a + b| - 1] == a + b[..n];
      RunInParts(capacity, h, a, b[..n]);
    }
  }

  /** In every run of the pipeline, what was due for an operation that is up to date but is still buffered
      is all computed, in one batch, no later than the first iteration one window on. */
  lemma PipelineComputesDue(c: Settings, events: seq<PipelineEvent>, more: seq<PipelineEvent>,
                                               kind: string, i: nat, clock: nat)
    requires IsWanted(c, kind) && i < |Types(c, kind)| && kind in PipelineRun(c, events)
    requires Types(c, kind)[i].computation.onTime
    requires var h := HistoryOf(c, events, kind, i, clock);
      && Fresh(h) && Select(UpTo(h.clock), h.op.queue.items) != []
      && exists j :: 0 <= j < |more| && more[j].Iterate? && more[j].now >= h.clock + h.op.computation.value
    ensures TakenSince(HistoryOf(c, events, kind, i, clock), HistoryOf(c, events + more, kind, i, clock))
  {
    hide Types, IsWanted, Takes, PipelineRun, Run, Select, TakenSince, Projected, Untouched;
    var start := Start(Types(c, kind)[i].computation, clock);
    var before, all := Projected(c, events, kind, i), Projected(c, events + more, kind, i);
    var h := HistoryOf(c, events, kind, i, clock);
    ProjectedMore(c, events, more, kind, i);
    RunKeepsKind(c.mathsCapacity, start, before);
    var tail := all[|before|..];
    assert all == before + tail;
    RunInParts(c.mathsCapacity, start, before, tail);
    var j :| 0 <= j < |more| && more[j].Iterate? && more[j].now >= h.clock + h.op.computation.value;
    assert Tick(more[j].now) in tail;
    DueIsComputed(c.mathsCapacity, h, tail);
  }

  lemma {:induction false} RunKeepsKind(capacity: Capacity, h: History, events: seq<Runs.Event>)
    ensures var t := Run(capacity, h, events);
      t.op.computation == h.op.computation.(last := t.op.computation.last)
  {
    hide Batches, Push;
    if events == [] {
    } else {
      RunKeepsKind(capacity, h, events[..|events| - 1]);
    }
  }

  /** Over every run of the pipeline an operation on count has computed what it accepted in blocks of
      exactly its size, and holds the rest. */
  lemma {:induction false} PipelineCountsInBlocks(c: Settings, events: seq<PipelineEvent>, kind: string, i: nat)
    requires IsWanted(c, kind) && i < |Types(c, kind)|
    requires Admissible(Types(c, kind)[i].computation) && !Types(c, kind)[i].computation.onTime
    ensures var h := HistoryOf(c, events, kind, i, 0);
      && h.op == OperationAt(c, PipelineRun(c, events), kind, i)
      && h.accepted == Flatten(h.batches) + h.op.queue.items
      && forall n | 0 <= n < |h.batches| :: |h.batches[n]| == Types(c, kind)[i].computation.value
  {
    hide Types, IsWanted, OperationAt, Flatten, Run, Projected, PipelineRun;
    RunProjects(c, events, kind, i, 0);
    CountInBlocks(c.mathsCapacity, Types(c, kind)[i].computation, 0, Projected(c, events, kind, i));
  }

  // ---------- Results ----------

  lemma {:induction false} OutcomesOfKind(batches: seq<seq<Message>>, c: Computation, sqrt: real -> real, now: ULong,
                                          kind: string)
    requires forall m | m in Flatten(batches) :: m.kind == kind
    ensures forall m | m in Outcomes(batches, c, sqrt, now) :: m.kind == kind
  {
    if batches == [] {
    } else {
      var front, last := batches[..|batches| - 1], batches[|batches| - 1];
      assert forall m | m in Flatten(front) :: m in Flatten(batches);
      assert forall m | m in last :: m in Flatten(batches);
      OutcomesOfKind(front, c, sqrt, now, kind);
      if last != [] {
        OutcomeOfKind(last, c, sqrt, now);
      }
    }
  }

  lemma OutcomeOfKind(ms: seq<Message>, c: Computation, sqrt: real -> real, now: ULong)
    requires ms != []
    ensures forall m | m in Outcome(ms, c, sqrt, now) :: m.kind == ms[0].kind
    ensures ms[0] in ms
  {
  }

  lemma {:induction false} EmittedOfKind(c: Settings, ops: seq<Operation>, sqrt: real -> real, now: ULong, kind: string)
    requires forall i | 0 <= i < |ops| :: QueueFits(c, ops[i].queue, kind)
    ensures forall m | m in Emitted(ops, sqrt, now) :: m.kind == kind
  {
    hide Outcomes, Batches, Flatten;
    if ops == [] {
    } else {
      var last := ops[|ops| - 1];
      EmittedOfKind(c, ops[..|ops| - 1], sqrt, now, kind);
      assert QueueFits(c, last.queue, kind);
      IterationConserves(last, now);
      forall m | m in Flatten(Batches(last, now)) ensures m.kind == kind {
        assert m in multiset(last.queue.items);
      }
      OutcomesOfKind(Batches(last, now), last.computation, sqrt, now, kind);
    }
  }

  /** Every result a pipeline hands to the global buffer carries the name of a metric that a category
      wants. */
  lemma {:induction false} ResultsAreWanted(c: Settings, s: MathsState, keys: seq<string>, sqrt: real -> real,
                                            now: ULong)
    requires Configured(c, s) && forall k | k in keys :: k in s
    ensures forall m | m in EmittedBy(s, keys, sqrt, now) :: m.kind in s && IsWanted(c, m.kind)
  {
    hide Emitted, IsWanted, Types;
    if keys == [] {
    } else {
      var k := keys[|keys| - 1];
      ResultsAreWanted(c, s, keys[..|keys| - 1], sqrt, now);
      assert ConfiguredFor(c, s[k], k);
      EmittedOfKind(c, s[k], sqrt, now, k);
    }
  }

  /** The results of one metric among those of an iteration are what its operations hand out. */
  lemma {:induction false} ResultsOfMetric(c: Settings, s: MathsState, keys: seq<string>, sqrt: real -> real,
                                           now: ULong, kind: string)
    requires Configured(c, s) && Ordering.NoRepeats(keys) && forall k | k in keys :: k in s
    ensures Select(OfKind(kind), EmittedBy(s, keys, sqrt, now))
         == if kind in keys then Emitted(s[kind], sqrt, now) else []
  {
    hide Emitted, IsWanted, Types, Select;
    if keys == [] {
      SelectNone(OfKind(kind), []);
    } else {
      var n := |keys| - 1;
      var front, k := keys[..n], keys[n];
      ResultsOfMetric(c, s, front, sqrt, now, kind);
      SelectAppend(OfKind(kind), EmittedBy(s, front, sqrt, now), Emitted(s[k], sqrt, now));
      assert ConfiguredFor(c, s[k], k);
      EmittedOfKind(c, s[k], sqrt, now, k);
      assert kind in keys <==> kind in front || kind == k;
      if k == kind {
        SelectAll(OfKind(kind), Emitted(s[k], sqrt, now));
        assert kind !in front;
        assert [] + Emitted(s[k], sqrt, now) == Emitted(s[k], sqrt, now);
      } else {
        SelectNone(OfKind(kind), Emitted(s[k], sqrt, now));
        assert Select(OfKind(kind), EmittedBy(s, front, sqrt, now)) + []
            == Select(OfKind(kind), EmittedBy(s, front, sqrt, now));
      }
    }
  }

  /** Everything the iterations of a run hand to the global buffer, in order. */
  function HandedOut(c: Settings, events: seq<PipelineEvent>, sqrt: real -> real): seq<Message> {
    if events == [] then []
    else
      var front := events[..|events| - 1];
      HandedOut(c, front, sqrt) + HandedOutBy(PipelineRun(c, front), events[|events| - 1], sqrt)
  }

  function HandedOutBy(s: MathsState, e: PipelineEvent, sqrt: real -> real): seq<Message> {
    match e
    case Accept(_, _) => []
    case Iterate(now) => EmittedBy(s, Ordering.InOrder(s.Keys), sqrt, now)
  }

  /** What the first `n` operations of a metric have accepted and still hold, and what they have computed,
      added up. */
  function AcceptedSum(c: Settings, events: seq<PipelineEvent>, kind: string, n: nat): real
    requires IsWanted(c, kind) && n <= |Types(c, kind)|
  {
    if n == 0 then 0.0
    else AcceptedSum(c, events, kind, n - 1) + SumOf(HistoryOf(c, events, kind, n - 1, 0).accepted)
  }

  function HeldSum(c: Settings, s: MathsState, kind: string, n: nat): real
    requires IsWanted(c, kind) && n <= |Types(c, kind)|
  {
    if n == 0 then 0.0 else HeldSum(c, s, kind, n - 1) + SumOf(OperationAt(c, s, kind, n - 1).queue.items)
  }

  function ComputedSum(c: Settings, events: seq<PipelineEvent>, kind: string, n: nat): real
    requires IsWanted(c, kind) && n <= |Types(c, kind)|
  {
    if n == 0 then 0.0
    else ComputedSum(c, events, kind, n - 1) + SumOfAll(HistoryOf(c, events, kind, n - 1, 0).batches)
  }

  predicate AllSums(c: Settings, kind: string)
    requires IsWanted(c, kind)
  {
    forall i | 0 <= i < |Types(c, kind)| :: Types(c, kind)[i].computation.kind.Sum?
  }

  lemma {:induction false} SumsBalance(c: Settings, events: seq<PipelineEvent>, kind: string, n: nat)
    requires IsWanted(c, kind) && n <= |Types(c, kind)|
    ensures AcceptedSum(c, events, kind, n)
         == ComputedSum(c, events, kind, n) + HeldSum(c, PipelineRun(c, events), kind, n)
  {
    hide IsWanted, Types, OperationAt, SumOf, SumOfAll, Run, Projected, PipelineRun;
    if n == 0 {
    } else {
      SumsBalance(c, events, kind, n - 1);
      RunProjects(c, events, kind, n - 1, 0);
      SumConservation(c.mathsCapacity, Types(c, kind)[n - 1].computation, 0, Projected(c, events, kind, n - 1));
    }
  }

  /** What an iteration adds to the sums: what it hands out for the metric. */
  lemma {:induction false} EmittedSums(c: Settings, events: seq<PipelineEvent>, now: ULong, kind: string, n: nat,
                                       ops: seq<Operation>, sqrt: real -> real)
    requires IsWanted(c, kind) && n <= |Types(c, kind)| && AllSums(c, kind)
    requires kind in PipelineRun(c, events) && ops == PipelineRun(c, events)[kind] && n <= |ops|
    ensures ComputedSum(c, events + [Iterate(now)], kind, n)
         == ComputedSum(c, events, kind, n) + SumOf(Emitted(ops[..n], sqrt, now))
  {
    hide IsWanted, Types, OperationAt, SumOf, SumOfAll, Run, Projected, PipelineRun, HistoryOf, Emitted, Outcomes;
    hide Batches, AllSums;
    if n == 0 {
      EmittedNone(sqrt, now);
      SumOfNone();
    } else {
      EmittedSums(c, events, now, kind, n - 1, ops, sqrt);
      EmittedNext(ops, n - 1, sqrt, now);
      HistoryTick(c, events, now, kind, n - 1, ops);
      var op := ops[n - 1];
      SumOfAllParts(HistoryOf(c, events, kind, n - 1, 0).batches, Batches(op, now));
      SumOfOutcomes(Batches(op, now), op.computation, sqrt, now);
      SumAppend(Emitted(ops[..n - 1], sqrt, now), Outcomes(Batches(op, now), op.computation, sqrt, now));
    }
  }

  lemma HistoryTick(c: Settings, events: seq<PipelineEvent>, now: ULong, kind: string, i: nat,
                                       ops: seq<Operation>)
    requires IsWanted(c, kind) && i < |Types(c, kind)| && AllSums(c, kind)
    requires kind in PipelineRun(c, events) && ops == PipelineRun(c, events)[kind] && i < |ops|
    ensures HistoryOf(c, events + [Iterate(now)], kind, i, 0).batches
         == HistoryOf(c, events, kind, i, 0).batches + Batches(ops[i], now)
    ensures ops[i].computation.kind.Sum?
  {
    hide IsWanted, Types, Run, Projected, PipelineRun, HistoryOf, Batches, Iterated;
    var all := events + [Iterate(now)];
    assert all[..|all| - 1] == events;
    HistoryNext(c, all, kind, i, 0);
    RunProjects(c, events, kind, i, 0);
    RunIsConfigured(c, events);
    assert ConfiguredFor(c, ops, kind);
    assert SameComputation(ops[i], Types(c, kind)[i]);
  }

  /** A message adds nothing to what has been computed. */
  lemma {:induction false} AcceptComputesNothing(c: Settings, events: seq<PipelineEvent>, e: PipelineEvent,
                                                 kind: string, n: nat)
    requires IsWanted(c, kind) && n <= |Types(c, kind)|
    requires e.Accept? || kind !in PipelineRun(c, events)
    ensures ComputedSum(c, events + [e], kind, n) == ComputedSum(c, events, kind, n)
  {
    hide IsWanted, Types, SumOfAll, Run, Projected, PipelineRun, HistoryOf, Takes;
    if n == 0 {
    } else {
      AcceptComputesNothing(c, events, e, kind, n - 1);
      assert (events + [e])[..|events + [e]| - 1] == events;
      HistoryNext(c, events + [e], kind, n - 1, 0);
    }
  }

  /** For a metric whose category only sums: what has been handed to the global buffer for it adds up to
      what has been computed. */
  lemma {:induction false} HandedOutIsComputed(c: Settings, events: seq<PipelineEvent>, kind: string,
                                               sqrt: real -> real)
    requires IsWanted(c, kind) && AllSums(c, kind)
    ensures SumOf(Select(OfKind(kind), HandedOut(c, events, sqrt))) == ComputedSum(c, events, kind, |Types(c, kind)|)
  {
    hide IsWanted, Types, SumOf, PipelineRun, Select, EmittedBy, Emitted, ComputedSum, AllSums;
    SelectNone(OfKind(kind), []);
    SumOfNone();
    if events == [] {
      NothingComputed(c, kind, |Types(c, kind)|);
    } else {
      var front, e := events[..|events| - 1], events[|events| - 1];
      var s := PipelineRun(c, front);
      HandedOutIsComputed(c, front, kind, sqrt);
      assert front + [e] == events;
      SelectAppend(OfKind(kind), HandedOut(c, front, sqrt), HandedOutBy(s, e, sqrt));
      SumAppend(Select(OfKind(kind), HandedOut(c, front, sqrt)), Select(OfKind(kind), HandedOutBy(s, e, sqrt)));
      RunIsConfigured(c, front);
      if e.Iterate? {
        ResultsOfMetric(c, s, Ordering.InOrder(s.Keys), sqrt, e.now, kind);
      }
      if e.Iterate? && kind in s {
        WholeMetric(c, front, e.now, kind, sqrt);
      } else {
        AcceptComputesNothing(c, front, e, kind, |Types(c, kind)|);
      }
    }
  }

  lemma WholeMetric(c: Settings, events: seq<PipelineEvent>, now: ULong, kind: string,
                                       sqrt: real -> real)
    requires IsWanted(c, kind) && AllSums(c, kind) && kind in PipelineRun(c, events)
    ensures var n := |Types(c, kind)|;
      ComputedSum(c, events + [Iterate(now)], kind, n)
      == ComputedSum(c, events, kind, n) + SumOf(Emitted(PipelineRun(c, events)[kind], sqrt, now))
  {
    hide IsWanted, Types, SumOf, PipelineRun, Emitted, ComputedSum, AllSums;
    var ops := PipelineRun(c, events)[kind];
    RunIsConfigured(c, events);
    assert ConfiguredFor(c, ops, kind) && ops[..|ops|] == ops;
    EmittedSums(c, events, now, kind, |Types(c, kind)|, ops, sqrt);
  }

  lemma {:induction false} NothingComputed(c: Settings, kind: string, n: nat)
    requires IsWanted(c, kind) && n <= |Types(c, kind)|
    ensures ComputedSum(c, [], kind, n) == 0.0
  {
    hide IsWanted, Types;
    if n == 0 {
    } else {
      NothingComputed(c, kind, n - 1);
      assert SumOfAll([]) == 0.0;
    }
  }

  /** Over every run of the pipeline, for a metric whose category only sums: the values handed to the
      global buffer for it and those its operations still hold add up to those they accepted. */
  lemma {:induction false} PipelineConservesSums(c: Settings, events: seq<PipelineEvent>, kind: string,
                                                 sqrt: real -> real)
    requires IsWanted(c, kind) && AllSums(c, kind)
    ensures var n := |Types(c, kind)|;
      AcceptedSum(c, events, kind, n)
      == SumOf(Select(OfKind(kind), HandedOut(c, events, sqrt))) + HeldSum(c, PipelineRun(c, events), kind, n)
  {
    hide IsWanted, Types, SumOf, PipelineRun, Select, HandedOut, ComputedSum, HeldSum, AcceptedSum;
    HandedOutIsComputed(c, events, kind, sqrt);
    SumsBalance(c, events, kind, |Types(c, kind)|);
  }
}
