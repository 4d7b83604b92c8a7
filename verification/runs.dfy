/**
 Whole runs of one operation of the maths pipeline: messages arrive and iterations happen, in any order,
 under a clock that does not go back.
 */
module Runs {
  import opened Messages
  import opened Numbers
  import opened Queues
  import opened Computations
  import opened Windows
  import Aggregates
  import AggregateLaws

  /** The batches an iteration at `now` computes from an operation. */
  function Batches(op: Operation, now: nat): seq<seq<Message>> {
    var c, items := op.computation, op.queue.items;
    if !c.onTime then
      if |items| >= c.value && items != [] then [items[..BlockSize(c, |items|)]] else []
    else if now >= c.last + c.value then CatchUp(items, c.last, c.value, now).batches
    else []
  }

  /** A count of zero would take everything. */
  function BlockSize(c: Computation, size: nat): (n: nat)
    requires size >= c.value
    ensures n <= size
  {
    if c.value == 0 then size else c.value
  }

  /** What an iteration at `now` leaves of an operation. */
  function Iterated(op: Operation, now: nat): Operation {
    var c, items := op.computation, op.queue.items;
    if !c.onTime then
      if |items| >= c.value then op.(queue := op.queue.(items := items[BlockSize(c, |items|)..])) else op
    else if now >= c.last + c.value then
      var s := CatchUp(items, c.last, c.value, now);
      Operation(c.(last := s.last), op.queue.(items := s.rest))
    else op
  }

  // ---------- Runs ----------

  datatype Event = Arrive(message: Message) | Tick(now: ULong)

  /** An operation with its history: what its buffer accepted and what has been computed. */
  datatype History = History(op: Operation, accepted: seq<Message>, batches: seq<seq<Message>>, clock: nat)

  /** Buffers of operations refuse messages when full. */
  function Step(capacity: Capacity, h: History, e: Event): History {
    match e
    case Arrive(m) =>
      var p := Policy(capacity, false);
      h.(op := h.op.(queue := Push(p, h.op.queue, m)),
         accepted := if Accepts(p, h.op.queue) then h.accepted + [m] else h.accepted)
    case Tick(now) =>
      h.(op := Iterated(h.op, now), batches := h.batches + Batches(h.op, now), clock := now)
  }

  function Run(capacity: Capacity, h: History, events: seq<Event>): History {
    if events == [] then h
    else Step(capacity, Run(capacity, h, events[..|events| - 1]), events[|events| - 1])
  }

  /** The clock never goes back. */
  predicate Chronological(capacity: Capacity, h: History, events: seq<Event>) {
    events == [] ||
    var front, last := events[..|events| - 1], events[|events| - 1];
    && Chronological(capacity, h, front)
    && (last.Tick? ==> Run(capacity, h, front).clock <= last.now)
  }

  function Start(c: Computation, clock: nat): History {
    History(Operation(c, EMPTY), [], [], clock)
  }

  function Flatten(batches: seq<seq<Message>>): seq<Message> {
    if batches == [] then [] else Flatten(batches[..|batches| - 1]) + batches[|batches| - 1]
  }

  lemma {:induction false} FlattenAppend(a: seq<seq<Message>>, b: seq<seq<Message>>)
    ensures Flatten(a + b) == Flatten(a) + Flatten(b)
  {
    if b == [] {
      assert a + b == a;
    } else {
      var n := |b| - 1;
      assert (a + b)[..|a + b| - 1] == a + b[..n];
      FlattenAppend(a, b[..n]);
    }
  }

  lemma FlattenOne(b: seq<Message>)
    ensures Flatten([b]) == b
  {
    assert [b][..0] == [];
  }

  // ---------- Nothing lost, nothing twice ----------

  lemma {:induction false} CatchUpConserves(items: seq<Message>, last: nat, width: nat, now: nat)
    ensures var s := CatchUp(items, last, width, now);
      multiset(items) == multiset(Flatten(s.batches)) + multiset(s.rest)
    decreases |items|
  {
    hide Select;
    var s := CatchUp(items, last, width, now);
    var due, rest := Select(UpTo(last + width), items), Select(After(last + width), items);
    SelectPartition(last + width, items);
    SelectLess(last + width, items);
    FlattenOne(due);
    if due == [] || now <= last + width + width {
    } else {
      var t := CatchUp(rest, last + width, width, now);
      CatchUpConserves(rest, last + width, width, now);
      FlattenAppend([due], t.batches);
    }
  }

  lemma IterationConserves(op: Operation, now: nat)
    ensures multiset(op.queue.items)
         == multiset(Flatten(Batches(op, now))) + multiset(Iterated(op, now).queue.items)
  {
    var c, items := op.computation, op.queue.items;
    if !c.onTime {
      if |items| >= c.value && items != [] {
        var n := BlockSize(c, |items|);
        assert items == items[..n] + items[n..];
        FlattenOne(items[..n]);
      }
    } else if now >= c.last + c.value {
      CatchUpConserves(items, c.last, c.value, now);
    }
  }

  /** Every accepted message has been computed once or is still buffered. */
  predicate Conserved(h: History) {
    multiset(h.accepted) == multiset(Flatten(h.batches)) + multiset(h.op.queue.items)
  }

  lemma StepConserves(capacity: Capacity, h: History, e: Event)
    requires Conserved(h)
    ensures Conserved(Step(capacity, h, e))
  {
    match e
    case Arrive(m) =>
    case Tick(now) =>
      IterationConserves(h.op, now);
      FlattenAppend(h.batches, Batches(h.op, now));
  }

  lemma {:induction false} RunConserves(capacity: Capacity, h: History, events: seq<Event>)
    requires Conserved(h)
    ensures Conserved(Run(capacity, h, events))
  {
    if events == [] {
    } else {
      RunConserves(capacity, h, events[..|events| - 1]);
      StepConserves(capacity, Run(capacity, h, events[..|events| - 1]), events[|events| - 1]);
    }
  }

  function SumOf(ms: seq<Message>): real {
    Aggregates.Total(Aggregates.Value, Aggregates.Values(ms))
  }

  function SumOfAll(batches: seq<seq<Message>>): real {
    if batches == [] then 0.0 else SumOfAll(batches[..|batches| - 1]) + SumOf(batches[|batches| - 1])
  }

  lemma SumAppend(a: seq<Message>, b: seq<Message>)
    ensures SumOf(a + b) == SumOf(a) + SumOf(b)
  {
    assert Aggregates.Values(a + b) == Aggregates.Values(a) + Aggregates.Values(b);
    Aggregates.TotalAppend(Aggregates.Value, Aggregates.Values(a), Aggregates.Values(b));
  }

  lemma {:induction false} SumOfFlatten(batches: seq<seq<Message>>)
    ensures SumOf(Flatten(batches)) == SumOfAll(batches)
  {
    if batches == [] {
    } else {
      var n := |batches| - 1;
      SumOfFlatten(batches[..n]);
      SumAppend(Flatten(batches[..n]), batches[n]);
    }
  }

  lemma ValuesWithout(ms: seq<Message>, i: nat)
    requires i < |ms|
    ensures multiset(Aggregates.Values(ms))
         == multiset(Aggregates.Values(ms[..i] + ms[i + 1..])) + multiset{ms[i].value}
  {
    var v := Aggregates.Values(ms);
    assert Aggregates.Values(ms[..i] + ms[i + 1..]) == v[..i] + v[i + 1..];
    assert v == v[..i] + [v[i]] + v[i + 1..];
  }

  lemma Without(ms: seq<Message>, i: nat)
    requires i < |ms|
    ensures multiset(ms[..i] + ms[i + 1..]) == multiset(ms) - multiset{ms[i]}
  {
    assert ms == ms[..i] + [ms[i]] + ms[i + 1..];
  }

  lemma {:induction false} ValuesReordered(a: seq<Message>, b: seq<Message>)
    requires multiset(a) == multiset(b)
    ensures multiset(Aggregates.Values(a)) == multiset(Aggregates.Values(b))
  {
    hide Aggregates.Values;
    if a == [] {
      assert |multiset(b)| == 0;
    } else {
      var n := |a| - 1;
      assert a[n] in multiset(b);
      var i :| 0 <= i < |b| && b[i] == a[n];
      Without(a, n);
      Without(b, i);
      assert a[..n] + a[n + 1..] == a[..n];
      ValuesReordered(a[..n], b[..i] + b[i + 1..]);
      ValuesWithout(a, n);
      ValuesWithout(b, i);
    }
  }

  /** For a sum, on count or on time: the results emitted so far and what is still buffered add up to
      everything accepted. */
  lemma SumConservation(capacity: Capacity, c: Computation, clock: nat, events: seq<Event>)
    ensures var h := Run(capacity, Start(c, clock), events);
      SumOf(h.accepted) == SumOfAll(h.batches) + SumOf(h.op.queue.items)
  {
    var h := Run(capacity, Start(c, clock), events);
    RunConserves(capacity, Start(c, clock), events);
    var parts := Flatten(h.batches) + h.op.queue.items;
    ValuesReordered(h.accepted, parts);
    AggregateLaws.TotalReordered(Aggregates.Value, Aggregates.Values(h.accepted), Aggregates.Values(parts));
    SumAppend(Flatten(h.batches), h.op.queue.items);
    SumOfFlatten(h.batches);
  }

  // ---------- Computations on count ----------

  predicate InBlocks(h: History) {
    && h.accepted == Flatten(h.batches) + h.op.queue.items
    && forall i | 0 <= i < |h.batches| :: |h.batches[i]| == h.op.computation.value
  }

  /** A computation on count cuts the accepted messages, in order of arrival, into blocks of exactly the
      configured size; the buffer holds what comes after the last block. */
  lemma {:induction false} CountInBlocks(capacity: Capacity, c: Computation, clock: nat, events: seq<Event>)
    requires Admissible(c) && !c.onTime
    ensures var h := Run(capacity, Start(c, clock), events);
      h.op.computation == c && InBlocks(h)
  {
    if events == [] {
    } else {
      var front, e := events[..|events| - 1], events[|events| - 1];
      var h := Run(capacity, Start(c, clock), front);
      CountInBlocks(capacity, c, clock, front);
      BlockStep(capacity, h, e);
    }
  }

  lemma BlockStep(capacity: Capacity, h: History, e: Event)
    requires Admissible(h.op.computation) && !h.op.computation.onTime && InBlocks(h)
    ensures InBlocks(Step(capacity, h, e))
  {
    hide Flatten;
    var items, c := h.op.queue.items, h.op.computation;
    match e
    case Arrive(m) =>
      assert h.accepted + [m] == Flatten(h.batches) + (items + [m]);
    case Tick(now) =>
      if |items| >= c.value {
        var block := items[..c.value];
        FlattenOne(block);
        FlattenAppend(h.batches, [block]);
        assert items == block + items[c.value..];
        assert h.accepted == Flatten(h.batches) + block + items[c.value..];
      } else {
        assert h.batches + [] == h.batches;
      }
  }

  // ---------- Computations on time ----------

  /** The last compute time is in the past, and nothing from the future has been computed. */
  predicate Timely(h: History) {
    && h.op.computation.onTime
    && h.op.computation.last <= h.clock
    && forall m | m in Flatten(h.batches) :: m.timestamp <= h.clock
  }

  /** The last compute time is at most one window behind. */
  predicate Fresh(h: History) {
    h.op.computation.last <= h.clock <= h.op.computation.last + h.op.computation.value
  }

  lemma {:induction false} CatchUpInTime(items: seq<Message>, last: nat, width: nat, now: nat)
    requires now >= last + width
    ensures var s := CatchUp(items, last, width, now);
      last <= s.last <= now <= s.last + width && forall m | m in Flatten(s.batches) :: m.timestamp <= now
    decreases |items|
  {
    hide Select;
    var due, rest := Select(UpTo(last + width), items), Select(After(last + width), items);
    SelectLess(last + width, items);
    SelectMembers(UpTo(last + width), items);
    FlattenOne(due);
    if due == [] || now <= last + width + width {
    } else {
      var t := CatchUp(rest, last + width, width, now);
      CatchUpInTime(rest, last + width, width, now);
      FlattenAppend([due], t.batches);
    }
  }

  /** An iteration leaves the last compute time at most one window behind and never moves it back. */
  lemma TickInTime(capacity: Capacity, h: History, now: ULong)
    requires Timely(h) && h.clock <= now
    ensures var t := Step(capacity, h, Tick(now));
      Timely(t) && Fresh(t) && h.op.computation.last <= t.op.computation.last
  {
    var c, items := h.op.computation, h.op.queue.items;
    FlattenAppend(h.batches, Batches(h.op, now));
    if now >= c.last + c.value {
      CatchUpInTime(items, c.last, c.value, now);
    }
  }

  /** Over every run: the last compute time never passes the clock, nothing stamped in the future is
      computed, and after each iteration the last compute time is at most one window behind. */
  lemma {:induction false} BoundedStaleness(capacity: Capacity, c: Computation, clock: nat, events: seq<Event>)
    requires c.onTime && c.last <= clock
    requires Chronological(capacity, Start(c, clock), events)
    ensures var h := Run(capacity, Start(c, clock), events);
      && Timely(h)
      && h.op.computation == c.(last := h.op.computation.last)
      && c.last <= h.op.computation.last
      && (events != [] && events[|events| - 1].Tick? ==> Fresh(h))
  {
    if events == [] {
    } else {
      var front, e := events[..|events| - 1], events[|events| - 1];
      var h := Run(capacity, Start(c, clock), front);
      BoundedStaleness(capacity, c, clock, front);
      if e.Tick? {
        TickInTime(capacity, h, e.now);
      }
    }
  }

  // ---------- What was due is computed soon ----------

  /** Nothing has been taken since `h`: messages were only added behind. */
  predicate Untouched(h: History, t: History) {
    && t.op.computation == h.op.computation
    && t.batches == h.batches
    && h.op.queue.items <= t.op.queue.items
  }

  /** The first batch computed since `h` holds everything that was due then. */
  predicate TakenSince(h: History, t: History) {
    && h.batches < t.batches
    && multiset(Select(UpTo(h.clock), h.op.queue.items)) <= multiset(t.batches[|h.batches|])
  }

  lemma FirstBatch(h: History, t: History, now: nat)
    requires h.op.computation.onTime && Fresh(h) && Untouched(h, t)
    requires Select(UpTo(h.clock), h.op.queue.items) != []
    requires now >= t.op.computation.last + t.op.computation.value
    ensures Batches(t.op, now) != []
    ensures multiset(Select(UpTo(h.clock), h.op.queue.items)) <= multiset(Batches(t.op, now)[0])
  {
    hide Select;
    var c, items := t.op.computation, t.op.queue.items;
    var older := h.op.queue.items;
    var was, due := Select(UpTo(h.clock), older), Select(UpTo(c.last + c.value), items);
    assert items == older + items[|older|..];
    forall m ensures multiset(was)[m] <= multiset(due)[m] {
      SelectCount(UpTo(h.clock), older, m);
      SelectCount(UpTo(c.last + c.value), items, m);
      assert multiset(items)[m] == multiset(older)[m] + multiset(items[|older|..])[m];
    }
    assert multiset(was) <= multiset(due);
    assert was[0] in multiset(due);
    SelectLess(c.last + c.value, items);
  }

  lemma StaleStep(capacity: Capacity, h: History, t: History, e: Event)
    requires h.op.computation.onTime && Fresh(h)
    requires Select(UpTo(h.clock), h.op.queue.items) != []
    requires Untouched(h, t) || TakenSince(h, t)
    ensures var u := Step(capacity, t, e);
      && (Untouched(h, u) || TakenSince(h, u))
      && (e.Tick? && e.now >= h.clock + h.op.computation.value ==> TakenSince(h, u))
  {
    hide Select;
    var u := Step(capacity, t, e);
    match e
    case Arrive(m) =>
    case Tick(now) =>
      if TakenSince(h, t) {
        assert u.batches[|h.batches|] == t.batches[|h.batches|];
      } else if now >= t.op.computation.last + t.op.computation.value {
        FirstBatch(h, t, now);
        assert u.batches[|h.batches|] == Batches(t.op, now)[0];
      } else {
        assert t.batches + [] == t.batches;
      }
  }

  lemma UntouchedYet(h: History)
    ensures Untouched(h, h)
  {
  }

  /** After an iteration, whatever is due by then but still buffered is computed no later than the first
      iteration one window on: the very first batch computed from then on holds all of it. */
  lemma {:induction false} DueIsComputed(capacity: Capacity, h: History, events: seq<Event>)
    requires h.op.computation.onTime && Fresh(h)
    requires Select(UpTo(h.clock), h.op.queue.items) != []
    ensures var t := Run(capacity, h, events);
      && (Untouched(h, t) || TakenSince(h, t))
      && ((exists i :: 0 <= i < |events| && events[i].Tick?
             && events[i].now >= h.clock + h.op.computation.value) ==> TakenSince(h, t))
  {
    hide Select, Step, Untouched, TakenSince;
    UntouchedYet(h);
    if events == [] {
    } else {
      var n := |events| - 1;
      DueIsComputed(capacity, h, events[..n]);
      StaleStep(capacity, h, Run(capacity, h, events[..n]), events[n]);
      if i :| 0 <= i < |events| && events[i].Tick? && events[i].now >= h.clock + h.op.computation.value {
        if i < n {
          assert events[..n][i] == events[i];
          StaysTaken(capacity, h, Run(capacity, h, events[..n]), events[n]);
        }
      }
    }
  }

  lemma StaysTaken(capacity: Capacity, h: History, t: History, e: Event)
    requires TakenSince(h, t)
    ensures TakenSince(h, Step(capacity, t, e))
  {
    hide Select;
    var u := Step(capacity, t, e);
    assert t.batches <= u.batches;
    assert u.batches[|h.batches|] == t.batches[|h.batches|];
  }

  // ---------- When an operation runs ----------

  /** On count: one block as soon as there are enough messages, and nothing before; a count of zero takes
      everything. */
  lemma RunsOnCount(op: Operation, now: nat)
    requires !op.computation.onTime
    ensures var c, items := op.computation, op.queue.items;
      var n := if c.value == 0 then |items| else c.value;
      Iterated(op, now).computation == c && Iterated(op, now).queue.peak == op.queue.peak
      && (if |items| < n || items == [] then Batches(op, now) == [] && Iterated(op, now) == op
          else Batches(op, now) == [items[..n]] && Iterated(op, now).queue.items == items[n..])
  {
  }

  /** On time: nothing before the next window is over, then every window up to now. */
  lemma RunsOnTime(op: Operation, now: nat)
    requires op.computation.onTime
    ensures now < op.computation.last + op.computation.value ==> Batches(op, now) == [] && Iterated(op, now) == op
    ensures now >= op.computation.last + op.computation.value ==>
      Partitions(Sweep(Batches(op, now), Iterated(op, now).queue.items, Iterated(op, now).computation.last),
                 op.queue.items, op.computation.last, op.computation.value, now)
  {
    hide CatchUp, Partitions;
    var c := op.computation;
    if now >= c.last + c.value {
      WindowsPartition(op.queue.items, c.last, c.value, now);
    }
  }
}
