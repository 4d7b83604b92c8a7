/**
 Producers, the timer, readers and the cleaner sharing one global buffer. Each step is what one thread
 does while holding the buffer's lock, or the outcome of the timer's send; a run is any sequence of
 steps.
 */
module Interleaving {
  import opened Messages
  import opened Queues
  import opened Clients
  import opened Store
  import opened Delivery

  /** Where the timer's iteration stands. */
  datatype Phase =
    | Idle
    | Holding(batch: seq<Message>)   // taken from the buffer, not yet sent
    | Returning(batch: seq<Message>) // sending failed, still to be put back

  datatype System = System(
    store: State,
    timer: Phase,
    offered: seq<Message>,   // every message ever added by a producer
    fetched: seq<Message>)   // every message handed to a reader of the buffer

  datatype Step =
    | Offer(message: Message)
    | TimerTake
    | TimerSend
    | TimerReturn
    | Fetch(kind: string)
    | Erase(kind: string)

  const START := System(State(map[], 0, [], [], map[]), Idle, [], [])

  function InFlight(s: System): seq<Message> {
    match s.timer
    case Idle => []
    case Holding(batch) => batch
    case Returning(batch) => batch
  }

  /** A step that cannot be taken leaves the system as it is. */
  function Next(p: Policy, link: Link, s: System, step: Step): System {
    match step
    case Offer(m) => s.(store := Add(p, link, s.store, m), offered := s.offered + [m])
    case TimerTake =>
      if !s.timer.Idle? then s else s.(store := Drained(s.store), timer := Holding(Buffered(s.store)))
    case TimerSend =>
      if !s.timer.Holding? then s
      else
        var batch := s.timer.batch;
        if batch == [] then s.(timer := Returning([]))
        else
          var tried := s.store.(attempts := s.store.attempts + 1);
          if link(s.store.attempts) then s.(store := tried.(sent := tried.sent + batch), timer := Idle)
          else s.(store := tried, timer := Returning(batch))
    case TimerReturn =>
      if !s.timer.Returning? then s
      else if s.timer.batch == [] then s.(timer := Idle)
      else s.(store := Add(p, link, s.store, s.timer.batch[0]), timer := Returning(s.timer.batch[1..]))
    case Fetch(kind) =>
      s.(store := Fetched(s.store, kind), fetched := s.fetched + QueueOf(s.store, kind).items)
    case Erase(kind) => s.(store := Removed(s.store, kind))
  }

  function Run(p: Policy, link: Link, steps: seq<Step>): System {
    if steps == [] then START else Next(p, link, Run(p, link, steps[..|steps| - 1]), steps[|steps| - 1])
  }

  // ---------- Conservation ----------

  function Count(ms: seq<Message>, x: Message): nat {
    multiset(ms)[x]
  }

  lemma CountAppend(a: seq<Message>, b: seq<Message>, x: Message)
    ensures Count(a + b, x) == Count(a, x) + Count(b, x)
  {
  }

  /** How often `x` has been delivered, is buffered, or was dropped. */
  function Accounted(s: State, x: Message): nat {
    Count(s.sent, x) + Count(QueueOf(s, x.kind).items, x) + Count(s.dropped, x)
  }

  lemma PushCount(p: Policy, q: Queue, m: Message, x: Message)
    ensures Count(Push(p, q, m).items, x) + Count(Lost(p, q, m), x) == Count(q.items, x) + Count([m], x)
  {
    if |q.items| >= p.capacity && p.dropOldest {
      assert q.items == [q.items[0]] + q.items[1..];
    }
  }

  lemma FlushCount(link: Link, s: State, kind: string, x: Message)
    requires kind in s.queues && forall m | m in s.queues[kind].items :: m.kind == kind
    ensures Accounted(Flush(link, s, kind), x) == Accounted(s, x)
  {
    var q := s.queues[kind];
    CountAppend(s.sent, q.items, x);
    if x.kind != kind {
      assert x !in q.items;
    }
  }

  /** Adding accounts for exactly one message more. */
  lemma AddCount(p: Policy, link: Link, s: State, m: Message, x: Message)
    requires WellFormed(p, s)
    ensures Accounted(Add(p, link, s, m), x) == Accounted(s, x) + Count([m], x)
  {
    if !m.IsValid() {
      CountAppend(s.dropped, [m], x);
    } else {
      var q := QueueOf(s, m.kind);
      var next := s.(queues := s.queues[m.kind := Push(p, q, m)], dropped := s.dropped + Lost(p, q, m));
      CountAppend(s.dropped, Lost(p, q, m), x);
      PushCount(p, q, m, x);
      if x.kind != m.kind {
        assert x !in Lost(p, q, m);
      }
      assert Accounted(next, x) == Accounted(s, x) + Count([m], x);
      if Accepts(p, q) && |Push(p, q, m).items| >= p.capacity {
        FlushCount(link, next, m.kind, x);
      }
    }
  }

  predicate BalancedFor(s: System, x: Message) {
    Count(s.offered, x) == Accounted(s.store, x) + Count(InFlight(s), x) + Count(s.fetched, x)
  }

  lemma TakeBalances(p: Policy, link: Link, s: System, x: Message)
    requires WellFormed(p, s.store) && BalancedFor(s, x)
    ensures BalancedFor(Next(p, link, s, TimerTake), x)
  {
    hide Buffered, WellFormed;
    BufferedCount(p, s.store, x);
    assert QueueOf(Drained(s.store), x.kind).items == [];
  }

  lemma SendBalances(p: Policy, link: Link, s: System, x: Message)
    requires BalancedFor(s, x)
    ensures BalancedFor(Next(p, link, s, TimerSend), x)
  {
    hide Count;
    CountAppend(s.store.sent, InFlight(s), x);
    CountNone(x);
  }

  lemma CountNone(x: Message)
    ensures Count([], x) == 0
  {
  }

  lemma ReturnBalances(p: Policy, link: Link, s: System, x: Message)
    requires WellFormed(p, s.store) && BalancedFor(s, x)
    ensures BalancedFor(Next(p, link, s, TimerReturn), x)
  {
    hide Add, WellFormed, Count, Accounted;
    if s.timer.Returning? && s.timer.batch != [] {
      var m := s.timer.batch[0];
      AddCount(p, link, s.store, m, x);
      CountAppend([m], s.timer.batch[1..], x);
      assert s.timer.batch == [m] + s.timer.batch[1..];
    }
  }

  lemma {:induction false} StepBalances(p: Policy, link: Link, s: System, step: Step, x: Message)
    requires WellFormed(p, s.store) && BalancedFor(s, x)
    ensures BalancedFor(Next(p, link, s, step), x)
  {
    hide Add, Buffered, WellFormed, EmptiedQueues;
    match step
    case Offer(m) =>
      AddCount(p, link, s.store, m, x);
      CountAppend(s.offered, [m], x);
    case Fetch(kind) =>
      CountAppend(s.fetched, QueueOf(s.store, kind).items, x);
      FetchCount(p, s.store, kind, x);
    case Erase(kind) =>
      CountAppend(s.store.dropped, QueueOf(s.store, kind).items, x);
      FetchCount(p, s.store, kind, x);
    case TimerTake => TakeBalances(p, link, s, x);
    case TimerSend => SendBalances(p, link, s, x);
    case TimerReturn => ReturnBalances(p, link, s, x);
  }

  lemma FetchCount(p: Policy, s: State, kind: string, x: Message)
    requires WellFormed(p, s)
    ensures x.kind != kind ==> Count(QueueOf(s, kind).items, x) == 0
    ensures x.kind != kind ==> QueueOf(Fetched(s, kind), x.kind).items == QueueOf(s, x.kind).items
    ensures QueueOf(Fetched(s, kind), kind).items == []
  {
    if x.kind != kind && kind in s.queues {
      assert x !in s.queues[kind].items;
    }
  }

  lemma StepKeepsWellFormed(p: Policy, link: Link, s: System, step: Step)
    requires WellFormed(p, s.store)
    ensures WellFormed(p, Next(p, link, s, step).store)
  {
    if step.Offer? {
      AddKeepsWellFormed(p, link, s.store, step.message);
    } else if step.TimerReturn? && s.timer.Returning? && s.timer.batch != [] {
      AddKeepsWellFormed(p, link, s.store, s.timer.batch[0]);
    }
  }

  lemma {:induction false} RunIsWellFormed(p: Policy, link: Link, steps: seq<Step>)
    ensures WellFormed(p, Run(p, link, steps).store)
  {
    if steps == [] {
    } else {
      var n := |steps| - 1;
      RunIsWellFormed(p, link, steps[..n]);
      StepKeepsWellFormed(p, link, Run(p, link, steps[..n]), steps[n]);
    }
  }

  lemma {:induction false} RunBalances(p: Policy, link: Link, steps: seq<Step>, x: Message)
    ensures BalancedFor(Run(p, link, steps), x)
  {
    if steps == [] {
    } else {
      var n := |steps| - 1;
      RunBalances(p, link, steps[..n], x);
      RunIsWellFormed(p, link, steps[..n]);
      StepBalances(p, link, Run(p, link, steps[..n]), steps[n], x);
    }
  }

  /** Under every interleaving and every sequence of send outcomes, each offered message is accounted
      for exactly once: delivered, buffered, in the timer's hands, read, or dropped. */
  lemma {:induction false} Conservation(p: Policy, link: Link, steps: seq<Step>)
    ensures var s := Run(p, link, steps);
      multiset(s.offered) == multiset(s.store.sent) + multiset(Buffered(s.store)) + multiset(InFlight(s))
                           + multiset(s.store.dropped) + multiset(s.fetched)
  {
    var s := Run(p, link, steps);
    var all := multiset(s.store.sent) + multiset(Buffered(s.store)) + multiset(InFlight(s))
             + multiset(s.store.dropped) + multiset(s.fetched);
    RunIsWellFormed(p, link, steps);
    forall x ensures multiset(s.offered)[x] == all[x] {
      RunBalances(p, link, steps, x);
      BufferedCount(p, s.store, x);
    }
  }

  /** A message offered once is never both delivered and still pending. */
  lemma NeverSentAndPending(p: Policy, link: Link, steps: seq<Step>, x: Message)
    requires multiset(Run(p, link, steps).offered)[x] == 1
    ensures var s := Run(p, link, steps);
      x in s.store.sent ==> x !in Buffered(s.store) && x !in InFlight(s) && x !in s.store.dropped
  {
    Conservation(p, link, steps);
    var s := Run(p, link, steps);
    assert x in s.store.sent ==> multiset(s.store.sent)[x] >= 1;
    assert x in Buffered(s.store) ==> multiset(Buffered(s.store))[x] >= 1;
    assert x in InFlight(s) ==> multiset(InFlight(s))[x] >= 1;
    assert x in s.store.dropped ==> multiset(s.store.dropped)[x] >= 1;
  }

  // ---------- Full sub-buffers ----------

  lemma {:induction false} FullOnlyAfterFailedFlush(p: Policy, link: Link, steps: seq<Step>)
    ensures FullOnlyAfterFailure(p, Run(p, link, steps).store)
  {
    if steps == [] {
    } else {
      var n := |steps| - 1;
      var s := Run(p, link, steps[..n]);
      FullOnlyAfterFailedFlush(p, link, steps[..n]);
      RunIsWellFormed(p, link, steps[..n]);
      if steps[n].Offer? {
        AddKeepsFullRule(p, link, s.store, steps[n].message);
      } else if steps[n].TimerReturn? && s.timer.Returning? && s.timer.batch != [] {
        AddKeepsFullRule(p, link, s.store, s.timer.batch[0]);
      }
    }
  }

  // ---------- A round without interference ----------

  lemma {:induction false} ReturnAll(p: Policy, link: Link, s: System)
    requires s.timer.Returning?
    ensures Finish(p, link, s, |s.timer.batch| + 1)
         == s.(store := AddAll(p, link, s.store, s.timer.batch), timer := Idle)
    decreases |InFlight(s)|
  {
    var t := Next(p, link, s, TimerReturn);
    if s.timer.batch == [] {
      assert Finish(p, link, t, 0) == t;
    } else {
      ReturnAll(p, link, t);
    }
  }

  /** The timer taking `n` return steps in a row. */
  function Finish(p: Policy, link: Link, s: System, n: nat): System
    decreases n
  {
    if n == 0 then s else Finish(p, link, Next(p, link, s, TimerReturn), n - 1)
  }

  /** Taken in a row, the steps of the timer are one iteration of it. */
  lemma RoundInSteps(p: Policy, link: Link, s: System)
    requires s.timer.Idle?
    ensures var sent := Next(p, link, Next(p, link, s, TimerTake), TimerSend);
      Finish(p, link, sent, |InFlight(sent)| + 1) == s.(store := TimerRound(p, link, s.store))
  {
    var sent := Next(p, link, Next(p, link, s, TimerTake), TimerSend);
    if sent.timer.Returning? {
      ReturnAll(p, link, sent);
      AddAllNone(p, link, sent.store);
    } else {
      assert Finish(p, link, sent, 1) == Finish(p, link, sent, 0) == sent;
    }
  }
}
