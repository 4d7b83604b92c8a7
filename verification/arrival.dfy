/**
 Arrival order. When full sub-buffers drop their oldest messages, what is pending of a metric is always
 the tail of what was offered, and deliveries follow the order of arrival. Under interleaving this holds
 at every moment of a run exactly as long as no message overtakes what the timer has in hand. Whichever
 way full sub-buffers go about it, deliveries then keep the order of what was offered.
 */
module Arrival {
  import opened Messages
  import opened Queues
  import opened Clients
  import opened Store
  import opened Interleaving
  import Ordering

  // ---------- Subsequences ----------

  /** `a` is `b` with some elements left out. */
  predicate Within(a: seq<Message>, b: seq<Message>)
    decreases |b|
  {
    a == [] || (b != [] && (Within(a, b[..|b| - 1]) ||
      (a[|a| - 1] == b[|b| - 1] && Within(a[..|a| - 1], b[..|b| - 1]))))
  }

  lemma {:induction false} WithinLonger(a: seq<Message>, b: seq<Message>, c: seq<Message>)
    requires Within(a, b)
    ensures Within(a, b + c)
  {
    if c == [] {
      assert b + c == b;
    } else {
      WithinLonger(a, b, c[..|c| - 1]);
      assert (b + c)[..|b + c| - 1] == b + c[..|c| - 1];
    }
  }

  lemma {:induction false} WithinBoth(a: seq<Message>, b: seq<Message>, c: seq<Message>)
    requires Within(a, b)
    ensures Within(a + c, b + c)
  {
    if c == [] {
      assert b + c == b && a + c == a;
    } else {
      var n := |c| - 1;
      WithinBoth(a, b, c[..n]);
      assert (b + c)[..|b + c| - 1] == b + c[..n];
      assert (a + c)[..|a + c| - 1] == a + c[..n];
    }
  }

  lemma {:induction false} WithinMembers(a: seq<Message>, b: seq<Message>)
    requires Within(a, b)
    ensures forall m | m in a :: m in b
    decreases |b|
  {
    if a == [] {
    } else {
      var front, last := b[..|b| - 1], b[|b| - 1];
      assert b == front + [last];
      if Within(a, front) {
        WithinMembers(a, front);
      } else {
        WithinMembers(a[..|a| - 1], front);
        assert a == a[..|a| - 1] + [last];
      }
    }
  }

  // ---------- Arrival order ----------

  function OfKindIn(ms: seq<Message>, kind: string): seq<Message> {
    Select(OfKind(kind), ms)
  }

  /** The pending messages of a metric are the latest ones offered, and what was delivered before
      comes from the earlier ones, in the same order. */
  predicate TailOf(pending: seq<Message>, sent: seq<Message>, offered: seq<Message>) {
    && |pending| <= |offered|
    && pending == offered[|offered| - |pending|..]
    && Within(sent, offered[..|offered| - |pending|])
  }

  /** The timer holds messages that were the latest ones when it took them; what is buffered are the
      latest of the `since` messages offered since. */
  predicate HeldInOrder(items: seq<Message>, held: seq<Message>, sent: seq<Message>, offered: seq<Message>,
                        since: nat)
  {
    && |items| <= since <= |offered|
    && items == offered[|offered| - |items|..]
    && TailOf(held, sent, offered[..|offered| - since])
  }

  /** Of one metric, everything is where the order of arrival wants it: what the timer has yet to send
      goes before what is buffered, what it puts back goes behind. */
  predicate InOrderOfArrival(s: System, kind: string, since: nat) {
    var items, held := QueueOf(s.store, kind).items, OfKindIn(InFlight(s), kind);
    var sent, offered := OfKindIn(s.store.sent, kind), OfKindIn(s.offered, kind);
    if s.timer.Holding? && held != [] then HeldInOrder(items, held, sent, offered, since)
    else TailOf(items + held, sent, offered)
  }

  /** What the timer has in hand is valid and fits where it would be put back. */
  predicate Room(p: Policy, s: System, kind: string) {
    && |OfKindIn(InFlight(s), kind)| <= p.capacity
    && (s.timer.Returning? ==> |QueueOf(s.store, kind).items + OfKindIn(InFlight(s), kind)| <= p.capacity)
    && forall m | m in InFlight(s) :: m.IsValid()
  }

  /** How many messages of a metric were offered since the timer last took. */
  function Since(p: Policy, link: Link, steps: seq<Step>, kind: string): nat {
    if steps == [] then 0
    else
      var front := steps[..|steps| - 1];
      SinceNext(Run(p, link, front), Since(p, link, front, kind), steps[|steps| - 1], kind)
  }

  function SinceNext(s: System, since: nat, step: Step, kind: string): nat {
    match step
    case Offer(m) => if m.kind == kind then since + 1 else since
    case TimerTake => if s.timer.Idle? then 0 else since
    case _ => since
  }

  /** A new message that its sub-buffer accepts fills it up, and the link is there to deliver it. */
  predicate Flushes(p: Policy, link: Link, s: State, m: Message) {
    && m.IsValid()
    && Accepts(p, QueueOf(s, m.kind))
    && |QueueOf(s, m.kind).items| + 1 >= p.capacity
    && link(s.attempts)
  }

  /** Then, and only then, adding it delivers something. */
  lemma FlushDelivers(p: Policy, link: Link, s: State, m: Message)
    ensures Flushes(p, link, s, m) <==> Add(p, link, s, m).sent != s.sent
  {
    if m.IsValid() {
      var pushed := Push(p, QueueOf(s, m.kind), m).items;
      assert Accepts(p, QueueOf(s, m.kind)) ==> pushed != [];
    }
  }

  /** The steps by which a message gets ahead of older ones of its metric in the timer's hands: it is
      offered while they are put back, its sub-buffer is delivered before they are, or their send fails
      after it was offered. */
  predicate Overtakes(p: Policy, link: Link, s: System, since: nat, step: Step, kind: string) {
    var held := OfKindIn(InFlight(s), kind);
    match step
    case Offer(m) =>
      m.kind == kind && held != [] && (s.timer.Returning? || Flushes(p, link, s.store, m))
    case TimerSend => s.timer.Holding? && held != [] && !link(s.store.attempts) && since > 0
    case _ => false
  }

  /** A new message arrives. */
  lemma TailGrows(pending: seq<Message>, sent: seq<Message>, offered: seq<Message>, m: Message)
    requires TailOf(pending, sent, offered)
    ensures TailOf(pending + [m], sent, offered + [m])
  {
    var n := |offered| - |pending|;
    assert (offered + [m])[n..] == offered[n..] + [m];
    assert (offered + [m])[..n] == offered[..n];
  }

  /** The oldest pending messages leave undelivered. */
  lemma TailShrinks(pending: seq<Message>, sent: seq<Message>, offered: seq<Message>, n: nat)
    requires TailOf(pending, sent, offered) && n <= |pending|
    ensures TailOf(pending[n..], sent, offered)
  {
    var cut := |offered| - |pending|;
    assert offered[..cut + n] == offered[..cut] + offered[cut..cut + n];
    WithinLonger(sent, offered[..cut], offered[cut..cut + n]);
  }

  /** The oldest pending messages are delivered. */
  lemma TailDelivered(pending: seq<Message>, sent: seq<Message>, offered: seq<Message>, n: nat)
    requires TailOf(pending, sent, offered) && n <= |pending|
    ensures TailOf(pending[n..], sent + pending[..n], offered)
  {
    var cut := |offered| - |pending|;
    assert offered[..cut + n] == offered[..cut] + offered[cut..cut + n];
    assert pending[..n] == offered[cut..cut + n];
    WithinBoth(sent, offered[..cut], pending[..n]);
  }

  // ---------- Adding ----------

  lemma PushedAreOfKind(p: Policy, s: State, m: Message)
    requires WellFormed(p, s)
    ensures forall x | x in Push(p, QueueOf(s, m.kind), m).items :: x.kind == m.kind
  {
  }

  lemma AddInvalid(p: Policy, link: Link, s: State, m: Message)
    requires !m.IsValid()
    ensures var t := Add(p, link, s, m); t.queues == s.queues && t.sent == s.sent
  {
  }

  /** What adding does, in either mode. */
  lemma AddOutcome(p: Policy, link: Link, s: State, m: Message, kind: string)
    requires WellFormed(p, s)
    ensures var t := Add(p, link, s, m);
      var sent, sent', after := OfKindIn(s.sent, kind), OfKindIn(t.sent, kind), QueueOf(t, kind).items;
      var pushed := Push(p, QueueOf(s, kind), m).items;
      if m.kind != kind || !m.IsValid() then sent' == sent && after == QueueOf(s, kind).items
      else if Flushes(p, link, s, m) then sent' == sent + pushed && after == []
      else sent' == sent && after == pushed
  {
    hide Select, Add;
    if !m.IsValid() {
      AddInvalid(p, link, s, m);
    } else {
      var pushed := Push(p, QueueOf(s, m.kind), m).items;
      var delivered := if Flushes(p, link, s, m) then pushed else [];
      AddDelivers(p, link, s, m, kind);
      SelectAppend(OfKind(kind), s.sent, delivered);
      PushedAreOfKind(p, s, m);
      if m.kind == kind {
        SelectAll(OfKind(kind), delivered);
      } else {
        SelectNone(OfKind(kind), delivered);
      }
      assert OfKindIn(s.sent, kind) + [] == OfKindIn(s.sent, kind);
    }
  }

  lemma AddDelivers(p: Policy, link: Link, s: State, m: Message, kind: string)
    requires m.IsValid()
    ensures var t := Add(p, link, s, m);
      var pushed := Push(p, QueueOf(s, m.kind), m).items;
      && t.sent == s.sent + (if Flushes(p, link, s, m) then pushed else [])
      && QueueOf(t, kind).items
         == if m.kind != kind then QueueOf(s, kind).items else if Flushes(p, link, s, m) then [] else pushed
  {
  }

  /** With the oldest giving way, a new message is always accepted. */
  lemma AddEffect(p: Policy, link: Link, s: State, m: Message, kind: string)
    requires WellFormed(p, s) && p.dropOldest && m.IsValid()
    ensures var t := Add(p, link, s, m);
      var before, after := QueueOf(s, kind).items, QueueOf(t, kind).items;
      var sent, sent' := OfKindIn(s.sent, kind), OfKindIn(t.sent, kind);
      if m.kind != kind then after == before && sent' == sent
      else
        var room := if |before| < p.capacity then before else before[1..];
        (after == room + [m] && sent' == sent)
        || (after == [] && sent' == sent + (room + [m]) && |room| + 1 >= p.capacity)
  {
    hide Add, Select;
    AddOutcome(p, link, s, m, kind);
  }

  // ---------- Steps that keep the order ----------

  lemma OfferKeepsOrder(p: Policy, link: Link, s: System, m: Message, kind: string, since: nat)
    requires p.dropOldest && WellFormed(p, s.store) && kind != ""
    requires InOrderOfArrival(s, kind, since) && Room(p, s, kind)
    requires !Overtakes(p, link, s, since, Offer(m), kind)
    ensures var t := Next(p, link, s, Offer(m));
      InOrderOfArrival(t, kind, SinceNext(s, since, Offer(m), kind)) && Room(p, t, kind)
  {
    hide Select, Within, Add, TailOf, WellFormed;
    var t := Next(p, link, s, Offer(m));
    OfferedNext(s, m, kind);
    FlushDelivers(p, link, s.store, m);
    SelectNone(OfKind(kind), []);
    if m.kind != kind {
      AddElsewhere(p, link, s.store, m, kind);
    } else {
      AddEffect(p, link, s.store, m, kind);
      AddFits(p, link, s.store, m, kind);
      var before, after := QueueOf(s.store, kind).items, QueueOf(t.store, kind).items;
      var offered, sent := OfKindIn(s.offered, kind), OfKindIn(s.store.sent, kind);
      assert before + [] == before && after + [] == after;
      if OfKindIn(InFlight(s), kind) == [] {
        TailOffered(before, after, sent, OfKindIn(t.store.sent, kind), offered, m, p.capacity);
      } else {
        HeldOffered(before, after, OfKindIn(InFlight(s), kind), sent, offered, since, m, p.capacity);
      }
    }
  }

  lemma OfferedNext(s: System, m: Message, kind: string)
    ensures OfKindIn(s.offered + [m], kind)
         == if m.kind == kind then OfKindIn(s.offered, kind) + [m] else OfKindIn(s.offered, kind)
  {
    hide Select;
    SelectStep(OfKind(kind), s.offered, m);
    assert OfKindIn(s.offered, kind) + [] == OfKindIn(s.offered, kind);
  }

  lemma AddElsewhere(p: Policy, link: Link, s: State, m: Message, kind: string)
    requires WellFormed(p, s) && p.dropOldest && m.kind != kind
    ensures var t := Add(p, link, s, m);
      QueueOf(t, kind).items == QueueOf(s, kind).items && OfKindIn(t.sent, kind) == OfKindIn(s.sent, kind)
  {
    hide Select, Add, WellFormed;
    if m.IsValid() {
      AddEffect(p, link, s, m, kind);
    } else {
      AddInvalid(p, link, s, m);
    }
  }

  lemma AddFits(p: Policy, link: Link, s: State, m: Message, kind: string)
    requires WellFormed(p, s)
    ensures |QueueOf(Add(p, link, s, m), kind).items| <= p.capacity
  {
    hide Add;
    AddKeepsWellFormed(p, link, s, m);
    assert kind in Add(p, link, s, m).queues ==> QueueOk(p, kind, Add(p, link, s, m).queues[kind]);
  }

  /** Nothing in the timer's hands: the new message joins the tail, and a flush delivers all of it. */
  lemma TailOffered(before: seq<Message>, after: seq<Message>, sent: seq<Message>, sent': seq<Message>,
                    offered: seq<Message>, m: Message, capacity: Capacity)
    requires TailOf(before, sent, offered)
    requires var room := if |before| < capacity then before else before[1..];
      (after == room + [m] && sent' == sent) || (after == [] && sent' == sent + (room + [m]))
    ensures TailOf(after, sent', offered + [m])
  {
    hide Within, TailOf;
    var cut := if |before| < capacity then 0 else 1;
    TailShrinks(before, sent, offered, cut);
    TailGrows(before[cut..], sent, offered, m);
    var room := before[cut..] + [m];
    TailDelivered(room, sent, offered + [m], |room|);
    assert room[|room|..] == [] && room[..|room|] == room;
  }

  /** The timer has yet to send: the new message joins what was offered since. */
  lemma HeldOffered(before: seq<Message>, after: seq<Message>, held: seq<Message>, sent: seq<Message>,
                    offered: seq<Message>, since: nat, m: Message, capacity: Capacity)
    requires HeldInOrder(before, held, sent, offered, since)
    requires after == (if |before| < capacity then before else before[1..]) + [m]
    ensures HeldInOrder(after, held, sent, offered + [m], since + 1)
  {
    hide TailOf;
    assert (offered + [m])[..|offered| - since] == offered[..|offered| - since];
  }

  lemma ReturnKeepsOrder(p: Policy, link: Link, s: System, kind: string, since: nat)
    requires p.dropOldest && WellFormed(p, s.store)
    requires InOrderOfArrival(s, kind, since) && Room(p, s, kind)
    requires s.timer.Returning? && s.timer.batch != []
    ensures InOrderOfArrival(Next(p, link, s, TimerReturn), kind, since)
    ensures Room(p, Next(p, link, s, TimerReturn), kind)
  {
    hide Select, Within, Add, TailOf;
    var t := Next(p, link, s, TimerReturn);
    var m, rest := s.timer.batch[0], s.timer.batch[1..];
    assert s.timer.batch == [m] + rest;
    assert m in InFlight(s);
    SelectAppend(OfKind(kind), [m], rest);
    AddEffect(p, link, s.store, m, kind);
    var before, later := QueueOf(s.store, kind).items, OfKindIn(rest, kind);
    if m.kind != kind {
      SelectNone(OfKind(kind), [m]);
      assert [] + later == later;
    } else {
      SelectAll(OfKind(kind), [m]);
      var pending := before + OfKindIn(s.timer.batch, kind);
      assert pending == before + [m] + later;
      if QueueOf(t.store, kind).items == [] {
        assert later == [];
        TailDelivered(pending, OfKindIn(s.store.sent, kind), OfKindIn(s.offered, kind), |pending|);
        assert pending[..|pending|] == before + [m] && pending[|pending|..] == [];
      }
    }
  }

  lemma SendKeepsOrder(p: Policy, link: Link, s: System, kind: string, since: nat)
    requires WellFormed(p, s.store)
    requires InOrderOfArrival(s, kind, since) && Room(p, s, kind)
    requires !Overtakes(p, link, s, since, TimerSend, kind)
    ensures InOrderOfArrival(Next(p, link, s, TimerSend), kind, since)
    ensures Room(p, Next(p, link, s, TimerSend), kind)
  {
    hide Select, Within, TailOf;
    if s.timer.Holding? {
      var items, held := QueueOf(s.store, kind).items, OfKindIn(InFlight(s), kind);
      var sent, offered := OfKindIn(s.store.sent, kind), OfKindIn(s.offered, kind);
      SelectAppend(OfKind(kind), s.store.sent, s.timer.batch);
      SelectNone(OfKind(kind), []);
      assert items + [] == items && sent + [] == sent;
      ItemsFit(p, s.store, kind);
      if held == [] {
      } else if link(s.store.attempts) {
        HeldDelivered(items, held, sent, offered, since);
      } else {
        assert items == [] && [] + held == held && offered[..|offered| - 0] == offered;
      }
    }
  }

  lemma ItemsFit(p: Policy, s: State, kind: string)
    requires WellFormed(p, s)
    ensures |QueueOf(s, kind).items| <= p.capacity
  {
    assert kind in s.queues ==> QueueOk(p, kind, s.queues[kind]);
  }

  lemma HeldDelivered(items: seq<Message>, held: seq<Message>, sent: seq<Message>, offered: seq<Message>, since: nat)
    requires HeldInOrder(items, held, sent, offered, since)
    ensures TailOf(items, sent + held, offered)
  {
    hide Within;
    var early := offered[..|offered| - since];
    TailDelivered(held, sent, early, |held|);
    assert held[..|held|] == held && early[..|early| - 0] == early;
    var mid := offered[|offered| - since..|offered| - |items|];
    assert offered[..|offered| - |items|] == early + mid;
    WithinLonger(sent + held, early, mid);
  }

  lemma TakeKeepsOrder(p: Policy, link: Link, s: System, kind: string, since: nat)
    requires WellFormed(p, s.store)
    requires InOrderOfArrival(s, kind, since) && Room(p, s, kind)
    ensures var t := Next(p, link, s, TimerTake);
      InOrderOfArrival(t, kind, SinceNext(s, since, TimerTake, kind)) && Room(p, t, kind)
  {
    hide Select, Within, Buffered, TailOf;
    if s.timer.Idle? {
      var t := Next(p, link, s, TimerTake);
      BufferedOfKind(p, s.store, kind);
      BufferedIsValid(p, s.store);
      ItemsFit(p, s.store, kind);
      SelectNone(OfKind(kind), []);
      var items, offered := QueueOf(s.store, kind).items, OfKindIn(s.offered, kind);
      assert QueueOf(t.store, kind).items == [];
      assert items + [] == items && [] + items == items && offered[..|offered| - 0] == offered;
    }
  }

  lemma BufferedIsValid(p: Policy, s: State)
    requires WellFormed(p, s)
    ensures forall m | m in Buffered(s) :: m.IsValid()
  {
    forall m | m in Buffered(s) ensures m.IsValid() {
      BufferedCount(p, s, m);
      assert multiset(Buffered(s))[m] > 0;
      assert m in QueueOf(s, m.kind).items;
    }
  }

  lemma EmptyingKeepsOrder(p: Policy, link: Link, s: System, step: Step, kind: string, since: nat)
    requires WellFormed(p, s.store) && (step.Fetch? || step.Erase?)
    requires InOrderOfArrival(s, kind, since) && Room(p, s, kind)
    ensures InOrderOfArrival(Next(p, link, s, step), kind, since)
    ensures Room(p, Next(p, link, s, step), kind)
  {
    hide Select, Within, TailOf;
    var t := Next(p, link, s, step);
    var items, held := QueueOf(s.store, kind).items, OfKindIn(InFlight(s), kind);
    if step.kind != kind {
      assert QueueOf(t.store, kind).items == items;
    } else {
      assert QueueOf(t.store, kind).items == [] && (items + held)[|items|..] == [] + held;
      if !(s.timer.Holding? && held != []) {
        TailShrinks(items + held, OfKindIn(s.store.sent, kind), OfKindIn(s.offered, kind), |items|);
      }
    }
  }

  lemma StepKeepsOrder(p: Policy, link: Link, s: System, step: Step, kind: string, since: nat)
    requires p.dropOldest && WellFormed(p, s.store) && kind != ""
    requires InOrderOfArrival(s, kind, since) && Room(p, s, kind)
    requires !Overtakes(p, link, s, since, step, kind)
    ensures var t := Next(p, link, s, step);
      InOrderOfArrival(t, kind, SinceNext(s, since, step, kind)) && Room(p, t, kind)
  {
    hide InOrderOfArrival, Add, Buffered, WellFormed, Select;
    match step
    case Offer(m) => OfferKeepsOrder(p, link, s, m, kind, since);
    case TimerTake => TakeKeepsOrder(p, link, s, kind, since);
    case TimerSend => SendKeepsOrder(p, link, s, kind, since);
    case TimerReturn =>
      if s.timer.Returning? {
        if s.timer.batch == [] {
          ReturnedAll(p, link, s, kind, since);
        } else {
          ReturnKeepsOrder(p, link, s, kind, since);
        }
      }
    case _ => EmptyingKeepsOrder(p, link, s, step, kind, since);
  }

  lemma ReturnedAll(p: Policy, link: Link, s: System, kind: string, since: nat)
    requires InOrderOfArrival(s, kind, since) && Room(p, s, kind) && s.timer == Returning([])
    ensures InOrderOfArrival(s.(timer := Idle), kind, since) && Room(p, s.(timer := Idle), kind)
  {
  }

  // ---------- Steps that break it ----------

  lemma LastOfTail(pending: seq<Message>, sent: seq<Message>, offered: seq<Message>)
    ensures TailOf(pending, sent, offered) && pending != [] ==>
      offered != [] && pending[|pending| - 1] == offered[|offered| - 1]
  {
    hide Within;
  }

  lemma SentWereOffered(pending: seq<Message>, sent: seq<Message>, offered: seq<Message>)
    ensures TailOf(pending, sent, offered) ==> forall m | m in sent :: m in offered
  {
    hide Within;
    if TailOf(pending, sent, offered) {
      WithinMembers(sent, offered[..|offered| - |pending|]);
    }
  }

  /** When no message of a metric is offered twice, a step that overtakes breaks its order. */
  lemma {:induction false} OvertakingBreaksOrder(p: Policy, link: Link, s: System, step: Step, kind: string, since: nat)
    requires p.dropOldest && WellFormed(p, s.store) && kind != ""
    requires InOrderOfArrival(s, kind, since)
    requires Overtakes(p, link, s, since, step, kind)
    requires Ordering.NoRepeats(OfKindIn(Next(p, link, s, step).offered, kind))
    ensures !InOrderOfArrival(Next(p, link, s, step), kind, SinceNext(s, since, step, kind))
  {
    hide InOrderOfArrival, Add, WellFormed, Select;
    SelectNone(OfKind(kind), []);
    if step.TimerSend? {
      LateFailure(p, link, s, kind, since);
    } else if s.timer.Returning? {
      OfferedTooEarly(p, link, s, step.message, since);
    } else {
      DeliveredTooEarly(p, link, s, step.message, since);
    }
  }

  lemma LateFailure(p: Policy, link: Link, s: System, kind: string, since: nat)
    requires InOrderOfArrival(s, kind, since) && Overtakes(p, link, s, since, TimerSend, kind)
    requires Ordering.NoRepeats(OfKindIn(s.offered, kind))
    ensures !InOrderOfArrival(Next(p, link, s, TimerSend), kind, since)
  {
    hide Select, TailOf;
    var items, held := QueueOf(s.store, kind).items, OfKindIn(InFlight(s), kind);
    var sent, offered := OfKindIn(s.store.sent, kind), OfKindIn(s.offered, kind);
    SelectNone(OfKind(kind), []);
    LastOfTail(held, sent, offered[..|offered| - since]);
    assert held[|held| - 1] == offered[|offered| - since - 1] != offered[|offered| - 1];
    LastOfTail(items + held, sent, offered);
  }

  lemma OfferedTooEarly(p: Policy, link: Link, s: System, m: Message, since: nat)
    requires InOrderOfArrival(s, m.kind, since) && s.timer.Returning? && OfKindIn(InFlight(s), m.kind) != []
    requires Ordering.NoRepeats(OfKindIn(s.offered + [m], m.kind))
    ensures !InOrderOfArrival(Next(p, link, s, Offer(m)), m.kind, since + 1)
  {
    hide Select, TailOf, Add;
    var t := Next(p, link, s, Offer(m));
    var held, offered := OfKindIn(InFlight(s), m.kind), OfKindIn(s.offered, m.kind);
    OfferedNext(s, m, m.kind);
    LastOfTail(QueueOf(s.store, m.kind).items + held, OfKindIn(s.store.sent, m.kind), offered);
    assert held[|held| - 1] == (offered + [m])[|offered| - 1] != (offered + [m])[|offered|];
    var pending, sent := QueueOf(t.store, m.kind).items + held, OfKindIn(t.store.sent, m.kind);
    LastOfTail(pending, sent, offered + [m]);
  }

  lemma DeliveredTooEarly(p: Policy, link: Link, s: System, m: Message, since: nat)
    requires p.dropOldest && WellFormed(p, s.store) && m.IsValid()
    requires InOrderOfArrival(s, m.kind, since) && s.timer.Holding?
    requires Overtakes(p, link, s, since, Offer(m), m.kind)
    requires Ordering.NoRepeats(OfKindIn(s.offered + [m], m.kind))
    ensures !InOrderOfArrival(Next(p, link, s, Offer(m)), m.kind, since + 1)
  {
    hide Select, Within, Add, WellFormed;
    var t := Next(p, link, s, Offer(m));
    var held, offered := OfKindIn(InFlight(s), m.kind), OfKindIn(s.offered, m.kind);
    OfferedNext(s, m, m.kind);
    FlushDelivers(p, link, s.store, m);
    SentByOffer(p, link, s.store, m);
    var sent, early := OfKindIn(t.store.sent, m.kind), offered[..|offered| - since];
    assert (offered + [m])[..|offered| - since] == early;
    forall i | 0 <= i < |early| ensures early[i] != m {
      assert early[i] == (offered + [m])[i] != (offered + [m])[|offered|];
    }
    SentWereOffered(held, sent, early);
  }

  /** A delivering flush delivers the new message, too. */
  lemma SentByOffer(p: Policy, link: Link, s: State, m: Message)
    requires p.dropOldest && WellFormed(p, s) && m.IsValid() && Add(p, link, s, m).sent != s.sent
    ensures m in OfKindIn(Add(p, link, s, m).sent, m.kind)
  {
    hide Select, Add, WellFormed;
    var pushed := Push(p, QueueOf(s, m.kind), m).items;
    AddDelivers(p, link, s, m, m.kind);
    FlushDelivers(p, link, s, m);
    assert pushed[|pushed| - 1] == m;
    assert s.sent + [] == s.sent;
    assert m in s.sent + pushed;
    SelectMembers(OfKind(m.kind), s.sent + pushed);
  }

  // ---------- Runs ----------

  predicate NoneOvertakes(p: Policy, link: Link, steps: seq<Step>, kind: string) {
    steps == [] ||
    var front := steps[..|steps| - 1];
    && NoneOvertakes(p, link, front, kind)
    && !Overtakes(p, link, Run(p, link, front), Since(p, link, front, kind), steps[|steps| - 1], kind)
  }

  /** As long as none of a metric overtakes, whatever becomes of the others and of the sends, the metric
      is in order of arrival. */
  lemma {:induction false} ArrivalOrder(p: Policy, link: Link, steps: seq<Step>, kind: string)
    requires p.dropOldest && kind != "" && NoneOvertakes(p, link, steps, kind)
    ensures InOrderOfArrival(Run(p, link, steps), kind, Since(p, link, steps, kind))
    ensures Room(p, Run(p, link, steps), kind)
  {
    hide InOrderOfArrival, Overtakes, Room, Next, SinceNext;
    if steps == [] {
      NothingOffered(p, kind);
    } else {
      var n := |steps| - 1;
      ArrivalOrder(p, link, steps[..n], kind);
      RunIsWellFormed(p, link, steps[..n]);
      StepKeepsOrder(p, link, Run(p, link, steps[..n]), steps[n], kind, Since(p, link, steps[..n], kind));
    }
  }

  lemma NothingOffered(p: Policy, kind: string)
    ensures InOrderOfArrival(START, kind, 0) && Room(p, START, kind)
  {
    SelectNone(OfKind(kind), []);
  }

  /** At every moment of a run. */
  ghost predicate AlwaysInOrder(p: Policy, link: Link, steps: seq<Step>, kind: string) {
    forall n | 0 <= n <= |steps| :: InOrderAfter(p, link, steps[..n], kind)
  }

  predicate InOrderAfter(p: Policy, link: Link, steps: seq<Step>, kind: string) {
    InOrderOfArrival(Run(p, link, steps), kind, Since(p, link, steps, kind))
  }

  /** A metric of which no message is offered twice is in order of arrival at every moment of a run if
      and only if none of its messages overtakes. */
  lemma {:induction false} ArrivalOrderExactly(p: Policy, link: Link, steps: seq<Step>, kind: string)
    requires p.dropOldest && kind != ""
    requires Ordering.NoRepeats(OfKindIn(Run(p, link, steps).offered, kind))
    ensures AlwaysInOrder(p, link, steps, kind) <==> NoneOvertakes(p, link, steps, kind)
  {
    hide InOrderOfArrival, Overtakes, Room, Next, SinceNext, Select, NoneOvertakes;
    if steps == [] {
      OrderedSoFar(p, link, steps, kind);
    } else {
      var n := |steps| - 1;
      OfferedGrows(p, link, Run(p, link, steps[..n]), steps[n], kind);
      ArrivalOrderExactly(p, link, steps[..n], kind);
      AlwaysNext(p, link, steps, kind);
      OvertakesNext(p, link, steps, kind);
      if NoneOvertakes(p, link, steps[..n], kind) {
        OrderExactlyAfter(p, link, steps, kind);
      }
    }
  }

  lemma OrderedSoFar(p: Policy, link: Link, steps: seq<Step>, kind: string)
    requires steps == []
    ensures AlwaysInOrder(p, link, steps, kind) && NoneOvertakes(p, link, steps, kind)
  {
    NothingOffered(p, kind);
    assert steps[..0] == [];
  }

  lemma AlwaysNext(p: Policy, link: Link, steps: seq<Step>, kind: string)
    requires steps != []
    ensures AlwaysInOrder(p, link, steps, kind)
      <==> AlwaysInOrder(p, link, steps[..|steps| - 1], kind) && InOrderAfter(p, link, steps, kind)
  {
    hide InOrderAfter;
    var front := steps[..|steps| - 1];
    assert steps[..|steps|] == steps;
    assert forall n | 0 <= n <= |front| :: front[..n] == steps[..n];
  }

  lemma OvertakesNext(p: Policy, link: Link, steps: seq<Step>, kind: string)
    requires steps != []
    ensures var front := steps[..|steps| - 1];
      NoneOvertakes(p, link, steps, kind) <==>
        && NoneOvertakes(p, link, front, kind)
        && !Overtakes(p, link, Run(p, link, front), Since(p, link, front, kind), steps[|steps| - 1], kind)
  {
    hide Overtakes;
  }

  lemma OrderExactlyAfter(p: Policy, link: Link, steps: seq<Step>, kind: string)
    requires p.dropOldest && kind != "" && steps != []
    requires NoneOvertakes(p, link, steps[..|steps| - 1], kind)
    requires Ordering.NoRepeats(OfKindIn(Run(p, link, steps).offered, kind))
    ensures var front := steps[..|steps| - 1];
      InOrderAfter(p, link, steps, kind)
      <==> !Overtakes(p, link, Run(p, link, front), Since(p, link, front, kind), steps[|steps| - 1], kind)
  {
    hide InOrderOfArrival, Overtakes, Room, Next, SinceNext, Select, NoneOvertakes;
    var n := |steps| - 1;
    var s, since := Run(p, link, steps[..n]), Since(p, link, steps[..n], kind);
    RunIsWellFormed(p, link, steps[..n]);
    ArrivalOrder(p, link, steps[..n], kind);
    if Overtakes(p, link, s, since, steps[n], kind) {
      OvertakingBreaksOrder(p, link, s, steps[n], kind, since);
    } else {
      StepKeepsOrder(p, link, s, steps[n], kind, since);
    }
  }

  lemma OfferedGrows(p: Policy, link: Link, s: System, step: Step, kind: string)
    requires Ordering.NoRepeats(OfKindIn(Next(p, link, s, step).offered, kind))
    ensures Ordering.NoRepeats(OfKindIn(s.offered, kind))
  {
    hide Select, Add, Buffered;
    if step.Offer? {
      OfferedNext(s, step.message, kind);
      var offered := OfKindIn(s.offered, kind);
      assert forall i | 0 <= i < |offered| :: (offered + [step.message])[i] == offered[i];
    }
  }

  // ---------- Either overflow mode ----------

  /** What was delivered, then two parts still to be delivered, come in the order they were offered in. */
  predicate InTurn(sent: seq<Message>, first: seq<Message>, second: seq<Message>, offered: seq<Message>) {
    Within(sent + first + second, offered)
  }

  /** What was and will be delivered of a metric comes in the order it was offered in. */
  predicate Ordered(s: System, kind: string) {
    var items, held := QueueOf(s.store, kind).items, OfKindIn(InFlight(s), kind);
    var sent, offered := OfKindIn(s.store.sent, kind), OfKindIn(s.offered, kind);
    if s.timer.Holding? then InTurn(sent, held, items, offered) else InTurn(sent, items, held, offered)
  }

  /** Nothing is buffered beside what the timer took last. */
  predicate Alone(s: System, kind: string, since: nat) {
    s.timer.Holding? && OfKindIn(InFlight(s), kind) != [] && since == 0 ==> QueueOf(s.store, kind).items == []
  }

  predicate Orderly(p: Policy, s: System, kind: string, since: nat) {
    Ordered(s, kind) && Alone(s, kind, since) && Room(p, s, kind)
  }

  lemma WithinNext(a: seq<Message>, front: seq<Message>, last: Message)
    ensures Within(a, front + [last])
      <==> a == [] || Within(a, front) || (a[|a| - 1] == last && Within(a[..|a| - 1], front))
    ensures Within([], front)
  {
    assert (front + [last])[..|front|] == front;
  }

  /** The last of three parts, and what is before it. */
  lemma LastOfParts(x: seq<Message>, y: seq<Message>, z: seq<Message>)
    ensures var all := x + y + z;
      if z != [] then all[|all| - 1] == z[|z| - 1] && all[..|all| - 1] == x + y + z[..|z| - 1]
      else all == x + y
  {
  }

  lemma {:induction false} WithinOmit(x: seq<Message>, y: seq<Message>, z: seq<Message>, all: seq<Message>)
    requires Within(x + y + z, all)
    ensures Within(x + z, all)
    decreases |all|
  {
    hide Within;
    if all == [] {
      WithinLength(x + y + z, all);
      assert x + z == x + y + z;
    } else {
      var front, last := all[..|all| - 1], all[|all| - 1];
      assert all == front + [last];
      WithinNext(x + y + z, front, last);
      WithinNext(x + z, front, last);
      if x + y + z == [] {
        assert x + z == [];
      } else if Within(x + y + z, front) {
        WithinOmit(x, y, z, front);
      } else if z != [] {
        LastOfParts(x, y, z);
        WithinOmit(x, y, z[..|z| - 1], front);
        OmitLast(x, z);
      } else if y != [] {
        NoLastPart(x, y);
        WithinOmit(x, y[..|y| - 1], [], front);
        NoLastPart(x, []);
      } else {
        NoLastPart(x, []);
      }
    }
  }

  lemma OmitLast(x: seq<Message>, z: seq<Message>)
    requires z != []
    ensures (x + z)[|x + z| - 1] == z[|z| - 1] && (x + z)[..|x + z| - 1] == x + z[..|z| - 1]
  {
  }

  lemma NoLastPart(x: seq<Message>, y: seq<Message>)
    ensures x + y + [] == x + y && x + [] == x
    ensures y != [] ==> (x + y)[..|x + y| - 1] == x + y[..|y| - 1] + []
  {
  }

  /** A new message joins at the end, or is refused; it may cost the oldest buffered one its place. */
  lemma PushedWithin(p: Policy, q: Queue, m: Message, earlier: seq<Message>, offered: seq<Message>)
    requires Within(earlier + q.items, offered)
    ensures Within(earlier + Push(p, q, m).items, offered + [m])
  {
    hide Within;
    if !Accepts(p, q) {
      WithinLonger(earlier + q.items, offered, [m]);
    } else {
      var kept := if |q.items| >= p.capacity then q.items[1..] else q.items;
      var lost := q.items[..|q.items| - |kept|];
      assert earlier + q.items == earlier + lost + kept;
      WithinOmit(earlier, lost, kept, offered);
      WithinBoth(earlier + kept, offered, [m]);
      assert earlier + kept + [m] == earlier + (kept + [m]);
    }
  }

  /** An empty part may stand anywhere. */
  lemma OneTurn(sent: seq<Message>, part: seq<Message>, offered: seq<Message>)
    ensures InTurn(sent, part, [], offered) <==> InTurn(sent, [], part, offered)
    ensures InTurn(sent + part, [], [], offered) <==> InTurn(sent, part, [], offered)
  {
    assert sent + part + [] == sent + part == sent + [] + part;
    assert sent + part + [] + [] == sent + part;
  }

  lemma TurnOver(sent: seq<Message>, first: seq<Message>, second: seq<Message>, offered: seq<Message>)
    requires InTurn(sent, first, second, offered)
    ensures InTurn(sent + first, second, [], offered) && InTurn(sent + first, [], second, offered)
  {
    assert sent + first + second + [] == sent + first + second == sent + first + [] + second;
  }

  lemma TurnLost(sent: seq<Message>, first: seq<Message>, second: seq<Message>, offered: seq<Message>)
    requires InTurn(sent, first, second, offered)
    ensures InTurn(sent, [], second, offered) && InTurn(sent, first, [], offered)
  {
    hide Within;
    WithinOmit(sent, first, second, offered);
    assert sent + [] + second == sent + second;
    assert sent + first + second == sent + first + second + [];
    WithinOmit(sent + first, second, [], offered);
  }

  /** One message moves from the second part to the end of the first, or all of that is delivered. */
  lemma TurnMoves(sent: seq<Message>, first: seq<Message>, m: Message, rest: seq<Message>, offered: seq<Message>)
    requires InTurn(sent, first, [m] + rest, offered)
    ensures InTurn(sent, first + [m], rest, offered) && InTurn(sent + (first + [m]), [], rest, offered)
  {
    assert sent + first + ([m] + rest) == sent + (first + [m]) + rest == sent + (first + [m]) + [] + rest;
  }

  lemma TurnOffered(p: Policy, q: Queue, m: Message, sent: seq<Message>, held: seq<Message>, offered: seq<Message>)
    requires InTurn(sent, held, q.items, offered)
    ensures InTurn(sent, held, Push(p, q, m).items, offered + [m])
  {
    hide Within, Push;
    PushedWithin(p, q, m, sent + held, offered);
  }

  lemma OfferStaysOrderly(p: Policy, link: Link, s: System, m: Message, kind: string, since: nat)
    requires WellFormed(p, s.store) && kind != ""
    requires Orderly(p, s, kind, since) && !Overtakes(p, link, s, since, Offer(m), kind)
    ensures Orderly(p, Next(p, link, s, Offer(m)), kind, SinceNext(s, since, Offer(m), kind))
  {
    hide Select, InTurn, Add, WellFormed, Push, Flushes;
    OfferedNext(s, m, kind);
    AddOutcome(p, link, s.store, m, kind);
    AddFits(p, link, s.store, m, kind);
    SelectNone(OfKind(kind), []);
    if m.kind == kind {
      var q, sent, held := QueueOf(s.store, kind), OfKindIn(s.store.sent, kind), OfKindIn(InFlight(s), kind);
      var offered, pushed := OfKindIn(s.offered, kind), Push(p, q, m).items;
      OneTurn(sent, q.items, offered);
      OneTurn(sent, pushed, offered + [m]);
      TurnOffered(p, q, m, sent, held, offered);
      Units(QueueOf(Next(p, link, s, Offer(m)).store, kind).items);
    }
  }

  lemma Units(ms: seq<Message>)
    ensures ms + [] == ms && [] + ms == ms
  {
  }

  lemma TimerStaysOrderly(p: Policy, link: Link, s: System, step: Step, kind: string, since: nat)
    requires WellFormed(p, s.store) && (step.TimerTake? || step.TimerSend?)
    requires Orderly(p, s, kind, since) && !Overtakes(p, link, s, since, step, kind)
    ensures Orderly(p, Next(p, link, s, step), kind, SinceNext(s, since, step, kind))
  {
    hide Select, InTurn, WellFormed, Buffered, Drained;
    var items, held := QueueOf(s.store, kind).items, OfKindIn(InFlight(s), kind);
    var sent, offered := OfKindIn(s.store.sent, kind), OfKindIn(s.offered, kind);
    SelectNone(OfKind(kind), []);
    ItemsFit(p, s.store, kind);
    Units(items);
    Units(held);
    if step.TimerTake? && s.timer.Idle? {
      BufferedOfKind(p, s.store, kind);
      BufferedIsValid(p, s.store);
      DrainedItems(s.store, kind);
    } else if step.TimerSend? && s.timer.Holding? {
      SelectAppend(OfKind(kind), s.store.sent, s.timer.batch);
      TurnOver(sent, held, items, offered);
      OneTurn(sent, items, offered);
      OneTurn(sent, held, offered);
    }
  }

  lemma DrainedItems(s: State, kind: string)
    ensures QueueOf(Drained(s), kind).items == [] && Drained(s).sent == s.sent
  {
  }

  lemma ReturnStaysOrderly(p: Policy, link: Link, s: System, kind: string, since: nat)
    requires WellFormed(p, s.store) && s.timer.Returning? && s.timer.batch != []
    requires Orderly(p, s, kind, since)
    ensures Orderly(p, Next(p, link, s, TimerReturn), kind, since)
  {
    hide Select, InTurn, Add, WellFormed, Flushes;
    var m, rest := s.timer.batch[0], s.timer.batch[1..];
    assert s.timer.batch == [m] + rest && m in InFlight(s);
    SelectAppend(OfKind(kind), [m], rest);
    AddOutcome(p, link, s.store, m, kind);
    var items, later := QueueOf(s.store, kind).items, OfKindIn(rest, kind);
    Units(later);
    if m.kind != kind {
      SelectNone(OfKind(kind), [m]);
    } else {
      SelectAll(OfKind(kind), [m]);
      TurnMoves(OfKindIn(s.store.sent, kind), items, m, later, OfKindIn(s.offered, kind));
    }
  }

  lemma EmptyingStaysOrderly(p: Policy, link: Link, s: System, step: Step, kind: string, since: nat)
    requires WellFormed(p, s.store) && (step.Fetch? || step.Erase?)
    requires Orderly(p, s, kind, since)
    ensures Orderly(p, Next(p, link, s, step), kind, since)
  {
    hide Select, InTurn, WellFormed;
    var t := Next(p, link, s, step);
    var items, held := QueueOf(s.store, kind).items, OfKindIn(InFlight(s), kind);
    var sent, offered := OfKindIn(s.store.sent, kind), OfKindIn(s.offered, kind);
    if step.kind != kind {
      assert QueueOf(t.store, kind).items == items;
    } else {
      assert QueueOf(t.store, kind).items == [];
      Units(held);
      if s.timer.Holding? {
        TurnLost(sent, held, items, offered);
      } else {
        TurnLost(sent, items, held, offered);
      }
    }
  }

  /** In either mode, as long as none of a metric overtakes: what was delivered of it, followed by what is
      still to be delivered, comes in the order it was offered in. */
  lemma {:induction false} DeliveryOrder(p: Policy, link: Link, steps: seq<Step>, kind: string)
    requires kind != "" && NoneOvertakes(p, link, steps, kind)
    ensures Orderly(p, Run(p, link, steps), kind, Since(p, link, steps, kind))
  {
    hide Orderly, Overtakes, Next, SinceNext;
    if steps == [] {
      NothingIsOrderly(p, kind);
    } else {
      var n := |steps| - 1;
      DeliveryOrder(p, link, steps[..n], kind);
      RunIsWellFormed(p, link, steps[..n]);
      StepStaysOrderly(p, link, Run(p, link, steps[..n]), steps[n], kind, Since(p, link, steps[..n], kind));
    }
  }

  lemma StepStaysOrderly(p: Policy, link: Link, s: System, step: Step, kind: string, since: nat)
    requires WellFormed(p, s.store) && kind != ""
    requires Orderly(p, s, kind, since) && !Overtakes(p, link, s, since, step, kind)
    ensures Orderly(p, Next(p, link, s, step), kind, SinceNext(s, since, step, kind))
  {
    hide Orderly, Add, Buffered, WellFormed, Select;
    match step
    case Offer(m) => OfferStaysOrderly(p, link, s, m, kind, since);
    case TimerTake => TimerStaysOrderly(p, link, s, step, kind, since);
    case TimerSend => TimerStaysOrderly(p, link, s, step, kind, since);
    case TimerReturn =>
      if s.timer.Returning? {
        if s.timer.batch == [] {
          ReturnedOrderly(p, s, kind, since);
        } else {
          ReturnStaysOrderly(p, link, s, kind, since);
        }
      }
    case _ => EmptyingStaysOrderly(p, link, s, step, kind, since);
  }

  lemma ReturnedOrderly(p: Policy, s: System, kind: string, since: nat)
    requires Orderly(p, s, kind, since) && s.timer == Returning([])
    ensures Orderly(p, s.(timer := Idle), kind, since)
  {
  }

  lemma NothingIsOrderly(p: Policy, kind: string)
    ensures Orderly(p, START, kind, 0)
  {
    SelectNone(OfKind(kind), []);
  }

  // ---------- Offers in good time ----------

  /** No message of the metric is offered while the timer has some of it in hand. */
  predicate OffersInGoodTime(p: Policy, link: Link, steps: seq<Step>, kind: string) {
    steps == [] ||
    var front, last := steps[..|steps| - 1], steps[|steps| - 1];
    && OffersInGoodTime(p, link, front, kind)
    && (last.Offer? && last.message.kind == kind ==> OfKindIn(InFlight(Run(p, link, front)), kind) == [])
  }

  /** Then nothing overtakes; that goes for timer iterations nothing interferes with. */
  lemma {:induction false} GoodTimeSuffices(p: Policy, link: Link, steps: seq<Step>, kind: string)
    requires OffersInGoodTime(p, link, steps, kind)
    ensures NoneOvertakes(p, link, steps, kind)
    ensures OfKindIn(InFlight(Run(p, link, steps)), kind) != [] ==> Since(p, link, steps, kind) == 0
  {
    hide Select, Add, Buffered;
    SelectNone(OfKind(kind), []);
    if steps == [] {
    } else {
      var n := |steps| - 1;
      GoodTimeSuffices(p, link, steps[..n], kind);
      var s := Run(p, link, steps[..n]);
      if steps[n].TimerReturn? && s.timer.Returning? && s.timer.batch != [] {
        var batch := s.timer.batch;
        assert batch == [batch[0]] + batch[1..];
        SelectAppend(OfKind(kind), [batch[0]], batch[1..]);
      }
    }
  }

  // ---------- Runs that lose the order ----------

  lemma RunNext(p: Policy, link: Link, steps: seq<Step>, step: Step)
    ensures Run(p, link, steps + [step]) == Next(p, link, Run(p, link, steps), step)
  {
    assert (steps + [step])[..|steps|] == steps;
  }

  lemma OneSubBuffer(s: State, kind: string)
    requires s.queues.Keys == {kind}
    ensures Buffered(s) == s.queues[kind].items
    ensures Drained(s).queues == map[kind := Queue([], s.queues[kind].peak)]
  {
    assert {kind} - {kind} == {};
    assert Ordering.InOrder({kind}) == [kind];
    assert [kind][..|[kind]| - 1] == [];
    assert Contents(s.queues, []) == [] && [] + s.queues[kind].items == s.queues[kind].items;
  }

  /** `a` is taken by the timer, `b` arrives, sending fails: `a` is put back behind `b`. */
  lemma LostByFailure(p: Policy, link: Link, a: Message, b: Message)
    requires p.dropOldest && p.capacity > 2 && !link(0)
    requires a.IsValid() && b.kind == a.kind && a != b
    ensures var s := Run(p, link, [Offer(a), TimerTake, Offer(b), TimerSend, TimerReturn, TimerReturn]);
      && s.timer.Idle? && s.offered == [a, b] && QueueOf(s.store, a.kind).items == [b, a]
      && !InOrderOfArrival(s, a.kind, 0)
  {
    hide Run, Buffered, Drained, InOrderOfArrival;
    var taken := TakenFirst(p, link, a, b);
    assert [Offer(a), TimerTake, Offer(b)] + [TimerSend] == [Offer(a), TimerTake, Offer(b), TimerSend];
    RunNext(p, link, [Offer(a), TimerTake, Offer(b)], TimerSend);
    var steps := [Offer(a), TimerTake, Offer(b), TimerSend];
    RunNext(p, link, steps, TimerReturn);
    assert steps + [TimerReturn] == [Offer(a), TimerTake, Offer(b), TimerSend, TimerReturn];
    RunNext(p, link, steps + [TimerReturn], TimerReturn);
    assert steps + [TimerReturn] + [TimerReturn]
        == [Offer(a), TimerTake, Offer(b), TimerSend, TimerReturn, TimerReturn];
    var s := Run(p, link, steps + [TimerReturn] + [TimerReturn]);
    OutOfOrder(s, a, b);
  }

  /** The state after the timer took `a` and `b` arrived. */
  lemma TakenFirst(p: Policy, link: Link, a: Message, b: Message) returns (s: System)
    requires p.capacity > 1 && a.IsValid() && b.kind == a.kind
    ensures s == Run(p, link, [Offer(a), TimerTake, Offer(b)])
    ensures s == System(State(map[a.kind := Queue([b], 1)], 0, [], [], map[]), Holding([a]), [a, b], [])
  {
    hide Run, Buffered, Drained, Next;
    NoSteps(p, link);
    assert [] + [Offer(a)] == [Offer(a)];
    RunNext(p, link, [], Offer(a));
    FirstOffer(p, link, a);
    assert [Offer(a)] + [TimerTake] == [Offer(a), TimerTake];
    RunNext(p, link, [Offer(a)], TimerTake);
    FirstTake(p, link, a);
    assert [Offer(a), TimerTake] + [Offer(b)] == [Offer(a), TimerTake, Offer(b)];
    RunNext(p, link, [Offer(a), TimerTake], Offer(b));
    NextOffer(p, link, a, b);
    s := Run(p, link, [Offer(a), TimerTake, Offer(b)]);
  }

  lemma FirstOffer(p: Policy, link: Link, a: Message)
    requires p.capacity > 1 && a.IsValid()
    ensures Next(p, link, START, Offer(a))
         == System(State(map[a.kind := Queue([a], 1)], 0, [], [], map[]), Idle, [a], [])
  {
    assert [] + [a] == [a];
  }

  lemma FirstTake(p: Policy, link: Link, a: Message)
    ensures Next(p, link, System(State(map[a.kind := Queue([a], 1)], 0, [], [], map[]), Idle, [a], []), TimerTake)
         == System(State(map[a.kind := Queue([], 1)], 0, [], [], map[]), Holding([a]), [a], [])
  {
    hide Buffered, Drained;
    OneSubBuffer(State(map[a.kind := Queue([a], 1)], 0, [], [], map[]), a.kind);
    DrainedKeeps(State(map[a.kind := Queue([a], 1)], 0, [], [], map[]));
  }

  lemma NextOffer(p: Policy, link: Link, a: Message, b: Message)
    requires p.capacity > 1 && a.IsValid() && b.kind == a.kind
    ensures Next(p, link, System(State(map[a.kind := Queue([], 1)], 0, [], [], map[]), Holding([a]), [a], []), Offer(b))
         == System(State(map[a.kind := Queue([b], 1)], 0, [], [], map[]), Holding([a]), [a, b], [])
  {
    assert [] + [b] == [b] && [a] + [b] == [a, b];
  }

  lemma NoSteps(p: Policy, link: Link)
    ensures Run(p, link, []) == START
  {
  }

  lemma OutOfOrder(s: System, a: Message, b: Message)
    requires s.timer.Idle? && s.offered == [a, b] && QueueOf(s.store, a.kind).items == [b, a]
    requires b.kind == a.kind && a != b
    ensures !InOrderOfArrival(s, a.kind, 0)
  {
    hide Select, Within;
    SelectNone(OfKind(a.kind), []);
    SelectAll(OfKind(a.kind), [a, b]);
    LastOfTail([b, a], OfKindIn(s.store.sent, a.kind), [a, b]);
    assert [b, a] + [] == [b, a];
  }

  /** With the link up throughout: `a` is taken by the timer, `b` and `c` fill the sub-buffer up and are
      delivered before `a` is. */
  lemma LostByFlush(p: Policy, link: Link, a: Message, b: Message, c: Message)
    requires p.dropOldest && p.capacity == 2 && forall n :: link(n)
    requires a.IsValid() && b.kind == c.kind == a.kind && a != c
    ensures var s := Run(p, link, [Offer(a), TimerTake, Offer(b), Offer(c), TimerSend]);
      && s.timer.Idle? && s.offered == [a, b, c] && s.store.sent == [b, c, a]
      && !InOrderOfArrival(s, a.kind, 0)
  {
    hide Run, Buffered, Drained, InOrderOfArrival;
    var taken := TakenFirst(p, link, a, b);
    var steps := [Offer(a), TimerTake, Offer(b)];
    RunNext(p, link, steps, Offer(c));
    RunNext(p, link, steps + [Offer(c)], TimerSend);
    assert steps + [Offer(c)] + [TimerSend] == [Offer(a), TimerTake, Offer(b), Offer(c), TimerSend];
    var s := Run(p, link, steps + [Offer(c)] + [TimerSend]);
    assert s.store.sent == [b, c] + [a] == [b, c, a] && s.offered == [a, b] + [c] == [a, b, c];
    SentOutOfOrder(s, a, b, c);
  }

  lemma SentOutOfOrder(s: System, a: Message, b: Message, c: Message)
    requires s.timer.Idle? && s.offered == [a, b, c] && s.store.sent == [b, c, a]
    requires b.kind == c.kind == a.kind && a != c
    ensures !InOrderOfArrival(s, a.kind, 0)
  {
    hide Select, Within;
    SelectAll(OfKind(a.kind), [a, b, c]);
    SelectAll(OfKind(a.kind), [b, c, a]);
    TailLength(QueueOf(s.store, a.kind).items + OfKindIn(InFlight(s), a.kind), [b, c, a], [a, b, c]);
    assert [b, c, a][2] != [a, b, c][2];
  }

  lemma TailLength(pending: seq<Message>, sent: seq<Message>, offered: seq<Message>)
    ensures TailOf(pending, sent, offered) && |sent| == |offered| ==> sent == offered
  {
    hide Within;
    if TailOf(pending, sent, offered) {
      var early := offered[..|offered| - |pending|];
      WithinLength(sent, early);
      assert |early| == |offered| ==> early == offered;
    }
  }

  lemma {:induction false} WithinLength(a: seq<Message>, b: seq<Message>)
    ensures Within(a, b) ==> |a| <= |b| && (|a| == |b| ==> a == b)
    decreases |b|
  {
    if a == [] || b == [] {
    } else {
      WithinLength(a, b[..|b| - 1]);
      WithinLength(a[..|a| - 1], b[..|b| - 1]);
      assert a == a[..|a| - 1] + [a[|a| - 1]] && b == b[..|b| - 1] + [b[|b| - 1]];
    }
  }
}
