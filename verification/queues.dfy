/**
 Bounded first-in-first-out queues of messages as values: what a `MessageBuffer` holds and what each
 of its operations makes of it.
 */
module Queues {
  import opened Messages

  type Capacity = n: nat | n >= 1 witness 1

  /** The size limit of a buffer, and whether a full one gives way to new messages. */
  datatype Policy = Policy(capacity: Capacity, dropOldest: bool)

  /** Messages oldest first, and the largest number held at the same time so far. */
  datatype Queue = Queue(items: seq<Message>, peak: nat)

  const EMPTY := Queue([], 0)

  function Max(a: nat, b: nat): nat {
    if a < b then b else a
  }

  predicate Accepts(p: Policy, q: Queue) {
    |q.items| < p.capacity || p.dropOldest
  }

  function Push(p: Policy, q: Queue, m: Message): Queue {
    if !Accepts(p, q) then q
    else
      var items := (if |q.items| >= p.capacity then q.items[1..] else q.items) + [m];
      Queue(items, Max(q.peak, |items|))
  }

  /** The message that leaves the program when `m` is pushed, if any. */
  function Lost(p: Policy, q: Queue, m: Message): seq<Message> {
    if |q.items| < p.capacity then [] else if p.dropOldest then [q.items[0]] else [m]
  }

  function PushAll(p: Policy, q: Queue, ms: seq<Message>): Queue
    decreases ms
  {
    if ms == [] then q else PushAll(p, Push(p, q, ms[0]), ms[1..])
  }

  /** Filling up a queue that has room for everything. */
  lemma {:induction false} PushAllFits(p: Policy, q: Queue, ms: seq<Message>)
    requires |q.items| + |ms| <= p.capacity
    ensures PushAll(p, q, ms).items == q.items + ms
    ensures |q.items| <= q.peak ==> PushAll(p, q, ms).peak == Max(q.peak, |q.items + ms|)
    decreases ms
  {
    if ms != [] {
      PushAllFits(p, Push(p, q, ms[0]), ms[1..]);
      assert q.items + [ms[0]] + ms[1..] == q.items + ms;
    } else {
      assert q.items + ms == q.items;
    }
  }

  lemma {:induction false} PushAllAppend(p: Policy, q: Queue, a: seq<Message>, b: seq<Message>)
    ensures PushAll(p, q, a + b) == PushAll(p, PushAll(p, q, a), b)
    decreases a
  {
    hide Push;
    if a == [] {
      assert a + b == b;
    } else {
      assert (a + b)[1..] == a[1..] + b;
      PushAllAppend(p, Push(p, q, a[0]), a[1..], b);
    }
  }

  lemma PushAllStep(p: Policy, q: Queue, a: seq<Message>, m: Message)
    ensures PushAll(p, q, a + [m]) == Push(p, PushAll(p, q, a), m)
    ensures PushAll(p, q, []) == q
  {
    hide Push;
    PushAllAppend(p, q, a, [m]);
    assert [m][1..] == [];
  }

  function Capped(capacity: nat, ms: seq<Message>): seq<Message> {
    if |ms| <= capacity then ms else ms[..capacity]
  }

  /** What a buffer that refuses messages when full makes of too many: it keeps the first ones. */
  lemma {:induction false} PushAllCapped(p: Policy, q: Queue, ms: seq<Message>)
    requires !p.dropOldest && |q.items| <= p.capacity
    ensures PushAll(p, q, ms).items == Capped(p.capacity, q.items + ms)
    decreases ms
  {
    if ms == [] {
      assert q.items + ms == q.items;
    } else {
      PushAllCapped(p, Push(p, q, ms[0]), ms[1..]);
      assert q.items + [ms[0]] + ms[1..] == q.items + ms;
    }
  }

  lemma Joined<T>(a: seq<T>, b: seq<T>, c: seq<T>)
    ensures a + b + c == a + (b + c)
  {
  }

  // ---------- Selections ----------

  /** The tests messages are selected by. */
  datatype Test =
    | OfKind(kind: string)
    | UpTo(limit: nat)               // stamped no later than the limit
    | After(limit: nat)
    | Between(low: nat, limit: nat)  // stamped after `low` and no later than the limit

  predicate Passes(t: Test, m: Message) {
    match t
    case OfKind(k) => m.kind == k
    case UpTo(limit) => m.timestamp <= limit
    case After(limit) => m.timestamp > limit
    case Between(low, limit) => low < m.timestamp <= limit
  }

  /** The messages that pass, in order. */
  function Select(t: Test, ms: seq<Message>): seq<Message> {
    if ms == [] then []
    else
      var last := ms[|ms| - 1];
      Select(t, ms[..|ms| - 1]) + if Passes(t, last) then [last] else []
  }

  lemma SelectStep(t: Test, ms: seq<Message>, m: Message)
    ensures Select(t, ms + [m]) == Select(t, ms) + if Passes(t, m) then [m] else []
  {
    assert (ms + [m])[..|ms|] == ms;
  }

  lemma SelectPrefix(t: Test, ms: seq<Message>, i: nat)
    requires i < |ms|
    ensures Select(t, ms[..i + 1]) == if Passes(t, ms[i]) then Select(t, ms[..i]) + [ms[i]] else Select(t, ms[..i])
  {
    assert ms[..i + 1][..i] == ms[..i];
  }

  lemma {:induction false} SelectAppend(t: Test, a: seq<Message>, b: seq<Message>)
    ensures Select(t, a + b) == Select(t, a) + Select(t, b)
  {
    if b == [] {
      assert a + b == a;
    } else {
      var n := |b| - 1;
      SelectAppend(t, a, b[..n]);
      var ab := a + b;
      assert ab[..|ab| - 1] == a + b[..n];
      var tail := if Passes(t, b[n]) then [b[n]] else [];
      assert Select(t, ab) == Select(t, a) + Select(t, b[..n]) + tail;
    }
  }

  /** What a selection holds. */
  lemma {:induction false} SelectCount(t: Test, ms: seq<Message>, m: Message)
    ensures multiset(Select(t, ms))[m] == if Passes(t, m) then multiset(ms)[m] else 0
  {
    if ms == [] {
    } else {
      var n := |ms| - 1;
      SelectCount(t, ms[..n], m);
      assert ms == ms[..n] + [ms[n]];
    }
  }

  lemma SelectMembers(t: Test, ms: seq<Message>)
    ensures forall m :: m in Select(t, ms) <==> m in ms && Passes(t, m)
  {
    forall m ensures m in Select(t, ms) <==> m in ms && Passes(t, m) {
      SelectCount(t, ms, m);
      assert m in Select(t, ms) <==> m in multiset(Select(t, ms));
      assert m in ms <==> m in multiset(ms);
    }
  }

  lemma {:induction false} SelectAll(t: Test, ms: seq<Message>)
    requires forall m | m in ms :: Passes(t, m)
    ensures Select(t, ms) == ms
  {
    if ms == [] {
    } else {
      var n := |ms| - 1;
      SelectAll(t, ms[..n]);
      assert ms == ms[..n] + [ms[n]];
    }
  }

  lemma SelectNone(t: Test, ms: seq<Message>)
    requires forall m | m in ms :: !Passes(t, m)
    ensures Select(t, ms) == []
  {
    SelectMembers(t, ms);
    if Select(t, ms) != [] {
      assert Select(t, ms)[0] in Select(t, ms);
    }
  }

  /** Selecting twice selects by both tests. */
  lemma {:induction false} SelectWithin(inner: Test, outer: Test, both: Test, ms: seq<Message>)
    requires forall m | m in ms :: Passes(both, m) <==> Passes(inner, m) && Passes(outer, m)
    ensures Select(outer, Select(inner, ms)) == Select(both, ms)
  {
    if ms == [] {
    } else {
      var n := |ms| - 1;
      SelectWithin(inner, outer, both, ms[..n]);
      assert ms[n] in ms;
      var inside := Select(inner, ms[..n]);
      if Passes(inner, ms[n]) {
        SelectStep(outer, inside, ms[n]);
        assert Select(inner, ms) == inside + [ms[n]];
      } else {
        assert Select(inner, ms) == inside;
      }
    }
  }

  lemma {:induction false} SelectSame(s: Test, t: Test, ms: seq<Message>)
    requires forall m | m in ms :: Passes(s, m) <==> Passes(t, m)
    ensures Select(s, ms) == Select(t, ms)
  {
    if ms == [] {
    } else {
      SelectSame(s, t, ms[..|ms| - 1]);
    }
  }

  /** Every message is either due by the limit or stamped after it. */
  lemma SelectPartition(limit: nat, ms: seq<Message>)
    ensures multiset(Select(UpTo(limit), ms)) + multiset(Select(After(limit), ms)) == multiset(ms)
  {
    var both := multiset(Select(UpTo(limit), ms)) + multiset(Select(After(limit), ms));
    forall m ensures both[m] == multiset(ms)[m] {
      SelectCount(UpTo(limit), ms, m);
      SelectCount(After(limit), ms, m);
    }
  }
}
