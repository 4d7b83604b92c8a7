/**
 The global buffer as a value: the sub-buffers by metric, together with the record of what has left
 them. Each operation of `GlobalBuffer` has its function here.
 */
module Store {
  import opened Messages
  import opened Queues
  import opened Clients
  import Ordering

  datatype State = State(
    queues: map<string, Queue>,    // the sub-buffers
    attempts: nat,                 // send attempts made so far
    sent: seq<Message>,            // delivered to the server, in order
    dropped: seq<Message>,         // left the program undelivered
    flushed: map<string, bool>)    // per metric, whether its latest flush was delivered

  function QueueOf(s: State, kind: string): Queue {
    if kind in s.queues then s.queues[kind] else EMPTY
  }

  predicate QueueOk(p: Policy, kind: string, q: Queue) {
    && |q.items| <= p.capacity
    && |q.items| <= q.peak
    && forall m | m in q.items :: m.kind == kind
  }

  /** Sub-buffers have a name, stay within capacity and hold messages of their own metric only. */
  predicate WellFormed(p: Policy, s: State) {
    forall k | k in s.queues :: k != "" && QueueOk(p, k, s.queues[k])
  }

  // ---------- Adding ----------

  predicate Added(p: Policy, s: State, m: Message) {
    m.IsValid() && Accepts(p, QueueOf(s, m.kind))
  }

  function Flush(link: Link, s: State, kind: string): State {
    var q, ok := QueueOf(s, kind), link(s.attempts);
    s.(queues := s.queues[kind := if ok then q.(items := []) else q],
       attempts := s.attempts + 1,
       sent := s.sent + if ok then q.items else [],
       flushed := s.flushed[kind := ok])
  }

  /** A message joins the sub-buffer of its metric; a sub-buffer that is now full is sent, and kept as
      it is when sending fails. */
  function Add(p: Policy, link: Link, s: State, m: Message): State {
    if !m.IsValid() then s.(dropped := s.dropped + [m])
    else
      var q := QueueOf(s, m.kind);
      var next := s.(queues := s.queues[m.kind := Push(p, q, m)], dropped := s.dropped + Lost(p, q, m));
      if Accepts(p, q) && |Push(p, q, m).items| >= p.capacity then Flush(link, next, m.kind) else next
  }

  /** Adding, one assignment at a time. */
  lemma AddInSteps(p: Policy, link: Link, s: State, m: Message)
    requires m.IsValid()
    ensures var q := QueueOf(s, m.kind);
      var found := s.(queues := s.queues[m.kind := q]);
      var pushed := found.(queues := found.queues[m.kind := Push(p, q, m)], dropped := s.dropped + Lost(p, q, m));
      Add(p, link, s, m)
      == if Accepts(p, q) && |Push(p, q, m).items| >= p.capacity then Flush(link, pushed, m.kind) else pushed
  {
    var q := QueueOf(s, m.kind);
    assert s.queues[m.kind := q][m.kind := Push(p, q, m)] == s.queues[m.kind := Push(p, q, m)];
  }

  function AddAll(p: Policy, link: Link, s: State, ms: seq<Message>): State
    decreases ms
  {
    if ms == [] then s else AddAll(p, link, Add(p, link, s, ms[0]), ms[1..])
  }

  lemma AddKeepsMetrics(p: Policy, link: Link, s: State, m: Message)
    ensures s.queues.Keys <= Add(p, link, s, m).queues.Keys
  {
  }

  lemma {:induction false} AddAllKeepsMetrics(p: Policy, link: Link, s: State, ms: seq<Message>)
    ensures s.queues.Keys <= AddAll(p, link, s, ms).queues.Keys
    decreases ms
  {
    hide Add;
    if ms == [] {
    } else {
      AddKeepsMetrics(p, link, s, ms[0]);
      AddAllKeepsMetrics(p, link, Add(p, link, s, ms[0]), ms[1..]);
    }
  }

  lemma AddKeepsWellFormed(p: Policy, link: Link, s: State, m: Message)
    requires WellFormed(p, s)
    ensures WellFormed(p, Add(p, link, s, m))
  {
  }

  lemma {:induction false} AddAllKeepsWellFormed(p: Policy, link: Link, s: State, ms: seq<Message>)
    requires WellFormed(p, s)
    ensures WellFormed(p, AddAll(p, link, s, ms))
    decreases ms
  {
    if ms == [] {
    } else {
      AddKeepsWellFormed(p, link, s, ms[0]);
      AddAllKeepsWellFormed(p, link, Add(p, link, s, ms[0]), ms[1..]);
    }
  }

  lemma {:induction false} AddAllAppend(p: Policy, link: Link, s: State, a: seq<Message>, b: seq<Message>)
    ensures AddAll(p, link, s, a + b) == AddAll(p, link, AddAll(p, link, s, a), b)
    decreases a
  {
    if a == [] {
      assert a + b == b;
    } else {
      assert (a + b)[1..] == a[1..] + b;
      AddAllAppend(p, link, Add(p, link, s, a[0]), a[1..], b);
    }
  }

  lemma AddAllNone(p: Policy, link: Link, s: State)
    ensures AddAll(p, link, s, []) == s
  {
  }

  lemma AddAllStep(p: Policy, link: Link, s: State, a: seq<Message>, m: Message)
    ensures AddAll(p, link, s, a + [m]) == Add(p, link, AddAll(p, link, s, a), m)
  {
    AddAllAppend(p, link, s, a, [m]);
    assert [m][1..] == [];
  }

  // ---------- Taking ----------

  /** The contents of the given sub-buffers, one after the other. */
  function Contents(queues: map<string, Queue>, keys: seq<string>): seq<Message>
    requires forall k | k in keys :: k in queues
  {
    if keys == [] then []
    else Contents(queues, keys[..|keys| - 1]) + queues[keys[|keys| - 1]].items
  }

  /** Everything buffered, in the order it is drained. */
  function Buffered(s: State): seq<Message> {
    Contents(s.queues, Ordering.InOrder(s.queues.Keys))
  }

  function EmptiedQueues(queues: map<string, Queue>, keys: seq<string>): map<string, Queue> {
    map k | k in queues :: if k in keys then queues[k].(items := []) else queues[k]
  }

  lemma EmptiedNone(queues: map<string, Queue>)
    ensures EmptiedQueues(queues, []) == queues
    ensures Contents(queues, []) == []
  {
  }

  /** Emptying one more. */
  lemma EmptiedNext(queues: map<string, Queue>, keys: seq<string>, i: nat)
    requires i < |keys| && Ordering.NoRepeats(keys)
    requires forall k | k in keys :: k in queues
    ensures keys[i] in EmptiedQueues(queues, keys[..i])
    ensures EmptiedQueues(queues, keys[..i])[keys[i]] == queues[keys[i]]
    ensures EmptiedQueues(queues, keys[..i + 1])
         == EmptiedQueues(queues, keys[..i])[keys[i] := Queue([], queues[keys[i]].peak)]
    ensures Contents(queues, keys[..i + 1]) == Contents(queues, keys[..i]) + queues[keys[i]].items
  {
    assert keys[..i + 1][..i] == keys[..i];
  }

  function Drained(s: State): State {
    s.(queues := EmptiedQueues(s.queues, Ordering.InOrder(s.queues.Keys)))
  }

  lemma DrainedKeeps(s: State)
    ensures Drained(s) == s.(queues := Drained(s).queues)
  {
  }

  lemma DrainedMetrics(s: State)
    ensures Drained(s).queues.Keys == s.queues.Keys
  {
  }

  function Fetched(s: State, kind: string): State {
    s.(queues := EmptiedQueues(s.queues, [kind]))
  }

  function Removed(s: State, kind: string): State {
    s.(queues := s.queues - {kind}, dropped := s.dropped + QueueOf(s, kind).items)
  }

  // ---------- What is buffered ----------

  /** A message is found among the contents of some sub-buffers as often as in the one of its metric. */
  lemma {:induction false} ContentsCount(p: Policy, s: State, keys: seq<string>, m: Message)
    requires WellFormed(p, s)
    requires forall k | k in keys :: k in s.queues
    requires Ordering.NoRepeats(keys)
    ensures multiset(Contents(s.queues, keys))[m]
         == if m.kind in keys then multiset(s.queues[m.kind].items)[m] else 0
  {
    if keys == [] {
    } else {
      var n := |keys| - 1;
      var k := keys[n];
      ContentsCount(p, s, keys[..n], m);
      assert k in keys && QueueOk(p, k, s.queues[k]);
      assert multiset(Contents(s.queues, keys))
          == multiset(Contents(s.queues, keys[..n])) + multiset(s.queues[k].items);
      assert m.kind in keys <==> m.kind in keys[..n] || m.kind == k;
      if m.kind == k {
        assert k !in keys[..n];
      } else {
        assert m !in s.queues[k].items;
      }
    }
  }

  lemma BufferedCount(p: Policy, s: State, m: Message)
    requires WellFormed(p, s)
    ensures multiset(Buffered(s))[m] == multiset(QueueOf(s, m.kind).items)[m]
  {
    ContentsCount(p, s, Ordering.InOrder(s.queues.Keys), m);
  }

  /** The messages of one metric among the contents are those of its sub-buffer. */
  lemma {:induction false} ContentsOfKind(p: Policy, s: State, keys: seq<string>, kind: string)
    requires WellFormed(p, s)
    requires forall k | k in keys :: k in s.queues
    requires Ordering.NoRepeats(keys)
    ensures Select(OfKind(kind), Contents(s.queues, keys))
         == if kind in keys then s.queues[kind].items else []
  {
    hide Select;
    assert Select(OfKind(kind), []) == [] by { SelectNone(OfKind(kind), []); }
    if keys == [] {
    } else {
      var n := |keys| - 1;
      var k, rest := keys[n], keys[..n];
      var items := s.queues[k].items;
      ContentsOfKind(p, s, rest, kind);
      SelectAppend(OfKind(kind), Contents(s.queues, rest), items);
      assert k in keys && QueueOk(p, k, s.queues[k]);
      assert kind in keys <==> kind in rest || kind == k;
      if k == kind {
        SelectAll(OfKind(kind), items);
        assert k !in rest;
      } else {
        SelectNone(OfKind(kind), items);
      }
    }
  }

  lemma BufferedOfKind(p: Policy, s: State, kind: string)
    requires WellFormed(p, s)
    ensures Select(OfKind(kind), Buffered(s)) == QueueOf(s, kind).items
  {
    ContentsOfKind(p, s, Ordering.InOrder(s.queues.Keys), kind);
  }

  // ---------- Adding, in full ----------

  /** What adding does to everything there is. */
  lemma AddInFull(p: Policy, link: Link, s: State, m: Message)
    requires WellFormed(p, s)
    ensures var t := Add(p, link, s, m);
      var before := if m.kind in s.queues then s.queues[m.kind].items else [];
      var stored := m.kind != "" && (|before| < p.capacity || p.dropOldest);
      var pushed := if |before| < p.capacity then before + [m] else if p.dropOldest then before[1..] + [m] else before;
      var sends := stored && |pushed| == p.capacity;
      var delivered := sends && link(s.attempts);
      && t.attempts == s.attempts + (if sends then 1 else 0)
      && t.sent == s.sent + (if delivered then pushed else [])
      && t.dropped == s.dropped + (if !stored then [m] else if |before| == p.capacity then [before[0]] else [])
      && (m.kind == "" ==> t.queues == s.queues)
      && (m.kind != "" ==> m.kind in t.queues && t.queues[m.kind].items == if delivered then [] else pushed)
      && (m.kind != "" ==> t.queues.Keys == s.queues.Keys + {m.kind})
      && (forall k | k in s.queues && k != m.kind :: k in t.queues && t.queues[k] == s.queues[k])
  {
    assert m.kind in s.queues ==> QueueOk(p, m.kind, s.queues[m.kind]);
    assert s.sent + [] == s.sent && s.dropped + [] == s.dropped;
  }

  /** The messages go from metric to metric in map order. */
  predicate KindsAscend(ms: seq<Message>) {
    forall i, j | 0 <= i < j < |ms| :: Ordering.AtMost(ms[i].kind, ms[j].kind)
  }

  lemma {:induction false} ContentsAscend(p: Policy, s: State, keys: seq<string>)
    requires WellFormed(p, s) && Ordering.Ascending(keys) && forall k | k in keys :: k in s.queues
    ensures forall m | m in Contents(s.queues, keys) :: m.kind in keys
    ensures KindsAscend(Contents(s.queues, keys))
  {
    if keys == [] {
    } else {
      var n := |keys| - 1;
      var front, items := Contents(s.queues, keys[..n]), s.queues[keys[n]].items;
      var all: seq<Message> := front + items;
      ContentsAscend(p, s, keys[..n]);
      assert keys[n] in keys && QueueOk(p, keys[n], s.queues[keys[n]]);
      Ordering.Total(keys[n], keys[n]);
      forall i, j | 0 <= i < j < |all| ensures Ordering.AtMost(all[i].kind, all[j].kind) {
        if j < |front| {
          assert all[i] == front[i] && all[j] == front[j];
        } else {
          assert items[j - |front|] in items && all[j].kind == keys[n];
          if i < |front| {
            assert front[i] in front && all[i] == front[i];
            var a :| 0 <= a < n && keys[a] == front[i].kind;
            assert Ordering.AtMost(keys[a], keys[n]);
          } else {
            assert items[i - |front|] in items && all[i].kind == keys[n];
          }
        }
      }
    }
  }

  /** Draining walks the metrics in map order. */
  lemma BufferedAscends(p: Policy, s: State)
    requires WellFormed(p, s)
    ensures KindsAscend(Buffered(s))
  {
    Ordering.InOrderAscends(s.queues.Keys);
    ContentsAscend(p, s, Ordering.InOrder(s.queues.Keys));
  }
}
