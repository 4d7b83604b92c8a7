/**
 Restarts when values have more than six decimals, as means and variances do: what comes back is what
 was pending, with each value rounded to the six decimals it is printed with.
 */
module RoundedRestarts {
  import opened Messages
  import opened Numbers
  import opened Queues
  import opened Store
  import opened Windows
  import opened Pipelines
  import opened PipelineRuns
  import opened SaveLoad
  import opened MathsSave
  import opened Restarts
  import Ordering

  // ---------- Messages ----------

  /** A message whose line survives the file, its value perhaps rounded. */
  predicate Writable(m: Message) {
    Nameable(m.kind) && Readable(Serialize(m))
  }

  function Round(m: Message): Message {
    m.(value := Rounded(m.value))
  }

  function RoundAll(ms: seq<Message>): (r: seq<Message>)
    ensures |r| == |ms| && forall i | 0 <= i < |r| :: r[i] == Round(ms[i])
  {
    seq(|ms|, i requires 0 <= i < |ms| => Round(ms[i]))
  }

  lemma RoundAllAppend(a: seq<Message>, b: seq<Message>)
    ensures RoundAll(a + b) == RoundAll(a) + RoundAll(b) && RoundAll([]) == []
  {
    hide Round;
  }

  /** Rounding is done once and for all, and never makes the print longer. */
  lemma RoundedTwice(v: real)
    ensures SixDecimals(Rounded(v)) && Micros(Rounded(v)) == Micros(v)
    ensures |PrintValue(Rounded(v))| <= |PrintValue(v)|
  {
    hide Nearest, PrintNat, Pad;
    var n := Micros(v);
    NearestOfWhole(n);
    TimesMicro(n);
    assert Abs(Rounded(v)) == OfMicros(n);
    WholeIsSixDecimals(n);
  }

  lemma NearestOfWhole(n: nat)
    ensures Nearest(n as real) == n
  {
  }

  lemma TimesMicro(n: nat)
    ensures OfMicros(n) * MICRO as real == n as real && -OfMicros(n) * MICRO as real == -(n as real)
  {
  }

  lemma IsWhole(v: real, k: int)
    requires v * MICRO as real == k as real
    ensures SixDecimals(v)
  {
  }

  lemma WholeIsSixDecimals(n: nat)
    ensures SixDecimals(OfMicros(n)) && SixDecimals(-OfMicros(n))
  {
    hide OfMicros, SixDecimals;
    var minus: int := -(n as int);
    TimesMicro(n);
    assert -(n as real) == minus as real;
    IsWhole(OfMicros(n), n);
    IsWhole(-OfMicros(n), minus);
  }

  lemma RoundIsStorable(m: Message)
    requires Writable(m)
    ensures Storable(Round(m))
  {
    hide PrintValue, PrintNat, SixDecimals, Rounded;
    RoundedTwice(m.value);
    assert forall c | c in m.kind :: c in Serialize(m);
    LineIsClean(Round(m));
  }

  lemma LineIsClean(m: Message)
    requires Nameable(m.kind) && '\n' !in m.kind && '\0' !in m.kind
    ensures '\n' !in Serialize(m) && '\0' !in Serialize(m) && Serialize(m) != ""
  {
    hide PrintValue, PrintNat;
    ValueIsClean(m.value);
    PrintNatParses(m.timestamp);
    DigitsAreClean(PrintNat(m.timestamp));
  }

  /** A saved line reads the same as that of the rounded message. */
  lemma SameMessage(m: Message)
    requires Writable(m)
    ensures CreateMessage(Serialize(m)) == CreateMessage(Serialize(Round(m)))
  {
    hide Serialize, CreateMessage, Storable, Rounded;
    assert "" + Serialize(m) + "" == Serialize(m);
    LineReadsBack("", m, "");
    RoundIsStorable(m);
    StorableReadsBack(Round(m));
  }

  lemma {:induction false} SameRoutes(c: Settings, x: Proxy, ms: seq<Message>)
    requires forall m | m in ms :: Writable(m)
    ensures RouteLines(c, x, Lines(ms)) == RouteLines(c, x, Lines(RoundAll(ms)))
  {
    hide Serialize, CreateMessage, Writable, Route, Round;
    if ms == [] {
    } else {
      var n := |ms| - 1;
      SameRoutes(c, x, ms[..n]);
      assert ms[n] in ms;
      SameMessage(ms[n]);
      assert Lines(ms)[..n] == Lines(ms[..n]);
      assert Lines(RoundAll(ms))[..n] == Lines(RoundAll(ms[..n]));
    }
  }

  // ---------- Entries ----------

  function RoundEntry(e: Entry): Entry {
    e.(message := Round(e.message))
  }

  function RoundEntries(es: seq<Entry>): (r: seq<Entry>)
    ensures |r| == |es| && forall i | 0 <= i < |r| :: r[i] == RoundEntry(es[i])
  {
    seq(|es|, i requires 0 <= i < |es| => RoundEntry(es[i]))
  }

  lemma RoundEntryIsStorable(e: Entry)
    requires WritableEntry(e)
    ensures StorableEntry(RoundEntry(e))
  {
    hide PrintValue, PrintNat, SixDecimals, Rounded;
    var m := e.message;
    RoundedTwice(m.value);
    assert forall c | c in m.kind :: c in EntryLine(e);
    assert forall c | c in e.name :: c in EntryLine(e);
    LineIsClean(Round(m));
  }

  lemma SameEntry(e: Entry)
    requires WritableEntry(e)
    ensures ReadEntry(EntryLine(e)) == ReadEntry(EntryLine(RoundEntry(e)))
  {
    hide EntryLine, ReadEntry, StorableEntry, Rounded;
    EntryReadsBackRounded(e);
    RoundEntryIsStorable(e);
    EntryReadsBack(RoundEntry(e));
  }

  lemma {:induction false} SameLoads(c: Settings, s: MathsState, es: seq<Entry>)
    requires forall e | e in es :: WritableEntry(e)
    ensures LoadLines(c, s, EntryLines(es)) == LoadLines(c, s, EntryLines(RoundEntries(es)))
  {
    hide EntryLine, ReadEntry, WritableEntry, LoadEntry, RoundEntry;
    if es == [] {
    } else {
      var n := |es| - 1;
      SameLoads(c, s, es[..n]);
      assert es[n] in es;
      SameEntry(es[n]);
      assert EntryLines(es)[..n] == EntryLines(es[..n]);
      assert EntryLines(RoundEntries(es))[..n] == EntryLines(RoundEntries(es[..n]));
    }
  }

  // ---------- States ----------

  function RoundQueue(q: Queue): Queue {
    q.(items := RoundAll(q.items))
  }

  function RoundStore(s: State): State {
    s.(queues := map k | k in s.queues :: RoundQueue(s.queues[k]))
  }

  function RoundOperations(ops: seq<Operation>): (r: seq<Operation>)
    ensures |r| == |ops| && forall i | 0 <= i < |r| :: r[i] == ops[i].(queue := RoundQueue(ops[i].queue))
  {
    seq(|ops|, i requires 0 <= i < |ops| => ops[i].(queue := RoundQueue(ops[i].queue)))
  }

  function RoundMaths(s: MathsState): MathsState {
    map k | k in s :: RoundOperations(s[k])
  }

  function RoundProxy(s: Proxy): Proxy {
    Proxy(RoundStore(s.store), RoundMaths(s.maths))
  }

  lemma {:induction false} RoundContents(s: State, keys: seq<string>)
    requires forall k | k in keys :: k in s.queues
    ensures Contents(RoundStore(s).queues, keys) == RoundAll(Contents(s.queues, keys))
  {
    if keys == [] {
    } else {
      var front, k := keys[..|keys| - 1], keys[|keys| - 1];
      RoundContents(s, front);
      RoundAllAppend(Contents(s.queues, front), s.queues[k].items);
    }
  }

  lemma RoundBuffered(s: State)
    ensures Buffered(RoundStore(s)) == RoundAll(Buffered(s))
  {
    assert RoundStore(s).queues.Keys == s.queues.Keys;
    RoundContents(s, Ordering.InOrder(s.queues.Keys));
  }

  lemma RoundTagged(items: seq<Message>, name: string)
    ensures Tagged(RoundAll(items), name) == RoundEntries(Tagged(items, name))
  {
    hide Round;
  }

  lemma RoundEntriesAppend(a: seq<Entry>, b: seq<Entry>)
    ensures RoundEntries(a + b) == RoundEntries(a) + RoundEntries(b) && RoundEntries([]) == []
  {
    hide Round;
  }

  lemma {:induction false} RoundEntriesOf(ops: seq<Operation>)
    ensures EntriesOf(RoundOperations(ops)) == RoundEntries(EntriesOf(ops))
  {
    if ops == [] {
    } else {
      var front, last := ops[..|ops| - 1], ops[|ops| - 1];
      RoundEntriesOf(front);
      assert RoundOperations(ops)[..|ops| - 1] == RoundOperations(front);
      RoundTagged(last.queue.items, NameOf(last));
      RoundEntriesAppend(EntriesOf(front), Tagged(last.queue.items, NameOf(last)));
    }
  }

  lemma {:induction false} RoundKeys(s: MathsState, keys: seq<string>)
    requires forall k | k in keys :: k in s
    ensures Entries(RoundMaths(s), keys) == RoundEntries(Entries(s, keys))
  {
    hide EntriesOf;
    if keys == [] {
    } else {
      var front, k := keys[..|keys| - 1], keys[|keys| - 1];
      RoundKeys(s, front);
      RoundEntriesOf(s[k]);
      RoundEntriesAppend(Entries(s, front), EntriesOf(s[k]));
    }
  }

  lemma RoundPending(s: MathsState)
    ensures Pending(RoundMaths(s)) == RoundEntries(Pending(s))
  {
    assert RoundMaths(s).Keys == s.Keys;
    RoundKeys(s, Ordering.InOrder(s.Keys));
  }

  lemma RoundWellFormed(c: Settings, s: State)
    requires WellFormed(c.policy, s)
    ensures WellFormed(c.policy, RoundStore(s))
  {
    forall k | k in s.queues ensures k != "" && QueueOk(c.policy, k, RoundQueue(s.queues[k])) {
      RoundedKinds(s.queues[k].items, k);
    }
  }

  lemma RoundedKinds(items: seq<Message>, kind: string)
    requires forall m | m in items :: m.kind == kind
    ensures forall m | m in RoundAll(items) :: m.kind == kind
  {
    hide Rounded;
    forall m | m in RoundAll(items) ensures m.kind == kind {
      var i :| 0 <= i < |items| && RoundAll(items)[i] == m;
      assert items[i] in items;
    }
  }

  lemma RoundConfigured(c: Settings, s: MathsState)
    requires Configured(c, s)
    ensures Configured(c, RoundMaths(s))
  {
    hide Types, SaveLoad.IsWanted, Round;
    forall k | k in s ensures ConfiguredFor(c, RoundOperations(s[k]), k) {
      assert ConfiguredFor(c, s[k], k);
      forall i | 0 <= i < |s[k]|
        ensures SameComputation(RoundOperations(s[k])[i], Types(c, k)[i])
        ensures QueueFits(c, RoundOperations(s[k])[i].queue, k)
      {
        assert SameComputation(s[k][i], Types(c, k)[i]) && QueueFits(c, s[k][i].queue, k);
        RoundedKinds(s[k][i].queue.items, k);
      }
    }
  }

  lemma RoundFirst(ops: seq<Operation>, name: string)
    ensures FirstOfType(RoundOperations(ops), name) == FirstOfType(ops, name)
  {
    hide RoundQueue;
    forall i | 0 <= i < |ops| ensures SameComputation(RoundOperations(ops)[i], ops[i]) {
    }
    SameFirst(RoundOperations(ops), ops, name);
  }

  lemma RoundShadowed(ops: seq<Operation>)
    ensures NoneShadowed(RoundOperations(ops)) <==> NoneShadowed(ops)
  {
    hide FirstOfType, Round;
    forall j | 0 <= j < |ops| ensures Shadowed(RoundOperations(ops), j) <==> Shadowed(ops, j) {
      RoundFirst(ops, NameOf(ops[j]));
    }
  }

  // ---------- Restarts ----------

  predicate Savable(s: Proxy) {
    && (forall m | m in Buffered(s.store) :: Writable(m))
    && forall e | e in Pending(s.maths) :: WritableEntry(e)
  }

  /** Loading what a proxy saved is loading what it would have saved with every value rounded. */
  lemma ReloadedAsRounded(c: Settings, s: Proxy, x: Proxy)
    requires Savable(s)
    ensures Reloaded(c, s, x) == Reloaded(c, RoundProxy(s), x) && Saveable(RoundProxy(s))
  {
    hide LinesOf, RouteLines, LoadLines, Buffered, Pending, MathsText, Payload, Storable, StorableEntry, Serialize;
    hide Readable, EntryLine, RoundStore, RoundMaths, Nameable, Lines, EntryLines, Round, RoundEntry;
    var ms, es := Buffered(s.store), Pending(s.maths);
    RoundBuffered(s.store);
    RoundPending(s.maths);
    forall m | m in RoundAll(ms) ensures Storable(m) && Readable(Serialize(m)) {
      var i :| 0 <= i < |ms| && RoundAll(ms)[i] == m;
      assert ms[i] in ms;
      RoundIsStorable(ms[i]);
      StorableIsReadable(m);
    }
    forall e | e in RoundEntries(es) ensures StorableEntry(e) && Readable(EntryLine(e)) {
      var i :| 0 <= i < |es| && RoundEntries(es)[i] == e;
      assert es[i] in es;
      RoundEntryIsStorable(es[i]);
      ReadableLine(e);
    }
    PassThroughLines(ms);
    PassThroughLines(RoundAll(ms));
    SameRoutes(c, x, ms);
    MathsLines(es);
    MathsLines(RoundEntries(es));
    SameLoads(c, RouteLines(c, x, Lines(ms)).maths, es);
  }

  lemma StorableIsReadable(m: Message)
    requires Storable(m)
    ensures Readable(Serialize(m))
  {
  }

  lemma SameConditions(c: Settings, s: Proxy)
    ensures NothingWanted(c, RoundProxy(s)) <==> NothingWanted(c, s)
    ensures NothingShadowed(RoundProxy(s)) <==> NothingShadowed(s)
  {
    hide SaveLoad.IsWanted, Buffered, NoneShadowed, RoundOperations, RoundStore, Rounded;
    var ms := Buffered(s.store);
    RoundBuffered(s.store);
    assert forall i | 0 <= i < |ms| ::
      ms[i] in ms && RoundAll(ms)[i] in RoundAll(ms) && RoundAll(ms)[i].kind == ms[i].kind;
    forall k | k in s.maths ensures NoneShadowed(RoundMaths(s.maths)[k]) <==> NoneShadowed(s.maths[k]) {
      RoundShadowed(s.maths[k]);
    }
  }

  /** What an operation holds after a restart: as `Restarts.ReloadedOperation` has it, values rounded. */
  lemma RoundedOperation(c: Settings, s: Proxy, x: Proxy, kind: string, i: nat)
    requires WellFormed(c.policy, s.store) && Configured(c, s.maths) && Savable(s)
    requires x.store.queues == map[] && x.maths == map[]
    requires SaveLoad.IsWanted(c, kind) && i < |Types(c, kind)|
    ensures var r := RoundProxy(s);
      Items(Reloaded(c, s, x).maths, kind, i)
      == Capped(c.mathsCapacity, QueueOf(r.store, kind).items + SavedFor(r.maths, kind, i))
  {
    hide Reloaded, Savable, Saveable, WellFormed, Configured, SaveLoad.IsWanted, Types, Items, SavedFor;
    ReloadedAsRounded(c, s, x);
    RoundWellFormed(c, s.store);
    RoundConfigured(c, s.maths);
    ReloadedOperation(c, RoundProxy(s), x, kind, i);
  }

  /** Whatever the values: a proxy comes back from a restart with every value rounded to six decimals, if
      and only if no category wants what was pending for the server and no operation is shadowed. */
  lemma RoundedProxyComesBack(c: Settings, s: Proxy, x: Proxy)
    requires WellFormed(c.policy, s.store) && Configured(c, s.maths) && Savable(s)
    requires x.store.queues == map[] && x.maths == map[]
    ensures var y, r := Reloaded(c, s, x), RoundProxy(s);
      && y.store.dropped == x.store.dropped && x.store.sent <= y.store.sent
      && ((StoreComesBack(c, r, x, y) && MathsComesBack(r, y)) <==> (NothingWanted(c, s) && NothingShadowed(s)))
  {
    hide Reloaded, Savable, Saveable, WellFormed, Configured, StoreComesBack, MathsComesBack, NothingWanted;
    hide NothingShadowed, RoundProxy;
    ReloadedAsRounded(c, s, x);
    SameConditions(c, s);
    RoundedParts(c, s);
    ProxyComesBack(c, RoundProxy(s), x);
  }

  lemma RoundedParts(c: Settings, s: Proxy)
    requires WellFormed(c.policy, s.store) && Configured(c, s.maths)
    ensures WellFormed(c.policy, RoundProxy(s).store) && Configured(c, RoundProxy(s).maths)
  {
    RoundWellFormed(c, s.store);
    RoundConfigured(c, s.maths);
  }
}
