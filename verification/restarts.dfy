/**
 Restarts: what a fresh proxy makes of the files another one saved.
 */
module Restarts {
  import opened Wrappers
  import opened Messages
  import opened Numbers
  import opened Queues
  import opened Store
  import opened Computations
  import opened Windows
  import opened Runs
  import opened Evaluation
  import opened Pipelines
  import opened PipelineRuns
  import opened SaveLoad
  import opened MathsSave
  import opened Routers
  import Aggregates
  import Delivery
  import Ordering

  /** What a fresh proxy is after loading what another saved. */
  function Reloaded(c: Settings, s: Proxy, x: Proxy): Proxy {
    LoadAll(c, LoadAll(c, x, LinesOf(Payload(Buffered(s.store))), false), LinesOf(MathsText(Pending(s.maths))), true)
  }

  predicate Saveable(s: Proxy) {
    && (forall m | m in Buffered(s.store) :: Storable(m))
    && forall e | e in Pending(s.maths) :: StorableEntry(e)
  }

  ghost predicate StoreComesBack(c: Settings, s: Proxy, x: Proxy, y: Proxy)
    requires x.store.sent <= y.store.sent
  {
    forall kind :: ComesBack(c.policy, s.store, x.store, y.store, kind)
  }

  predicate MathsComesBack(s: Proxy, y: Proxy) {
    forall k, i | k in s.maths && 0 <= i < |s.maths[k]| :: Items(y.maths, k, i) == Items(s.maths, k, i)
  }

  predicate NothingWanted(c: Settings, s: Proxy) {
    forall m | m in Buffered(s.store) :: !SaveLoad.IsWanted(c, m.kind)
  }

  predicate NothingShadowed(s: Proxy) {
    forall k | k in s.maths :: NoneShadowed(s.maths[k])
  }

  /** Over a restart, whatever was pending: nothing is dropped, and an operation ends up with the messages
      of its metric that were pending for the server, then with what was saved for it, up to capacity. */
  lemma {:induction false} ReloadedOperation(c: Settings, s: Proxy, x: Proxy, kind: string, i: nat)
    requires WellFormed(c.policy, s.store) && Configured(c, s.maths) && Saveable(s)
    requires x.store.queues == map[] && x.maths == map[]
    requires SaveLoad.IsWanted(c, kind) && i < |Types(c, kind)|
    ensures Items(Reloaded(c, s, x).maths, kind, i)
         == Capped(c.mathsCapacity, QueueOf(s.store, kind).items + SavedFor(s.maths, kind, i))
  {
    hide LinesOf, RouteLines, LoadLines, SaveLoad.IsWanted, Buffered, Pending, Payload, MathsText, Types, SavedFor;
    hide GivenToMaths, Items, Delivery.Settled, Select, Storable, StorableEntry, Configured;
    PassThroughSettles(c, s.store, x);
    BufferedOfKind(c.policy, s.store, kind);
    LoadedTogether(c, Buffered(s.store), s.maths, kind, i);
  }

  /** A proxy comes back from a restart, each sub-buffer held or sent whole and each operation as it was,
      if and only if no category wants what was pending for the server and no operation is shadowed. */
  lemma {:induction false} ProxyComesBack(c: Settings, s: Proxy, x: Proxy)
    requires WellFormed(c.policy, s.store) && Configured(c, s.maths) && Saveable(s)
    requires x.store.queues == map[] && x.maths == map[]
    ensures var y := Reloaded(c, s, x);
      && y.store.dropped == x.store.dropped && x.store.sent <= y.store.sent
      && ((StoreComesBack(c, s, x, y) && MathsComesBack(s, y)) <==> (NothingWanted(c, s) && NothingShadowed(s)))
  {
    hide LinesOf, RouteLines, LoadLines, SaveLoad.IsWanted, Buffered, Pending, Payload, MathsText, ComesBack;
    hide GivenToMaths, Items, Delivery.Settled, Storable, StorableEntry, Configured, NoneShadowed, SameComputations;
    PassThroughComesBack(c, s.store, x);
    PassThroughSettles(c, s.store, x);
    if NothingWanted(c, s) {
      NothingForMaths(c, x.maths, Buffered(s.store));
      MathsComeBack(c, s.maths);
    }
  }

  lemma {:induction false} NothingForMaths(c: Settings, s: MathsState, ms: seq<Message>)
    requires forall m | m in ms :: !SaveLoad.IsWanted(c, m.kind)
    ensures GivenToMaths(c, s, ms) == s
  {
    if ms == [] {
    } else {
      NothingForMaths(c, s, ms[..|ms| - 1]);
      assert ms[|ms| - 1] in ms;
    }
  }

  /** Reading the files after saving: what was written, or nothing when there was nothing to write. */
  lemma FilesAreRead(files: map<string, string>, passFile: string, mathsFile: string,
                     messages: seq<Message>, entries: seq<Entry>)
    requires passFile != mathsFile && passFile !in files && mathsFile !in files
    ensures var saved := SavedTo(SavedTo(files, passFile, |messages|, Payload(messages)),
                                 mathsFile, |entries|, MathsText(entries));
      var left := saved - {passFile};
      && (if passFile in saved then LinesOf(saved[passFile]) else []) == LinesOf(Payload(messages))
      && (if mathsFile in left then LinesOf(left[mathsFile]) else []) == LinesOf(MathsText(entries))
  {
    hide LinesOf;
    ReadNothing();
  }

  // ---------- Restarts that lose something ----------

  const SAMPLE := Message("a", 0.0, 0)
  const OTHER := Message("b", 0.0, 0)
  const NO_BUFFERS := State(map[], 0, [], [], map[])
  const SUM := Computation(Sum, false, 2, 0, map[])

  lemma SampleIsStorable()
    ensures Storable(SAMPLE) && StorableEntry(Entry(SAMPLE, "sum"))
  {
    hide LinesOf, Serialize, EntryLine, SixDecimals;
    SampleLine();
    assert SixDecimals(0.0) by { ZeroIsExact(); }
  }

  lemma ZeroIsExact()
    ensures SixDecimals(0.0)
  {
  }

  lemma SampleLine()
    ensures Serialize(SAMPLE) == "a 0.000000 0" && EntryLine(Entry(SAMPLE, "sum")) == "a 0.000000 0 sum"
  {
    hide PrintValue, PrintNat;
    SampleNumbers();
    assert Serialize(SAMPLE) == "a" + " " + "0.000000" + " " + "0";
  }

  lemma SampleNumbers()
    ensures PrintValue(0.0) == "0.000000" && PrintNat(0) == "0"
  {
    assert Micros(0.0) == 0;
    assert PrintNat(0) == "" + ['0'];
    assert Pad(0, 3) == "000";
    assert Pad(0, 6) == "000000";
  }

  lemma TypesOf(c: Settings, computations: seq<Computation>)
    requires c.categories == [Category("a", computations)] && c.matches("a", "a")
    ensures SaveLoad.IsWanted(c, "a") && Types(c, "a") == NewOperations(computations)
  {
  }

  lemma RunNext(c: Settings, events: seq<PipelineEvent>, e: PipelineEvent)
    ensures PipelineRun(c, events + [e]) == NextState(c, PipelineRun(c, events), e)
    ensures PipelineRun(c, []) == map[]
  {
    hide NextState;
    assert (events + [e])[..|events|] == events;
  }

  /** One message and two sums on its metric: after a restart the first sum has the message twice and the
      second one not at all. */
  lemma TwoSumsLose(c: Settings)
    requires c.categories == [Category("a", [SUM, SUM])] && c.matches("a", "a") && c.mathsCapacity >= 2
    ensures var s := PipelineRun(c, [Accept(SAMPLE, "")]);
      var t := LoadLines(c, map[], LinesOf(MathsText(Pending(s))));
      && Items(s, "a", 0) == Items(s, "a", 1) == [SAMPLE]
      && Items(t, "a", 0) == [SAMPLE, SAMPLE] && Items(t, "a", 1) == []
  {
    hide LinesOf, LoadLines, MathsText, PipelineRun, StorableEntry, Types, Serialize;
    var s := PipelineRun(c, [Accept(SAMPLE, "")]);
    var op := Operation(SUM, Queue([SAMPLE], 1));
    TypesOf(c, [SUM, SUM]);
    RunNext(c, [], Accept(SAMPLE, ""));
    assert [] + [Accept(SAMPLE, "")] == [Accept(SAMPLE, "")];
    AcceptedState(c, map[], SAMPLE, "");
    assert [] + [SAMPLE] == [SAMPLE];
    assert s["a"] == [op, op] && s.Keys == {"a"};
    PendingOfTwo(s, op);
    RunIsConfigured(c, [Accept(SAMPLE, "")]);
    SampleIsStorable();
    CollectedOfTwo(op);
    OperationComesBack(c, s, "a", 0);
    OperationComesBack(c, s, "a", 1);
  }

  lemma OneKey(keys: set<string>, key: string)
    requires keys == {key}
    ensures Ordering.InOrder(keys) == [key]
  {
    assert {key} - {key} == {};
  }

  lemma PendingOfTwo(s: MathsState, op: Operation)
    requires s.Keys == {"a"} && s["a"] == [op, op] && op == Operation(SUM, Queue([SAMPLE], 1))
    ensures Pending(s) == [Entry(SAMPLE, "sum"), Entry(SAMPLE, "sum")]
  {
    OneKey(s.Keys, "a");
    assert ["a"][..|["a"]| - 1] == [];
    assert [op, op][..1] == [op] && [op][..0] == [];
    var tagged := Tagged([SAMPLE], "sum");
    assert tagged == [Entry(SAMPLE, "sum")];
    assert EntriesOf([op]) == EntriesOf([]) + tagged && EntriesOf([op, op]) == EntriesOf([op]) + tagged;
    assert Entries(s, ["a"]) == Entries(s, []) + EntriesOf([op, op]);
  }

  lemma CollectedOfTwo(op: Operation)
    requires op == Operation(SUM, Queue([SAMPLE], 1))
    ensures Collected([op, op], 2, 0) == [SAMPLE, SAMPLE] && Collected([op, op], 2, 1) == []
  {
    assert FirstOfType([op, op], "sum") == 0;
    assert Collected([op, op], 1, 0) == [] + [SAMPLE] && Collected([op, op], 1, 1) == [] + [];
    assert Collected([op, op], 2, 0) == [SAMPLE] + [SAMPLE] && Collected([op, op], 2, 1) == [] + [];
  }

  lemma TwoSamples(c: Settings)
    requires c.categories == [Category("a", [SUM])] && c.matches("a", "a") && c.mathsCapacity >= 2
    ensures PipelineRun(c, [Accept(SAMPLE, ""), Accept(SAMPLE, "")])
         == map["a" := [Operation(SUM, Queue([SAMPLE, SAMPLE], 2))]]
  {
    hide PipelineRun, Types;
    TypesOf(c, [SUM]);
    RunNext(c, [], Accept(SAMPLE, ""));
    RunNext(c, [Accept(SAMPLE, "")], Accept(SAMPLE, ""));
    assert [] + [Accept(SAMPLE, "")] == [Accept(SAMPLE, "")];
    assert [Accept(SAMPLE, "")] + [Accept(SAMPLE, "")] == [Accept(SAMPLE, ""), Accept(SAMPLE, "")];
    AcceptedState(c, map[], SAMPLE, "");
    assert [] + [SAMPLE] == [SAMPLE] && [SAMPLE] + [SAMPLE] == [SAMPLE, SAMPLE];
    var none, one := Operation(SUM, EMPTY), Operation(SUM, Queue([SAMPLE], 1));
    var two := Operation(SUM, Queue([SAMPLE, SAMPLE], 2));
    assert NewOperations([SUM]) == [none];
    assert AddTo(c.MathsPolicy(), [none], "", SAMPLE) == [one];
    assert PipelineRun(c, [Accept(SAMPLE, "")]) == map["a" := [one]];
    AcceptedState(c, map["a" := [one]], SAMPLE, "");
    assert AddTo(c.MathsPolicy(), [one], "", SAMPLE) == [two];
  }

  /** A sum of two zeroes is zero. */
  lemma SumOfSamples(sqrt: real -> real)
    ensures Outcome([SAMPLE, SAMPLE], SUM, sqrt, 0) == [SAMPLE]
  {
    var xs := Aggregates.Values([SAMPLE, SAMPLE]);
    assert xs == [] + [0.0] + [0.0];
    Aggregates.TotalStep(Aggregates.Value, [] + [0.0], 0.0);
    Aggregates.TotalStep(Aggregates.Value, [], 0.0);
  }

  lemma BlockOfSamples()
    ensures var op := Operation(SUM, Queue([SAMPLE, SAMPLE], 2));
      && Batches(op, 0) == [[SAMPLE, SAMPLE]]
      && Iterated(op, 0) == Operation(SUM, Queue([], 2))
      && IteratedAll([op], 0) == [Operation(SUM, Queue([], 2))]
  {
    var block := [SAMPLE, SAMPLE];
    assert block[..2] == block && block[2..] == [];
  }

  lemma SampleOfSamples(s: MathsState, sqrt: real -> real)
    requires s == map["a" := [Operation(SUM, Queue([SAMPLE, SAMPLE], 2))]]
    ensures EmittedBy(s, Ordering.InOrder(s.Keys), sqrt, 0) == [SAMPLE]
    ensures IteratedState(s, 0) == map["a" := [Operation(SUM, Queue([], 2))]]
  {
    hide Outcome, Outcomes, Batches, Iterated, Emitted, EmittedBy, Ordering.InOrder, IteratedAll;
    var op, block := s["a"][0], [SAMPLE, SAMPLE];
    BlockOfSamples();
    SumOfSamples(sqrt);
    OneKey(s.Keys, "a");
    OutcomesNone(SUM, sqrt, 0);
    OutcomesStep([], block, SUM, sqrt, 0);
    assert [] + [block] == [block] && [] + [SAMPLE] == [SAMPLE];
    EmittedNone(sqrt, 0);
    EmittedNext(s["a"], 0, sqrt, 0);
    assert s["a"][..0] == [] && s["a"][..1] == s["a"];
    EmittedByNone(s, sqrt, 0);
    EmittedByNext(s, ["a"], 0, sqrt, 0);
    assert ["a"][..0] == [] && ["a"][..1] == ["a"];
  }

  /** Two messages are summed, and the sum waits for the server: after a restart it waits for another sum
      instead. */
  lemma SumIsSummedAgain(c: Settings, sqrt: real -> real, x: Proxy)
    requires c.categories == [Category("a", [SUM])] && c.matches("a", "a")
    requires c.mathsCapacity >= 2 && c.policy.capacity >= 2
    requires x.store.queues == map[] && x.maths == map[]
    ensures var before := PipelineRun(c, [Accept(SAMPLE, ""), Accept(SAMPLE, "")]);
      var results := EmittedBy(before, Ordering.InOrder(before.Keys), sqrt, 0);
      var s := Proxy(AddAll(c.policy, c.link, NO_BUFFERS, results), IteratedState(before, 0));
      var y := Reloaded(c, s, x);
      && QueueOf(s.store, "a").items == [SAMPLE] && Items(s.maths, "a", 0) == []
      && QueueOf(y.store, "a").items == [] && y.store.sent == x.store.sent
      && Items(y.maths, "a", 0) == [SAMPLE]
  {
    hide LinesOf, RouteLines, LoadLines, MathsText, PipelineRun, StorableEntry, Storable, Types, Serialize, Payload;
    hide EmittedBy, IteratedState, Select, GivenToMaths;
    var before := PipelineRun(c, [Accept(SAMPLE, ""), Accept(SAMPLE, "")]);
    TypesOf(c, [SUM]);
    TwoSamples(c);
    SampleOfSamples(before, sqrt);
    var s := Proxy(AddAll(c.policy, c.link, NO_BUFFERS, [SAMPLE]), IteratedState(before, 0));
    OneMessage(c, s.store, SAMPLE);
    NothingSaved(s.maths);
    SampleIsStorable();
    RunIsConfigured(c, [Accept(SAMPLE, ""), Accept(SAMPLE, "")]);
    IterateAll(c, before, 0);
    ReloadedOperation(c, s, x, "a", 0);
    PassThroughSettles(c, s.store, x);
    AllWanted(c, s.store, x.store, RouteLines(c, x, LinesOf(Payload(Buffered(s.store)))).store);
  }

  lemma OneMessage(c: Settings, s: State, m: Message)
    requires c.policy.capacity >= 2 && m.IsValid()
    requires s == AddAll(c.policy, c.link, NO_BUFFERS, [m])
    ensures s == Add(c.policy, c.link, NO_BUFFERS, m) == State(map[m.kind := Queue([m], 1)], 0, [], [], map[])
    ensures Buffered(s) == [m] && WellFormed(c.policy, s)
  {
    assert [m][1..] == [] && [] + [m] == [m];
    OneKey(s.queues.Keys, m.kind);
    assert [m.kind][..|[m.kind]| - 1] == [];
    assert Contents(s.queues, [m.kind]) == Contents(s.queues, []) + [m];
  }

  lemma NothingSaved(s: MathsState)
    requires s == map["a" := [Operation(SUM, Queue([], 2))]]
    ensures Pending(s) == [] && SavedFor(s, "a", 0) == [] && Items(s, "a", 0) == []
  {
    OneKey(s.Keys, "a");
    var op := Operation(SUM, Queue([], 2));
    assert ["a"][..|["a"]| - 1] == [] && [op][..0] == [];
    assert Collected([op], 1, 0) == [] + [];
    assert EntriesOf([op]) == EntriesOf([]) + Tagged([], "sum") == [];
    assert Entries(s, ["a"]) == Entries(s, []) + EntriesOf([op]);
  }

  lemma AllWanted(c: Settings, s: State, base: State, t: State)
    requires s.queues.Keys == {"a"} && SaveLoad.IsWanted(c, "a") && base.queues == map[]
    requires Delivery.Settled(c.policy, s, base, t, KeysLeft(c, Ordering.InOrder(s.queues.Keys)))
    ensures QueueOf(t, "a").items == [] && t.sent == base.sent
  {
    hide Select;
    OneKey(s.queues.Keys, "a");
    var keys, delivered := KeysLeft(c, ["a"]), t.sent[|base.sent|..];
    assert Delivery.SettledFor(c.policy, s, base, t, keys, "a");
    forall kind ensures Select(OfKind(kind), delivered) == [] {
      assert Delivery.SettledFor(c.policy, s, base, t, keys, kind);
    }
    NothingSelected(delivered);
    assert t.sent == base.sent + delivered;
  }

  lemma NothingSelected(ms: seq<Message>)
    requires forall kind :: Select(OfKind(kind), ms) == []
    ensures ms == []
  {
    hide Select;
    if ms != [] {
      SelectOwn(ms);
    }
  }

  lemma SelectOwn(ms: seq<Message>)
    requires ms != []
    ensures Select(OfKind(ms[0].kind), ms) != []
  {
    hide Select;
    assert ms[0] in ms;
    SelectMembers(OfKind(ms[0].kind), ms);
  }

  // ---------- Results that are not the documented ones ----------

  /** A message for two sums and one for the server: when the pass-through file cannot be written, one
      message less is reported than was saved, and no failure. */
  lemma SaveMisreports(c: Settings)
    requires c.categories == [Category("a", [SUM, SUM])] && c.matches("a", "a") && !c.matches("a", "b")
    requires c.mathsCapacity >= 2 && c.policy.capacity >= 2
    ensures var s := Route(c, Route(c, Proxy(NO_BUFFERS, map[]), SAMPLE), OTHER);
      var n, k := |Buffered(s.store)|, |Pending(s.maths)|;
      && n == 1 && k == 2
      && SaveResult(Written(n, false), Written(k, true)) == 1
      && DocumentedSave(n, k, false, true) == -1
  {
    hide AddMessage, Pending, Buffered, Add, AddAll;
    var x := Proxy(NO_BUFFERS, map[]);
    assert c.categories[1..] == [] && Wanted(c.categories[1..], c.matches, "b") == None;
    assert SaveLoad.IsWanted(c, "a") && !SaveLoad.IsWanted(c, "b");
    OneMessage(c, AddAll(c.policy, c.link, NO_BUFFERS, [OTHER]), OTHER);
    var op := Operation(SUM, Queue([SAMPLE], 1));
    SampleAccepted(c);
    PendingOfTwo(Route(c, x, SAMPLE).maths, op);
  }

  lemma SampleAccepted(c: Settings)
    requires c.categories == [Category("a", [SUM, SUM])] && c.matches("a", "a")
    requires c.mathsCapacity >= 2
    ensures Accepted(c, map[], SAMPLE, "")
         == map["a" := [Operation(SUM, Queue([SAMPLE], 1)), Operation(SUM, Queue([SAMPLE], 1))]]
  {
    var none, one := Operation(SUM, EMPTY), Operation(SUM, Queue([SAMPLE], 1));
    TypesOf(c, [SUM, SUM]);
    AcceptedState(c, map[], SAMPLE, "");
    assert [] + [SAMPLE] == [SAMPLE];
    assert NewOperations([SUM, SUM]) == [none, none];
    assert AddTo(c.MathsPolicy(), [none, none], "", SAMPLE) == [one, one];
  }

  /** The first start, when there are no files yet: two failures add up. */
  lemma LoadMisreports(c: Settings)
    ensures var n, k := Loaded(c, [], false), Loaded(c, [], true);
      LoadResult(false, false, n, k) == -2 && DocumentedLoad(false, false, n, k) == -1
  {
  }
}
