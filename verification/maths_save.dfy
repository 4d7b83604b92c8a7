/**
 Saving and loading what is pending in the maths pipeline: each line also names the type of the
 computation the message waits for, and loading gives it to the first operation of that type.
 */
module MathsSave {
  import opened Wrappers
  import opened Messages
  import opened Numbers
  import opened Queues
  import opened Computations
  import opened Windows
  import opened Pipelines
  import opened PipelineRuns
  import opened SaveLoad
  import Ordering
  import Text

  /** A message pending for a computation of the given type. */
  datatype Entry = Entry(message: Message, name: string)

  function EntryLine(e: Entry): string {
    Serialize(e.message) + " " + e.name
  }

  function MathsText(entries: seq<Entry>): string {
    if entries == [] then "" else EntryLine(entries[0]) + "\n" + MathsText(entries[1..])
  }

  function ReadEntry(line: string): Option<Entry> {
    var parts := Text.Split(line, ' ');
    if |parts| != 4 || |parts[3]| > |line| then None
    else
      var m := CreateMessage(line[..|line| - |parts[3]|]);
      if m.None? then None else Some(Entry(m.value, parts[3]))
  }

  // ---------- Lines ----------

  /** An entry whose line survives the file, its value perhaps rounded. */
  predicate WritableEntry(e: Entry) {
    && Nameable(e.message.kind)
    && e.name != "" && ' ' !in e.name
    && Readable(EntryLine(e))
  }

  predicate StorableEntry(e: Entry) {
    WritableEntry(e) && '\n' !in e.message.kind && SixDecimals(e.message.value)
  }

  /** A saved line is read as the entry it was written for, the value rounded to six decimals. */
  lemma EntryReadsBackRounded(e: Entry)
    requires WritableEntry(e)
    ensures ReadEntry(EntryLine(e)) == Some(e.(message := e.message.(value := Rounded(e.message.value))))
  {
    hide Serialize, Text.Split, Text.Trim, CreateMessage;
    var m, line := e.message, EntryLine(e);
    EntryParts(e);
    var text := line[..|line| - |e.name|];
    assert text == "" + Serialize(m) + " ";
    LineReadsBack("", m, " ");
  }

  lemma EntryReadsBack(e: Entry)
    requires StorableEntry(e)
    ensures ReadEntry(EntryLine(e)) == Some(e)
  {
    hide EntryLine, ReadEntry, Rounded;
    EntryReadsBackRounded(e);
    RoundedExact(e.message.value);
  }

  lemma EntryParts(e: Entry)
    requires WritableEntry(e)
    ensures var parts := Text.Split(EntryLine(e), ' '); |parts| == 4 && parts[3] == e.name
  {
    hide PrintValue, PrintNat, Text.Split;
    ValueIsClean(e.message.value);
    PrintNatParses(e.message.timestamp);
    DigitsAreClean(PrintNat(e.message.timestamp));
    Text.SplitFour(e.message.kind, PrintValue(e.message.value), PrintNat(e.message.timestamp), e.name, ' ');
  }

  lemma ReadableLine(e: Entry)
    requires StorableEntry(e)
    ensures Readable(EntryLine(e))
  {
  }

  lemma ReadableLines(entries: seq<Entry>)
    requires forall e | e in entries :: StorableEntry(e)
    ensures forall e | e in entries :: Readable(EntryLine(e))
  {
    hide StorableEntry, Readable, EntryLine;
    forall e | e in entries ensures Readable(EntryLine(e)) {
      ReadableLine(e);
    }
  }

  function EntryLines(entries: seq<Entry>): (r: seq<string>)
    ensures |r| == |entries| && forall i | 0 <= i < |r| :: r[i] == EntryLine(entries[i])
  {
    seq(|entries|, i requires 0 <= i < |entries| => EntryLine(entries[i]))
  }

  lemma {:induction false} MathsLines(entries: seq<Entry>)
    requires forall e | e in entries :: Readable(EntryLine(e))
    ensures LinesOf(MathsText(entries)) == EntryLines(entries)
  {
    hide LinesOf, EntryLine, EntryLines, Readable;
    if entries == [] {
      ReadNothing();
    } else {
      assert Readable(EntryLine(entries[0]));
      MathsLines(entries[1..]);
      ReadOne(EntryLine(entries[0]), MathsText(entries[1..]));
      assert EntryLines(entries) == [EntryLine(entries[0])] + EntryLines(entries[1..]);
    }
  }

  // ---------- Saving ----------

  function Tagged(items: seq<Message>, name: string): (r: seq<Entry>)
    ensures |r| == |items| && forall i | 0 <= i < |r| :: r[i] == Entry(items[i], name)
  {
    seq(|items|, i requires 0 <= i < |items| => Entry(items[i], name))
  }

  function EntriesOf(ops: seq<Operation>): seq<Entry> {
    if ops == [] then []
    else EntriesOf(ops[..|ops| - 1]) + Tagged(ops[|ops| - 1].queue.items, NameOf(ops[|ops| - 1]))
  }

  lemma NoEntriesOf()
    ensures EntriesOf([]) == []
  {
  }

  lemma EntriesNext(ops: seq<Operation>, i: nat)
    requires i < |ops|
    ensures EntriesOf(ops[..i + 1]) == EntriesOf(ops[..i]) + Tagged(ops[i].queue.items, NameOf(ops[i]))
  {
    assert ops[..i + 1][..i] == ops[..i];
  }

  /** What is saved of the given metrics, in this order. */
  function Entries(s: MathsState, keys: seq<string>): seq<Entry>
    requires forall k | k in keys :: k in s
  {
    if keys == [] then [] else Entries(s, keys[..|keys| - 1]) + EntriesOf(s[keys[|keys| - 1]])
  }

  // ---------- Loading ----------

  function LoadEntry(c: Settings, s: MathsState, e: Entry): MathsState {
    Accepted(c, s, e.message, e.name)
  }

  function LoadEntries(c: Settings, s: MathsState, entries: seq<Entry>): MathsState {
    if entries == [] then s
    else LoadEntry(c, LoadEntries(c, s, entries[..|entries| - 1]), entries[|entries| - 1])
  }

  function LoadLine(c: Settings, s: MathsState, line: string): MathsState {
    var e := ReadEntry(line);
    if e.None? then s else LoadEntry(c, s, e.value)
  }

  function LoadLines(c: Settings, s: MathsState, lines: seq<string>): MathsState {
    if lines == [] then s
    else LoadLine(c, LoadLines(c, s, lines[..|lines| - 1]), lines[|lines| - 1])
  }

  lemma {:induction false} LoadedAsEntries(c: Settings, s: MathsState, entries: seq<Entry>)
    requires forall e | e in entries :: StorableEntry(e)
    ensures LoadLines(c, s, EntryLines(entries)) == LoadEntries(c, s, entries)
  {
    hide StorableEntry, LoadEntry, EntryLine, ReadEntry;
    if entries == [] {
    } else {
      var n := |entries| - 1;
      LoadedAsEntries(c, s, entries[..n]);
      assert EntryLines(entries)[..n] == EntryLines(entries[..n]);
      assert entries[n] in entries;
      EntryReadsBack(entries[n]);
    }
  }

  // ---------- Where loaded messages go ----------

  predicate GoesTo(c: Settings, e: Entry, kind: string, i: nat)
    requires IsWanted(c, kind)
  {
    Takes(c, e.message, e.name, kind, i)
  }

  /** The messages that loading gives to operation `i` of a metric. */
  function Given(c: Settings, entries: seq<Entry>, kind: string, i: nat): seq<Message>
    requires IsWanted(c, kind)
  {
    if entries == [] then []
    else
      var e := entries[|entries| - 1];
      Given(c, entries[..|entries| - 1], kind, i) + if GoesTo(c, e, kind, i) then [e.message] else []
  }

  lemma {:induction false} GivenAppend(c: Settings, a: seq<Entry>, b: seq<Entry>, kind: string, i: nat)
    requires IsWanted(c, kind)
    ensures Given(c, a + b, kind, i) == Given(c, a, kind, i) + Given(c, b, kind, i)
  {
    hide GoesTo;
    if b == [] {
      assert a + b == a;
    } else {
      var n := |b| - 1;
      assert (a + b)[..|a + b| - 1] == a + b[..n];
      GivenAppend(c, a, b[..n], kind, i);
      var last := if GoesTo(c, b[n], kind, i) then [b[n].message] else [];
      assert Given(c, a + b, kind, i) == Given(c, a, kind, i) + Given(c, b[..n], kind, i) + last;
    }
  }

  lemma {:induction false} GivenTagged(c: Settings, items: seq<Message>, name: string, own: string,
                                       kind: string, i: nat)
    requires IsWanted(c, kind)
    requires name != "" && forall m | m in items :: m.kind == own
    ensures Given(c, Tagged(items, name), kind, i)
         == if own == kind && FirstOfType(Types(c, kind), name) == i then items else []
  {
    hide FirstOfType, Types, IsWanted;
    if items == [] {
    } else {
      var n := |items| - 1;
      assert items[n] in items;
      var tagged := Tagged(items, name);
      assert tagged[..n] == Tagged(items[..n], name) && tagged[n] == Entry(items[n], name);
      GivenTagged(c, items[..n], name, own, kind, i);
      assert items == items[..n] + [items[n]];
    }
  }

  lemma GivenNext(c: Settings, entries: seq<Entry>, kind: string, i: nat)
    requires IsWanted(c, kind) && entries != []
    ensures var front, e := entries[..|entries| - 1], entries[|entries| - 1];
      Given(c, entries, kind, i)
      == if GoesTo(c, e, kind, i) then Given(c, front, kind, i) + [e.message] else Given(c, front, kind, i)
  {
    hide GoesTo;
  }

  lemma GivenNothing(c: Settings, kind: string, i: nat)
    requires IsWanted(c, kind)
    ensures Given(c, [], kind, i) == []
  {
  }

  /** The contents of an operation, nothing when there is no such operation. */
  function Items(s: MathsState, kind: string, i: nat): seq<Message> {
    if kind in s && i < |s[kind]| then s[kind][i].queue.items else []
  }

  lemma ItemsAt(c: Settings, s: MathsState, kind: string, i: nat)
    requires IsWanted(c, kind) && i < |Types(c, kind)|
    ensures Items(s, kind, i) == OperationAt(c, s, kind, i).queue.items
  {
    hide IsWanted;
  }

  function Filled(c: Settings, op: Operation, ms: seq<Message>): Operation {
    op.(queue := PushAll(c.MathsPolicy(), op.queue, ms))
  }

  lemma FilledNext(c: Settings, op: Operation, ms: seq<Message>, m: Message)
    ensures Filled(c, op, ms + [m]) == Pushed(c.MathsPolicy(), Filled(c, op, ms), m)
    ensures Filled(c, op, []) == op
  {
    hide PushAll, Push;
    PushAllStep(c.MathsPolicy(), op.queue, ms, m);
  }

  /** Loading gives an operation its messages in file order, and changes nothing else of it. */
  lemma {:induction false} LoadedOperation(c: Settings, s: MathsState, entries: seq<Entry>, kind: string, i: nat)
    requires Configured(c, s) && IsWanted(c, kind) && i < |Types(c, kind)|
    ensures Configured(c, LoadEntries(c, s, entries))
    ensures OperationAt(c, LoadEntries(c, s, entries), kind, i)
         == Filled(c, OperationAt(c, s, kind, i), Given(c, entries, kind, i))
  {
    hide Takes, Types, IsWanted, OperationAt, Filled, Pushed, Given, Configured, Accepted;
    if entries == [] {
      GivenNothing(c, kind, i);
      FilledNext(c, OperationAt(c, s, kind, i), [], Message("", 0.0, 0));
    } else {
      var front, e := entries[..|entries| - 1], entries[|entries| - 1];
      var before := LoadEntries(c, s, front);
      LoadedOperation(c, s, front, kind, i);
      AcceptOne(c, before, e.message, e.name);
      AcceptAt(c, before, e.message, e.name, kind, i);
      GivenNext(c, entries, kind, i);
      FilledNext(c, OperationAt(c, s, kind, i), Given(c, front, kind, i), e.message);
    }
  }

  /** Loading creates operations for no metric but those of the loaded messages. */
  lemma {:induction false} LoadedMetrics(c: Settings, s: MathsState, entries: seq<Entry>, keys: set<string>)
    requires Configured(c, s) && s.Keys <= keys && forall e | e in entries :: e.message.kind in keys
    ensures Configured(c, LoadEntries(c, s, entries)) && LoadEntries(c, s, entries).Keys <= keys
  {
    hide Configured, Accepted, IsWanted;
    if entries == [] {
    } else {
      var front, e := entries[..|entries| - 1], entries[|entries| - 1];
      assert e in entries;
      LoadedMetrics(c, s, front, keys);
      AcceptOne(c, LoadEntries(c, s, front), e.message, e.name);
    }
  }

  /** Messages that reach the pipeline without a type go to every operation of their metric. */
  lemma {:induction false} GivenOperation(c: Settings, s: MathsState, ms: seq<Message>, kind: string, i: nat)
    requires Configured(c, s) && IsWanted(c, kind) && i < |Types(c, kind)|
    ensures Configured(c, GivenToMaths(c, s, ms))
    ensures OperationAt(c, GivenToMaths(c, s, ms), kind, i)
         == Filled(c, OperationAt(c, s, kind, i), Select(OfKind(kind), ms))
  {
    hide Types, IsWanted, OperationAt, Filled, Pushed, Select, Configured, AddMessage;
    if ms == [] {
      SelectNone(OfKind(kind), []);
      FilledNext(c, OperationAt(c, s, kind, i), [], Message("", 0.0, 0));
    } else {
      var front, m := ms[..|ms| - 1], ms[|ms| - 1];
      var before := GivenToMaths(c, s, front);
      GivenOperation(c, s, front, kind, i);
      AcceptOne(c, before, m, "");
      AcceptAt(c, before, m, "", kind, i);
      assert ms == front + [m];
      SelectStep(OfKind(kind), front, m);
      assert Select(OfKind(kind), front) + [] == Select(OfKind(kind), front);
      FilledNext(c, OperationAt(c, s, kind, i), Select(OfKind(kind), front), m);
    }
  }

  // ---------- What was saved ----------

  lemma FirstOfOwnType(ops: seq<Operation>, j: nat)
    requires j < |ops|
    ensures FirstOfType(ops, NameOf(ops[j])) <= j
  {
  }

  lemma FirstHasName(ops: seq<Operation>, name: string)
    ensures var i := FirstOfType(ops, name); i < |ops| ==> NameOf(ops[i]) == name
  {
  }

  /** A non-empty operation that is not the first of its type loses its messages to that first one. */
  predicate Shadowed(ops: seq<Operation>, j: nat)
    requires j < |ops|
  {
    FirstOfType(ops, NameOf(ops[j])) < j && ops[j].queue.items != []
  }

  predicate NoneShadowed(ops: seq<Operation>) {
    forall j | 0 <= j < |ops| :: !Shadowed(ops, j)
  }

  /** The pending messages of the operations for which operation `i` is the first of the type. */
  function Collected(ops: seq<Operation>, n: nat, i: nat): seq<Message>
    requires n <= |ops|
  {
    if n == 0 then []
    else
      var own := FirstOfType(ops, NameOf(ops[n - 1])) == i;
      Collected(ops, n - 1, i) + if own then ops[n - 1].queue.items else []
  }

  lemma CollectedNext(ops: seq<Operation>, n: nat, i: nat)
    requires n < |ops|
    ensures Collected(ops, n + 1, i)
         == if FirstOfType(ops, NameOf(ops[n])) == i then Collected(ops, n, i) + ops[n].queue.items
            else Collected(ops, n, i)
  {
    hide FirstOfType, NameOf;
  }

  lemma NoneCollected(ops: seq<Operation>, i: nat)
    ensures Collected(ops, 0, i) == []
  {
  }

  lemma Units(items: seq<Message>)
    ensures items + [] == items && [] + items == items
  {
  }

  /** With nothing shadowed, each operation collects exactly its own messages. */
  lemma {:induction false} CollectedOwn(ops: seq<Operation>, n: nat, i: nat)
    requires n <= |ops| && i < |ops| && NoneShadowed(ops)
    ensures Collected(ops, n, i) == if i < n then ops[i].queue.items else []
  {
    hide FirstOfType, NameOf, NoneShadowed, Collected;
    if n == 0 {
      NoneCollected(ops, i);
    } else {
      CollectedOwn(ops, n - 1, i);
      CollectedMore(ops, n - 1, i);
    }
  }

  lemma CollectedMore(ops: seq<Operation>, j: nat, i: nat)
    requires j < |ops| && i < |ops| && NoneShadowed(ops)
    requires Collected(ops, j, i) == if i < j then ops[i].queue.items else []
    ensures Collected(ops, j + 1, i) == if i <= j then ops[i].queue.items else []
  {
    hide FirstOfType, NameOf, NoneShadowed, Collected;
    CollectedNext(ops, j, i);
    OwnOrEmpty(ops, j);
    Units(ops[j].queue.items);
    Units(Collected(ops, j, i));
  }

  lemma OwnOrEmpty(ops: seq<Operation>, j: nat)
    requires j < |ops| && NoneShadowed(ops)
    ensures FirstOfType(ops, NameOf(ops[j])) == j || (FirstOfType(ops, NameOf(ops[j])) < j && ops[j].queue.items == [])
  {
    FirstOfOwnType(ops, j);
    assert !Shadowed(ops, j);
  }

  /** A shadowed operation collects nothing. */
  lemma {:induction false} CollectedNothing(ops: seq<Operation>, n: nat, j: nat)
    requires n <= |ops| && j < |ops| && FirstOfType(ops, NameOf(ops[j])) < j
    ensures Collected(ops, n, j) == []
  {
    hide FirstOfType, NameOf, Collected;
    NoneCollected(ops, j);
    if n == 0 {
    } else {
      CollectedNothing(ops, n - 1, j);
      CollectedNext(ops, n - 1, j);
      FirstHasName(ops, NameOf(ops[n - 1]));
    }
  }

  lemma {:induction false} GivenOfOperations(c: Settings, ops: seq<Operation>, n: nat, kind: string,
                                             target: string, i: nat)
    requires IsWanted(c, kind) && n <= |ops|
    requires forall j, m | 0 <= j < |ops| && m in ops[j].queue.items :: m.kind == target
    requires target == kind ==> SameComputations(ops, Types(c, kind))
    ensures Given(c, EntriesOf(ops[..n]), kind, i) == if target == kind then Collected(ops, n, i) else []
  {
    hide FirstOfType, Types, EntriesOf, Collected, SameComputations, Given, IsWanted;
    if n == 0 {
      NoneCollected(ops, i);
      GivenNothing(c, kind, i);
      NoEntriesOf();
    } else {
      var op := ops[n - 1];
      GivenOfOperations(c, ops, n - 1, kind, target, i);
      EntriesNext(ops, n - 1);
      GivenAppend(c, EntriesOf(ops[..n - 1]), Tagged(op.queue.items, NameOf(op)), kind, i);
      TypeNames(op.computation.kind, op.computation.kind);
      GivenTagged(c, op.queue.items, NameOf(op), target, kind, i);
      CollectedNext(ops, n - 1, i);
      if target == kind {
        SameFirst(ops, Types(c, kind), NameOf(op));
      }
    }
  }

  /** What is saved for operation `i` of a metric, or for others that loading takes for it. */
  function SavedFor(s: MathsState, kind: string, i: nat): seq<Message> {
    if kind in s then Collected(s[kind], |s[kind]|, i) else []
  }

  lemma {:induction false} GivenOfState(c: Settings, s: MathsState, keys: seq<string>, kind: string, i: nat)
    requires Configured(c, s) && IsWanted(c, kind)
    requires forall k | k in keys :: k in s
    requires Ordering.NoRepeats(keys)
    ensures Given(c, Entries(s, keys), kind, i) == if kind in keys then SavedFor(s, kind, i) else []
  {
    hide Types, EntriesOf, Given, Collected;
    if keys == [] {
      assert Entries(s, keys) == [];
      GivenNothing(c, kind, i);
    } else {
      var n := |keys| - 1;
      var k := keys[n];
      GivenOfState(c, s, keys[..n], kind, i);
      GivenAppend(c, Entries(s, keys[..n]), EntriesOf(s[k]), kind, i);
      assert s[k][..|s[k]|] == s[k];
      assert ConfiguredFor(c, s[k], k);
      forall j, m | 0 <= j < |s[k]| && m in s[k][j].queue.items ensures m.kind == k {
        assert QueueFits(c, s[k][j].queue, k);
      }
      GivenOfOperations(c, s[k], |s[k]|, kind, k, i);
      assert kind in keys <==> kind in keys[..n] || kind == k;
    }
  }

  lemma {:induction false} EntriesAreOwn(c: Settings, s: MathsState, keys: seq<string>)
    requires Configured(c, s) && forall k | k in keys :: k in s
    ensures forall e | e in Entries(s, keys) :: e.message.kind in s
  {
    hide Types, IsWanted, EntriesOf;
    if keys == [] {
    } else {
      var k := keys[|keys| - 1];
      EntriesAreOwn(c, s, keys[..|keys| - 1]);
      assert ConfiguredFor(c, s[k], k);
      EntriesOfKind(c, s[k], k);
    }
  }

  lemma {:induction false} EntriesOfKind(c: Settings, ops: seq<Operation>, kind: string)
    requires forall i | 0 <= i < |ops| :: QueueFits(c, ops[i].queue, kind)
    ensures forall e | e in EntriesOf(ops) :: e.message.kind == kind
  {
    if ops == [] {
    } else {
      var last := ops[|ops| - 1];
      EntriesOfKind(c, ops[..|ops| - 1], kind);
      assert QueueFits(c, last.queue, kind);
      forall e | e in Tagged(last.queue.items, NameOf(last)) ensures e.message.kind == kind {
        assert e.message in last.queue.items;
      }
    }
  }

  /** Everything pending in a pipeline, in the order it is saved. */
  function Pending(s: MathsState): seq<Entry> {
    Entries(s, Ordering.InOrder(s.Keys))
  }

  /** What a pipeline holds that first gets some messages without a type, as the pass-through file brings
      them, and then loads what another has saved: per operation the messages of the first kind, then
      what was saved for it, up to capacity. */
  lemma {:induction false} LoadedTogether(c: Settings, ms: seq<Message>, s: MathsState, kind: string, i: nat)
    requires Configured(c, s) && forall e | e in Pending(s) :: StorableEntry(e)
    requires IsWanted(c, kind) && i < |Types(c, kind)|
    ensures Items(LoadLines(c, GivenToMaths(c, map[], ms), LinesOf(MathsText(Pending(s)))), kind, i)
         == Capped(c.mathsCapacity, Select(OfKind(kind), ms) + SavedFor(s, kind, i))
  {
    hide LinesOf, LoadLines, LoadEntries, Entries, Given, Types, StorableEntry, MathsText, EntryLines, Select;
    hide OperationAt, IsWanted, GivenToMaths, SavedFor, ConfiguredFor, PushAll;
    var base, first, saved := GivenToMaths(c, map[], ms), Select(OfKind(kind), ms), SavedFor(s, kind, i);
    ReadableLines(Pending(s));
    MathsLines(Pending(s));
    LoadedAsEntries(c, base, Pending(s));
    GivenOfState(c, s, Ordering.InOrder(s.Keys), kind, i);
    SavedForNone(s, kind, i);
    GivenOperation(c, map[], ms, kind, i);
    LoadedOperation(c, base, Pending(s), kind, i);
    ItemsAt(c, LoadEntries(c, base, Pending(s)), kind, i);
    NewAt(c, kind, i);
    PushAllAppend(c.MathsPolicy(), EMPTY, first, saved);
    PushAllCapped(c.MathsPolicy(), EMPTY, first + saved);
    assert [] + (first + saved) == first + saved;
  }

  lemma SavedForNone(s: MathsState, kind: string, i: nat)
    ensures kind !in s ==> SavedFor(s, kind, i) == []
  {
  }

  lemma NewAt(c: Settings, kind: string, i: nat)
    requires IsWanted(c, kind) && i < |Types(c, kind)|
    ensures OperationAt(c, map[], kind, i).queue == EMPTY
  {
    hide IsWanted;
  }

  /** What loading brings back of one operation: the messages saved for all operations of which it is the
      first of the type, as many as fit. */
  lemma {:induction false} OperationComesBack(c: Settings, s: MathsState, kind: string, i: nat)
    requires Configured(c, s) && forall e | e in Pending(s) :: StorableEntry(e)
    requires IsWanted(c, kind) && i < |Types(c, kind)|
    ensures Items(LoadLines(c, map[], LinesOf(MathsText(Pending(s)))), kind, i)
         == Capped(c.mathsCapacity, SavedFor(s, kind, i))
  {
    hide LinesOf, LoadLines, Pending, SavedFor, MathsText, Items, Types, IsWanted, StorableEntry, Configured;
    LoadedTogether(c, [], s, kind, i);
    SelectNone(OfKind(kind), []);
    assert [] + SavedFor(s, kind, i) == SavedFor(s, kind, i);
    assert GivenToMaths(c, map[], []) == map[];
  }

  /** In particular its own messages, when nothing on its metric is shadowed, and none when it is
      shadowed itself. */
  lemma {:induction false} OwnMessagesComeBack(c: Settings, s: MathsState, kind: string, i: nat)
    requires Configured(c, s) && forall e | e in Pending(s) :: StorableEntry(e)
    requires kind in s && i < |s[kind]|
    ensures var items := Items(LoadLines(c, map[], LinesOf(MathsText(Pending(s)))), kind, i);
      && (NoneShadowed(s[kind]) ==> items == Items(s, kind, i))
      && (Shadowed(s[kind], i) ==> items == [])
  {
    hide LinesOf, LoadLines, Pending, MathsText, Types, IsWanted, StorableEntry, Collected, FirstOfType;
    var ops := s[kind];
    assert ConfiguredFor(c, ops, kind) && QueueFits(c, ops[i].queue, kind);
    OperationComesBack(c, s, kind, i);
    if NoneShadowed(ops) {
      CollectedOwn(ops, |ops|, i);
    }
    if Shadowed(ops, i) {
      CollectedNothing(ops, |ops|, i);
    }
  }

  /** Saved maths messages come back to the operations they were pending for, in the same order,
      exactly when no non-empty operation stands behind another of the same type on its metric. In any
      case the operations are those there were, with the same computations, and no others. */
  lemma {:induction false} MathsComeBack(c: Settings, s: MathsState)
    requires Configured(c, s)
    requires forall e | e in Pending(s) :: StorableEntry(e)
    ensures var t := LoadLines(c, map[], LinesOf(MathsText(Pending(s))));
      && (forall k | k in t :: k in s && SameComputations(t[k], s[k]))
      && ((forall k, i | k in s && 0 <= i < |s[k]| :: Items(t, k, i) == Items(s, k, i))
          <==> (forall k | k in s :: NoneShadowed(s[k])))
  {
    hide LinesOf, LoadLines, StorableEntry, MathsText, Pending, Configured, NoneShadowed, Items, SameComputations;
    var t := LoadLines(c, map[], LinesOf(MathsText(Pending(s))));
    SameOperations(c, s);
    if forall k | k in s :: NoneShadowed(s[k]) {
      forall k, i | k in s && 0 <= i < |s[k]| ensures Items(t, k, i) == Items(s, k, i) {
        OwnMessagesComeBack(c, s, k, i);
      }
    } else {
      var k :| k in s && !NoneShadowed(s[k]);
      var i := ShadowedOne(s, k);
      OwnMessagesComeBack(c, s, k, i);
    }
  }

  lemma ShadowedOne(s: MathsState, kind: string) returns (i: nat)
    requires kind in s && !NoneShadowed(s[kind])
    ensures i < |s[kind]| && Shadowed(s[kind], i) && Items(s, kind, i) != []
  {
    hide FirstOfType;
    i :| i < |s[kind]| && Shadowed(s[kind], i);
  }

  lemma SameOperations(c: Settings, s: MathsState)
    requires Configured(c, s) && forall e | e in Pending(s) :: StorableEntry(e)
    ensures var t := LoadLines(c, map[], LinesOf(MathsText(Pending(s))));
      forall k | k in t :: k in s && SameComputations(t[k], s[k])
  {
    hide LinesOf, LoadLines, LoadEntries, Entries, StorableEntry, MathsText, Types, IsWanted, EntryLines;
    var t := LoadLines(c, map[], LinesOf(MathsText(Pending(s))));
    ReadableLines(Pending(s));
    MathsLines(Pending(s));
    LoadedAsEntries(c, map[], Pending(s));
    EntriesAreOwn(c, s, Ordering.InOrder(s.Keys));
    LoadedMetrics(c, map[], Pending(s), s.Keys);
    forall k | k in t ensures k in s && SameComputations(t[k], s[k]) {
      assert ConfiguredFor(c, t[k], k) && ConfiguredFor(c, s[k], k);
      forall i | 0 <= i < |t[k]| ensures SameComputation(t[k][i], s[k][i]) {
        assert SameComputation(t[k][i], Types(c, k)[i]) && SameComputation(s[k][i], Types(c, k)[i]);
      }
    }
  }

  /** In particular they come back when the types of each category are distinct. */
  lemma DistinctTypesComeBack(c: Settings, s: MathsState)
    requires Configured(c, s)
    requires forall k, i, j | k in s && 0 <= i < j < |s[k]| :: s[k][i].computation.kind != s[k][j].computation.kind
    ensures forall k | k in s :: NoneShadowed(s[k])
  {
    forall k, j | k in s && 0 <= j < |s[k]| ensures !Shadowed(s[k], j) {
      var i := FirstOfType(s[k], NameOf(s[k][j]));
      FirstOfOwnType(s[k], j);
      if i < j {
        TypeNames(s[k][i].computation.kind, s[k][j].computation.kind);
      }
    }
  }
}
