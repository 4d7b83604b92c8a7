/**
 The router: sends each message where it belongs, saves what is pending to two files and loads it again.
 */
module Routers {
  import opened Wrappers
  import opened Messages
  import opened Queues
  import opened Store
  import opened MessageBuffers
  import opened GlobalBuffers
  import opened Computations
  import opened Windows
  import opened Pipelines
  import opened PipelineRuns
  import opened SaveLoad
  import opened MathsSave
  import Ordering
  import Text

  /** The files by path, and which paths can be written. */
  class Disk {
    var files: map<string, string>
    const writable: string -> bool

    constructor (writable: string -> bool)
      ensures files == map[] && this.writable == writable
    {
      this.writable := writable;
      files := map[];
    }
  }

  // ---------- What is written ----------

  /** One line per message, each followed by its suffix if there is one. */
  function FileText(messages: seq<Message>, suffixes: seq<string>): string {
    if messages == [] then ""
    else if suffixes == [] then Serialize(messages[0]) + "\n" + FileText(messages[1..], [])
    else Serialize(messages[0]) + " " + suffixes[0] + "\n" + FileText(messages[1..], suffixes[1..])
  }

  function DropSuffixes(suffixes: seq<string>, i: nat): seq<string> {
    if i <= |suffixes| then suffixes[i..] else []
  }

  lemma FileTextStep(messages: seq<Message>, suffixes: seq<string>, i: nat)
    requires i < |messages|
    ensures FileText(messages[i..], DropSuffixes(suffixes, i))
         == ((if i < |suffixes| then Serialize(messages[i]) + " " + suffixes[i] else Serialize(messages[i])) + "\n")
          + FileText(messages[i + 1..], DropSuffixes(suffixes, i + 1))
  {
    hide Serialize;
    assert messages[i..][1..] == messages[i + 1..];
    assert i < |suffixes| ==> suffixes[i..][1..] == suffixes[i + 1..];
  }

  lemma NoFileText(suffixes: seq<string>)
    ensures FileText([], suffixes) == ""
  {
  }

  lemma {:induction false} PlainText(messages: seq<Message>)
    ensures FileText(messages, []) == Payload(messages)
  {
    if messages == [] {
    } else {
      PlainText(messages[1..]);
    }
  }

  /** Messages and their suffixes, side by side. */
  predicate Zips(messages: seq<Message>, suffixes: seq<string>, entries: seq<Entry>) {
    && |messages| == |suffixes| == |entries|
    && forall i | 0 <= i < |entries| :: entries[i] == Entry(messages[i], suffixes[i])
  }

  lemma {:induction false} SuffixedText(messages: seq<Message>, suffixes: seq<string>, entries: seq<Entry>)
    requires Zips(messages, suffixes, entries)
    ensures FileText(messages, suffixes) == MathsText(entries)
  {
    if messages == [] {
    } else {
      SuffixedText(messages[1..], suffixes[1..], entries[1..]);
      assert entries[0] == Entry(messages[0], suffixes[0]);
    }
  }

  function EmptiedOperation(op: Operation): (r: Operation)
    ensures r.computation == op.computation && r.queue.items == [] && r.queue.peak == op.queue.peak
  {
    op.(queue := Queue([], op.queue.peak))
  }

  function EmptiedOperations(ops: seq<Operation>): (r: seq<Operation>)
    ensures |r| == |ops| && forall i | 0 <= i < |r| :: r[i] == EmptiedOperation(ops[i])
  {
    seq(|ops|, i requires 0 <= i < |ops| => EmptiedOperation(ops[i]))
  }

  function EmptiedMaths(s: MathsState): MathsState {
    map k | k in s :: EmptiedOperations(s[k])
  }

  lemma EntriesByNext(s: MathsState, keys: seq<string>, i: nat)
    requires forall k | k in keys :: k in s
    requires i < |keys|
    ensures Entries(s, keys[..i + 1]) == Entries(s, keys[..i]) + EntriesOf(s[keys[i]])
  {
    assert keys[..i + 1][..i] == keys[..i];
  }

  lemma NoEntries(s: MathsState)
    ensures EntriesOf([]) == [] && Entries(s, []) == [] && Zips([], [], [])
  {
  }

  lemma ZipMore(messages: seq<Message>, suffixes: seq<string>, entries: seq<Entry>, items: seq<Message>,
                names: seq<string>, name: string)
    requires Zips(messages, suffixes, entries)
    requires |names| == |items| && forall i | 0 <= i < |names| :: names[i] == name
    ensures Zips(messages + items, suffixes + names, entries + Tagged(items, name))
  {
  }

  // ---------- What loading does ----------

  /** A line counts as loaded when it holds a message, and, for maths, one that a category wants. */
  predicate Loads(c: Settings, line: string, math: bool) {
    if math then ReadEntry(line).Some? && SaveLoad.IsWanted(c, ReadEntry(line).value.message.kind)
    else CreateMessage(line).Some?
  }

  function Loaded(c: Settings, lines: seq<string>, math: bool): nat {
    if lines == [] then 0
    else Loaded(c, lines[..|lines| - 1], math) + if Loads(c, lines[|lines| - 1], math) then 1 else 0
  }

  function LoadAll(c: Settings, x: Proxy, lines: seq<string>, math: bool): Proxy {
    if math then x.(maths := LoadLines(c, x.maths, lines)) else RouteLines(c, x, lines)
  }

  function LoadNext(c: Settings, x: Proxy, line: string, math: bool): Proxy {
    if math then x.(maths := LoadLine(c, x.maths, line)) else RouteLine(c, x, line)
  }

  lemma LoadStep(c: Settings, x: Proxy, lines: seq<string>, line: string, math: bool)
    ensures LoadAll(c, x, lines + [line], math) == LoadNext(c, LoadAll(c, x, lines, math), line, math)
    ensures Loaded(c, lines + [line], math) == Loaded(c, lines, math) + if Loads(c, line, math) then 1 else 0
  {
    hide LoadLine, RouteLine, Loads;
    assert (lines + [line])[..|lines|] == lines;
  }

  lemma LoadMore(c: Settings, x: Proxy, lines: seq<string>, segment: string, math: bool)
    ensures LoadAll(c, x, lines + LineIn(segment), math)
         == LoadAll(c, LoadAll(c, x, lines, math), LineIn(segment), math)
    ensures Loaded(c, lines + LineIn(segment), math) == Loaded(c, lines, math) + Loaded(c, LineIn(segment), math)
  {
    hide LoadAll, LoadNext, Loaded, Loads;
    var y := LoadAll(c, x, lines, math);
    LoadNothing(c, y, math);
    if LineIn(segment) == [] {
      assert lines + [] == lines;
    } else {
      var line := LineIn(segment)[0];
      assert [] + [line] == [line];
      LoadStep(c, y, [], line, math);
      LoadStep(c, x, lines, line, math);
    }
  }

  lemma LoadNothing(c: Settings, x: Proxy, math: bool)
    ensures LoadAll(c, x, [], math) == x && Loaded(c, [], math) == 0
  {
  }

  /** Every saved pass-through message counts when it is loaded. */
  lemma {:induction false} MessagesCount(c: Settings, ms: seq<Message>)
    requires forall m | m in ms :: Nameable(m.kind)
    ensures Loaded(c, Lines(ms), false) == |ms|
  {
    hide Serialize, CreateMessage, Nameable;
    if ms == [] {
    } else {
      var n := |ms| - 1;
      assert ms[n] in ms;
      MessagesCount(c, ms[..n]);
      assert Lines(ms)[..n] == Lines(ms[..n]);
      assert "" + Serialize(ms[n]) + "" == Serialize(ms[n]);
      LineReadsBack("", ms[n], "");
    }
  }

  /** Of the saved maths messages those count that some filter matches. */
  lemma EntriesCount(c: Settings, es: seq<Entry>)
    requires forall e | e in es :: WritableEntry(e)
    ensures var counted := set i | 0 <= i < |es|
        && (exists j | 0 <= j < |c.categories| :: c.matches(c.categories[j].filter, es[i].message.kind));
      Loaded(c, EntryLines(es), true) == |counted|
  {
    hide Loaded, EntryLines, WritableEntry;
    MatchedEntriesCount(c, es);
    assert (set i | 0 <= i < |es| && FilterMatches(c, es[i].message.kind))
      == set i | 0 <= i < |es|
        && (exists j | 0 <= j < |c.categories| :: c.matches(c.categories[j].filter, es[i].message.kind));
  }

  lemma {:induction false} MatchedEntriesCount(c: Settings, es: seq<Entry>)
    requires forall e | e in es :: WritableEntry(e)
    ensures var counted := set i | 0 <= i < |es| && FilterMatches(c, es[i].message.kind);
      Loaded(c, EntryLines(es), true) == |counted|
  {
    hide EntryLine, ReadEntry, WritableEntry, SaveLoad.IsWanted, FilterMatches;
    var counted := set i | 0 <= i < |es| && FilterMatches(c, es[i].message.kind);
    if es == [] {
      assert counted == {};
    } else {
      var n := |es| - 1;
      var front, kind := es[..n], es[n].message.kind;
      var before := set i | 0 <= i < |front| && FilterMatches(c, front[i].message.kind);
      MatchedEntriesCount(c, front);
      assert es[n] in es;
      EntryReadsBackRounded(es[n]);
      WantedMeansMatched(c, kind);
      assert EntryLines(es)[..n] == EntryLines(front);
      assert counted == if FilterMatches(c, kind) then before + {n} else before;
    }
  }

  predicate FilterMatches(c: Settings, kind: string) {
    exists j | 0 <= j < |c.categories| :: c.matches(c.categories[j].filter, kind)
  }

  lemma WantedMeansMatched(c: Settings, kind: string)
    ensures SaveLoad.IsWanted(c, kind) <==> FilterMatches(c, kind)
  {
    hide Wanted;
    WantedIsFirst(c.categories, c.matches, kind);
  }

  /** A line that is no message, or has not four parts, does not count. */
  lemma OtherLinesDoNotCount(c: Settings, line: string)
    ensures CreateMessage(line) == None ==> !Loads(c, line, false)
    ensures |Text.Split(line, ' ')| != 4 ==> !Loads(c, line, true)
  {
  }

  lemma CreatedIsValid(input: string)
    ensures CreateMessage(input).Some? ==> CreateMessage(input).value.IsValid()
    ensures CreateMessage("") == None
  {
    assert Text.Trim("") == "" && Text.Split("", ' ') == [""];
  }

  // ---------- Files ----------

  /** What writing `count` messages to a file returns. */
  function Written(count: nat, writable: bool): int {
    if count == 0 then 0 else if writable then count else -1
  }

  /** What saving returns, given what writing the two files returned. */
  function SaveResult(passed: int, computed: int): int {
    passed + if computed == -1 then 0 else computed
  }

  /** What saving returns, case by case, and which file it touches. */
  lemma SaveReports(n: nat, k: nat, passWritable: bool, mathsWritable: bool, files: map<string, string>,
                    file: string, text: string)
    ensures var result := SaveResult(Written(n, passWritable), Written(k, mathsWritable));
      && (passWritable && mathsWritable ==> result == n + k)
      && (passWritable && !mathsWritable ==> result == n)
      && (!passWritable && mathsWritable ==> result == if n == 0 then k else k - 1)
      && (!passWritable && !mathsWritable ==> result == if n == 0 then 0 else -1)
    ensures SavedTo(files, file, Written(n, passWritable), text)
         == if n > 0 && passWritable then files[file := text] else files
  {
  }

  /** What saving `n` pass-through and `k` maths messages is documented to return: their number, or -1
      when either file could not be written. */
  function DocumentedSave(n: nat, k: nat, passWritable: bool, mathsWritable: bool): int {
    if (n > 0 && !passWritable) || (k > 0 && !mathsWritable) then -1 else n + k
  }

  /** It does so exactly when nothing fails, or writing the pass-through file fails and nothing is written
      to the other. */
  lemma SavesAsDocumented(n: nat, k: nat, passWritable: bool, mathsWritable: bool)
    ensures SaveResult(Written(n, passWritable), Written(k, mathsWritable))
         == DocumentedSave(n, k, passWritable, mathsWritable)
      <==> (if n == 0 || passWritable then k == 0 || mathsWritable else k == 0 || !mathsWritable)
  {
  }

  /** What loading returns: `n` and `k` messages were loaded, none from a file that is missing. */
  function LoadResult(passFound: bool, mathsFound: bool, n: nat, k: nat): int {
    (if passFound then n else -1) + if mathsFound then k else -1
  }

  lemma LoadReports(n: nat, k: nat)
    ensures LoadResult(true, true, n, k) == n + k && LoadResult(true, false, n, k) == n - 1
    ensures LoadResult(false, true, n, k) == k - 1 && LoadResult(false, false, n, k) == -2
  {
  }

  function DocumentedLoad(passFound: bool, mathsFound: bool, n: nat, k: nat): int {
    if passFound && mathsFound then n + k else -1
  }

  /** That is the documented number, or -1 for a missing file, exactly when both files are there, or one
      is missing and nothing is loaded from the other. */
  lemma LoadsAsDocumented(passFound: bool, mathsFound: bool, n: nat, k: nat)
    ensures LoadResult(passFound, mathsFound, n, k) == DocumentedLoad(passFound, mathsFound, n, k)
      <==> (if passFound then mathsFound || n == 0 else mathsFound && k == 0)
  {
  }

  function SavedTo(files: map<string, string>, file: string, saved: int, text: string): map<string, string> {
    if saved > 0 then files[file := text] else files
  }

  lemma LinesUnits(lines: seq<string>)
    ensures lines + [] == lines && [] + lines == lines
  {
  }

  lemma ReadNone()
    ensures ReadFrom([]) == []
  {
  }

  lemma ReadStep(segments: seq<string>, i: nat)
    requires i < |segments|
    ensures ReadFrom(segments[i..])
         == LineIn(segments[i]) + if |segments[i]| < MAX_MESSAGE_LENGTH then ReadFrom(segments[i + 1..]) else []
  {
    hide LineIn;
    assert segments[i..][1..] == segments[i + 1..];
  }

  lemma PartFits(line: string)
    ensures var parts := Text.Split(line, ' '); |parts| == 4 ==> |parts[3]| <= |line|
  {
    var parts := Text.Split(line, ' ');
    if |parts| == 4 {
      Text.SplitJoins(line, ' ');
      Text.PartWithin(parts, 3, ' ');
    }
  }

  lemma NoneWanted(matches: Matches, p: Policy, s: MathsState, m: Message, name: string)
    ensures Wanted([], matches, m.kind) == None
    ensures AddMessage([], matches, p, s, m, name) == s
  {
  }

  class Router {
    const buffer: GlobalBuffer
    const pipeline: MathsPipeline
    /** Whether there is a maths pipeline; without one, `pipeline` is not used. */
    const hasPipeline: bool
    const disk: Disk

    constructor (buffer: GlobalBuffer, pipeline: MathsPipeline, hasPipeline: bool, disk: Disk)
      ensures this.buffer == buffer && this.pipeline == pipeline
      ensures this.hasPipeline == hasPipeline && this.disk == disk
    {
      this.buffer, this.pipeline, this.hasPipeline, this.disk := buffer, pipeline, hasPipeline, disk;
    }

    // ---------- Draining the pipeline ----------

    /** Takes what is pending for one operation, with its type once per message. */
    method DrainOperation(kind: string, ops: seq<MathOperation>, i: nat,
                          messages: seq<Message>, suffixes: seq<string>, ghost entries: seq<Entry>)
      returns (messages': seq<Message>, suffixes': seq<string>)
      requires pipeline.buffer.Valid() && pipeline.OperationsOk(kind, ops) && i < |ops|
      requires Zips(messages, suffixes, entries)
      modifies ops[i].buffer
      ensures pipeline.OperationsOk(kind, ops)
      ensures States(ops) == old(States(ops))[i := EmptiedOperation(old(ops[i].State()))]
      ensures var op := old(ops[i].State());
        Zips(messages', suffixes', entries + Tagged(op.queue.items, NameOf(op)))
    {
      hide Largest, States, TypeName;
      ghost var before := States(ops);
      pipeline.OperationsApart(kind, ops, i);
      assert pipeline.OperationOk(ops[i], kind, i);
      var name := TypeName(ops[i].computation.kind);
      messages' := ops[i].buffer.Get(messages, 0);
      var added := |messages'| - |messages|;
      suffixes' := suffixes;
      var names: seq<string> := [];
      for j := 0 to added
        invariant suffixes' == suffixes + names
        invariant |names| == j && forall n | 0 <= n < j :: names[n] == name
      {
        suffixes' := suffixes' + [name];
        names := names + [name];
      }
      ZipMore(messages, suffixes, entries, before[i].queue.items, names, name);
      assert messages' == messages + before[i].queue.items;
      forall j | 0 <= j < |ops| ensures pipeline.OperationOk(ops[j], kind, j) {
        assert old(pipeline.OperationOk(ops[j], kind, j));
      }
      assert States(ops) == before[i := EmptiedOperation(before[i])];
    }

    method DrainMetric(kind: string, ops: seq<MathOperation>,
                       messages: seq<Message>, suffixes: seq<string>, ghost entries: seq<Entry>)
      returns (messages': seq<Message>, suffixes': seq<string>)
      requires pipeline.buffer.Valid() && pipeline.OperationsOk(kind, ops)
      requires Zips(messages, suffixes, entries)
      modifies set op | op in ops :: op.buffer
      ensures pipeline.OperationsOk(kind, ops)
      ensures States(ops) == EmptiedOperations(old(States(ops)))
      ensures Zips(messages', suffixes', entries + EntriesOf(old(States(ops))))
    {
      hide Largest, States, TypeName, MathsPipeline.OperationsOk, Zips, EntriesOf, GlobalBuffer.Valid;
      ghost var before := States(ops);
      messages', suffixes' := messages, suffixes;
      NoEntries(map[]);
      assert entries + [] == entries && before[..0] == [] && before[..|ops|] == before;
      pipeline.OperationsApart'(kind, ops);
      for i := 0 to |ops|
        invariant pipeline.buffer.Valid() && pipeline.OperationsOk(kind, ops)
        invariant forall j | 0 <= j < |ops| ::
          States(ops)[j] == if j < i then EmptiedOperation(before[j]) else before[j]
        invariant Zips(messages', suffixes', entries + EntriesOf(before[..i]))
      {
        assert ops[i].State() == States(ops)[i] == before[i];
        messages', suffixes' := DrainOperation(kind, ops, i, messages', suffixes', entries + EntriesOf(before[..i]));
        EntriesNext(before, i);
        assert entries + EntriesOf(before[..i]) + Tagged(before[i].queue.items, NameOf(before[i]))
            == entries + EntriesOf(before[..i + 1]);
      }
      assert States(ops) == EmptiedOperations(before);
    }

    /** Takes what is pending for one metric; the others are untouched. */
    method DrainKind(kind: string, messages: seq<Message>, suffixes: seq<string>, ghost entries: seq<Entry>)
      returns (messages': seq<Message>, suffixes': seq<string>)
      requires pipeline.Valid() && kind in pipeline.buffers
      requires Zips(messages, suffixes, entries)
      modifies set op | op in pipeline.buffers[kind] :: op.buffer
      ensures pipeline.buffers == old(pipeline.buffers) && pipeline.Valid()
      ensures States(pipeline.buffers[kind]) == EmptiedOperations(old(States(pipeline.buffers[kind])))
      ensures forall k | k in pipeline.buffers && k != kind ::
        States(pipeline.buffers[k]) == old(States(pipeline.buffers[k]))
      ensures Zips(messages', suffixes', entries + EntriesOf(old(States(pipeline.buffers[kind]))))
    {
      hide Largest, States, MathsPipeline.OperationsOk, Zips, EntriesOf, GlobalBuffer.Valid;
      pipeline.KindsApart(kind);
      messages', suffixes' := DrainMetric(kind, pipeline.buffers[kind], messages, suffixes, entries);
      forall k | k in pipeline.buffers ensures pipeline.OperationsOk(k, pipeline.buffers[k]) {
        assert old(pipeline.OperationsOk(k, pipeline.buffers[k]));
      }
    }

    /** The metrics in `done` are drained, the others are as they were. */
    ghost predicate Halfway(before: MathsState, done: set<string>)
      reads pipeline`buffers, pipeline.Owned()
    {
      && before.Keys == pipeline.buffers.Keys
      && forall k | k in before ::
           States(pipeline.buffers[k]) == if k in done then EmptiedOperations(before[k]) else before[k]
    }

    method DrainNext(kind: string, ghost before: MathsState, ghost done: set<string>,
                     messages: seq<Message>, suffixes: seq<string>, ghost entries: seq<Entry>)
      returns (messages': seq<Message>, suffixes': seq<string>)
      requires pipeline.Valid() && Halfway(before, done) && kind in before && kind !in done
      requires Zips(messages, suffixes, entries)
      modifies pipeline.Owned()
      ensures pipeline.buffers == old(pipeline.buffers) && pipeline.Valid() && Halfway(before, done + {kind})
      ensures Zips(messages', suffixes', entries + EntriesOf(before[kind]))
    {
      hide States, MathsPipeline.OperationsOk, EntriesOf, GlobalBuffer.Valid, EmptiedOperations, Zips;
      hide MathsPipeline.Valid;
      pipeline.OwnsAll(kind);
      messages', suffixes' := DrainKind(kind, messages, suffixes, entries);
    }

    /** Goes over the given metrics, which are all there are. */
    method DrainKinds(keys: seq<string>, ghost before: MathsState)
      returns (messages: seq<Message>, suffixes: seq<string>, ghost entries: seq<Entry>)
      requires pipeline.Valid() && keys == Ordering.InOrder(before.Keys) && Halfway(before, {})
      modifies pipeline.Owned()
      ensures pipeline.buffers == old(pipeline.buffers) && pipeline.Valid() && Halfway(before, before.Keys)
      ensures entries == Entries(before, keys) && Zips(messages, suffixes, entries)
    {
      hide EntriesOf, Entries, GlobalBuffer.Valid, Ordering.Elements, MathsPipeline.Valid, Zips, Halfway;
      NoEntries(before);
      Ordering.ElementsEnds(before.Keys);
      assert keys[..0] == [] && keys[..|keys|] == keys;
      messages, suffixes, entries := [], [], [];
      ghost var done: set<string> := {};
      for i := 0 to |keys|
        invariant pipeline.buffers == old(pipeline.buffers) && pipeline.Valid()
        invariant done == Ordering.Elements(keys[..i]) && Halfway(before, done)
        invariant entries == Entries(before, keys[..i]) && Zips(messages, suffixes, entries)
      {
        var kind := keys[i];
        Ordering.ElementsStep(keys, i);
        messages, suffixes := DrainNext(kind, before, done, messages, suffixes, entries);
        EntriesByNext(before, keys, i);
        entries := entries + EntriesOf(before[kind]);
        done := done + {kind};
      }
    }

    /** Takes everything pending in the pipeline, metric by metric, operation by operation. */
    method DrainMaths() returns (messages: seq<Message>, suffixes: seq<string>, ghost entries: seq<Entry>)
      requires pipeline.Valid()
      modifies pipeline.Owned()
      ensures pipeline.buffers == old(pipeline.buffers) && pipeline.Valid()
      ensures pipeline.View() == EmptiedMaths(old(pipeline.View()))
      ensures entries == Pending(old(pipeline.View())) && Zips(messages, suffixes, entries)
    {
      hide Largest, States, MathsPipeline.OperationsOk, EntriesOf, Entries, GlobalBuffer.Valid, EmptiedOperations, Zips;
      ghost var before := pipeline.View();
      assert before.Keys == pipeline.buffers.Keys;
      messages, suffixes, entries := DrainKinds(Ordering.InOrder(pipeline.buffers.Keys), before);
    }

    // ---------- Saving ----------

    /** Writes messages to a file, one line each. Nothing to write leaves the file alone; a file that
        cannot be written loses the messages. */
    method SerializeMessages(messages: seq<Message>, filename: string, suffixes: seq<string>)
      returns (count: int)
      modifies disk
      ensures count == Written(|messages|, disk.writable(filename))
      ensures disk.files == SavedTo(old(disk.files), filename, count, FileText(messages, suffixes))
    {
      hide Messages.Serialize, FileText;
      if messages == [] {
        return 0;
      }
      if !disk.writable(filename) {
        return -1;
      }
      var text := "";
      for i := 0 to |messages|
        invariant disk.files == old(disk.files)
        invariant text + FileText(messages[i..], DropSuffixes(suffixes, i)) == FileText(messages, suffixes)
      {
        FileTextStep(messages, suffixes, i);
        var line := Messages.Serialize(messages[i]);
        if i < |suffixes| {
          line := line + " " + suffixes[i];
        }
        text := text + (line + "\n");
      }
      assert messages[|messages|..] == [];
      NoFileText(DropSuffixes(suffixes, |messages|));
      assert text + "" == text;
      disk.files := disk.files[filename := text];
      return |messages|;
    }

    // ---------- Routing ----------

    ghost predicate Valid()
      reads pipeline`buffers, pipeline.Owned(), buffer, buffer.client, buffer.buffers.Values
    {
      pipeline.buffer == buffer && pipeline.Valid()
    }

    ghost function View(): Proxy
      reads pipeline`buffers, pipeline.Owned(), buffer, buffer.client, buffer.buffers.Values
    {
      Proxy(buffer.View(), pipeline.View())
    }

    ghost function Config(): Settings {
      Settings(buffer.policy, buffer.client.link, if hasPipeline then pipeline.categories else [],
               pipeline.matches, pipeline.capacity)
    }

    /** The operations of the pipeline share nothing with the global buffer. */
    lemma PipelineApart()
      requires Valid()
      ensures pipeline.Owned() !! buffer.buffers.Values
      ensures buffer !in pipeline.Owned() && buffer.client !in pipeline.Owned()
    {
      forall k | k in pipeline.buffers
        ensures forall op | op in pipeline.buffers[k] :: op.buffer !in buffer.buffers.Values
      {
        pipeline.KindsApart(k);
      }
    }

    method GiveToBuffer(message: Message)
      requires Valid()
      modifies buffer, buffer.client, buffer.buffers.Values
      ensures Valid() && buffer.Grown()
      ensures View() == old(View()).(store := Store.Add(buffer.policy, buffer.client.link, old(View()).store, message))
    {
      hide GlobalBuffer.Valid, GlobalBuffer.View, Store.Add, MathsPipeline.OperationsOk, States, Added;
      PipelineApart();
      var _ := buffer.Add(message);
    }

    method GiveToPipeline(message: Message, name: string) returns (ok: bool)
      requires Valid()
      modifies pipeline`buffers, pipeline.Owned()
      ensures Valid() && pipeline.Grown()
      ensures ok <==> Wanted(pipeline.categories, pipeline.matches, message.kind).Some?
      ensures View() == old(View()).(maths :=
        AddMessage(pipeline.categories, pipeline.matches, pipeline.policy, old(View()).maths, message, name))
    {
      hide GlobalBuffer.Valid, GlobalBuffer.View, AddMessage, MathsPipeline.OperationsOk, States, Wanted;
      PipelineApart();
      ok := pipeline.Add(message, name);
    }

    /** Hands a message on; only what is no valid message is refused. */
    method RouteMessage(message: Option<Message>) returns (ok: bool)
      requires Valid()
      modifies pipeline`buffers, pipeline.Owned(), buffer, buffer.client, buffer.buffers.Values
      ensures Valid() && pipeline.Grown()
      ensures buffer.Grown()
      ensures ok <==> message.Some? && message.value.IsValid()
      ensures View() == if ok then Route(Config(), old(View()), message.value) else old(View())
    {
      hide Valid, View, Store.Add, AddMessage, Wanted;
      if message.None? || !message.value.IsValid() {
        return false;
      }
      var category := None;
      if hasPipeline {
        category := pipeline.IsWanted(message.value.kind);
      }
      NoneWanted(pipeline.matches, pipeline.policy, View().maths, message.value, "");
      if category.Some? {
        var _ := GiveToPipeline(message.value, "");
      } else {
        GiveToBuffer(message.value);
      }
      return true;
    }

    /** Hands on the message of one received line. */
    method RouteText(text: string) returns (ok: bool)
      requires Valid()
      modifies pipeline`buffers, pipeline.Owned(), buffer, buffer.client, buffer.buffers.Values
      ensures Valid() && pipeline.Grown()
      ensures buffer.Grown()
      ensures ok <==> CreateMessage(text).Some?
      ensures View() == RouteLine(Config(), old(View()), text)
    {
      hide Valid, View, Route, CreateMessage;
      CreatedIsValid(text);
      if text == "" {
        return false;
      }
      ok := RouteMessage(CreateMessage(text));
    }

    method SavePassThrough(file: string) returns (saved: int)
      requires Valid()
      modifies disk, buffer.buffers.Values
      ensures Valid()
      ensures var s := old(View()).store;
        && View() == old(View()).(store := Drained(s))
        && saved == Written(|Buffered(s)|, disk.writable(file))
        && disk.files == SavedTo(old(disk.files), file, saved, Payload(Buffered(s)))
    {
      hide GlobalBuffer.Valid, GlobalBuffer.View, MathsPipeline.OperationsOk, States, Buffered, Drained;
      hide Written, SavedTo, FileText, Payload;
      PipelineApart();
      var messages := buffer.GetAll([]);
      assert messages == Buffered(old(buffer.View()));
      saved := SerializeMessages(messages, file, []);
      PlainText(messages);
    }

    method SaveMaths(file: string) returns (saved: int)
      requires Valid()
      modifies disk, pipeline.Owned()
      ensures Valid()
      ensures var s := old(View()).maths;
        && View() == old(View()).(maths := EmptiedMaths(s))
        && saved == Written(|Pending(s)|, disk.writable(file))
        && disk.files == SavedTo(old(disk.files), file, saved, MathsText(Pending(s)))
    {
      hide GlobalBuffer.Valid, GlobalBuffer.View, MathsPipeline.OperationsOk, States, Pending, EmptiedMaths;
      hide FileText, MathsText;
      PipelineApart();
      var messages, suffixes, entries := DrainMaths();
      saved := SerializeMessages(messages, file, suffixes);
      SuffixedText(messages, suffixes, entries);
    }

    /** Writes everything pending to two files and forgets it. The result adds up what was written; a
        failure counts as -1 for the pass-through file and as 0 for the maths file. */
    method Serialize(passFile: string, mathsFile: string) returns (saved: int)
      requires Valid()
      modifies disk, pipeline.Owned(), buffer.buffers.Values
      ensures Valid()
      ensures var x := old(View());
        var entries := if hasPipeline then Pending(x.maths) else [];
        var passed := Written(|Buffered(x.store)|, disk.writable(passFile));
        var computed := Written(|entries|, disk.writable(mathsFile));
        && View() == Proxy(Drained(x.store), if hasPipeline then EmptiedMaths(x.maths) else x.maths)
        && saved == SaveResult(passed, computed)
        && disk.files == SavedTo(SavedTo(old(disk.files), passFile, passed, Payload(Buffered(x.store))),
                                 mathsFile, computed, MathsText(entries))
    {
      hide Valid, View, Buffered, Drained, EmptiedMaths, Pending, Payload, MathsText;
      saved := SavePassThrough(passFile);
      if hasPipeline {
        var computed := SaveMaths(mathsFile);
        if computed != -1 {
          saved := saved + computed;
        }
      }
    }

    // ---------- Loading ----------

    /** One line of a maths file: a message and the type of the computation it waits for. */
    method LoadMathLine(line: string) returns (ok: bool)
      requires Valid()
      modifies pipeline`buffers, pipeline.Owned()
      ensures Valid() && pipeline.Grown()
      ensures ok <==> Loads(Config(), line, true)
      ensures View() == LoadNext(Config(), old(View()), line, true)
    {
      hide Valid, View, AddMessage, CreateMessage, Wanted;
      var parts := Text.Split(line, ' ');
      if |parts| != 4 {
        return false;
      }
      PartFits(line);
      var text := line[..|line| - |parts[3]|];
      var message := CreateMessage(text);
      if message.None? {
        return false;
      }
      NoneWanted(pipeline.matches, pipeline.policy, View().maths, message.value, parts[3]);
      if hasPipeline {
        ok := GiveToPipeline(message.value, parts[3]);
      } else {
        ok := false;
      }
    }

    method LoadLineOf(line: string, math: bool) returns (ok: bool)
      requires Valid()
      modifies pipeline`buffers, pipeline.Owned(), buffer, buffer.client, buffer.buffers.Values
      ensures Valid() && pipeline.Grown()
      ensures buffer.Grown()
      ensures ok <==> Loads(Config(), line, math)
      ensures View() == LoadNext(Config(), old(View()), line, math)
    {
      hide Valid, View, LoadLine, RouteLine, CreateMessage, ReadEntry;
      if math {
        ok := LoadMathLine(line);
      } else {
        ok := RouteText(line);
      }
    }

    /** One turn of the reading loop; `good` tells whether the line fitted the line buffer. */
    method LoadSegment(segment: string, math: bool) returns (good: bool, loaded: nat)
      requires Valid()
      modifies pipeline`buffers, pipeline.Owned(), buffer, buffer.client, buffer.buffers.Values
      ensures Valid() && pipeline.Grown()
      ensures buffer.Grown()
      ensures good == (|segment| < MAX_MESSAGE_LENGTH)
      ensures loaded == Loaded(Config(), LineIn(segment), math)
      ensures View() == LoadAll(Config(), old(View()), LineIn(segment), math)
    {
      hide Valid, View, LoadAll, LoadNext, Loaded, Loads, Text.CString, Config;
      good, loaded := |segment| < MAX_MESSAGE_LENGTH, 0;
      var line := Text.CString(if good then segment else segment[..MAX_MESSAGE_LENGTH - 1]);
      LoadNothing(Config(), View(), math);
      if line != "" {
        LoadStep(Config(), View(), [], line, math);
        assert [] + [line] == [line];
        var ok := LoadLineOf(line, math);
        loaded := if ok then 1 else 0;
      }
    }

    /** Loads the lines of a file, given its text cut at the line breaks. */
    method LoadSegments(segments: seq<string>, math: bool) returns (loaded: nat)
      requires Valid()
      modifies pipeline`buffers, pipeline.Owned(), buffer, buffer.client, buffer.buffers.Values
      ensures Valid() && pipeline.Grown()
      ensures buffer.Grown()
      ensures loaded == Loaded(Config(), ReadFrom(segments), math)
      ensures View() == LoadAll(Config(), old(View()), ReadFrom(segments), math)
    {
      hide Valid, View, LoadAll, Loaded, ReadFrom, LineIn, Config, MathsPipeline.Owned;
      ghost var c, x, lines := Config(), View(), ReadFrom(segments);
      LoadNothing(c, x, math);
      ReadNone();
      ghost var read: seq<string> := [];
      loaded := 0;
      var good, i := true, 0;
      assert segments[0..] == segments && segments[|segments|..] == [];
      LinesUnits(lines);
      while good && i < |segments|
        invariant i <= |segments|
        invariant Valid() && pipeline.Grown()
        invariant buffer.Grown()
        invariant lines == if good then read + ReadFrom(segments[i..]) else read
        invariant loaded == Loaded(c, read, math)
        invariant View() == LoadAll(c, x, read, math)
      {
        ghost var next := LineIn(segments[i]);
        ReadStep(segments, i);
        LoadMore(c, x, read, segments[i], math);
        Joined(read, next, ReadFrom(segments[i + 1..]));
        LinesUnits(next);
        var count;
        good, count := LoadSegment(segments[i], math);
        loaded := loaded + count;
        read := read + next;
        i := i + 1;
      }
      LinesUnits(read);
    }

    /** Reads a save file line by line and removes it; -1 when there is none. */
    method LoadMessages(filename: string, math: bool) returns (loaded: int)
      requires Valid()
      modifies disk, pipeline`buffers, pipeline.Owned(), buffer, buffer.client, buffer.buffers.Values
      ensures Valid() && pipeline.Grown()
      ensures buffer.Grown()
      ensures disk.files == old(disk.files) - {filename}
      ensures var lines := if filename in old(disk.files) then LinesOf(old(disk.files)[filename]) else [];
        && loaded == (if filename in old(disk.files) then Loaded(Config(), lines, math) else -1)
        && View() == LoadAll(Config(), old(View()), lines, math)
    {
      hide Valid, View, LoadAll, Loaded, Config, ReadFrom;
      if filename !in disk.files {
        LoadNothing(Config(), View(), math);
        return -1;
      }
      loaded := LoadSegments(Text.Split(disk.files[filename], '\n'), math);
      disk.files := disk.files - {filename};
    }

    /** Reads both save files back; a missing file counts as -1. */
    method Load(passFile: string, mathsFile: string) returns (loaded: int)
      requires Valid()
      modifies disk, pipeline`buffers, pipeline.Owned(), buffer, buffer.client, buffer.buffers.Values
      ensures Valid()
      ensures disk.files == old(disk.files) - if hasPipeline then {passFile, mathsFile} else {passFile}
      ensures var left := old(disk.files) - {passFile};
        var pass := if passFile in old(disk.files) then LinesOf(old(disk.files)[passFile]) else [];
        var computed := if hasPipeline && mathsFile in left then LinesOf(left[mathsFile]) else [];
        && View() == LoadAll(Config(), LoadAll(Config(), old(View()), pass, false), computed, true)
        && loaded == LoadResult(passFile in old(disk.files), !hasPipeline || mathsFile in left,
                                Loaded(Config(), pass, false), Loaded(Config(), computed, true))
    {
      hide Valid, View, LoadAll, Loaded, LinesOf;
      loaded := LoadMessages(passFile, false);
      LoadNothing(Config(), View(), true);
      if hasPipeline {
        var more := LoadMessages(mathsFile, true);
        loaded := loaded + more;
      }
    }
  }
}
