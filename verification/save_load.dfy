/**
 The save files: the text pending messages are written to, how it is read again, and what comes back.
 */
module SaveLoad {
  import opened Wrappers
  import opened Messages
  import opened Queues
  import opened Clients
  import opened Store
  import opened Delivery
  import opened Pipelines
  import Ordering
  import Text

  const MAX_MESSAGE_LENGTH: nat := 2048

  // ---------- Lines of a file ----------

  /** The line read from a piece of text up to a line break, nothing when it is empty. */
  function LineIn(segment: string): seq<string> {
    var fits := |segment| < MAX_MESSAGE_LENGTH;
    var line := Text.CString(if fits then segment else segment[..MAX_MESSAGE_LENGTH - 1]);
    if line == "" then [] else [line]
  }

  /** The non-empty lines a file yields, given its text cut at the line breaks. A line that does not fit
      the line buffer is cut short and ends the reading. */
  function ReadFrom(segments: seq<string>): seq<string> {
    if segments == [] then []
    else LineIn(segments[0]) + if |segments[0]| < MAX_MESSAGE_LENGTH then ReadFrom(segments[1..]) else []
  }

  function LinesOf(text: string): seq<string> {
    ReadFrom(Text.Split(text, '\n'))
  }

  /** A line that is read as it was written. */
  predicate Readable(line: string) {
    line != "" && '\n' !in line && '\0' !in line && |line| < MAX_MESSAGE_LENGTH
  }

  lemma ReadOne(line: string, rest: string)
    requires Readable(line)
    ensures LinesOf(line + "\n" + rest) == [line] + LinesOf(rest)
  {
    Text.SplitFirst(line, rest, '\n');
    Text.CStringWhole(line);
    assert line + "\n" + rest == line + ['\n'] + rest;
    assert ([line] + Text.Split(rest, '\n'))[1..] == Text.Split(rest, '\n');
  }

  lemma ReadNothing()
    ensures LinesOf("") == []
  {
    assert Text.Split("", '\n') == [""];
    assert [""][1..] == [];
  }

  /** A line of up to 2047 characters is read whole. */
  lemma LineLimit(line: string, rest: string)
    requires line != "" && '\n' !in line && '\0' !in line && |line| <= 2047
    ensures LinesOf(line + "\n" + rest) == [line] + LinesOf(rest)
  {
    hide LinesOf;
    ReadOne(line, rest);
  }

  /** Of a longer one the first 2047 are read, and nothing after it. */
  lemma OverlongLine(line: string, rest: string)
    requires '\n' !in line && '\0' !in line && |line| > 2047
    ensures LinesOf(line + "\n" + rest) == [line[..2047]]
  {
    Text.SplitFirst(line, rest, '\n');
    Text.CStringWhole(line[..2047]);
    assert line + "\n" + rest == line + ['\n'] + rest;
    assert line[..2047] != "";
  }

  lemma EmptyLine(rest: string)
    ensures LinesOf("\n" + rest) == LinesOf(rest)
  {
    hide Text.Split;
    Text.SplitFirst("", rest, '\n');
    assert "" + ['\n'] + rest == "\n" + rest;
    ReadsLine("", rest);
  }

  /** The last line needs no line break. */
  lemma LastLine(line: string)
    requires Readable(line)
    ensures LinesOf(line) == [line]
  {
    hide Text.Split;
    Text.SplitAtom(line, '\n');
    Text.CStringWhole(line);
    assert [line][1..] == [] && ReadFrom([]) == [];
    assert LineIn(line) == [line];
  }

  /** A line ends at its first null character. */
  lemma NullInLine(line: string, cut: string, rest: string)
    requires Readable(line) && '\n' !in cut && |line| + 1 + |cut| <= 2047
    ensures LinesOf(line + "\0" + cut + "\n" + rest) == [line] + LinesOf(rest)
  {
    hide Text.Split, Text.CString;
    var longer := line + "\0" + cut;
    Text.SplitFirst(longer, rest, '\n');
    assert longer + ['\n'] + rest == line + "\0" + cut + "\n" + rest;
    Text.CStringCuts(line, cut);
    ReadsLine(longer, rest);
  }

  lemma ReadsLine(line: string, rest: string)
    requires |line| < MAX_MESSAGE_LENGTH
    ensures ReadFrom([line] + Text.Split(rest, '\n')) == LineIn(line) + LinesOf(rest)
  {
    assert ([line] + Text.Split(rest, '\n'))[1..] == Text.Split(rest, '\n');
  }

  // ---------- Pass-through messages ----------

  /** A message whose line survives the file. */
  predicate Storable(m: Message) {
    Portable(m) && Readable(Serialize(m))
  }

  function Lines(ms: seq<Message>): (r: seq<string>)
    ensures |r| == |ms| && forall i | 0 <= i < |r| :: r[i] == Serialize(ms[i])
  {
    seq(|ms|, i requires 0 <= i < |ms| => Serialize(ms[i]))
  }

  lemma {:induction false} PassThroughLines(ms: seq<Message>)
    requires forall m | m in ms :: Readable(Serialize(m))
    ensures LinesOf(Payload(ms)) == Lines(ms)
  {
    hide LinesOf, Serialize, Readable, Lines;
    if ms == [] {
      ReadNothing();
    } else {
      assert Readable(Serialize(ms[0]));
      PassThroughLines(ms[1..]);
      ReadFirst(ms[0], Payload(ms[1..]));
      assert Lines(ms) == [Serialize(ms[0])] + Lines(ms[1..]);
    }
  }

  lemma ReadFirst(m: Message, rest: string)
    requires Readable(Serialize(m))
    ensures LinesOf(Serialize(m) + "\n" + rest) == [Serialize(m)] + LinesOf(rest)
  {
    hide LinesOf, Serialize;
    ReadOne(Serialize(m), rest);
  }

  /** What the router needs to know: the policy of the global buffer, its link, and the maths settings;
      no categories when there is no pipeline. */
  datatype Settings = Settings(
    policy: Policy,
    link: Link,
    categories: seq<Category>,
    matches: Matches,
    mathsCapacity: Capacity)
  {
    function MathsPolicy(): Policy {
      Policy(mathsCapacity, false)
    }
  }

  datatype Proxy = Proxy(store: State, maths: MathsState)

  predicate IsWanted(c: Settings, kind: string) {
    Wanted(c.categories, c.matches, kind).Some?
  }

  /** A valid message goes to the maths pipeline when it is wanted there, else to the global buffer. */
  function Route(c: Settings, x: Proxy, m: Message): Proxy {
    if IsWanted(c, m.kind) then x.(maths := AddMessage(c.categories, c.matches, c.MathsPolicy(), x.maths, m, ""))
    else x.(store := Add(c.policy, c.link, x.store, m))
  }

  function RouteLine(c: Settings, x: Proxy, line: string): Proxy {
    var m := CreateMessage(line);
    if m.None? then x else Route(c, x, m.value)
  }

  function RouteLines(c: Settings, x: Proxy, lines: seq<string>): Proxy {
    if lines == [] then x
    else RouteLine(c, RouteLines(c, x, lines[..|lines| - 1]), lines[|lines| - 1])
  }

  /** The messages no category wants. */
  function NotWanted(c: Settings, ms: seq<Message>): seq<Message> {
    if ms == [] then []
    else
      var last := ms[|ms| - 1];
      NotWanted(c, ms[..|ms| - 1]) + if IsWanted(c, last.kind) then [] else [last]
  }

  function GiveToMaths(c: Settings, s: MathsState, m: Message): MathsState {
    AddMessage(c.categories, c.matches, c.MathsPolicy(), s, m, "")
  }

  function GivenToMaths(c: Settings, s: MathsState, ms: seq<Message>): MathsState {
    if ms == [] then s else GiveToMaths(c, GivenToMaths(c, s, ms[..|ms| - 1]), ms[|ms| - 1])
  }

  /** Loaded lines are sorted out again: those messages a category wants go to all its operations, and
      only the others reach the global buffer. */
  lemma {:induction false} LinesAreRouted(c: Settings, x: Proxy, ms: seq<Message>)
    requires forall m | m in ms :: Storable(m)
    ensures RouteLines(c, x, Lines(ms))
         == Proxy(AddAll(c.policy, c.link, x.store, NotWanted(c, ms)), GivenToMaths(c, x.maths, ms))
  {
    hide Add, AddAll, Serialize, CreateMessage, Storable, AddMessage, NotWanted, Route, IsWanted;
    if ms == [] {
      AddAllNone(c.policy, c.link, x.store);
      NoneNotWanted(c);
    } else {
      var n := |ms| - 1;
      LinesAreRouted(c, x, ms[..n]);
      assert Lines(ms)[..n] == Lines(ms[..n]);
      assert ms[n] in ms;
      StorableReadsBack(ms[n]);
      RoutedApart(c, RouteLines(c, x, Lines(ms[..n])), ms[n]);
      NotWantedStep(c, ms);
      AddAllStep(c.policy, c.link, x.store, NotWanted(c, ms[..n]), ms[n]);
    }
  }

  lemma NoneNotWanted(c: Settings)
    ensures NotWanted(c, []) == []
  {
  }

  lemma NotWantedStep(c: Settings, ms: seq<Message>)
    requires ms != []
    ensures var n := |ms| - 1;
      NotWanted(c, ms)
      == if IsWanted(c, ms[n].kind) then NotWanted(c, ms[..n]) else NotWanted(c, ms[..n]) + [ms[n]]
  {
    hide IsWanted;
  }

  lemma StorableReadsBack(m: Message)
    requires Storable(m)
    ensures CreateMessage(Serialize(m)) == Some(m)
  {
    LineRoundTrip(m);
  }

  lemma RoutedApart(c: Settings, x: Proxy, m: Message)
    ensures Route(c, x, m)
         == Proxy(if IsWanted(c, m.kind) then x.store else Add(c.policy, c.link, x.store, m),
                  GiveToMaths(c, x.maths, m))
  {
    hide Add;
  }

  // ---------- What is not wanted ----------

  function KeysLeft(c: Settings, keys: seq<string>): (r: seq<string>)
    ensures forall k :: k in r <==> k in keys && !IsWanted(c, k)
    ensures Ordering.NoRepeats(keys) ==> Ordering.NoRepeats(r)
  {
    if keys == [] then []
    else
      var n := |keys| - 1;
      KeysLeft(c, keys[..n]) + if IsWanted(c, keys[n]) then [] else [keys[n]]
  }

  lemma {:induction false} NotWantedOfKind(c: Settings, kind: string, items: seq<Message>)
    requires forall m | m in items :: m.kind == kind
    ensures NotWanted(c, items) == if IsWanted(c, kind) then [] else items
  {
    hide IsWanted;
    if items == [] {
    } else {
      var n := |items| - 1;
      NotWantedOfKind(c, kind, items[..n]);
      assert items[n] in items && items == items[..n] + [items[n]];
    }
  }

  lemma {:induction false} NotWantedAppend(c: Settings, a: seq<Message>, b: seq<Message>)
    ensures NotWanted(c, a + b) == NotWanted(c, a) + NotWanted(c, b)
  {
    hide IsWanted;
    if b == [] {
      assert a + b == a;
    } else {
      var n := |b| - 1;
      NotWantedAppend(c, a, b[..n]);
      assert (a + b)[..|a + b| - 1] == a + b[..n];
      var last := if IsWanted(c, b[n].kind) then [] else [b[n]];
      assert NotWanted(c, a + b) == NotWanted(c, a) + NotWanted(c, b[..n]) + last;
    }
  }

  lemma {:induction false} NotWantedContents(c: Settings, s: State, keys: seq<string>)
    requires WellFormed(c.policy, s)
    requires forall k | k in keys :: k in s.queues
    ensures NotWanted(c, Contents(s.queues, keys)) == Contents(s.queues, KeysLeft(c, keys))
  {
    hide IsWanted, NotWanted, WellFormed, KeysLeft;
    if keys == [] {
      NoneNotWanted(c);
      NoKeysLeft(c);
    } else {
      var n := |keys| - 1;
      var front, k := keys[..n], keys[n];
      NotWantedContents(c, s, front);
      NotWantedAppend(c, Contents(s.queues, front), s.queues[k].items);
      OfOwnKind(c.policy, s, k);
      NotWantedOfKind(c, k, s.queues[k].items);
      KeysLeftStep(c, keys);
      ContentsMore(s.queues, KeysLeft(c, front), k);
    }
  }

  lemma OfOwnKind(p: Policy, s: State, kind: string)
    requires WellFormed(p, s) && kind in s.queues
    ensures forall m | m in s.queues[kind].items :: m.kind == kind
  {
    assert QueueOk(p, kind, s.queues[kind]);
  }

  lemma NoKeysLeft(c: Settings)
    ensures KeysLeft(c, []) == []
  {
  }

  lemma KeysLeftStep(c: Settings, keys: seq<string>)
    requires keys != []
    ensures var n := |keys| - 1;
      KeysLeft(c, keys) == if IsWanted(c, keys[n]) then KeysLeft(c, keys[..n]) else KeysLeft(c, keys[..n]) + [keys[n]]
  {
    hide IsWanted;
  }

  lemma ContentsMore(queues: map<string, Queue>, keys: seq<string>, k: string)
    requires k in queues && forall j | j in keys :: j in queues
    ensures Contents(queues, keys + [k]) == Contents(queues, keys) + queues[k].items
  {
    assert (keys + [k])[..|keys|] == keys;
  }

  // ---------- What comes back ----------

  /** One metric after saving and loading: a sub-buffer below capacity is as it was, and a full one is
      as it was or has been delivered whole. */
  ghost predicate ComesBack(p: Policy, s: State, base: State, t: State, kind: string)
    requires base.sent <= t.sent
  {
    var before, after := QueueOf(s, kind).items, QueueOf(t, kind).items;
    var delivered := Select(OfKind(kind), t.sent[|base.sent|..]);
    (after == before && delivered == [])
    || (|before| == p.capacity && after == [] && delivered == before)
  }

  /** What loading makes of the saved pass-through messages, metric by metric. */
  lemma {:induction false} PassThroughSettles(c: Settings, s: State, x: Proxy)
    requires WellFormed(c.policy, s) && x.store.queues == map[]
    requires forall m | m in Buffered(s) :: Storable(m)
    ensures var y := RouteLines(c, x, LinesOf(Payload(Buffered(s))));
      && y.maths == GivenToMaths(c, x.maths, Buffered(s))
      && Settled(c.policy, s, x.store, y.store, KeysLeft(c, Ordering.InOrder(s.queues.Keys)))
  {
    hide AddAll, Select, LinesOf, RouteLines, Lines, IsWanted, NotWanted, GivenToMaths, Settled;
    var keys := Ordering.InOrder(s.queues.Keys);
    PassThroughLines(Buffered(s));
    LinesAreRouted(c, x, Buffered(s));
    BufferedIsContents(s);
    NotWantedContents(c, s, keys);
    SettleAll(c.policy, c.link, s, x.store, KeysLeft(c, keys));
  }

  /** Pass-through messages saved by one proxy and loaded by a fresh one: nothing is dropped, and every
      sub-buffer comes back in order, unless it was full and loading it flushed it, exactly when no
      category wants any of the messages. The results of a computation carry the name of its metric,
      so they are wanted: once saved, they are computed again. */
  lemma {:induction false} PassThroughComesBack(c: Settings, s: State, x: Proxy)
    requires WellFormed(c.policy, s) && x.store.queues == map[]
    requires forall m | m in Buffered(s) :: Storable(m)
    ensures var y := RouteLines(c, x, LinesOf(Payload(Buffered(s))));
      && y.store.dropped == x.store.dropped && x.store.sent <= y.store.sent
      && ((forall kind :: ComesBack(c.policy, s, x.store, y.store, kind))
          <==> (forall m | m in Buffered(s) :: !IsWanted(c, m.kind)))
  {
    hide Select, LinesOf, RouteLines, IsWanted, Buffered, Settled, ComesBack;
    PassThroughSettles(c, s, x);
    var keys := KeysLeft(c, Ordering.InOrder(s.queues.Keys));
    var t := RouteLines(c, x, LinesOf(Payload(Buffered(s)))).store;
    SettledParts(c.policy, s, x.store, t, keys);
    if forall m | m in Buffered(s) :: !IsWanted(c, m.kind) {
      forall kind ensures ComesBack(c.policy, s, x.store, t, kind) {
        KindComesBack(c, s, x, t, keys, kind);
        if QueueOf(s, kind).items != [] {
          PendingKind(c.policy, s, kind);
        }
      }
    } else {
      var m :| m in Buffered(s) && IsWanted(c, m.kind);
      KindComesBack(c, s, x, t, keys, m.kind);
      BufferedCount(c.policy, s, m);
      assert m in multiset(Buffered(s));
    }
  }

  lemma SettledParts(p: Policy, s: State, base: State, t: State, keys: seq<string>)
    requires Settled(p, s, base, t, keys)
    ensures t.dropped == base.dropped && base.sent <= t.sent
  {
  }

  lemma PendingKind(p: Policy, s: State, kind: string)
    requires WellFormed(p, s) && QueueOf(s, kind).items != []
    ensures exists m :: m in Buffered(s) && m.kind == kind
  {
    hide Buffered;
    var m := QueueOf(s, kind).items[0];
    assert QueueOk(p, kind, QueueOf(s, kind));
    assert m in QueueOf(s, kind).items;
    BufferedCount(p, s, m);
    assert m in multiset(Buffered(s));
  }

  lemma KindComesBack(c: Settings, s: State, x: Proxy, t: State, keys: seq<string>, kind: string)
    requires WellFormed(c.policy, s) && x.store.queues == map[]
    requires keys == KeysLeft(c, Ordering.InOrder(s.queues.Keys))
    requires Settled(c.policy, s, x.store, t, keys)
    ensures ComesBack(c.policy, s, x.store, t, kind) <==> !IsWanted(c, kind) || QueueOf(s, kind).items == []
  {
    hide Select, IsWanted, KeysLeft;
    assert SettledFor(c.policy, s, x.store, t, keys, kind);
  }
}
