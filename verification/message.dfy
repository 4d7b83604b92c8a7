/**
 Graphite plain-text messages: `type value timestamp`, one per line.
 */
module Messages {
  import opened Wrappers
  import opened Numbers
  import Text

  /** One sample of a metric; `kind` is the message type, the name of the metric. */
  datatype Message = Message(kind: string, value: real, timestamp: ULong) {
    predicate IsValid() {
      kind != ""
    }
  }

  /** The text Graphite expects; empty for an invalid message. */
  function Serialize(m: Message): string {
    if m.IsValid() then m.kind + " " + PrintValue(m.value) + " " + PrintNat(m.timestamp) else ""
  }

  function CreateMessage(input: string): Option<Message> {
    var parts := Text.Split(Text.Trim(input), ' ');
    if |parts| != 3 || parts[0] == "" || parts[1] == "" || parts[2] == "" then None
    else
      var value := ParseValue(parts[1]);
      var time := ParseULong(parts[2]);
      if value.None? || time.None? then None else Some(Message(parts[0], value.value, time.value))
  }

  // ---------- One line ----------

  /** Metric names a line can carry: some text without blanks, not starting with other white space. */
  predicate Nameable(kind: string) {
    kind != "" && ' ' !in kind && !Text.IsSpace(kind[0])
  }

  lemma LineIsTight(m: Message)
    requires Nameable(m.kind)
    ensures Serialize(m) != "" && Text.Tight(Serialize(m))
  {
    var time := PrintNat(m.timestamp);
    PrintNatParses(m.timestamp);
    DigitsAreClean(time);
    var line := Serialize(m);
    assert line[0] == m.kind[0] && line[|line| - 1] == time[|time| - 1];
  }

  /** A printed line splits back into its three fields, whatever white space surrounds it. */
  lemma LineFields(before: string, m: Message, after: string)
    requires Text.AllSpaces(before) && Text.AllSpaces(after)
    requires Nameable(m.kind)
    ensures Text.Split(Text.Trim(before + Serialize(m) + after), ' ')
         == [m.kind, PrintValue(m.value), PrintNat(m.timestamp)]
  {
    var value, time := PrintValue(m.value), PrintNat(m.timestamp);
    LineIsTight(m);
    Text.TrimSandwich(before, Serialize(m), after);
    ValueIsClean(m.value);
    PrintNatParses(m.timestamp);
    DigitsAreClean(time);
    Text.SplitThree(m.kind, value, time, ' ');
  }

  /** Under any surrounding white space a printed line reads back as the message, its value rounded
      to six decimals. */
  lemma LineReadsBack(before: string, m: Message, after: string)
    requires Text.AllSpaces(before) && Text.AllSpaces(after)
    requires Nameable(m.kind)
    ensures CreateMessage(before + Serialize(m) + after) == Some(m.(value := Rounded(m.value)))
  {
    LineFields(before, m, after);
    ValueIsClean(m.value);
    PrintNatParses(m.timestamp);
    ValueRoundTrip(m.value);
    ULongRoundTrip(m.timestamp);
  }

  /** Every message that was read has a name a line can carry. */
  lemma ReadIsNameable(input: string)
    ensures CreateMessage(input).Some? ==> Nameable(CreateMessage(input).value.kind)
  {
    var line := Text.Trim(input);
    var parts := Text.Split(line, ' ');
    if CreateMessage(input).Some? {
      Text.SplitJoins(line, ' ');
      Text.TrimStart(input);
      assert line[0] == parts[0][0];
      assert parts[0] in parts;
    }
  }

  /** The line of a message reads back as that message exactly when its name can be carried and its
      value has no more than six decimals. */
  lemma LineRoundTrip(m: Message)
    ensures CreateMessage(Serialize(m)) == Some(m) <==> Nameable(m.kind) && SixDecimals(m.value)
  {
    if Nameable(m.kind) {
      assert "" + Serialize(m) + "" == Serialize(m);
      LineReadsBack("", m, "");
      RoundedExact(m.value);
    } else {
      ReadIsNameable(Serialize(m));
    }
  }

  // ---------- Many lines ----------

  /** The messages of those lines that hold one, in order. */
  function ReadAll(lines: seq<string>): seq<Message> {
    if lines == [] then []
    else
      var m := CreateMessage(lines[0]);
      (if m.Some? then [m.value] else []) + ReadAll(lines[1..])
  }

  /** Appends the messages of a received text to `container`. The result tells whether the container
      holds anything at the end, which need not come from this text. */
  method CreateMessages(input: string, container: seq<Message>) returns (ok: bool, result: seq<Message>)
    ensures result == container + ReadAll(Text.Split(input, '\n'))
    ensures ok <==> result != []
  {
    var parts := Text.Split(input, '\n');
    result := container;
    for i := 0 to |parts|
      invariant result + ReadAll(parts[i..]) == container + ReadAll(parts)
    {
      assert parts[i..][1..] == parts[i + 1..];
      var m := CreateMessage(parts[i]);
      if m.Some? {
        result := result + [m.value];
      }
    }
    ok := result != [];
  }

  lemma ReadAllFirst(line: string, rest: seq<string>)
    ensures ReadAll([line] + rest)
         == if CreateMessage(line).Some? then [CreateMessage(line).value] + ReadAll(rest) else ReadAll(rest)
    ensures ReadAll([]) == []
  {
    hide CreateMessage;
    assert ([line] + rest)[1..] == rest;
  }

  lemma {:induction false} ReadAllAppend(a: seq<string>, b: seq<string>)
    ensures ReadAll(a + b) == ReadAll(a) + ReadAll(b)
  {
    hide CreateMessage, ReadAll;
    if a == [] {
      ReadAllFirst("", []);
      assert a + b == b;
    } else {
      assert a == [a[0]] + a[1..] && a + b == [a[0]] + (a[1..] + b);
      ReadAllAppend(a[1..], b);
      ReadAllFirst(a[0], a[1..]);
      ReadAllFirst(a[0], a[1..] + b);
    }
  }

  /** A text is read line by line, whether or not its last line ends in a line break. */
  lemma TextsAreReadInTurn(a: string, b: string)
    ensures ReadAll(Text.Split(a + "\n" + b, '\n')) == ReadAll(Text.Split(a, '\n')) + ReadAll(Text.Split(b, '\n'))
    ensures '\n' !in a ==>
      ReadAll(Text.Split(a, '\n')) == if CreateMessage(a).Some? then [CreateMessage(a).value] else []
  {
    hide Text.Split, CreateMessage;
    Text.SplitAppend(a, b, '\n');
    ReadAllAppend(Text.Split(a, '\n'), Text.Split(b, '\n'));
    if '\n' !in a {
      Text.SplitAtom(a, '\n');
      assert [a][1..] == [];
    }
  }

  /** The result is documented to tell whether a message could be created. It does so exactly when the
      container was empty before or a message was created. */
  lemma CreatesAsDocumented(input: string, container: seq<Message>)
    ensures var read := ReadAll(Text.Split(input, '\n'));
      ((container + read != []) <==> (read != [])) <==> (container == [] || read != [])
  {
  }

  /** For an empty text and a container that holds something, the result is true and nothing is created. */
  lemma NothingCreated(m: Message)
    ensures ReadAll(Text.Split("", '\n')) == [] && [m] + ReadAll(Text.Split("", '\n')) != []
  {
    assert Text.Split("", '\n') == [""];
    assert Text.Trim("") == "" && Text.Split("", ' ') == [""];
  }

  /** A message with seven decimals: read from a line, its own line reads back as another one. */
  lemma SmallValueIsLost()
    ensures var m := Message("a", 0.0000001, 0);
      && CreateMessage("a 0.0000001 0") == Some(m)
      && CreateMessage(Serialize(m)) == Some(Message("a", 0.0, 0)) != Some(m)
  {
    hide Text.Split, Text.Trim, Serialize, PrintValue, ParseValue, ParseULong;
    var m := Message("a", 0.0000001, 0);
    SmallLine();
    SmallValue();
    LineReadsBack("", m, "");
    assert "" + Serialize(m) + "" == Serialize(m);
    assert Micros(0.0000001) == 0;
  }

  lemma SmallLine()
    ensures Text.Split(Text.Trim("a 0.0000001 0"), ' ') == ["a", "0.0000001", "0"]
  {
    Text.TrimSandwich("", "a 0.0000001 0", "");
    assert "" + "a 0.0000001 0" + "" == "a 0.0000001 0";
    Text.SplitThree("a", "0.0000001", "0", ' ');
    assert "a" + [' '] + "0.0000001" + [' '] + "0" == "a 0.0000001 0";
  }

  /** What the client writes to its socket: each message on a line of its own. */
  function Payload(messages: seq<Message>): string {
    if messages == [] then "" else Serialize(messages[0]) + "\n" + Payload(messages[1..])
  }

  /** A message that survives a line-based format unchanged. */
  predicate Portable(m: Message) {
    Nameable(m.kind) && '\n' !in m.kind && SixDecimals(m.value)
  }

  lemma LineHasNoBreak(m: Message)
    requires '\n' !in m.kind
    ensures '\n' !in Serialize(m)
  {
    ValueIsClean(m.value);
    PrintNatParses(m.timestamp);
    DigitsAreClean(PrintNat(m.timestamp));
  }

  /** What a client writes is parsed back by `CreateMessages` into the messages it was given. */
  lemma {:induction false} WireRoundTrip(messages: seq<Message>)
    requires forall m | m in messages :: Portable(m)
    ensures ReadAll(Text.Split(Payload(messages), '\n')) == messages
  {
    if messages == [] {
      assert Text.Split("", '\n') == [""];
      assert Text.Trim("") == "" && Text.Split("", ' ') == [""];
    } else {
      var line, rest := Serialize(messages[0]), Payload(messages[1..]);
      WireRoundTrip(messages[1..]);
      assert messages[0] in messages;
      LineHasNoBreak(messages[0]);
      LineRoundTrip(messages[0]);
      Text.SplitFirst(line, rest, '\n');
      assert Payload(messages) == line + ['\n'] + rest;
      assert ([line] + Text.Split(rest, '\n'))[1..] == Text.Split(rest, '\n');
    }
  }

  // ---------- Any line ----------

  /** Three fields with single blanks between them are read as name, value and time, whatever white
      space surrounds them. */
  lemma FieldsAreRead(before: string, kind: string, value: string, time: string, after: string)
    requires forall c | c in before + after :: c in " \t\n\r\U{000B}\U{000C}"
    requires Nameable(kind) && value != "" && ' ' !in value
    requires time != "" && ' ' !in time && !Text.IsSpace(time[|time| - 1])
    ensures CreateMessage(before + kind + " " + value + " " + time + after)
         == if ParseValue(value).Some? && ParseULong(time).Some?
            then Some(Message(kind, ParseValue(value).value, ParseULong(time).value)) else None
  {
    hide ParseValue, ParseULong, Text.Split, Text.Trim;
    var line := kind + " " + value + " " + time;
    assert forall c | c in before :: c in before + after;
    assert forall c | c in after :: c in before + after;
    assert line[0] == kind[0] && line[|line| - 1] == time[|time| - 1];
    assert before + kind + " " + value + " " + time + after == before + line + after;
    Text.TrimSandwich(before, line, after);
    Text.SplitThree(kind, value, time, ' ');
  }

  /** The common case, a whole number: `load 10 1400000000`. */
  lemma WholeValuesAreRead(kind: string, n: nat, time: ULong)
    requires Nameable(kind)
    ensures CreateMessage(kind + " " + PrintNat(n) + " " + PrintNat(time)) == Some(Message(kind, n as real, time))
  {
    hide PrintNat, ParseValue, ParseULong, CreateMessage;
    var value, stamp := PrintNat(n), PrintNat(time);
    PrintNatParses(n);
    PrintNatParses(time);
    DigitsAreClean(value);
    DigitsAreClean(stamp);
    WholeNumbersAreRead(n);
    ULongRoundTrip(time);
    assert "" + kind + " " + value + " " + stamp + "" == kind + " " + value + " " + stamp;
    FieldsAreRead("", kind, value, stamp, "");
  }

  /** A line with fewer or more fields, or an empty one, holds no message. */
  lemma OtherLinesAreRefused(line: string)
    ensures var fields := Text.Split(Text.Trim(line), ' ');
      |fields| != 3 || "" in fields ==> CreateMessage(line) == None
  {
  }
}
