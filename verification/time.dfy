/**
 Durations such as `3h27m21s`: numbers followed by a unit letter of either case, in any order.
 */
module Time {
  import opened Numbers
  import opened Wrappers

  datatype Unit = Hours | Minutes | Seconds

  function UnitOf(c: char): Option<Unit> {
    if c == 'h' || c == 'H' then Some(Hours)
    else if c == 'm' || c == 'M' then Some(Minutes)
    else if c == 's' || c == 'S' then Some(Seconds)
    else None
  }

  /** A text that is not a number counts as zero. */
  function ParseLong(s: string): ULong {
    var n := ParseULong(s);
    if n.None? then 0 else n.value
  }

  /** A number and its unit letter, as written. */
  datatype Segment = Segment(number: string, letter: char) {
    predicate Valid() {
      UnitOf(letter).Some? && NoUnit(number)
    }
  }

  function SecondsIn(s: Segment): nat {
    match UnitOf(s.letter)
    case Some(Hours) => ParseLong(s.number) * 3600
    case Some(Minutes) => ParseLong(s.number) * 60
    case Some(Seconds) => ParseLong(s.number)
    case None => 0
  }

  // ---------- Sums ----------

  function Sum<T>(f: T -> nat, xs: seq<T>): nat {
    if xs == [] then 0 else Sum(f, xs[..|xs| - 1]) + f(xs[|xs| - 1])
  }

  lemma SumStep<T>(f: T -> nat, xs: seq<T>, x: T)
    ensures Sum(f, xs + [x]) == Sum(f, xs) + f(x)
  {
    assert (xs + [x])[..|xs|] == xs;
  }

  lemma {:induction false} SumAppend<T>(f: T -> nat, xs: seq<T>, ys: seq<T>)
    ensures Sum(f, xs + ys) == Sum(f, xs) + Sum(f, ys)
  {
    if ys == [] {
      assert xs + ys == xs;
    } else {
      var n := |ys| - 1;
      assert (xs + ys)[..|xs + ys| - 1] == xs + ys[..n];
      SumAppend(f, xs, ys[..n]);
    }
  }

  lemma {:induction false} SumReordered<T>(f: T -> nat, xs: seq<T>, ys: seq<T>)
    requires multiset(xs) == multiset(ys)
    ensures Sum(f, xs) == Sum(f, ys)
  {
    if xs == [] {
      assert |multiset(ys)| == 0;
    } else {
      var n := |xs| - 1;
      assert xs[n] in multiset(ys);
      var i :| 0 <= i < |ys| && ys[i] == xs[n];
      var before, after := ys[..i], ys[i + 1..];
      assert ys == before + [ys[i]] + after;
      assert xs == xs[..n] + [xs[n]];
      assert multiset(xs[..n]) == multiset(xs) - multiset{xs[n]};
      assert multiset(before + after) == multiset(ys) - multiset{ys[i]};
      SumReordered(f, xs[..n], before + after);
      SumAppend(f, before, after);
      SumAppend(f, before + [ys[i]], after);
      SumStep(f, before, ys[i]);
    }
  }

  // ---------- Segments ----------

  predicate NoUnit(s: string) {
    forall i | 0 <= i < |s| :: UnitOf(s[i]).None?
  }

  predicate AllValid(segments: seq<Segment>) {
    forall i | 0 <= i < |segments| :: segments[i].Valid()
  }

  /** The same segments written with lower-case letters. */
  function Lowered(segments: seq<Segment>): seq<Segment> {
    if segments == [] then []
    else
      var last := segments[|segments| - 1];
      Lowered(segments[..|segments| - 1]) + [last.(letter := Lower(last.letter))]
  }

  function Lower(c: char): char {
    if c == 'H' then 'h' else if c == 'M' then 'm' else if c == 'S' then 's' else c
  }

  function Write(segments: seq<Segment>): string {
    if segments == [] then ""
    else Write(segments[..|segments| - 1]) + segments[|segments| - 1].number + [segments[|segments| - 1].letter]
  }

  /** The segments of a text, and what follows the last unit letter. */
  function Segments(s: string): (r: (seq<Segment>, string))
    ensures AllValid(r.0) && NoUnit(r.1)
  {
    if s == [] then ([], "")
    else
      var n := |s| - 1;
      var (done, buffer) := Segments(s[..n]);
      if UnitOf(s[n]).Some? then (done + [Segment(buffer, s[n])], "") else (done, buffer + [s[n]])
  }

  /** Nothing of the text is lost. */
  lemma {:induction false} SegmentsCover(s: string)
    ensures var (segments, rest) := Segments(s); Write(segments) + rest == s
  {
    if s == [] {
    } else {
      var n := |s| - 1;
      var (done, buffer) := Segments(s[..n]);
      SegmentsCover(s[..n]);
      assert s == s[..n] + [s[n]];
      if UnitOf(s[n]).Some? {
        var more := done + [Segment(buffer, s[n])];
        assert more[..|more| - 1] == done;
      }
    }
  }

  /** The number of seconds a text means; what follows the last unit letter is ignored. */
  function TimeOf(s: string): nat {
    Sum(SecondsIn, Segments(s).0)
  }

  lemma SegmentsStep(s: string, c: char)
    ensures var (done, buffer) := Segments(s);
      Segments(s + [c]) == if UnitOf(c).Some? then (done + [Segment(buffer, c)], "") else (done, buffer + [c])
  {
    assert (s + [c])[..|s|] == s;
  }

  lemma TimeStep(s: string, c: char)
    ensures TimeOf(s + [c]) == TimeOf(s) + SecondsIn(Segment(Segments(s).1, c))
  {
    SegmentsStep(s, c);
    SumStep(SecondsIn, Segments(s).0, Segment(Segments(s).1, c));
  }

  /** Arithmetic on `unsigned long`. */
  function Wrap(n: nat): ULong {
    n % (ULONG_MAX + 1)
  }

  lemma WrapSum(a: nat, b: nat)
    ensures Wrap(Wrap(a) + Wrap(b)) == Wrap(a + b)
  {
  }

  lemma WrapExact(n: nat)
    ensures Wrap(n) == n <==> n <= ULONG_MAX
  {
  }

  /** Every text, well formed or not, means the sum of its segments, in 64-bit arithmetic. */
  method ParseTime(sentence: string) returns (result: ULong)
    ensures result == Wrap(TimeOf(sentence))
  {
    hide Wrap, TimeOf, Segments;
    result := 0;
    var buffer := "";
    NoTime();
    for i := 0 to |sentence|
      invariant buffer == Segments(sentence[..i]).1
      invariant result == Wrap(TimeOf(sentence[..i]))
    {
      var character := sentence[i];
      var seconds := SecondsIn(Segment(buffer, character));
      SegmentsStep(sentence[..i], character);
      TimeStep(sentence[..i], character);
      WrapSum(TimeOf(sentence[..i]), seconds);
      assert sentence[..i + 1] == sentence[..i] + [character];
      if character == 'h' || character == 'H' {
        result := Wrap(result + Wrap(ParseLong(buffer) * 3600));
        buffer := "";
      } else if character == 'm' || character == 'M' {
        result := Wrap(result + Wrap(ParseLong(buffer) * 60));
        buffer := "";
      } else if character == 's' || character == 'S' {
        WrapExact(ParseLong(buffer));
        result := Wrap(result + ParseLong(buffer));
        buffer := "";
      } else {
        buffer := buffer + [character];
      }
    }
    assert sentence[..|sentence|] == sentence;
  }

  lemma NoTime()
    ensures TimeOf("") == 0 && Segments("") == ([], "") && Wrap(0) == 0
  {
  }

  // ---------- Laws ----------

  lemma {:induction false} SegmentsTail(s: string, tail: string)
    requires NoUnit(tail)
    ensures Segments(s + tail).0 == Segments(s).0
    ensures Segments(s + tail).1 == Segments(s).1 + tail
  {
    if tail == [] {
      assert s + tail == s;
    } else {
      var n := |tail| - 1;
      var t := s + tail[..n];
      SegmentsTail(s, tail[..n]);
      SegmentsStep(t, tail[n]);
      assert UnitOf(tail[n]).None?;
      var (done, buffer) := Segments(s);
      assert Segments(t + [tail[n]]) == (done, buffer + tail[..n] + [tail[n]]);
      assert s + tail == t + [tail[n]];
      assert buffer + tail == buffer + tail[..n] + [tail[n]];
    }
  }

  /** A text is cut into segments in one way only. */
  lemma {:induction false} SegmentsUnique(segments: seq<Segment>, rest: string)
    requires AllValid(segments) && NoUnit(rest)
    ensures Segments(Write(segments) + rest) == (segments, rest)
  {
    if segments == [] {
    } else {
      var n := |segments| - 1;
      var last := segments[n];
      assert last.Valid();
      SegmentsUnique(segments[..n], last.number);
      SegmentsStep(Write(segments[..n]) + last.number, last.letter);
      assert segments[..n] + [last] == segments;
    }
    assert Segments(Write(segments)) == (segments, "");
    SegmentsTail(Write(segments), rest);
    assert "" + rest == rest;
  }

  lemma TimeOfWritten(segments: seq<Segment>, rest: string)
    requires AllValid(segments) && NoUnit(rest)
    ensures TimeOf(Write(segments) + rest) == Sum(SecondsIn, segments)
  {
    SegmentsUnique(segments, rest);
  }

  lemma {:induction false} WriteAppend(a: seq<Segment>, b: seq<Segment>)
    ensures Write(a + b) == Write(a) + Write(b)
  {
    if b == [] {
      assert a + b == a;
    } else {
      var n := |b| - 1;
      assert (a + b)[..|a + b| - 1] == a + b[..n];
      WriteAppend(a, b[..n]);
    }
  }

  lemma NothingAfterUnit(s: string)
    requires s == "" || UnitOf(s[|s| - 1]).Some?
    ensures Segments(s).1 == "" && Write(Segments(s).0) == s
  {
    SegmentsCover(s);
    assert Write(Segments(s).0) + "" == Write(Segments(s).0);
  }

  /** Durations add up over concatenation once the first text ends in a unit. */
  lemma {:induction false} TimeAdditive(s: string, t: string)
    requires s == "" || UnitOf(s[|s| - 1]).Some?
    ensures TimeOf(s + t) == TimeOf(s) + TimeOf(t)
  {
    hide Segments, Write, Sum, SecondsIn;
    var a := Segments(s).0;
    var (b, rest) := Segments(t);
    NothingAfterUnit(s);
    SegmentsCover(t);
    WriteAppend(a, b);
    assert s + t == Write(a) + Write(b) + rest;
    TimeOfWritten(a + b, rest);
    SumAppend(SecondsIn, a, b);
  }

  /** So do the computed results, modulo 2^64. */
  lemma {:induction false} ResultsAdd(s: string, t: string)
    requires s == "" || UnitOf(s[|s| - 1]).Some?
    ensures Wrap(TimeOf(s + t)) == Wrap(Wrap(TimeOf(s)) + Wrap(TimeOf(t)))
  {
    hide Wrap, TimeOf;
    TimeAdditive(s, t);
    WrapSum(TimeOf(s), TimeOf(t));
  }

  lemma {:induction false} SumLowered(segments: seq<Segment>)
    ensures Sum(SecondsIn, Lowered(segments)) == Sum(SecondsIn, segments)
  {
    if segments == [] {
    } else {
      var n := |segments| - 1;
      var last := segments[n];
      SumLowered(segments[..n]);
      SumStep(SecondsIn, Lowered(segments[..n]), last.(letter := Lower(last.letter)));
    }
  }

  /** The order of the segments and the case of their letters do not matter. */
  lemma {:induction false} TimeReordered(a: seq<Segment>, b: seq<Segment>)
    requires AllValid(a) && AllValid(b)
    requires multiset(Lowered(a)) == multiset(Lowered(b))
    ensures TimeOf(Write(a)) == TimeOf(Write(b))
  {
    assert Write(a) + "" == Write(a) && Write(b) + "" == Write(b);
    TimeOfWritten(a, "");
    TimeOfWritten(b, "");
    SumReordered(SecondsIn, Lowered(a), Lowered(b));
    SumLowered(a);
    SumLowered(b);
  }

  lemma PrintedIsNumber(n: ULong)
    ensures NoUnit(PrintNat(n)) && ParseLong(PrintNat(n)) == n
  {
    hide PrintNat, ParseULong, NatOf;
    PrintNatParses(n);
    ULongRoundTrip(n);
    assert forall i | 0 <= i < |PrintNat(n)| :: IsDigit(PrintNat(n)[i]);
  }

  lemma ThreeSegments(a: Segment, b: Segment, c: Segment)
    requires a.Valid() && b.Valid() && c.Valid()
    ensures TimeOf(a.number + [a.letter] + b.number + [b.letter] + c.number + [c.letter])
         == SecondsIn(a) + SecondsIn(b) + SecondsIn(c)
  {
    assert [a, b, c][..2] == [a, b] && [a, b][..1] == [a] && [a][..0] == [];
    assert Write([a]) == a.number + [a.letter];
    assert Write([a, b]) == Write([a]) + b.number + [b.letter];
    var s := a.number + [a.letter] + b.number + [b.letter] + c.number + [c.letter];
    assert Write([a, b, c]) + "" == s;
    TimeOfWritten([a, b, c], "");
    SumThree(SecondsIn, a, b, c);
  }

  lemma SumThree<T>(f: T -> nat, x: T, y: T, z: T)
    ensures Sum(f, [x, y, z]) == f(x) + f(y) + f(z)
  {
    SumStep(f, [], x);
    SumStep(f, [x], y);
    SumStep(f, [x, y], z);
    assert [] + [x] == [x] && [x] + [y] == [x, y] && [x, y] + [z] == [x, y, z];
  }

  lemma WrittenTime(h: string, x: char, m: string, y: char, s: string, z: char)
    requires NoUnit(h) && NoUnit(m) && NoUnit(s)
    requires x in "hH" && y in "mM" && z in "sS"
    ensures TimeOf(h + [x] + m + [y] + s + [z]) == ParseLong(h) * 3600 + ParseLong(m) * 60 + ParseLong(s)
  {
    ThreeSegments(Segment(h, x), Segment(m, y), Segment(s, z));
  }

  /** `<h>h<m>m<s>s`, in letters of either case, means 3600h + 60m + s, and that is the result exactly when
      it fits 64 bits. */
  lemma {:induction false} PrintedTime(h: ULong, x: char, m: ULong, y: char, s: ULong, z: char)
    requires x in "hH" && y in "mM" && z in "sS"
    ensures var text := PrintNat(h) + [x] + PrintNat(m) + [y] + PrintNat(s) + [z];
      var seconds := 3600 * h + 60 * m + s;
      TimeOf(text) == seconds && (Wrap(TimeOf(text)) == seconds <==> seconds < 0x1_0000_0000_0000_0000)
  {
    hide Wrap, TimeOf, PrintNat, ParseLong;
    WrapExact(3600 * h + 60 * m + s);
    PrintedIsNumber(h);
    PrintedIsNumber(m);
    PrintedIsNumber(s);
    WrittenTime(PrintNat(h), x, PrintNat(m), y, PrintNat(s), z);
  }

  /** A number that cannot be read counts as zero, its unit notwithstanding. */
  lemma UnreadableIsIgnored(a: seq<Segment>, s: Segment, b: seq<Segment>, rest: string)
    requires AllValid(a) && s.Valid() && AllValid(b) && NoUnit(rest)
    requires ParseULong(s.number) == None
    ensures TimeOf(Write(a) + s.number + [s.letter] + Write(b) + rest) == TimeOf(Write(a) + Write(b) + rest)
  {
    hide Write, Segments, ParseULong;
    OneSegment(s);
    WriteAppend(a, [s]);
    WriteAppend(a + [s], b);
    WriteAppend(a, b);
    assert Write(a) + s.number + [s.letter] + Write(b) == Write(a + [s] + b) by {
      assert Write(a) + s.number + [s.letter] == Write(a) + (s.number + [s.letter]);
    }
    TimeOfWritten(a + [s] + b, rest);
    TimeOfWritten(a + b, rest);
    SumStep(SecondsIn, a, s);
    SumAppend(SecondsIn, a + [s], b);
    SumAppend(SecondsIn, a, b);
  }

  lemma OneSegment(s: Segment)
    ensures Write([s]) == s.number + [s.letter]
  {
    assert [s][..0] == [] && Write([]) == "";
  }

  /** A blank before a number makes it unreadable. */
  lemma BlankIsIgnored()
    ensures TimeOf("1h 30m") == 3600
  {
    hide Segments, Write;
    var hour, half := Segment("1", 'h'), Segment(" 30", 'm');
    assert ParseULong(" 30") == None;
    assert ParseULong("1") == Some(1) by {
      assert PrintNat(1) == "" + ['1'];
      ULongRoundTrip(1);
    }
    OneSegment(hour);
    OneSegment(half);
    NoSegments();
    UnreadableIsIgnored([hour], half, [], "");
    assert Write([hour]) + " 30" + ['m'] + Write([]) + "" == "1h 30m";
    TimeOfWritten([hour], "");
    assert Write([hour]) + Write([]) + "" == Write([hour]) + "";
    SumStep(SecondsIn, [], hour);
    assert [] + [hour] == [hour];
  }

  lemma NoSegments()
    ensures Write([]) == ""
  {
  }
}
