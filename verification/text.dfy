/**
 The string primitives the text formats are built from: trimming and splitting as
 `boost::trim_copy` and `boost::split` do them (the latter without token compression).
 */
module Text {

  /** The characters `std::isspace` accepts in the classic locale. */
  predicate IsSpace(c: char) {
    c == ' ' || c == '\t' || c == '\n' || c == '\r' || c == '\U{000B}' || c == '\U{000C}'
  }

  predicate AllSpaces(s: string) {
    forall c | c in s :: IsSpace(c)
  }

  function TrimLeft(s: string): string {
    if s != [] && IsSpace(s[0]) then TrimLeft(s[1..]) else s
  }

  function TrimRight(s: string): string {
    if s != [] && IsSpace(s[|s| - 1]) then TrimRight(s[..|s| - 1]) else s
  }

  function Trim(s: string): string {
    TrimRight(TrimLeft(s))
  }

  /** A text neither starting nor ending with a space. */
  predicate Tight(s: string) {
    s != [] ==> !IsSpace(s[0]) && !IsSpace(s[|s| - 1])
  }

  lemma {:induction false} TrimLeftSkips(before: string, s: string)
    requires AllSpaces(before)
    ensures TrimLeft(before + s) == TrimLeft(s)
  {
    if before == [] {
      assert before + s == s;
    } else {
      assert before[0] in before;
      assert (before + s)[1..] == before[1..] + s;
      TrimLeftSkips(before[1..], s);
    }
  }

  lemma {:induction false} TrimRightSkips(s: string, after: string)
    requires AllSpaces(after)
    ensures TrimRight(s + after) == TrimRight(s)
  {
    if after == [] {
      assert s + after == s;
    } else {
      var n := |after| - 1;
      assert after[n] in after;
      assert (s + after)[..|s + after| - 1] == s + after[..n];
      TrimRightSkips(s, after[..n]);
    }
  }

  /** Trimming removes exactly the surrounding spaces; all of a text that holds nothing else. */
  lemma TrimSandwich(before: string, s: string, after: string)
    requires AllSpaces(before) && AllSpaces(after) && Tight(s)
    ensures Trim(before + s + after) == s
  {
    assert before + s + after == before + (s + after);
    TrimLeftSkips(before, s + after);
    if s == [] {
      assert [] + after == after == after + [];
      TrimLeftSkips(after, []);
    } else {
      TrimRightSkips(s, after);
    }
  }

  lemma {:induction false} TrimRightKeepsStart(s: string)
    ensures TrimRight(s) <= s
  {
    if s == [] || !IsSpace(s[|s| - 1]) {
    } else {
      TrimRightKeepsStart(s[..|s| - 1]);
    }
  }

  lemma {:induction false} TrimLeftStart(s: string)
    ensures TrimLeft(s) != [] ==> !IsSpace(TrimLeft(s)[0])
  {
    if s == [] || !IsSpace(s[0]) {
    } else {
      TrimLeftStart(s[1..]);
    }
  }

  lemma TrimStart(s: string)
    ensures Trim(s) != [] ==> !IsSpace(Trim(s)[0])
  {
    TrimLeftStart(s);
    TrimRightKeepsStart(TrimLeft(s));
  }

  /** The parts of `s` between occurrences of `sep`; always at least one, possibly empty. */
  function Split(s: string, sep: char): (parts: seq<string>)
    ensures |parts| >= 1
  {
    if s == [] then [""]
    else
      var rest := Split(s[1..], sep);
      if s[0] == sep then [""] + rest else [[s[0]] + rest[0]] + rest[1..]
  }

  function Join(parts: seq<string>, sep: char): string
    requires |parts| >= 1
  {
    if |parts| == 1 then parts[0] else parts[0] + [sep] + Join(parts[1..], sep)
  }

  lemma {:induction false} PartWithin(parts: seq<string>, i: nat, sep: char)
    requires i < |parts|
    ensures |parts[i]| <= |Join(parts, sep)|
  {
    if i == 0 {
    } else {
      PartWithin(parts[1..], i - 1, sep);
    }
  }

  /** Splitting loses nothing and leaves no separator behind. */
  lemma {:induction false} SplitJoins(s: string, sep: char)
    ensures Join(Split(s, sep), sep) == s
    ensures forall p | p in Split(s, sep) :: sep !in p
  {
    if s == [] {
    } else {
      SplitJoins(s[1..], sep);
      var rest := Split(s[1..], sep);
      if s[0] == sep {
        assert ([""] + rest)[1..] == rest;
      } else {
        var parts := [[s[0]] + rest[0]] + rest[1..];
        assert rest[0] in rest;
        if |rest| > 1 {
          assert parts[1..] == rest[1..];
        }
      }
    }
  }

  lemma {:induction false} SplitAtom(a: string, sep: char)
    requires sep !in a
    ensures Split(a, sep) == [a]
  {
    if a == [] {
    } else {
      assert a[0] in a;
      SplitAtom(a[1..], sep);
      assert [a[0]] + a[1..] == a;
    }
  }

  lemma {:induction false} SplitFirst(a: string, rest: string, sep: char)
    requires sep !in a
    ensures Split(a + [sep] + rest, sep) == [a] + Split(rest, sep)
  {
    var s := a + [sep] + rest;
    if a == [] {
      assert s[1..] == rest;
    } else {
      assert a[0] in a;
      assert s[1..] == a[1..] + [sep] + rest;
      SplitFirst(a[1..], rest, sep);
      assert [a[0]] + a[1..] == a;
    }
  }

  /** Two texts with a separator between them are split one after the other. */
  lemma {:induction false} SplitAppend(a: string, b: string, sep: char)
    ensures Split(a + [sep] + b, sep) == Split(a, sep) + Split(b, sep)
  {
    var s := a + [sep] + b;
    if a == [] {
      assert s[1..] == b;
    } else {
      assert s[1..] == a[1..] + [sep] + b;
      SplitAppend(a[1..], b, sep);
    }
  }

  lemma SplitThree(a: string, b: string, c: string, sep: char)
    requires sep !in a && sep !in b && sep !in c
    ensures Split(a + [sep] + b + [sep] + c, sep) == [a, b, c]
  {
    SplitAtom(c, sep);
    SplitFirst(b, c, sep);
    SplitFirst(a, b + [sep] + c, sep);
    assert a + [sep] + b + [sep] + c == a + [sep] + (b + [sep] + c);
  }

  lemma SplitFour(a: string, b: string, c: string, d: string, sep: char)
    requires sep !in a && sep !in b && sep !in c && sep !in d
    ensures Split(a + [sep] + b + [sep] + c + [sep] + d, sep) == [a, b, c, d]
  {
    hide Split;
    var rest := b + [sep] + c + [sep] + d;
    SplitThree(b, c, d, sep);
    SplitFirst(a, rest, sep);
    assert a + [sep] + b + [sep] + c + [sep] + d == a + [sep] + rest;
  }

  /** The text a C string holds: everything before the first NUL. */
  function CString(s: string): string {
    if s == [] || s[0] == '\0' then "" else [s[0]] + CString(s[1..])
  }

  lemma {:induction false} CStringWhole(s: string)
    requires '\0' !in s
    ensures CString(s) == s
  {
    if s == [] {
    } else {
      CStringWhole(s[1..]);
    }
  }

  /** A text ends at its first null character. */
  lemma {:induction false} CStringCuts(s: string, rest: string)
    requires '\0' !in s
    ensures CString(s + "\0" + rest) == s
  {
    if s == [] {
      assert ("" + "\0" + rest)[0] == '\0';
    } else {
      assert (s + "\0" + rest)[1..] == s[1..] + "\0" + rest;
      assert s[0] in s;
      CStringCuts(s[1..], rest);
    }
  }
}
