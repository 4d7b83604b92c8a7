/**
 The two number formats of the proxy: unsigned 64-bit integers and decimal values, printed as
 `std::to_string` prints them and read as `boost::lexical_cast` reads them.
 */
module Numbers {
  import opened Wrappers
  import Text

  const ULONG_MAX: nat := 0xFFFF_FFFF_FFFF_FFFF

  /** `unsigned long` */
  type ULong = n: nat | n <= ULONG_MAX

  const MICRO: nat := 1_000_000

  // ---------- Decimal digits ----------

  predicate IsDigit(c: char) {
    '0' <= c <= '9'
  }

  predicate Digits(s: string) {
    forall i | 0 <= i < |s| :: IsDigit(s[i])
  }

  function DigitOf(n: nat): (c: char)
    requires n < 10
    ensures IsDigit(c)
  {
    (48 + n) as char
  }

  function ValueOf(c: char): nat
    requires IsDigit(c)
  {
    c as int - 48
  }

  function NatOf(s: string): nat
    requires Digits(s)
  {
    if s == [] then 0 else NatOf(s[..|s| - 1]) * 10 + ValueOf(s[|s| - 1])
  }

  function PrintNat(n: nat): string {
    (if n < 10 then "" else PrintNat(n / 10)) + [DigitOf(n % 10)]
  }

  /** The last `width` digits of `n`, padded with zeros. */
  function Pad(n: nat, width: nat): string {
    if width == 0 then "" else Pad(n / 10, width - 1) + [DigitOf(n % 10)]
  }

  function Pow10(k: nat): (p: nat)
    ensures p >= 1
  {
    if k == 0 then 1 else 10 * Pow10(k - 1)
  }

  lemma {:induction false} PrintNatParses(n: nat)
    ensures |PrintNat(n)| >= 1 && Digits(PrintNat(n))
    ensures NatOf(PrintNat(n)) == n
  {
    hide PrintNat, NatOf;
    if n < 10 {
      NatOfNone();
      PrintNatSplits(n, "");
    } else {
      PrintNatParses(n / 10);
      PrintNatSplits(n, PrintNat(n / 10));
    }
  }

  lemma NatOfNone()
    ensures NatOf("") == 0
  {
  }

  lemma PrintNatSplits(n: nat, front: string)
    requires front == if n < 10 then "" else PrintNat(n / 10)
    requires Digits(front)
    ensures |PrintNat(n)| >= 1 && Digits(PrintNat(n))
    ensures NatOf(PrintNat(n)) == NatOf(front) * 10 + n % 10
  {
    assert PrintNat(n)[..|PrintNat(n)| - 1] == front;
  }

  lemma {:induction false} PadParses(n: nat, width: nat)
    requires n < Pow10(width)
    ensures |Pad(n, width)| == width && Digits(Pad(n, width))
    ensures NatOf(Pad(n, width)) == n
  {
    if width == 0 {
    } else {
      PadParses(n / 10, width - 1);
      assert Pad(n, width)[..|Pad(n, width)| - 1] == Pad(n / 10, width - 1);
    }
  }

  /** Digits hold none of the characters the formats treat specially. */
  lemma DigitsAreClean(s: string)
    requires Digits(s)
    ensures Text.Tight(s)
    ensures ' ' !in s && '\n' !in s && '\0' !in s && '.' !in s
    ensures s != [] ==> s[0] != '-' && s[0] != '+'
  {
    assert forall c | c in s :: IsDigit(c);
    if s != [] {
      assert IsDigit(s[0]) && IsDigit(s[|s| - 1]);
    }
  }

  // ---------- unsigned long ----------

  /** `lexical_cast<ulong>`: an optional sign, then digits; a minus sign negates modulo 2^64. */
  function ParseULong(s: string): Option<ULong> {
    if s == [] then None
    else
      var digits := if s[0] == '-' || s[0] == '+' then s[1..] else s;
      if digits == [] || !Digits(digits) || NatOf(digits) > ULONG_MAX then None
      else if s[0] == '-' && NatOf(digits) > 0 then Some(ULONG_MAX + 1 - NatOf(digits))
      else Some(NatOf(digits))
  }

  lemma ULongRoundTrip(n: ULong)
    ensures ParseULong(PrintNat(n)) == Some(n)
  {
    PrintNatParses(n);
    DigitsAreClean(PrintNat(n));
  }

  // ---------- Decimal values ----------

  function Abs(x: real): (r: real) {
    if x < 0.0 then -x else x
  }

  /** The nearest integer of a non-negative number, ties to the even one. */
  function Nearest(x: real): (n: nat)
    requires x >= 0.0
  {
    var f := x.Floor;
    var rest := x - f as real;
    if rest < 0.5 || (rest == 0.5 && f % 2 == 0) then f else f + 1
  }

  /** The magnitude of `v` in millionths, the six decimals `%f` prints. */
  function Micros(v: real): nat {
    Nearest(Abs(v) * MICRO as real)
  }

  function OfMicros(n: nat): real {
    n as real / MICRO as real
  }

  /** The value `std::to_string` writes for `v`. */
  function Rounded(v: real): real {
    if v < 0.0 then -OfMicros(Micros(v)) else OfMicros(Micros(v))
  }

  /** `v` has no decimals beyond the sixth. */
  predicate SixDecimals(v: real) {
    (v * MICRO as real).Floor as real == v * MICRO as real
  }

  function PrintValue(v: real): string {
    (if v < 0.0 then "-" else "") + PrintNat(Micros(v) / MICRO) + "." + Pad(Micros(v) % MICRO, 6)
  }

  function ParseMagnitude(s: string): Option<real> {
    var parts := Text.Split(s, '.');
    if |parts| == 1 && Digits(parts[0]) && parts[0] != [] then
      Some(NatOf(parts[0]) as real)
    else if |parts| == 2 && Digits(parts[0]) && Digits(parts[1]) && |parts[0]| + |parts[1]| > 0 then
      Some(NatOf(parts[0]) as real + NatOf(parts[1]) as real / Pow10(|parts[1]|) as real)
    else
      None
  }

  /** `lexical_cast<double>` on plain decimal notation: an optional sign, digits, an optional point. */
  function ParseValue(s: string): Option<real> {
    if s != [] && s[0] == '-' then
      var m := ParseMagnitude(s[1..]);
      if m.None? then None else Some(-m.value)
    else if s != [] && s[0] == '+' then ParseMagnitude(s[1..])
    else ParseMagnitude(s)
  }

  lemma Pow10Six()
    ensures Pow10(6) == MICRO
  {
    assert Pow10(1) == 10;
    assert Pow10(2) == 100;
    assert Pow10(3) == 1000;
    assert Pow10(4) == 10000;
    assert Pow10(5) == 100000;
  }

  /** A whole part and a fraction of any number of decimals. */
  lemma DecimalsAreRead(whole: nat, rest: nat, decimals: nat)
    requires decimals >= 1 && rest < Pow10(decimals)
    ensures var s, frac := PrintNat(whole), Pad(rest, decimals);
      && ParseMagnitude(s + "." + frac) == Some(whole as real + rest as real / Pow10(decimals) as real)
      && Digits(s) && |s| >= 1 && Digits(frac) && |frac| == decimals
  {
    hide PrintNat, Pad, NatOf, Pow10, Text.Split;
    PrintNatParses(whole);
    PadParses(rest, decimals);
    var s, frac := PrintNat(whole), Pad(rest, decimals);
    Text.SplitAtom(frac, '.');
    Text.SplitFirst(s, frac, '.');
    assert s + "." + frac == s + ['.'] + frac;
  }

  lemma Recombined(n: nat, p: nat)
    requires p >= 1
    ensures n % p < p && (n / p) as real + (n % p) as real / p as real == n as real / p as real
  {
    var a, b := n / p, n % p;
    assert n == a * p + b;
    DividedWhole(n, a, b, p);
  }

  lemma DividedSum(a: real, b: real, p: real)
    requires p > 0.0
    ensures (a * p + b) / p == a + b / p
  {
  }

  lemma MagnitudeRoundTrip(n: nat)
    ensures ParseMagnitude(PrintNat(n / MICRO) + "." + Pad(n % MICRO, 6)) == Some(OfMicros(n))
    ensures Digits(PrintNat(n / MICRO)) && Digits(Pad(n % MICRO, 6))
    ensures |PrintNat(n / MICRO)| >= 1 && |Pad(n % MICRO, 6)| == 6
  {
    hide PrintNat, Pad, NatOf, Pow10, ParseMagnitude;
    Pow10Six();
    Recombined(n, MICRO);
    DecimalsAreRead(n / MICRO, n % MICRO, 6);
  }

  // ---------- What is read ----------

  /** Digits are read in base ten. */
  lemma DigitsAreDecimal(s: string, c: char)
    requires Digits(s) && IsDigit(c)
    ensures Digits(s + [c]) && NatOf(s + [c]) == 10 * NatOf(s) + (c as int - '0' as int) && NatOf("") == 0
    ensures IsDigit(c) <==> '0' <= c <= '9'
  {
    assert (s + [c])[..|s|] == s;
  }

  lemma PowersOfTen(k: nat)
    ensures Pow10(0) == 1 && Pow10(k + 1) == 10 * Pow10(k)
  {
  }

  /** A sign turns a magnitude into a value. */
  lemma SignsAreRead(s: string)
    requires s != "" && IsDigit(s[0])
    ensures ParseValue(s) == ParseValue("+" + s) == ParseMagnitude(s)
    ensures ParseMagnitude(s).Some? ==> ParseValue("-" + s) == Some(-ParseMagnitude(s).value)
    ensures ParseMagnitude(s).None? ==> ParseValue("-" + s) == None
  {
    hide ParseMagnitude;
    assert ("-" + s)[1..] == s && ("+" + s)[1..] == s;
  }

  /** Whole numbers are read as they are written. */
  lemma WholeNumbersAreRead(n: nat)
    ensures var s := PrintNat(n);
      && ParseValue(s) == ParseValue("+" + s) == Some(n as real)
      && ParseValue("-" + s) == Some(-(n as real))
  {
    hide PrintNat, NatOf, Text.Split;
    var s := PrintNat(n);
    PrintNatParses(n);
    DigitsAreClean(s);
    Text.SplitAtom(s, '.');
    SignsAreRead(s);
  }

  /** So are numbers with any number of decimals: a whole part, and `rest` of the decimal unit. */
  lemma DecimalNumbersAreRead(whole: nat, rest: nat, decimals: nat)
    requires decimals >= 1 && rest < Pow10(decimals)
    ensures var s := PrintNat(whole) + "." + Pad(rest, decimals);
      var v := whole as real + rest as real / Pow10(decimals) as real;
      && ParseValue(s) == ParseValue("+" + s) == Some(v)
      && ParseValue("-" + s) == Some(-v)
  {
    hide PrintNat, Pad, NatOf, Pow10, ParseMagnitude;
    DecimalsAreRead(whole, rest, decimals);
    var s := PrintNat(whole) + "." + Pad(rest, decimals);
    assert s[0] == PrintNat(whole)[0];
    SignsAreRead(s);
  }

  /** Seen from the digits without the point, that is `n` of the decimal unit. */
  lemma ScaledNumbersAreRead(n: nat, whole: nat, rest: nat, decimals: nat)
    requires decimals >= 1 && rest < Pow10(decimals) && n == whole * Pow10(decimals) + rest
    ensures var s, v := PrintNat(whole) + "." + Pad(rest, decimals), n as real / Pow10(decimals) as real;
      ParseValue(s) == ParseValue("+" + s) == Some(v) && ParseValue("-" + s) == Some(-v)
  {
    hide PrintNat, Pad, Pow10, ParseValue;
    var p := Pow10(decimals);
    DecimalNumbersAreRead(whole, rest, decimals);
    DividedWhole(n, whole, rest, p);
  }

  lemma DividedWhole(n: nat, whole: nat, rest: nat, p: nat)
    requires p >= 1 && n == whole * p + rest
    ensures n as real / p as real == whole as real + rest as real / p as real
  {
    assert (whole * p) as real == whole as real * p as real;
    DividedSum(whole as real, rest as real, p as real);
  }

  /** What is read as a value is a sign at most, then digits and points. */
  lemma OthersAreNoValues(s: string)
    ensures ParseValue(s).Some? ==> s != "" && (IsDigit(s[0]) || s[0] == '.' || (|s| > 1 && s[0] in "+-"))
    ensures ParseValue(s).Some? ==> forall i | 1 <= i < |s| :: IsDigit(s[i]) || s[i] == '.'
  {
    hide ParseMagnitude;
    MagnitudeForm(s);
    if s != "" {
      MagnitudeForm(s[1..]);
      assert forall i | 1 <= i < |s| :: s[i] == s[1..][i - 1];
    }
  }

  lemma MagnitudeForm(s: string)
    ensures ParseMagnitude(s).Some? ==> s != "" && forall i | 0 <= i < |s| :: IsDigit(s[i]) || s[i] == '.'
  {
    hide Text.Split;
    var parts := Text.Split(s, '.');
    Text.SplitJoins(s, '.');
    if |parts| == 2 {
      assert parts[1..] == [parts[1]];
      assert s == parts[0] + ['.'] + parts[1];
    } else if |parts| == 1 {
      assert s == parts[0];
    }
  }

  /** An unsigned number is read when it fits; a minus sign takes it from 2^64. */
  lemma UnsignedNumbersAreRead(n: nat)
    ensures var s := PrintNat(n);
      && ParseULong(s) == ParseULong("+" + s) == (if n < 0x1_0000_0000_0000_0000 then Some(n) else None)
      && ParseULong("-" + s)
         == (if n == 0 then Some(0)
             else if n < 0x1_0000_0000_0000_0000 then Some(0x1_0000_0000_0000_0000 - n) else None)
  {
    hide PrintNat, NatOf;
    var s := PrintNat(n);
    PrintNatParses(n);
    DigitsAreClean(s);
    assert ("-" + s)[1..] == s && ("+" + s)[1..] == s;
  }

  lemma OthersAreNotUnsigned(s: string)
    ensures ParseULong(s).Some? ==> s != "" && (IsDigit(s[0]) || (|s| > 1 && s[0] in "+-"))
    ensures ParseULong(s).Some? ==> forall i | 1 <= i < |s| :: IsDigit(s[i])
  {
    if s != "" {
      assert forall i | 1 <= i < |s| :: s[i] == s[1..][i - 1];
    }
  }

  // ---------- What is printed ----------

  /** Reading back a printed value gives the value rounded to six decimals. */
  lemma ValueRoundTrip(v: real)
    ensures ParseValue(PrintValue(v)) == Some(Rounded(v))
  {
    hide PrintNat, Pad, NatOf, ParseMagnitude, Nearest, OfMicros;
    var n := Micros(v);
    MagnitudeRoundTrip(n);
    var whole, frac := PrintNat(n / MICRO), Pad(n % MICRO, 6);
    var body := whole + "." + frac;
    DigitsAreClean(whole);
    assert body[0] == whole[0];
    if v < 0.0 {
      assert PrintValue(v) == "-" + body;
      assert PrintValue(v)[1..] == body;
    } else {
      assert PrintValue(v) == "" + whole + "." + frac == body;
    }
  }

  lemma ValueIsClean(v: real)
    ensures var s := PrintValue(v);
      s != [] && Text.Tight(s) && ' ' !in s && '\n' !in s && '\0' !in s
  {
    hide PrintNat, Pad, NatOf, ParseMagnitude, Nearest, OfMicros;
    var n := Micros(v);
    MagnitudeRoundTrip(n);
    var sign, whole, frac := if v < 0.0 then "-" else "", PrintNat(n / MICRO), Pad(n % MICRO, 6);
    DigitsAreClean(whole);
    DigitsAreClean(frac);
    var s := PrintValue(v);
    assert s == sign + whole + "." + frac;
    assert s[|s| - 1] == frac[5];
    assert s[0] == if v < 0.0 then '-' else whole[0];
  }

  lemma NearestIsClose(x: real)
    requires x >= 0.0
    ensures -0.5 <= x - Nearest(x) as real <= 0.5
    ensures x == x.Floor as real ==> Nearest(x) as real == x
  {
  }

  /** Printing keeps a value exactly when it has no more than six decimals, and is never off by
      more than half a millionth. */
  lemma {:induction false} RoundedExact(v: real)
    ensures Rounded(v) == v <==> SixDecimals(v)
    ensures Abs(Rounded(v) - v) * (2 * MICRO) as real <= 1.0
  {
    var x := v * 1_000_000.0;
    var y := Abs(v) * 1_000_000.0;
    assert y == Abs(x);
    NearestIsClose(y);
    var n := Nearest(y);
    assert n == Micros(v);
    assert Rounded(v) * 1_000_000.0 == if v < 0.0 then -(n as real) else n as real;
    if x == x.Floor as real {
      if v < 0.0 {
        assert y == (-x.Floor) as real;
        assert y == y.Floor as real;
      }
      assert y == n as real;
    }
    if Rounded(v) == v {
      assert x == if v < 0.0 then (-(n as int)) as real else n as real;
    }
  }

  /** Seven decimals are read, too. */
  lemma SmallValue()
    ensures ParseValue("0.0000001") == Some(0.0000001) && ParseULong("0") == Some(0)
  {
    hide Text.Split;
    Text.SplitAtom("0000001", '.');
    Text.SplitFirst("0", "0000001", '.');
    assert "0" + ['.'] + "0000001" == "0.0000001";
    LeadingZeros(6);
    assert "0000001" == Zeros(6) + "1";
    Pow10Six();
    assert Pow10(7) == 10_000_000;
    assert NatOf("0") == 0 by { assert "0"[..0] == ""; }
  }

  function Zeros(n: nat): (s: string)
    ensures |s| == n && Digits(s)
  {
    if n == 0 then "" else Zeros(n - 1) + "0"
  }

  lemma {:induction false} LeadingZeros(n: nat)
    ensures NatOf(Zeros(n)) == 0 && NatOf(Zeros(n) + "1") == 1
  {
    if n == 0 {
      assert ("" + "1")[..0] == "";
    } else {
      LeadingZeros(n - 1);
      assert Zeros(n)[..n - 1] == Zeros(n - 1);
      assert (Zeros(n) + "1")[..n] == Zeros(n);
    }
  }

  /** Rounding moves a value by half a millionth at most, and a tie goes to the even neighbour. */
  lemma RoundedIsClose(v: real)
    ensures -0.0000005 <= Rounded(v) - v <= 0.0000005
  {
    hide Nearest;
    var x := Abs(v) * MICRO as real;
    NearestIsClose(x);
    assert OfMicros(Nearest(x)) * MICRO as real == Nearest(x) as real;
  }

  lemma TiesGoToEven(n: nat)
    ensures Nearest(n as real + 0.5) == if n % 2 == 0 then n else n + 1
  {
    assert (n as real + 0.5).Floor == n;
  }

  /** A printed value: perhaps a minus sign, a whole number without leading zeros, a point, six digits. */
  lemma PrintedForm(v: real)
    ensures var s := PrintValue(v);
      var sign := if v < 0.0 then 1 else 0;
      && |s| >= sign + 8 && (v < 0.0 ==> s[0] == '-') && s[|s| - 7] == '.'
      && (forall i | sign <= i < |s| && i != |s| - 7 :: IsDigit(s[i]))
      && (s[sign] == '0' ==> |s| == sign + 8)
  {
    hide PrintNat, Pad, Micros;
    var n := Micros(v);
    PrintNatParses(n / MICRO);
    PadForm(n % MICRO, 6);
    NoLeadingZero(n / MICRO);
  }

  lemma {:induction false} PadForm(n: nat, width: nat)
    ensures |Pad(n, width)| == width && Digits(Pad(n, width))
  {
    if width == 0 {
    } else {
      PadForm(n / 10, width - 1);
    }
  }

  lemma {:induction false} NoLeadingZero(n: nat)
    ensures PrintNat(n) != "" && (PrintNat(n)[0] == '0' ==> n == 0 && |PrintNat(n)| == 1)
  {
    if n < 10 {
      assert PrintNat(n) == "" + [DigitOf(n)];
    } else {
      NoLeadingZero(n / 10);
    }
  }
}
