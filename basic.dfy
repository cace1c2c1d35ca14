// The conversions of the drone application's utilities: an `int` to its
// decimal text and back the way an input string stream reads it, and angles
// between degrees and radians.

module Utilities {
  import opened Doubles
  import opened Wrappers

  /** A C++ `int`. */
  type Int32 = x: int | -0x8000_0000 <= x < 0x8000_0000

  predicate IsDigit(c: char) {
    '0' <= c <= '9'
  }

  /** The white space an input stream skips before a number. */
  predicate IsSpace(c: char) {
    c == ' ' || c == '\t' || c == '\n' || c == '\r' || c == '\U{000B}' || c == '\U{000C}'
  }

  function DigitChar(d: int): (c: char)
    requires 0 <= d < 10
    ensures IsDigit(c)
  {
    ['0', '1', '2', '3', '4', '5', '6', '7', '8', '9'][d]
  }

  function DigitValue(c: char): (d: int)
    requires IsDigit(c)
    ensures 0 <= d < 10
  {
    c as int - '0' as int
  }

  lemma DigitCharValue(d: int)
    requires 0 <= d < 10
    ensures DigitValue(DigitChar(d)) == d
  {
  }

  predicate AllDigits(s: string) {
    forall i :: 0 <= i < |s| ==> IsDigit(s[i])
  }

  /** The decimal digits of `n`, without leading zeros. */
  function Digits(n: nat): (s: string)
    ensures |s| >= 1 && AllDigits(s)
    ensures n > 0 ==> s[0] != '0'
  {
    if n < 10 then [DigitChar(n)] else Digits(n / 10) + [DigitChar(n % 10)]
  }

  /** The number a string of decimal digits denotes. */
  function Value(s: string): nat
    requires AllDigits(s)
  {
    if s == [] then 0 else Value(s[..|s| - 1]) * 10 + DigitValue(s[|s| - 1])
  }

  lemma {:induction false} ValueOfDigits(n: nat)
    ensures Value(Digits(n)) == n
  {
    if n < 10 {
      DigitCharValue(n);
      assert Digits(n)[..0] == [];
    } else {
      var s := Digits(n);
      assert s[..|s| - 1] == Digits(n / 10);
      ValueOfDigits(n / 10);
      DigitCharValue(n % 10);
    }
  }

  /** `NumberToString(n)`: an optional minus sign and the decimal digits of |n|. */
  function NumberToString(n: Int32): (s: string)
    ensures |s| >= 1 && (s[0] == '-' <==> n < 0)
    ensures AllDigits(if n < 0 then s[1..] else s)
  {
    if n < 0 then "-" + Digits(-(n as int)) else Digits(n)
  }

  /** The number of leading digits. */
  function LeadingDigits(s: string): (k: nat)
    ensures k <= |s| && AllDigits(s[..k])
    ensures k < |s| ==> !IsDigit(s[k])
  {
    if s == [] || !IsDigit(s[0]) then 0
    else
      var k := 1 + LeadingDigits(s[1..]);
      assert forall i :: 1 <= i < k ==> s[..k][i] == s[1..][..k - 1][i - 1];
      k
  }

  /** `s` without its leading white space. */
  function SkipSpace(s: string): (t: string)
    ensures |t| <= |s| && t == s[|s| - |t|..]
    ensures t == [] || !IsSpace(t[0])
  {
    if s != [] && IsSpace(s[0]) then SkipSpace(s[1..]) else s
  }

  /**
   * `StringToNumber(text)`: what `istringstream >> int` reads: white space,
   * an optional sign and the longest run of digits after it, anything after
   * that ignored. With no digit there, or a number outside the range of
   * `int`, the extraction fails and the result is 0.
   */
  function StringToNumber(text: string): (r: Int32)
    ensures (forall i :: 0 <= i < |text| ==> !IsDigit(text[i])) ==> r == 0
    ensures r < 0 ==> exists i :: 0 <= i < |text| && text[i] == '-'
  {
    var t := SkipSpace(text);
    assert forall i :: 0 <= i < |t| ==> t[i] == text[|text| - |t| + i];
    ReadSigned(t)
  }

  /** The number at the start of `t`, which holds no leading white space. */
  function ReadSigned(t: string): (r: Int32)
    ensures t == [] || (!IsDigit(t[0]) && t[0] != '-' && t[0] != '+') ==> r == 0
    ensures r < 0 ==> t != [] && t[0] == '-'
    ensures r != 0 ==> exists i :: 0 <= i < |t| && IsDigit(t[i])
  {
    var signed := t != [] && (t[0] == '-' || t[0] == '+');
    match ReadMagnitude(if signed then t[1..] else t)
    case None => 0
    case Some(v) =>
      var x: int := if signed && t[0] == '-' then -(v as int) else v;
      if -0x8000_0000 <= x < 0x8000_0000 then x else 0
  }

  /** The value of the leading digits of `u`; none without a leading digit. */
  function ReadMagnitude(u: string): (r: Option<nat>)
    ensures r.None? <==> u == [] || !IsDigit(u[0])
  {
    var k := LeadingDigits(u);
    if k == 0 then None else Some(Value(u[..k]))
  }

  /** A text with no digit after its white space and optional sign reads as 0. */
  lemma NoDigitsReadZero(text: string)
    requires var t := SkipSpace(text);
             var u := if t != [] && (t[0] == '-' || t[0] == '+') then t[1..] else t;
             u == [] || !IsDigit(u[0])
    ensures StringToNumber(text) == 0
  {
  }

  /**
   * Reading the text of any `int`, followed by anything that does not
   * continue its digits, gives the `int` back; in particular
   * `StringToNumber(NumberToString(n)) == n`.
   */
  lemma ReadsLeadingNumber(n: Int32, rest: string)
    requires rest == [] || !IsDigit(rest[0])
    ensures StringToNumber(NumberToString(n) + rest) == n
  {
    if n < 0 {
      ReadsNegativeNumber(n, rest);
    } else {
      var d := Digits(n);
      ReadsDigits(d, rest);
      ValueOfDigits(n);
      assert NumberToString(n) + rest == d + rest;
      ReadNonNegative(d + rest, n);
    }
  }

  lemma ReadsNegativeNumber(n: Int32, rest: string)
    requires n < 0 && (rest == [] || !IsDigit(rest[0]))
    ensures StringToNumber(NumberToString(n) + rest) == n
  {
    var m: nat := -(n as int);
    var d := Digits(m);
    assert NumberToString(n) == "-" + d;
    SignThenRest(d, rest);
    ReadsDigits(d, rest);
    ValueOfDigits(m);
    ReadNegative(d + rest, m);
  }

  lemma SignThenRest(d: string, rest: string)
    ensures ("-" + d) + rest == ['-'] + (d + rest)
  {
  }

  lemma ReadNegative(u: string, v: nat)
    requires ReadMagnitude(u) == Some(v) && v <= 0x8000_0000
    ensures StringToNumber(['-'] + u) == -(v as int)
  {
    assert (['-'] + u)[1..] == u;
    NoSpaceToSkip(['-'] + u);
  }

  lemma ReadNonNegative(u: string, v: nat)
    requires u != [] && IsDigit(u[0]) && ReadMagnitude(u) == Some(v) && v < 0x8000_0000
    ensures StringToNumber(u) == v
  {
    NoSpaceToSkip(u);
  }

  lemma NoSpaceToSkip(s: string)
    requires s != [] && !IsSpace(s[0])
    ensures SkipSpace(s) == s
  {
  }

  /** The digits before a non-digit are read as a whole. */
  lemma ReadsDigits(d: string, rest: string)
    requires d != [] && AllDigits(d) && (rest == [] || !IsDigit(rest[0]))
    ensures ReadMagnitude(d + rest) == Some(Value(d))
  {
    DigitsThenOther(d, rest);
    assert (d + rest)[..|d|] == d;
  }

  lemma {:induction false} DigitsThenOther(d: string, rest: string)
    requires AllDigits(d) && (rest == [] || !IsDigit(rest[0]))
    ensures LeadingDigits(d + rest) == |d|
    decreases |d|
  {
    if d != [] {
      assert (d + rest)[1..] == d[1..] + rest;
      DigitsThenOther(d[1..], rest);
    } else {
      assert d + rest == rest;
    }
  }

  lemma NumberToStringRoundTrip(n: Int32)
    ensures StringToNumber(NumberToString(n)) == n
  {
    ReadsLeadingNumber(n, "");
    assert NumberToString(n) + "" == NumberToString(n);
  }

  /** `toRadian(degree)` */
  function ToRadian(degree: real): (r: real)
    ensures degree == 180.0 ==> r == CvPi
    ensures r < 0.0 <==> degree < 0.0
    ensures r == 0.0 <==> degree == 0.0
  {
    degree / 180.0 * CvPi
  }

  /** `toDegree(rad)` */
  function ToDegree(rad: real): (r: real)
    ensures rad == CvPi ==> r == 180.0
    ensures r < 0.0 <==> rad < 0.0
    ensures r == 0.0 <==> rad == 0.0
  {
    rad * 180.0 / CvPi
  }

  /** Over the reals the two conversions are inverse to each other. */
  lemma AngleRoundTrips(x: real)
    ensures ToDegree(ToRadian(x)) == x
    ensures ToRadian(ToDegree(x)) == x
  {
    var p := CvPi;
    assert p > 0.0;
    assert x / 180.0 * p * 180.0 == x * p;
    assert x * p / p == x;
    assert x * 180.0 / p / 180.0 == x / p;
    assert x / p * p == x;
  }
}
