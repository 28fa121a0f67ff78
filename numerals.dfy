/** The decimal conversions the application relies on: `std::stoi` (a
    partial parse, failing where the C++ library throws), `std::stoull` on a
    string of digits, and the decimal digits of a number. */
module Numerals {
  import opened Wrappers

  const IntMin: int := -0x8000_0000
  const IntMax: int := 0x7fff_ffff
  const ULongMax: int := 0xffff_ffff_ffff_ffff
  /** One more than the largest `size_t`. */
  const SizeLimit: int := 0x1_0000_0000_0000_0000

  type SizeT = x: int | 0 <= x < SizeLimit

  /** The conversion of an `int` to `size_t`: modulo 2^64. */
  function ToSize(v: int): (r: SizeT)
    ensures 0 <= v < SizeLimit ==> r == v
    ensures v < 0 && IntMin <= v ==> r == SizeLimit + v
  {
    v % SizeLimit
  }

  /** Incrementing a `size_t` wraps only at the largest value. */
  lemma SizeIncrement(v: int)
    requires 0 <= v <= ULongMax
    ensures (v + 1) % SizeLimit == if v == ULongMax then 0 else v + 1
  {
  }

  predicate IsDigit(c: char) {
    '0' <= c <= '9'
  }

  predicate AllDigits(s: string) {
    forall i | 0 <= i < |s| :: IsDigit(s[i])
  }

  /** The characters `isspace` accepts in the C locale. */
  predicate IsSpace(c: char) {
    c == ' ' || c == '\t' || c == '\n' || c == '\r' || c == '\U{B}' || c == '\U{C}'
  }

  function DigitValue(c: char): (v: nat)
    requires IsDigit(c)
    ensures v < 10
  {
    c as int - '0' as int
  }

  function DigitChar(v: nat): (c: char)
    requires v < 10
    ensures IsDigit(c) && DigitValue(c) == v
  {
    ('0' as int + v) as char
  }

  /** The value of a string of decimal digits, read most significant first. */
  function DigitsValue(s: string): nat
    requires AllDigits(s)
  {
    if s == [] then 0 else DigitsValue(s[..|s| - 1]) * 10 + DigitValue(s[|s| - 1])
  }

  /** The shortest decimal spelling of `n`, as `std::to_string` gives it. */
  function Decimal(n: nat): (s: string)
    ensures 1 <= |s| && AllDigits(s)
    ensures |s| > 1 ==> s[0] != '0'
  {
    if n < 10 then [DigitChar(n)] else Decimal(n / 10) + [DigitChar(n % 10)]
  }

  lemma {:induction false} DecimalRoundTrip(n: nat)
    ensures DigitsValue(Decimal(n)) == n
  {
    if n >= 10 {
      var s := Decimal(n);
      assert s[..|s| - 1] == Decimal(n / 10);
      DecimalRoundTrip(n / 10);
    }
  }

  /** The longest prefix of `s` made of digits. */
  function LeadingDigits(s: string): (d: string)
    ensures d <= s && AllDigits(d)
    ensures |d| < |s| ==> !IsDigit(s[|d|])
  {
    if s != [] && IsDigit(s[0]) then [s[0]] + LeadingDigits(s[1..]) else []
  }

  /** The longest suffix of `s` made of digits. */
  function TrailingDigits(s: string): (d: string)
    ensures |d| <= |s| && s == s[..|s| - |d|] + d && AllDigits(d)
    ensures |d| < |s| ==> !IsDigit(s[|s| - |d| - 1])
  {
    if s != [] && IsDigit(s[|s| - 1]) then TrailingDigits(s[..|s| - 1]) + [s[|s| - 1]] else []
  }

  lemma {:induction false} LeadingDigitsOf(d: string, rest: string)
    requires AllDigits(d) && (rest == [] || !IsDigit(rest[0]))
    ensures LeadingDigits(d + rest) == d
  {
    if d != [] {
      assert (d + rest)[1..] == d[1..] + rest;
      LeadingDigitsOf(d[1..], rest);
    }
  }

  lemma {:induction false} TrailingDigitsOf(x: string, d: string)
    requires AllDigits(d) && (x == [] || !IsDigit(x[|x| - 1]))
    ensures TrailingDigits(x + d) == d
  {
    if d != [] {
      assert (x + d)[..|x + d| - 1] == x + d[..|d| - 1];
      TrailingDigitsOf(x, d[..|d| - 1]);
    } else {
      assert x + d == x;
    }
  }

  function SkipSpace(s: string): (t: string)
    ensures |t| <= |s| && s == s[..|s| - |t|] + t
    ensures t == [] || !IsSpace(t[0])
  {
    if s != [] && IsSpace(s[0]) then SkipSpace(s[1..]) else s
  }

  /** `std::stoi(s)`: leading white space, an optional sign and the longest
      run of digits, anything after it ignored.  No digit
      (`invalid_argument`) and a value outside `int` (`out_of_range`) are
      failures. */
  function Stoi(s: string): (r: Option<int>)
    ensures r.Some? ==> IntMin <= r.value <= IntMax
  {
    var t := SkipSpace(s);
    if t != [] && (t[0] == '-' || t[0] == '+') then SignedValue(t[0] == '-', LeadingDigits(t[1..]))
    else SignedValue(false, LeadingDigits(t))
  }

  /** The value of the digits `d`, negated when `negative`; `None` without
      digits or outside `int`. */
  function SignedValue(negative: bool, d: string): (r: Option<int>)
    requires AllDigits(d)
    ensures r.Some? ==> IntMin <= r.value <= IntMax
    ensures r.Some? <==> d != [] && (if negative then DigitsValue(d) <= -IntMin else DigitsValue(d) <= IntMax)
  {
    if d == [] then None
    else
      var v: int := if negative then -(DigitsValue(d) as int) else DigitsValue(d);
      if IntMin <= v <= IntMax then Some(v) else None
  }

  /** The value of a 32-bit signed integer computation that overflows, as
      two's complement wrap-around. */
  function ToInt32(v: int): (r: int)
    ensures IntMin <= r <= IntMax
    ensures IntMin <= v <= IntMax ==> r == v
    ensures v == IntMax + 1 ==> r == IntMin
  {
    (v - IntMin) % 0x1_0000_0000 + IntMin
  }

  /** `stoi` of a string that starts with a digit: the value of its leading
      digits when that fits. */
  lemma StoiUnsigned(s: string, d: string)
    requires s != [] && IsDigit(s[0]) && LeadingDigits(s) == d
    ensures Stoi(s) == if DigitsValue(d) <= IntMax then Some(DigitsValue(d)) else None
  {
    NoSpaceToSkip(s);
  }

  /** `stoi` of a string that starts with a minus sign and a digit. */
  lemma StoiMinus(s: string, u: string, d: string)
    requires s == "-" + u && LeadingDigits(u) == d && d != []
    ensures Stoi(s) == if DigitsValue(d) <= -IntMin then Some(-(DigitsValue(d) as int)) else None
  {
    MinusSplit(u);
    NoSpaceToSkip(s);
  }

  lemma MinusSplit(u: string)
    ensures ("-" + u)[0] == '-' && ("-" + u)[1..] == u
  {
  }

  lemma NoSpaceToSkip(s: string)
    requires s != [] && !IsSpace(s[0])
    ensures SkipSpace(s) == s
  {
  }

  /** `stoi` of a non-empty run of digits is its value when that fits. */
  lemma StoiDigits(d: string)
    requires d != [] && AllDigits(d)
    ensures Stoi(d) == if DigitsValue(d) <= IntMax then Some(DigitsValue(d)) else None
  {
    LeadingDigitsOf(d, []);
    assert d + [] == d;
    StoiUnsigned(d, d);
  }

  /** `stoi` of a decimal spelling, followed by anything that is not a
      digit, gives back the number when it fits into an `int`, and fails
      otherwise. */
  lemma StoiDecimal(n: nat, rest: string)
    requires rest == [] || !IsDigit(rest[0])
    ensures Stoi(Decimal(n) + rest) == if n <= IntMax then Some(n) else None
  {
    var s := Decimal(n) + rest;
    assert s[0] == Decimal(n)[0];
    LeadingDigitsOf(Decimal(n), rest);
    DecimalRoundTrip(n);
    StoiUnsigned(s, Decimal(n));
  }

  /** `stoi` of a minus sign and a non-empty run of digits: the negated
      value when it fits into an `int`, down to `INT_MIN`. */
  lemma StoiNegative(x: string)
    requires x != [] && AllDigits(x)
    ensures Stoi("-" + x) == if DigitsValue(x) <= -IntMin then Some(-(DigitsValue(x) as int)) else None
  {
    LeadingDigitsOf(x, []);
    assert x + [] == x;
    StoiMinus("-" + x, x, x);
  }
}
