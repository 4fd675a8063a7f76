/**
 * Decimal text of the C++ `int` values hms.cpp stores: `std::to_string` for rendering
 * ages and dosages, and formatted extraction `ss >> age` for reading the age field.
 */
module Numbers {
  import opened Wrappers

  /** Bounds of a 32-bit C++ `int`. */
  const INT_MIN: int := -0x8000_0000
  const INT_MAX: int := 0x7fff_ffff

  predicate IsDigit(c: char)
  {
    '0' <= c <= '9'
  }

  /** A non-empty run of decimal digits. */
  predicate IsNumeral(s: string)
  {
    |s| > 0 && forall i :: 0 <= i < |s| ==> IsDigit(s[i])
  }

  /** The white-space characters of the "C" locale, which `>>` skips first. */
  predicate IsSpace(c: char)
  {
    c == ' ' || c == '\t' || c == '\n' || c == '\r' || c == '\U{C}' || c == '\U{B}'
  }

  function DigitChar(d: nat): (c: char)
    requires d < 10
    ensures IsDigit(c)
  {
    (d + '0' as int) as char
  }

  function DigitValue(c: char): (d: nat)
    requires IsDigit(c)
    ensures d < 10 && DigitChar(d) == c
  {
    c as int - '0' as int
  }

  /** Decimal digits of `n`, most significant first, without leading zeros. */
  function NatToString(n: nat): (s: string)
    ensures IsNumeral(s)
    ensures s[0] == '0' ==> n == 0
  {
    if n < 10 then [DigitChar(n)] else NatToString(n / 10) + [DigitChar(n % 10)]
  }

  /** Value of a numeral. */
  function ParseNat(s: string): nat
    requires IsNumeral(s)
  {
    if |s| == 1 then DigitValue(s[0])
    else ParseNat(s[..|s| - 1]) * 10 + DigitValue(s[|s| - 1])
  }

  /** `std::to_string(n)`: a minus sign for negative values, then the digits of |n|. */
  function IntToString(n: int): (s: string)
    ensures |s| > 0
    ensures s[0] == '-' <==> n < 0
    ensures IsNumeral(if n < 0 then s[1..] else s)
    ensures ',' !in s && '\n' !in s
  {
    if n < 0 then "-" + NatToString(-n) else NatToString(n)
  }

  /** `s` without its leading white space. */
  function SkipSpace(s: string): (t: string)
    ensures t == [] || !IsSpace(t[0])
    ensures |t| <= |s| && t == s[|s| - |t|..]
    ensures forall i :: 0 <= i < |s| - |t| ==> IsSpace(s[i])
  {
    if s != [] && IsSpace(s[0]) then SkipSpace(s[1..]) else s
  }

  /** Number of decimal digits at the start of `s`. */
  function DigitRun(s: string): (k: nat)
    ensures k <= |s|
    ensures forall i :: 0 <= i < k ==> IsDigit(s[i])
    ensures k < |s| ==> !IsDigit(s[k])
  {
    if s != [] && IsDigit(s[0]) then 1 + DigitRun(s[1..]) else 0
  }

  /**
   * What `ss >> n` leaves behind on a stream that was good: the value stored in `n`,
   * whether the stream's failbit is now set, and the text still unread.
   */
  datatype IntRead = IntRead(value: int, failed: bool, rest: string)

  /**
   * `ss >> n` for an `int` on a good stream holding `s`. White space is skipped first; if
   * nothing else is left the extraction stores nothing (None). Otherwise an optional sign
   * and the digits after it are read. With no digit, 0 is stored and the stream fails; a
   * value outside `int` stores the nearest bound and the stream fails; otherwise the value
   * is stored and reading stops at the first character that is not a digit.
   */
  function ExtractInt(s: string): (r: Option<IntRead>)
    ensures r.None? <==> forall i :: 0 <= i < |s| ==> IsSpace(s[i])
    ensures r.Some? ==> INT_MIN <= r.value.value <= INT_MAX
    ensures r.Some? ==> r.value.failed || r.value.rest == [] || !IsDigit(r.value.rest[0])
  {
    var t := SkipSpace(s);
    if t == [] then None
    else
      assert !IsSpace(s[|s| - |t|]);
      Some(ReadSigned(t))
  }

  /** `ExtractInt` from the first character that is not white space on. */
  function ReadSigned(t: string): (r: IntRead)
    requires t != []
    ensures INT_MIN <= r.value <= INT_MAX
    ensures r.failed || r.rest == [] || !IsDigit(r.rest[0])
  {
    var u := if t[0] == '-' || t[0] == '+' then t[1..] else t;
    var k := DigitRun(u);
    if k == 0 then IntRead(0, true, u)
    else
      var magnitude: int := ParseNat(u[..k]);
      var v := if t[0] == '-' then -magnitude else magnitude;
      if v < INT_MIN then IntRead(INT_MIN, true, u[k..])
      else if v > INT_MAX then IntRead(INT_MAX, true, u[k..])
      else IntRead(v, false, u[k..])
  }

  lemma {:induction false} ParseNatToString(n: nat)
    ensures ParseNat(NatToString(n)) == n
  {
    if n >= 10 {
      var s := NatToString(n);
      assert s[..|s| - 1] == NatToString(n / 10);
      ParseNatToString(n / 10);
    }
  }

  /** The digits of a numeral stop where a non-digit follows. */
  lemma {:induction false} DigitRunOf(d: string, t: string)
    requires forall i :: 0 <= i < |d| ==> IsDigit(d[i])
    requires t == [] || !IsDigit(t[0])
    ensures DigitRun(d + t) == |d|
    decreases |d|
  {
    if d != [] {
      assert (d + t)[1..] == d[1..] + t;
      DigitRunOf(d[1..], t);
    }
  }

  /** Where the digits of `d` followed by `t` stop. */
  lemma ReadDigits(d: string, t: string)
    requires IsNumeral(d) && (t == [] || !IsDigit(t[0]))
    ensures DigitRun(d + t) == |d|
    ensures (d + t)[..|d|] == d && (d + t)[|d|..] == t
  {
    DigitRunOf(d, t);
  }

  /** Unsigned digits followed by `t`, read by `ReadSigned`. */
  lemma ReadUnsigned(d: string, t: string)
    requires IsNumeral(d) && (t == [] || !IsDigit(t[0]))
    requires ParseNat(d) <= INT_MAX
    ensures ReadSigned(d + t) == IntRead(ParseNat(d), false, t)
  {
    ReadDigits(d, t);
    assert (d + t)[0] == d[0] && IsDigit(d[0]);
  }

  /** A minus sign and digits followed by `t`, read by `ReadSigned`. */
  lemma ReadNegative(d: string, t: string)
    requires IsNumeral(d) && (t == [] || !IsDigit(t[0]))
    requires ParseNat(d) <= -INT_MIN
    ensures ReadSigned("-" + d + t) == IntRead(0 - ParseNat(d), false, t)
  {
    ReadDigits(d, t);
    var s := "-" + d + t;
    assert s[0] == '-';
    assert s[1..] == d + t;
    assert ParseNat((d + t)[..|d|]) == ParseNat(d);
  }

  /** The sign and digits `std::to_string` wrote, read by `ReadSigned`. */
  lemma ReadSignedToString(n: int, t: string)
    requires INT_MIN <= n <= INT_MAX
    requires t == [] || !IsDigit(t[0])
    ensures ReadSigned(IntToString(n) + t) == IntRead(n, false, t)
  {
    if n < 0 {
      var d := NatToString(-n);
      ParseNatToString(-n);
      ReadNegative(d, t);
      assert IntToString(n) + t == "-" + d + t;
    } else {
      var d := NatToString(n);
      ParseNatToString(n);
      ReadUnsigned(d, t);
      assert IntToString(n) + t == d + t;
    }
  }

  /**
   * Reading back what `std::to_string` wrote gives the same `int`, and reading stops just
   * after its digits.
   */
  lemma ExtractIntToString(n: int, t: string)
    requires INT_MIN <= n <= INT_MAX
    requires t == [] || !IsDigit(t[0])
    ensures ExtractInt(IntToString(n) + t) == Some(IntRead(n, false, t))
  {
    var s := IntToString(n) + t;
    assert SkipSpace(s) == s;
    ReadSignedToString(n, t);
  }

  /** With no digit where the number should start, 0 is stored and the stream fails. */
  lemma ReadNoDigits(s: string)
    requires s != [] && !IsSpace(s[0]) && !IsDigit(s[0]) && s[0] != '-' && s[0] != '+'
    ensures ExtractInt(s) == Some(IntRead(0, true, s))
  {
    assert SkipSpace(s) == s;
  }

  /** Digits worth more than `INT_MAX` store `INT_MAX` and fail the stream. */
  lemma ReadTooLarge(d: string, t: string)
    requires IsNumeral(d) && (t == [] || !IsDigit(t[0]))
    requires ParseNat(d) > INT_MAX
    ensures ExtractInt(d + t) == Some(IntRead(INT_MAX, true, t))
  {
    ReadDigits(d, t);
    assert (d + t)[0] == d[0];
    assert SkipSpace(d + t) == d + t;
  }
}
