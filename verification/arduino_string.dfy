/**
 * The parts of the Arduino `String` class the router relies on: `toLowerCase`,
 * `startsWith` and `toInt`. `toInt` is `atol` on the buffer, which the ESP32 C
 * library implements as base-10 `strtol`: leading white space is skipped, one
 * optional sign is read, then the longest run of decimal digits; a value outside
 * the 32-bit `long` range saturates to `LONG_MIN` / `LONG_MAX`.
 */
module ArduinoString {
  import opened CInts

  /** `tolower` in the C locale: only 'A'..'Z' change. */
  function LowerChar(c: char): (r: char)
    ensures 'A' <= c <= 'Z' ==> r as int == c as int + 32
    ensures !('A' <= c <= 'Z') ==> r == c
    ensures !('A' <= r <= 'Z')
  {
    if 'A' <= c <= 'Z' then (c as int + 32) as char else c
  }

  /** The C string a `String`'s buffer holds: its characters before the first NUL. */
  function CStr(s: string): (r: string)
    ensures r <= s
    ensures forall i :: 0 <= i < |r| ==> r[i] != '\0'
    ensures |r| < |s| ==> s[|r|] == '\0'
  {
    if s == [] || s[0] == '\0' then [] else [s[0]] + CStr(s[1..])
  }

  /**
   * `String::operator==(const char*)`: `strcmp` on the buffer, so only the characters
   * before the first NUL take part.
   */
  predicate StrEquals(s: string, literal: string) {
    CStr(s) == literal
  }

  /** Text without a NUL is its own C string. */
  lemma {:induction false} CStrOfNoNul(s: string)
    requires forall i :: 0 <= i < |s| ==> s[i] != '\0'
    ensures CStr(s) == s
  {
    if s != [] {
      CStrOfNoNul(s[1..]);
    }
  }

  /** The C string ends at the first NUL, whatever follows it. */
  lemma {:induction false} CStrBeforeNul(s: string, rest: string)
    requires CStr(s) == s
    ensures CStr(s + ['\0'] + rest) == s
  {
    if s != [] {
      assert (s + ['\0'] + rest)[1..] == s[1..] + ['\0'] + rest;
      assert CStr(s[1..]) == s[1..];
      CStrBeforeNul(s[1..], rest);
    } else {
      assert (s + ['\0'] + rest)[0] == '\0';
    }
  }

  /** `String::toLowerCase` applied to a copy: the loop stops at the first NUL. */
  function ToLower(s: string): (r: string)
    ensures |r| == |s|
    ensures forall i :: 0 <= i < |CStr(s)| ==> r[i] == LowerChar(s[i])
    ensures forall i :: |CStr(s)| <= i < |s| ==> r[i] == s[i]
  {
    if s == [] || s[0] == '\0' then s else [LowerChar(s[0])] + ToLower(s[1..])
  }

  /** Lower-casing twice is lower-casing once: every keyword test below sees one canonical form. */
  lemma {:induction false} ToLowerIdempotent(s: string)
    ensures ToLower(ToLower(s)) == ToLower(s)
  {
    if s != [] && s[0] != '\0' {
      ToLowerIdempotent(s[1..]);
      assert ToLower(s)[1..] == ToLower(s[1..]);
    }
  }

  /** The C string of a lowered copy is the lowered C string: the NUL stays where it was. */
  lemma {:induction false} CStrOfToLower(s: string)
    ensures CStr(ToLower(s)) == ToLower(CStr(s))
  {
    if s != [] && s[0] != '\0' {
      CStrOfToLower(s[1..]);
      assert ToLower(s)[1..] == ToLower(s[1..]);
      assert CStr(s)[1..] == CStr(s[1..]);
    }
  }

  /** A C string is its own C string. */
  lemma {:induction false} CStrIdempotent(s: string)
    ensures CStr(CStr(s)) == CStr(s)
  {
    if s != [] && s[0] != '\0' {
      CStrIdempotent(s[1..]);
    }
  }

  /** `String::startsWith`. */
  predicate StartsWith(s: string, prefix: string) {
    |prefix| <= |s| && s[..|prefix|] == prefix
  }

  /** `isspace` in the C locale. */
  predicate IsSpace(c: char) {
    c == ' ' || c == '\t' || c == '\n' || c == '\r' || c as int == 0x0B || c as int == 0x0C
  }

  predicate IsDigit(c: char) {
    '0' <= c <= '9'
  }

  predicate AllDigits(s: string) {
    forall i :: 0 <= i < |s| ==> IsDigit(s[i])
  }

  /** The input with its leading white space removed. */
  function SkipSpace(s: string): (r: string)
    ensures |r| <= |s| && r == s[|s| - |r|..]
    ensures r == [] || !IsSpace(r[0])
    ensures forall i :: 0 <= i < |s| - |r| ==> IsSpace(s[i])
  {
    if s != [] && IsSpace(s[0]) then SkipSpace(s[1..]) else s
  }

  /** The longest prefix made of decimal digits. */
  function DigitPrefix(s: string): (r: string)
    ensures |r| <= |s| && r == s[..|r|]
    ensures AllDigits(r)
    ensures |r| == |s| || !IsDigit(s[|r|])
  {
    if s != [] && IsDigit(s[0]) then [s[0]] + DigitPrefix(s[1..]) else []
  }

  /** The value of a digit string, most significant digit first. */
  function DigitsValue(d: string): (n: nat)
    requires AllDigits(d)
  {
    if d == [] then 0 else DigitsValue(d[..|d| - 1]) * 10 + (d[|d| - 1] as int - '0' as int)
  }

  /** `strtol`'s ERANGE behaviour for a 32-bit `long`. */
  function SaturateLong(x: int): (r: int)
    ensures INT32_MIN <= r <= INT32_MAX
    ensures INT32_MIN <= x <= INT32_MAX ==> r == x
    ensures x > INT32_MAX ==> r == INT32_MAX
    ensures x < INT32_MIN ==> r == INT32_MIN
  {
    if x > INT32_MAX then INT32_MAX else if x < INT32_MIN then INT32_MIN else x
  }

  /** `String::toInt`: 0 when no digits follow the optional sign. */
  function ToInt(s: string): (r: int)
    ensures INT32_MIN <= r <= INT32_MAX
  {
    var t := SkipSpace(s);
    var negative := t != [] && t[0] == '-';
    var body := if t != [] && (t[0] == '-' || t[0] == '+') then t[1..] else t;
    var magnitude: int := DigitsValue(DigitPrefix(body));
    SaturateLong(if negative then -magnitude else magnitude)
  }

  function DigitChar(d: int): (c: char)
    requires 0 <= d < 10
    ensures IsDigit(c) && c as int - '0' as int == d
  {
    ('0' as int + d) as char
  }

  /** Decimal rendering of a natural number, without leading zeros. */
  function Digits(n: nat): (s: string)
    ensures |s| > 0 && AllDigits(s)
  {
    if n < 10 then [DigitChar(n)] else Digits(n / 10) + [DigitChar(n % 10)]
  }

  /** Decimal rendering of an integer as a publisher would send it: "-" then the digits. */
  function Decimal(n: int): string {
    if n < 0 then "-" + Digits(-n) else Digits(n)
  }

  lemma {:induction false} DigitsValueOfDigits(n: nat)
    ensures DigitsValue(Digits(n)) == n
  {
    if n >= 10 {
      var s := Digits(n);
      assert s[..|s| - 1] == Digits(n / 10);
      DigitsValueOfDigits(n / 10);
    }
  }

  /** The digit run of a digit string followed by a non-digit is that digit string. */
  lemma {:induction false} DigitPrefixOfDigits(s: string, rest: string)
    requires AllDigits(s)
    requires rest == [] || !IsDigit(rest[0])
    ensures DigitPrefix(s + rest) == s
  {
    if s != [] {
      assert (s + rest)[1..] == s[1..] + rest;
      DigitPrefixOfDigits(s[1..], rest);
    } else {
      assert s + rest == rest;
    }
  }

  /**
   * `toInt` reads the number at the front of the text and ignores what follows a digit
   * run: the decimal text of a 32-bit integer followed by anything that does not start
   * with a digit reads as that integer.
   */
  lemma ToIntReadsLeadingNumber(n: int, rest: string)
    requires INT32_MIN <= n <= INT32_MAX
    requires rest == [] || !IsDigit(rest[0])
    ensures ToInt(Decimal(n) + rest) == n
  {
    var m: nat := if n < 0 then -n else n;
    DigitsValueOfDigits(m);
    if n < 0 {
      assert Decimal(n) + rest == ['-'] + (Digits(m) + rest);
      ToIntOfNegativeDigits(Digits(m), rest);
    } else {
      ToIntOfDigits(Digits(m), rest);
    }
  }

  /** A digit run then a tail that does not start with a digit reads as the run's value. */
  lemma ToIntOfDigits(d: string, rest: string)
    requires |d| > 0 && AllDigits(d)
    requires rest == [] || !IsDigit(rest[0])
    ensures ToInt(d + rest) == SaturateLong(DigitsValue(d))
  {
    var s := d + rest;
    assert s[0] == d[0];
    DigitPrefixOfDigits(d, rest);
    ToIntOfUnsigned(s, d);
  }

  /** The same after a minus sign, negated. */
  lemma ToIntOfNegativeDigits(d: string, rest: string)
    requires |d| > 0 && AllDigits(d)
    requires rest == [] || !IsDigit(rest[0])
    ensures ToInt(['-'] + (d + rest)) == SaturateLong(-(DigitsValue(d) as int))
  {
    var s := ['-'] + (d + rest);
    assert s[1..] == d + rest;
    DigitPrefixOfDigits(d, rest);
    ToIntOfNegative(s, d);
  }

  lemma ToIntOfUnsigned(s: string, d: string)
    requires s != [] && IsDigit(s[0])
    requires DigitPrefix(s) == d
    ensures ToInt(s) == SaturateLong(DigitsValue(d))
  {
    assert s[0] != '-' && s[0] != '+' && !IsSpace(s[0]);
    assert SkipSpace(s) == s;
  }

  lemma ToIntOfNegative(s: string, d: string)
    requires s != [] && s[0] == '-'
    requires DigitPrefix(s[1..]) == d
    ensures ToInt(s) == SaturateLong(-(DigitsValue(d) as int))
  {
    assert SkipSpace(s) == s;
  }

  /** `toInt` inverts decimal rendering on the whole 32-bit range. */
  lemma ToIntOfDecimal(n: int)
    requires INT32_MIN <= n <= INT32_MAX
    ensures ToInt(Decimal(n)) == n
  {
    ToIntReadsLeadingNumber(n, "");
    assert Decimal(n) + "" == Decimal(n);
  }

  /**
   * `toInt` is 0 when the text after the white space and the optional sign does not start with a
   * digit: "", "abc", "-" and " +x" all read as 0.
   */
  lemma ToIntOfNonNumber(s: string)
    requires var t := SkipSpace(s);
             var body := if t != [] && (t[0] == '-' || t[0] == '+') then t[1..] else t;
             body == [] || !IsDigit(body[0])
    ensures ToInt(s) == 0
  {
  }

  /** White space before the number does not change it. */
  lemma ToIntSkipsLeadingSpace(c: char, s: string)
    requires IsSpace(c)
    ensures ToInt([c] + s) == ToInt(s)
  {
    assert ([c] + s)[1..] == s;
    assert SkipSpace([c] + s) == SkipSpace(s);
  }
}
