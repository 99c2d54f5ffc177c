/** Java's decimal `int` text conversions: `Integer.parseInt` / `Integer.valueOf`
    with radix 10 (the INTEGER config converter) and `Integer.toString` (how an
    integer is spelled when it is concatenated into a message). */
module Decimal {
  import opened Wrappers

  /** Bounds of Java's 32-bit `int`. */
  const IntMin: int := -0x8000_0000
  const IntMax: int := 0x7FFF_FFFF

  predicate InIntRange(n: int) {
    IntMin <= n <= IntMax
  }

  predicate IsDigit(c: char) {
    '0' <= c <= '9'
  }

  function DigitValue(c: char): (d: nat)
    requires IsDigit(c)
    ensures d < 10
  {
    c as int - '0' as int
  }

  function DigitChar(d: nat): (c: char)
    requires d < 10
    ensures IsDigit(c) && DigitValue(c) == d
  {
    ('0' as int + d) as char
  }

  predicate AllDigits(s: string) {
    forall i :: 0 <= i < |s| ==> IsDigit(s[i])
  }

  /** The number a digit string denotes, most significant digit first. */
  function DigitsValue(s: string): nat
    requires AllDigits(s)
  {
    if |s| == 0 then 0 else 10 * DigitsValue(s[..|s| - 1]) + DigitValue(s[|s| - 1])
  }

  /** A digit string without redundant leading zeros: "0" or one starting with 1..9. */
  predicate Canonical(s: string) {
    |s| > 0 && AllDigits(s) && (s[0] == '0' ==> |s| == 1)
  }

  /** The shortest decimal spelling of `n`. */
  function NatToDigits(n: nat): (s: string)
    ensures Canonical(s)
    ensures DigitsValue(s) == n
    decreases n
  {
    if n < 10 then [DigitChar(n)]
    else
      var prefix := NatToDigits(n / 10);
      var s := prefix + [DigitChar(n % 10)];
      assert s[..|s| - 1] == prefix;
      s
  }

  /** The spellings `Integer.toString` can produce: canonical digits, optionally
      preceded by '-' when the magnitude is not zero. */
  predicate CanonicalInt(s: string) {
    Canonical(s) || (|s| > 1 && s[0] == '-' && Canonical(s[1..]) && s[1..] != "0")
  }

  /** `Integer.toString(n)`: a minus sign for negative numbers, then the shortest digits. */
  function IntToString(n: int): (s: string)
    ensures CanonicalInt(s)
    ensures s[0] == '-' <==> n < 0
    ensures n < 0 ==> DigitsValue(s[1..]) == -n
    ensures n >= 0 ==> DigitsValue(s) == n
  {
    if n < 0 then
      var digits := NatToDigits(-n);
      assert DigitsValue("0") == 0 < DigitsValue(digits);
      "-" + digits
    else NatToDigits(n)
  }

  /** `Integer.parseInt(s, 10)`: an optional '+' or '-', then at least one decimal
      digit and nothing else, denoting a value within the 32-bit range; `None`
      where Java throws `NumberFormatException`. */
  function ParseInt(s: string): (r: Option<int>)
    ensures r.Some? ==> InIntRange(r.value)
    ensures |s| == 0 ==> r.None?
    ensures r.Some? ==> exists i :: 0 <= i < |s| && IsDigit(s[i])
  {
    if |s| == 0 then None
    else
      var negative := s[0] == '-';
      var body := if s[0] == '-' || s[0] == '+' then s[1..] else s;
      if |body| == 0 || !AllDigits(body) then None
      else
        assert IsDigit(s[|s| - 1]);
        var magnitude: int := DigitsValue(body);
        var n := if negative then -magnitude else magnitude;
        if InIntRange(n) then Some(n) else None
  }

  /** The value a sign ("", "+" or "-") followed by digits denotes. */
  function SignedValue(sign: string, digits: string): int
    requires AllDigits(digits)
  {
    if sign == "-" then -(DigitsValue(digits) as int) else DigitsValue(digits)
  }

  /** Every spelling of the accepted shape (leading zeros and "-0" included)
      parses to its signed value when that is within the 32-bit range, and is
      rejected otherwise. */
  lemma ParseIntAcceptsSignedDigits(sign: string, digits: string)
    requires sign in {"", "+", "-"}
    requires |digits| > 0 && AllDigits(digits)
    ensures InIntRange(SignedValue(sign, digits)) ==> ParseInt(sign + digits) == Some(SignedValue(sign, digits))
    ensures !InIntRange(SignedValue(sign, digits)) ==> ParseInt(sign + digits) == None
  {
    var s := sign + digits;
    if sign == "" {
      assert s == digits;
      assert IsDigit(s[0]);
    } else {
      assert s[0] == sign[0] && s[1..] == digits;
    }
  }

  /** Conversely, whatever parses has that shape: an optional sign of length `k`,
      then only digits, and the result is their signed value. Text holding any
      other character, a lone sign or two signs is rejected. */
  lemma ParseIntOnlySignedDigits(s: string)
    requires ParseInt(s).Some?
    ensures exists k ::
              && 0 <= k <= 1 && k <= |s|
              && s[..k] in {"", "+", "-"} && |s[k..]| > 0 && AllDigits(s[k..])
              && ParseInt(s).value == SignedValue(s[..k], s[k..])
  {
    var k := if s[0] == '-' || s[0] == '+' then 1 else 0;
    assert s[..k] in {"", "+", "-"} by {
      if k == 1 {
        assert s[..1] == [s[0]];
      }
    }
    assert s[..k] == "-" <==> s[0] == '-';
  }

  /** A digit string that starts with a non-zero digit denotes a positive number. */
  lemma {:induction false} LeadingNonZeroIsPositive(s: string)
    requires |s| > 0 && AllDigits(s) && s[0] != '0'
    ensures DigitsValue(s) > 0
  {
    if |s| > 1 {
      var prefix := s[..|s| - 1];
      assert prefix[0] == s[0];
      LeadingNonZeroIsPositive(prefix);
    }
  }

  /** Reading a canonical digit string and spelling the number again gives back
      the same string: canonical spellings and naturals are in one-to-one correspondence. */
  lemma {:induction false} CanonicalDigitsRoundTrip(s: string)
    requires Canonical(s)
    ensures NatToDigits(DigitsValue(s)) == s
  {
    if |s| > 1 {
      var prefix := s[..|s| - 1];
      assert prefix[0] == s[0];
      assert Canonical(prefix);
      LeadingNonZeroIsPositive(prefix);
      CanonicalDigitsRoundTrip(prefix);
      var v := DigitsValue(prefix);
      var d := DigitValue(s[|s| - 1]);
      assert DigitsValue(s) == 10 * v + d;
      assert (10 * v + d) / 10 == v && (10 * v + d) % 10 == d;
      assert DigitChar(d) == s[|s| - 1];
      assert s == prefix + [s[|s| - 1]];
    }
  }

  /** Every 32-bit integer survives being printed and parsed again. */
  lemma IntToStringRoundTrip(n: int)
    requires InIntRange(n)
    ensures ParseInt(IntToString(n)) == Some(n)
  {
  }

  /** Parsing a spelling `Integer.toString` could have produced, then printing the
      result, reproduces the spelling exactly. */
  lemma ParseIntCanonicalRoundTrip(s: string)
    requires CanonicalInt(s)
    requires ParseInt(s).Some?
    ensures IntToString(ParseInt(s).value) == s
  {
    if s[0] == '-' {
      var digits := s[1..];
      CanonicalDigitsRoundTrip(digits);
      LeadingNonZeroIsPositive(digits);
      assert s == "-" + digits;
    } else {
      CanonicalDigitsRoundTrip(s);
    }
  }
}
