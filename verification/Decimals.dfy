/** Decimal numbers as text, and the conversion of a text to a 32-bit number. */
module Decimals {
  import opened Wrappers
  import opened Strings

  predicate IsDigit(c: char) {
    '0' <= c <= '9'
  }

  predicate AllDigits(s: string) {
    forall c <- s :: IsDigit(c)
  }

  function DigitsOf(n: nat): (s: string)
    ensures s != [] && AllDigits(s)
  {
    var last := ['0' + (n % 10) as char];
    if n < 10 then last else DigitsOf(n / 10) + last
  }

  function ValueOf(s: string): nat
    requires AllDigits(s)
  {
    if s == [] then 0
    else
      var last := s[|s| - 1];
      assert last in s;
      10 * ValueOf(s[..|s| - 1]) + (last - '0') as nat
  }

  lemma {:induction false} DigitsRoundTrip(n: nat)
    ensures ValueOf(DigitsOf(n)) == n
  {
    if n >= 10 {
      DigitsRoundTrip(n / 10);
      var s, last := DigitsOf(n), ['0' + (n % 10) as char];
      assert s[..|s| - 1] == DigitsOf(n / 10);
    }
  }

  /** A 32-bit signed number, in decimal. */
  predicate IsInt32(n: int) {
    -0x8000_0000 <= n < 0x8000_0000
  }

  function PrintInt(n: int): string {
    if n < 0 then "-" + DigitsOf(-n) else DigitsOf(n)
  }

  /** The conversion of a whole string: an optional sign, at least one digit, and the value must
      fit. */
  function ParseInt(s: string): (r: Option<int>)
    ensures r.Some? ==> IsInt32(r.value)
  {
    var digits := if s != [] && (s[0] == '-' || s[0] == '+') then s[1..] else s;
    if digits == [] || !AllDigits(digits) then None
    else
      var v: int := ValueOf(digits);
      var n := if s[0] == '-' then -v else v;
      if IsInt32(n) then Some(n) else None
  }

  lemma IntRoundTrip(n: int)
    requires IsInt32(n)
    ensures ParseInt(PrintInt(n)) == Some(n)
  {
    DigitsRoundTrip(if n < 0 then -n else n);
    if n < 0 {
      assert PrintInt(n)[1..] == DigitsOf(-n);
    } else {
      var s := PrintInt(n);
      var c := s[0];
      assert c in s && IsDigit(c);
    }
  }

  function Zeros(k: nat): (s: string)
    ensures |s| == k && forall c <- s :: c == '0'
  {
    seq(k, _ => '0')
  }

  /** The text spells the number: a sign if any, `k` leading zeros, and the decimal digits. */
  ghost predicate SpellsWith(s: string, n: int, sign: string, k: nat) {
    && sign in {"", "+", "-"}
    && s == sign + (Zeros(k) + DigitsOf(Size(n)))
    && (n < 0 ==> sign == "-") && (n > 0 ==> sign != "-")
  }

  ghost predicate Spells(s: string, n: int) {
    exists sign, k: nat :: SpellsWith(s, n, sign, k)
  }

  function Size(n: int): nat {
    if n < 0 then -n else n
  }

  lemma {:induction false} LeadingZeros(k: nat, s: string)
    requires AllDigits(s)
    ensures AllDigits(Zeros(k) + s) && ValueOf(Zeros(k) + s) == ValueOf(s)
    decreases |s|
  {
    var all := Zeros(k) + s;
    assert AllDigits(all) by {
      forall c <- all ensures IsDigit(c) {
        if c !in s { assert c in Zeros(k); }
      }
    }
    if s == [] {
      assert all == Zeros(k);
      ZeroValue(k);
    } else {
      assert all[..|all| - 1] == Zeros(k) + s[..|s| - 1];
      LeadingZeros(k, s[..|s| - 1]);
    }
  }

  lemma {:induction false} ZeroValue(k: nat)
    ensures AllDigits(Zeros(k)) && ValueOf(Zeros(k)) == 0
  {
    if k > 0 {
      assert Zeros(k)[..k - 1] == Zeros(k - 1);
      ZeroValue(k - 1);
    }
  }

  /** Appending a digit multiplies by ten: digits come with the highest first. */
  lemma DigitsStep(n: nat, d: nat)
    requires n > 0 && d < 10
    ensures DigitsOf(10 * n + d) == DigitsOf(n) + [DIGITS[d]]
    ensures d > 0 ==> DigitsOf(d) == [DIGITS[d]]
    ensures DigitsOf(0) == "0"
  {
    DigitIs(d);
    assert (10 * n + d) / 10 == n && (10 * n + d) % 10 == d;
  }

  const DIGITS := "0123456789"

  lemma DigitIs(d: nat)
    requires d < 10
    ensures '0' + d as char == DIGITS[d]
  {
  }

  /** Every digit string is the decimal form of its value behind some zeros. */
  lemma {:induction false} DigitsAreDecimal(s: string) returns (k: nat)
    requires s != [] && AllDigits(s)
    ensures s == Zeros(k) + DigitsOf(ValueOf(s))
  {
    var init, last := s[..|s| - 1], s[|s| - 1];
    assert s == init + [last] && last in s;
    var d, v := (last - '0') as nat, ValueOf(init);
    assert DigitsOf(d) == [last];
    k := 0;
    if init != [] {
      var j := DigitsAreDecimal(init);
      hide DigitsOf, Zeros;
      if v == 0 {
        k := j + 1;
        DigitsStep(1, 0);
        assert init == Zeros(j) + "0" == Zeros(k);
      } else {
        k := j;
        DigitsStep(v, d);
        DigitIs(d);
        assert s == Zeros(k) + (DigitsOf(v) + [last]);
      }
    }
  }

  lemma SignedDigits(s: string, sign: string, digits: string, v: int)
    requires sign in {"", "+", "-"} && s == sign + digits
    requires digits != [] && AllDigits(digits) && v == ValueOf(digits)
    ensures var n := if sign == "-" then -v else v;
            ParseInt(s) == if IsInt32(n) then Some(n) else None
  {
    var c := digits[0];
    assert c in digits && IsDigit(c);
    hide ValueOf;
    if sign == "" {
      assert s == digits;
    } else {
      assert s[0] == sign[0] && s[1..] == digits;
    }
  }

  lemma SpelledIsParsed(s: string, n: int, sign: string, k: nat)
    requires IsInt32(n) && SpellsWith(s, n, sign, k)
    ensures ParseInt(s) == Some(n)
  {
    var digits := Zeros(k) + DigitsOf(Size(n));
    LeadingZeros(k, DigitsOf(Size(n)));
    DigitsRoundTrip(Size(n));
    hide DigitsOf, Zeros, ValueOf, AllDigits, ParseInt;
    SignedDigits(s, sign, digits, Size(n));
  }

  lemma ParsedIsSpelled(s: string)
    requires ParseInt(s).Some?
    ensures Spells(s, ParseInt(s).value)
  {
    var n := ParseInt(s).value;
    var signed := s[0] == '-' || s[0] == '+';
    var digits := if signed then s[1..] else s;
    var sign := if signed then [s[0]] else "";
    var k := DigitsAreDecimal(digits);
    assert ValueOf(digits) == Size(n);
    hide DigitsOf, Zeros, ValueOf;
    assert s == sign + digits;
    assert SpellsWith(s, n, sign, k);
  }

  /** A text is converted exactly when it spells a 32-bit number, and to that number. */
  lemma ParseIntIff(s: string, n: int)
    ensures ParseInt(s) == Some(n) <==> IsInt32(n) && Spells(s, n)
  {
    if ParseInt(s) == Some(n) {
      ParsedIsSpelled(s);
    }
    if IsInt32(n) && Spells(s, n) {
      var sign, k: nat :| SpellsWith(s, n, sign, k);
      SpelledIsParsed(s, n, sign, k);
    }
  }

  lemma PrintedIntIsPlain(n: int)
    ensures PrintInt(n) != [] && Trimmed(PrintInt(n)) && forall c <- PrintInt(n) :: c == '-' || IsDigit(c)
  {
    var s := PrintInt(n);
    var first, last := s[0], s[|s| - 1];
    assert first in s && last in s;
  }
}
