/**
 * ECMAScript numbers as the weight store sees them. A weight is a decimal with at
 * most one fractional digit, so a number is an integer count of tenths, or NaN.
 * `Number(text)` and `String(n)` (the `${n}` of a template literal) are modelled
 * on that domain, and `===` is the strict equality under which NaN equals nothing.
 */
module Numbers {
  import opened Text

  datatype Num = NaN | Tenths(t: int)

  predicate IsDigit(ch: char) {
    '0' <= ch <= '9'
  }

  predicate AllDigits(s: string) {
    forall i :: 0 <= i < |s| ==> IsDigit(s[i])
  }

  function DigitChar(d: nat): (ch: char)
    requires d < 10
    ensures IsDigit(ch) && ch as int - '0' as int == d
  {
    ('0' as int + d) as char
  }

  function DigitValue(ch: char): (d: nat)
    requires IsDigit(ch)
    ensures d < 10 && DigitChar(d) == ch
  {
    ch as int - '0' as int
  }

  /** The value of a string of decimal digits (the empty string reads as 0). */
  function DigitsValue(s: string): nat
    requires AllDigits(s)
  {
    if s == [] then 0 else 10 * DigitsValue(s[..|s| - 1]) + DigitValue(s[|s| - 1])
  }

  /** The shortest decimal numeral of `n`: `n.toString()`. Its digits read back as `n`,
      and it has a leading zero only when it is "0". */
  function Decimal(n: nat): (r: string)
    ensures |r| >= 1 && AllDigits(r) && DigitsValue(r) == n
    ensures r[0] == '0' ==> n == 0
    decreases n
  {
    if n < 10 then [DigitChar(n)]
    else
      var prefix := Decimal(n / 10);
      assert (prefix + [DigitChar(n % 10)])[..|prefix|] == prefix;
      prefix + [DigitChar(n % 10)]
  }

  /** Numerals of numbers below 100 have at most two digits. */
  lemma DecimalBelowHundred(n: nat)
    requires n < 100
    ensures |Decimal(n)| <= 2
    ensures n >= 10 ==> |Decimal(n)| == 2
  {
    if n >= 10 {
      assert |Decimal(n / 10)| == 1;
    }
  }

  /** A leading zero does not change the value of a digit string. */
  lemma {:induction false} DigitsValueLeadingZero(s: string)
    requires AllDigits(s)
    ensures AllDigits(['0'] + s) && DigitsValue(['0'] + s) == DigitsValue(s)
    decreases |s|
  {
    if s != [] {
      var s' := s[..|s| - 1];
      DigitsValueLeadingZero(s');
      assert (['0'] + s)[..|s|] == ['0'] + s';
    }
  }

  function Negate(n: Num): Num {
    match n
    case NaN => NaN
    case Tenths(t) => Tenths(-t)
  }

  /** An unsigned numeral: digits, optionally followed by '.' and at most one digit,
      or '.' followed by one digit. */
  function UnsignedValue(u: string): Num {
    if u != [] && AllDigits(u) then Tenths(10 * DigitsValue(u))
    else if |u| >= 2 && u[|u| - 1] == '.' && AllDigits(u[..|u| - 1])
    then Tenths(10 * DigitsValue(u[..|u| - 1]))
    else if |u| >= 2 && u[|u| - 2] == '.' && IsDigit(u[|u| - 1]) && AllDigits(u[..|u| - 2])
    then Tenths(10 * DigitsValue(u[..|u| - 2]) + DigitValue(u[|u| - 1]))
    else NaN
  }

  /** `Number(text)`: surrounding white space is ignored, the blank string is 0, an
      optional sign precedes the numeral and anything else is NaN. A string of
      digits reads as the whole number they spell. */
  function NumberOfText(s: string): (r: Num)
    ensures AllSpace(s) ==> r == Tenths(0)
    ensures s != [] && AllDigits(s) ==> r == Tenths(10 * DigitsValue(s))
  {
    TrimEmpty(s);
    var t := Trim(s);
    assert s != [] && AllDigits(s) ==> t == s by {
      if s != [] && AllDigits(s) {
        assert IsDigit(s[0]) && IsDigit(s[|s| - 1]);
        TrimNoEdgeSpace(s);
      }
    }
    if t == [] then Tenths(0)
    else if t[0] == '-' then Negate(UnsignedValue(t[1..]))
    else if t[0] == '+' then UnsignedValue(t[1..])
    else UnsignedValue(t)
  }

  /** Text that starts with neither a digit, a sign nor a point, and carries no white
      space at its ends, is not a number. */
  lemma NotNumeral(s: string)
    requires s != [] && !IsSpace(s[0]) && !IsSpace(s[|s| - 1])
    requires !IsDigit(s[0]) && s[0] != '-' && s[0] != '+' && s[0] != '.'
    ensures NumberOfText(s) == NaN
  {
    TrimNoEdgeSpace(s);
    assert !AllDigits(s) by { assert !IsDigit(s[0]); }
    if |s| >= 2 {
      assert !AllDigits(s[..|s| - 1]) by { assert s[..|s| - 1][0] == s[0]; }
    }
    if |s| >= 3 {
      assert !AllDigits(s[..|s| - 2]) by { assert s[..|s| - 2][0] == s[0]; }
    }
  }

  /** `String(n)`: "NaN", or an optional '-', the integer part and, when the tenths
      digit is not zero, '.' and that digit. The text is never blank, carries no
      white space at its ends and holds neither a comma nor a line break, so it can
      stand as a field of a comma-separated line. */
  function NumberText(n: Num): (r: string)
    ensures r != [] && !IsSpace(r[0]) && !IsSpace(r[|r| - 1])
    ensures ',' !in r && '\n' !in r
  {
    match n
    case NaN => "NaN"
    case Tenths(t) =>
      var a: nat := if t < 0 then -t else t;
      var digits := Decimal(a / 10) + (if a % 10 == 0 then [] else ['.', DigitChar(a % 10)]);
      assert digits[0] == Decimal(a / 10)[0];
      assert forall i :: 0 <= i < |digits| ==> IsDigit(digits[i]) || digits[i] == '.';
      if t < 0 then "-" + digits else digits
  }

  /** JavaScript's `a === b` on numbers: NaN is equal to nothing, itself included. */
  function StrictEquals(a: Num, b: Num): (r: bool)
    ensures r <==> a == b && a != NaN
  {
    a.Tenths? && b.Tenths? && a.t == b.t
  }

  lemma UnsignedRoundTrip(a: nat)
    ensures UnsignedValue(Decimal(a / 10) + (if a % 10 == 0 then [] else ['.', DigitChar(a % 10)]))
            == Tenths(a)
  {
    var q := Decimal(a / 10);
    if a % 10 != 0 {
      var u := q + ['.', DigitChar(a % 10)];
      assert u[..|u| - 2] == q;
      assert !AllDigits(u) by { assert !IsDigit(u[|u| - 2]); }
    } else {
      assert q + [] == q;
    }
  }

  /** `Number(String(n))` is `n` for every number, NaN included. */
  lemma NumberTextRoundTrip(n: Num)
    ensures NumberOfText(NumberText(n)) == n
  {
    match n
    case NaN =>
      NotNumeral("NaN");
    case Tenths(t) =>
      var a: nat := if t < 0 then -t else t;
      var digits := Decimal(a / 10) + (if a % 10 == 0 then [] else ['.', DigitChar(a % 10)]);
      assert IsDigit(digits[0]) by { assert digits[0] == Decimal(a / 10)[0]; }
      UnsignedRoundTrip(a);
      assert UnsignedValue(digits) == Tenths(a);
      var r := NumberText(n);
      TrimNoEdgeSpace(r);
      assert Trim(r) == r;
      if t < 0 {
        assert r == "-" + digits;
        assert r[1..] == digits;
        assert NumberOfText(r) == Negate(Tenths(a));
      } else {
        assert r == digits;
        assert r[0] != '-' && r[0] != '+';
        assert NumberOfText(r) == UnsignedValue(digits);
      }
  }
}
