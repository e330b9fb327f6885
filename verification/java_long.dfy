/**
 * Java's signed 64-bit `long` as the Java helpers use it: decimal text in
 * both directions (`Long.toString`, `Long.valueOf`) and integer division,
 * which truncates toward zero.
 */
module JavaLong {
  import opened Wrappers

  const LongMin: int := -0x8000_0000_0000_0000
  const LongMax: int := 0x7FFF_FFFF_FFFF_FFFF

  /** The values a `long` can hold. */
  predicate InLong(n: int) {
    LongMin <= n <= LongMax
  }

  predicate IsDigit(c: char) {
    '0' <= c <= '9'
  }

  function DigitValue(c: char): (r: nat)
    requires IsDigit(c)
    ensures r < 10
  {
    c as int - '0' as int
  }

  /** The digit character of a value below ten: the inverse of `DigitValue`. */
  function DigitChar(d: nat): (r: char)
    requires d < 10
    ensures IsDigit(r) && DigitValue(r) == d
  {
    (d + '0' as int) as char
  }

  predicate AllDigits(s: string) {
    forall i | 0 <= i < |s| :: IsDigit(s[i])
  }

  /** The value of a run of decimal digits, most significant first; leading zeros add nothing. */
  function DigitsValue(s: string): (r: nat)
    requires AllDigits(s)
  {
    if |s| == 0 then 0 else DigitsValue(s[..|s| - 1]) * 10 + DigitValue(s[|s| - 1])
  }

  /** The shortest decimal digits of a natural number. */
  function Digits(n: nat): (r: string)
    ensures |r| > 0 && AllDigits(r)
    ensures DigitsValue(r) == n
    ensures r[0] == '0' ==> r == "0"
  {
    if n < 10 then [DigitChar(n)]
    else
      var r := Digits(n / 10) + [DigitChar(n % 10)];
      assert r[..|r| - 1] == Digits(n / 10);
      r
  }

  /** `Long.toString`: a minus sign for negative values, then the shortest digits. */
  function Format(n: int): (r: string)
    ensures |r| > 0
    ensures n < 0 <==> r[0] == '-'
    ensures n >= 0 ==> AllDigits(r)
    ensures n < 0 ==> AllDigits(r[1..]) && |r| > 1
  {
    if n < 0 then "-" + Digits(-n) else Digits(n)
  }

  /**
   * `Long.valueOf(String)`: an optional `+` or `-`, then at least one
   * decimal digit and nothing else; the value must fit in a `long`.
   * Anything else is a `NumberFormatException`, here `None`.
   */
  function ParseLong(s: string): (r: Option<int>)
    ensures r.Some? ==> InLong(r.value)
    ensures |s| == 0 ==> r.None?
    ensures r.Some? ==> |s| > 0 && (IsDigit(s[0]) || s[0] == '+' || s[0] == '-')
  {
    if |s| == 0 then None
    else
      var negative := s[0] == '-';
      var digits := if s[0] == '-' || s[0] == '+' then s[1..] else s;
      if |digits| == 0 || !AllDigits(digits) then None
      else
        var v: int := if negative then -(DigitsValue(digits) as int) else DigitsValue(digits);
        if InLong(v) then Some(v) else None
  }

  /** Digits written out are read back when the value fits in a `long`, and rejected when it does not. */
  lemma DigitsRoundTrip(n: nat)
    ensures ParseLong(Digits(n)) == if InLong(n) then Some(n) else None
  {
  }

  /** Every `long` survives `Long.toString` followed by `Long.valueOf`. */
  lemma FormatRoundTrip(n: int)
    requires InLong(n)
    ensures ParseLong(Format(n)) == Some(n)
  {
    if n < 0 {
      var s := Format(n);
      assert s[1..] == Digits(-n);
    }
  }

  /** A leading `+` is accepted and changes nothing. */
  lemma PlusSignIgnored(s: string)
    requires |s| > 0 && IsDigit(s[0])
    ensures ParseLong("+" + s) == ParseLong(s)
  {
    assert ("+" + s)[1..] == s;
  }

  /**
   * Text is accepted only as an optional sign followed by at least one
   * digit and nothing else, and it then stands for the signed value of
   * those digits.
   */
  lemma AcceptedIsSignedDigits(s: string)
    requires ParseLong(s).Some?
    ensures var digits := if s[0] == '+' || s[0] == '-' then s[1..] else s;
      && |digits| > 0 && AllDigits(digits)
      && ParseLong(s).value == if s[0] == '-' then -(DigitsValue(digits) as int) else DigitsValue(digits)
  {
  }

  /** A character that is neither a digit nor the leading sign makes the text no number. */
  lemma NonDigitRejected(s: string, k: nat)
    requires k < |s| && !IsDigit(s[k])
    requires k == 0 ==> s[0] != '+' && s[0] != '-'
    ensures ParseLong(s).None?
  {
    var digits := if s[0] == '+' || s[0] == '-' then s[1..] else s;
    if s[0] == '+' || s[0] == '-' {
      assert digits[k - 1] == s[k];
    } else {
      assert digits[k] == s[k];
    }
    assert !AllDigits(digits);
  }

  /** A sign with no digit after it is no number. */
  lemma SignAloneRejected(s: string)
    requires s == "+" || s == "-"
    ensures ParseLong(s).None?
  {
    assert s[1..] == [];
  }

  /**
   * Any run of digits, leading zeros included, reads back as its value
   * when that fits a `long`, with or without a `+`, and after a `-` as the
   * negated value when that fits.
   */
  lemma DigitsAccepted(d: string)
    requires |d| > 0 && AllDigits(d)
    ensures ParseLong(d) == if InLong(DigitsValue(d)) then Some(DigitsValue(d) as int) else None
    ensures ParseLong("+" + d) == ParseLong(d)
    ensures ParseLong("-" + d) == if InLong(-(DigitsValue(d) as int)) then Some(-(DigitsValue(d) as int)) else None
  {
    assert ("+" + d)[1..] == d;
    assert ("-" + d)[1..] == d;
  }

  /** Negative digits are read back when the value fits in a `long`, and refused below `Long.MIN_VALUE`. */
  lemma NegativeDigitsRoundTrip(n: nat)
    ensures ParseLong("-" + Digits(n)) == if InLong(-(n as int)) then Some(-(n as int)) else None
  {
    assert ("-" + Digits(n))[1..] == Digits(n);
  }

  /** Java's `/` on integers: the quotient truncated toward zero. */
  function Quot(a: int, d: int): (q: int)
    requires d > 0
    ensures a >= 0 ==> 0 <= a - q * d < d
    ensures a < 0 ==> -d < a - q * d <= 0
  {
    if a >= 0 then a / d else -((-a) / d)
  }

  /** Truncation toward zero is symmetric: negating the dividend negates the quotient, unlike floor division. */
  lemma QuotNegate(a: int, d: int)
    requires d > 0
    ensures Quot(-a, d) == -Quot(a, d)
  {
    if a > 0 {
      assert Quot(-a, d) == -(a / d);
    }
  }

}
