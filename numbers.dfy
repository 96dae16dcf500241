/** Decimal digit strings: what strconv.ParseInt(s, 10, 64) accepts and
    what strconv.Itoa prints. */
module Numbers {
  import opened Wrappers

  const MinInt64: int := -0x8000_0000_0000_0000
  const MaxInt64: int := 0x7fff_ffff_ffff_ffff

  predicate IsDigit(c: char) {
    '0' <= c <= '9'
  }

  predicate AllDigits(s: string) {
    forall i :: 0 <= i < |s| ==> IsDigit(s[i])
  }

  function DigitValue(c: char): (d: nat)
    requires IsDigit(c)
    ensures d < 10
  {
    c as int - '0' as int
  }

  function DigitChar(d: nat): (c: char)
    requires d < 10
    ensures IsDigit(c) && DigitValue(c) == d
  {
    ('0' as int + d) as char
  }

  /** A digit character is the character of its own value. */
  lemma DigitCharOfValue(c: char)
    requires IsDigit(c)
    ensures DigitChar(DigitValue(c)) == c
  {
  }

  function Pow10(n: nat): (p: nat)
    ensures p >= 1
  {
    if n == 0 then 1 else 10 * Pow10(n - 1)
  }

  /** The number a string of decimal digits denotes, most significant digit first. */
  function DigitsValue(s: string): (n: nat)
    requires AllDigits(s)
    ensures n < Pow10(|s|)
  {
    if s == [] then 0 else 10 * DigitsValue(s[..|s| - 1]) + DigitValue(s[|s| - 1])
  }

  /** A three-digit string denotes hundreds, tens and units. */
  lemma DigitsValueOfThree(s: string)
    requires |s| == 3 && AllDigits(s)
    ensures DigitsValue(s) == 100 * DigitValue(s[0]) + 10 * DigitValue(s[1]) + DigitValue(s[2])
  {
    assert s[..2][..1] == s[..1];
    assert s[..1][..0] == [];
    assert DigitsValue(s[..1]) == DigitValue(s[0]);
    assert DigitsValue(s[..2]) == 10 * DigitValue(s[0]) + DigitValue(s[1]);
  }

  /** The shortest decimal form of n: no leading zero unless n is 0. */
  function Decimal(n: nat): (s: string)
    ensures |s| >= 1 && AllDigits(s)
    ensures DigitsValue(s) == n
    ensures |s| > 1 ==> s[0] != '0'
  {
    if n < 10 then [DigitChar(n)]
    else
      var prefix := Decimal(n / 10);
      var s := prefix + [DigitChar(n % 10)];
      assert s[..|s| - 1] == prefix;
      s
  }

  /** strconv.Itoa: a minus sign for negative numbers, then the shortest decimal form. */
  function Itoa(n: int): (s: string)
    ensures |s| >= 1
    ensures n >= 0 ==> AllDigits(s)
    ensures n < 0 ==> s[0] == '-' && AllDigits(s[1..])
  {
    if n < 0 then "-" + Decimal(-n) else Decimal(n)
  }

  /** strconv.ParseInt(s, 10, 64): an optional '+' or '-', then one or more
      decimal digits, denoting a value in the int64 range. Go's syntax and
      range errors are both IntParseError here. */
  function ParseInt(s: string): (r: Result<int>)
    ensures r.Success? ==> MinInt64 <= r.value <= MaxInt64
    ensures r.Failure? ==> r.error == IntParseError(s)
  {
    var signed := |s| > 0 && (s[0] == '-' || s[0] == '+');
    var body := if signed then s[1..] else s;
    if body == [] || !AllDigits(body) then Failure(IntParseError(s))
    else
      var magnitude: int := DigitsValue(body);
      var v: int := if signed && s[0] == '-' then -magnitude else magnitude;
      if MinInt64 <= v <= MaxInt64 then Success(v) else Failure(IntParseError(s))
  }

  /** An unsigned digit string within range is read as its value. */
  lemma ParseIntOfDigits(s: string)
    requires AllDigits(s) && s != [] && DigitsValue(s) <= MaxInt64
    ensures ParseInt(s) == Success(DigitsValue(s))
  {
  }

  /** The empty string, a lone sign, and an unsigned string with a non-digit are refused. */
  lemma ParseIntRejects(s: string)
    requires s == [] || s == "-" || s == "+" || (!AllDigits(s) && s[0] != '-' && s[0] != '+')
    ensures ParseInt(s) == Failure(IntParseError(s))
  {
  }

  /** The text strconv.ParseInt(s, 10, 64) reads: one or more decimal digits,
      optionally after a single '+' or '-'. */
  predicate IntSyntax(s: string) {
    || (s != [] && AllDigits(s))
    || (|s| >= 2 && (s[0] == '+' || s[0] == '-') && AllDigits(s[1..]))
  }

  /** The number such text denotes: its digits, negated after a '-'. */
  function SignedValue(s: string): int
    requires IntSyntax(s)
  {
    if s[0] == '-' then -(DigitsValue(s[1..]) as int)
    else if s[0] == '+' then DigitsValue(s[1..])
    else DigitsValue(s)
  }

  /** ParseInt accepts exactly the well-formed text whose value fits in
      64 bits, and reads it as that value; everything else is an error. */
  lemma ParseIntAccepts(s: string)
    ensures ParseInt(s).Success? <==> IntSyntax(s) && MinInt64 <= SignedValue(s) <= MaxInt64
    ensures ParseInt(s).Success? ==> ParseInt(s).value == SignedValue(s)
    ensures ParseInt(s).Failure? ==> ParseInt(s).error == IntParseError(s)
  {
  }

  /** A leading zero does not change the value of a digit string. */
  lemma {:induction false} DigitsValueLeadingZero(s: string)
    requires AllDigits(s)
    ensures AllDigits("0" + s) && DigitsValue("0" + s) == DigitsValue(s)
  {
    if s != [] {
      var init := s[..|s| - 1];
      assert ("0" + s)[..|s|] == "0" + init;
      DigitsValueLeadingZero(init);
    }
  }

  /** Leading zeros after the sign are ignored: "-05" reads as "-5", "+007" as "7". */
  lemma ParseIntLeadingZero(sign: string, s: string)
    requires sign == "" || sign == "+" || sign == "-"
    requires s != [] && AllDigits(s)
    ensures ParseInt(sign + "0" + s) == if ParseInt(sign + s).Success? then ParseInt(sign + s)
                                       else Failure(IntParseError(sign + "0" + s))
  {
    DigitsValueLeadingZero(s);
    if sign != "" {
      assert (sign + "0" + s)[1..] == "0" + s;
      assert (sign + s)[1..] == s;
    } else {
      assert sign + "0" + s == "0" + s && sign + s == s;
    }
    ParseIntAccepts(sign + "0" + s);
    ParseIntAccepts(sign + s);
  }

  /** Signs, leading zeros and stray characters on small examples. */
  lemma ParseIntExamples()
    ensures ParseInt("+5") == Success(5)
    ensures ParseInt("-05") == Success(-5)
    ensures ParseInt("--5") == Failure(IntParseError("--5"))
    ensures ParseInt("5 ") == Failure(IntParseError("5 "))
  {
    assert "-05"[1..] == "05" && "05"[..1] == "0";
    assert "--5"[1..] == "-5" && !IsDigit("-5"[0]);
  }

  /** Every int64 that Itoa prints is read back by ParseInt. */
  lemma ParseIntOfItoa(n: int)
    requires MinInt64 <= n <= MaxInt64
    ensures ParseInt(Itoa(n)) == Success(n)
  {
    var s := Itoa(n);
    if n < 0 {
      assert s[1..] == Decimal(-n);
    } else {
      assert s == Decimal(n);
    }
  }
}
