/** Canonical unsigned numerals and the three validators that accept them. */
module Numerals {
  import opened Outcomes
  import opened Identifiers

  predicate Digits(s: string) { forall i | 0 <= i < |s| :: Digit(s[i]) }

  function DigitChar(d: nat): char
    requires d < 10
  {
    ('0' as int + d) as char
  }

  /** The number a run of digits denotes; the empty run denotes zero. */
  function Value(s: string): nat
    requires Digits(s)
  {
    if s == "" then 0 else 10 * Value(s[..|s| - 1]) + (s[|s| - 1] as int - '0' as int)
  }

  /** The decimal printing of a number. */
  function Decimal(n: nat): (s: string)
    ensures Digits(s) && 0 < |s|
  {
    if n < 10 then [DigitChar(n)] else Decimal(n / 10) + [DigitChar(n % 10)]
  }

  /** Digits only, and no leading zero except in zero itself. */
  predicate Canonical(s: string) { 0 < |s| && Digits(s) && (s[0] == '0' ==> |s| == 1) }

  function Pow10(k: nat): (p: nat)
    ensures 0 < p
  {
    if k == 0 then 1 else 10 * Pow10(k - 1)
  }

  lemma {:induction false} DecimalCanonical(n: nat)
    ensures Canonical(Decimal(n)) && Value(Decimal(n)) == n
    ensures n != 0 ==> Decimal(n)[0] != '0'
  {
    if n < 10 {
      assert Decimal(n)[..0] == "";
    } else {
      DecimalCanonical(n / 10);
      assert Decimal(n)[..|Decimal(n)| - 1] == Decimal(n / 10);
    }
  }

  lemma {:induction false} CanonicalDecimal(s: string)
    requires Canonical(s)
    ensures Decimal(Value(s)) == s
  {
    if |s| == 1 {
      assert s[..0] == "" && s == [s[0]];
    } else {
      var front := s[..|s| - 1];
      CanonicalDecimal(front);
      assert Decimal(0)[0] == '0';
      assert Value(front) != 0;
      assert s == front + [s[|s| - 1]];
    }
  }

  lemma DecimalInjective(m: nat, n: nat)
    requires Decimal(m) == Decimal(n)
    ensures m == n
  {
    DecimalCanonical(m);
    DecimalCanonical(n);
  }

  /** A printing has at most `k` characters exactly when the number is below the `k`th power of ten. */
  lemma {:induction false} DecimalWidth(n: nat, k: nat)
    requires 0 < k
    ensures |Decimal(n)| <= k <==> n < Pow10(k)
  {
    if k == 1 {
      assert Pow10(1) == 10 * Pow10(0);
    } else if 10 <= n {
      DecimalWidth(n / 10, k - 1);
    }
  }

  lemma {:induction false} ValueWidth(s: string)
    requires Digits(s)
    ensures Value(s) < Pow10(|s|)
  {
    if s != "" { ValueWidth(s[..|s| - 1]); }
  }

  lemma {:induction false} ValueSplit(a: string, b: string)
    requires Digits(a) && Digits(b)
    ensures Digits(a + b) && Value(a + b) == Value(a) * Pow10(|b|) + Value(b)
  {
    if b == "" {
      assert a + b == a;
    } else {
      var front := b[..|b| - 1];
      ValueSplit(a, front);
      assert (a + b)[..|a + b| - 1] == a + front;
      assert (a + b)[|a + b| - 1] == b[|b| - 1];
      assert Value(a) * Pow10(|b|) == 10 * (Value(a) * Pow10(|front|));
    }
  }

  lemma {:induction false} DecimalMonotone(m: nat, n: nat)
    requires m <= n
    ensures |Decimal(m)| <= |Decimal(n)|
  {
    DecimalWidth(n, |Decimal(n)|);
    DecimalWidth(m, |Decimal(n)|);
  }

  // ---------- uint64 ----------

  datatype NumeralError = NonCanonical | OutOfRange | NotPositive

  /** Standard-library parsing: an optional plus sign, digits, and a value within the word. */
  function ParseU64(s: string): Option<nat> {
    if s == "" then None
    else
      var body := if s[0] == '+' && 1 < |s| then s[1..] else s;
      if Digits(body) && Value(body) <= U64_MAX then Some(Value(body)) else None
  }

  /** The integration wire contract: length, shape, then range. */
  function ContractU64(s: string): Result<nat, NumeralError> {
    if 20 < |s| then Err(OutOfRange)
    else if s == "" || !Digits(s) || (1 < |s| && s[0] == '0') then Err(NonCanonical)
    else match ParseU64(s)
      case Some(n) => Ok(n)
      case None => Err(OutOfRange)
  }

  /** The cloud link: shape without a length bound, then range. */
  function CloudLinkU64(s: string): Result<nat, NumeralError> {
    if s == "0" || (s != "" && s[0] != '0' && Digits(s)) then
      match ParseU64(s)
      case Some(n) => Ok(n)
      case None => Err(OutOfRange)
    else Err(NonCanonical)
  }

  function PositiveU64(s: string): Result<nat, NumeralError> {
    match CloudLinkU64(s)
    case Ok(n) => if n == 0 then Err(NotPositive) else Ok(n)
    case Err(e) => Err(e)
  }

  /** The control protocol: parse first, then compare with the printing. */
  function ControlU64(s: string, positive: bool): Result<nat, NumeralError> {
    match ParseU64(s)
    case None => Err(OutOfRange)
    case Some(n) => if Decimal(n) != s || (positive && n == 0) then Err(NonCanonical) else Ok(n)
  }

  /** Which error a refused text gets: a text that prints no number is not canonical, one that prints a number beyond the word is
      out of range; the contract looks at the length first, and zero is told apart where a positive number is asked for. */
  lemma U64Errors(s: string)
    ensures CloudLinkU64(s) == Err(NonCanonical) <==> !Canonical(s)
    ensures CloudLinkU64(s) == Err(OutOfRange) <==> Canonical(s) && U64_MAX < Value(s)
    ensures PositiveU64(s) == Err(NotPositive) <==> s == "0"
    ensures ContractU64(s) == Err(NonCanonical) <==> |s| <= 20 && !Canonical(s)
    ensures ContractU64(s) == Err(OutOfRange) <==> 20 < |s| || (Canonical(s) && U64_MAX < Value(s))
  {
    if Canonical(s) {
      PlainParse(s);
      if |s| == 1 { assert s[..0] == "" && s == [s[0]]; }
      if Value(s) == 0 { CanonicalDecimal(s); }
    }
  }

  lemma U64Width(n: nat)
    requires n <= U64_MAX
    ensures |Decimal(n)| <= 20
  {
    DecimalWidth(n, 20);
    PowTwenty();
  }

  lemma PowTwenty()
    ensures U64_MAX < Pow10(20)
  {
    assert Pow10(5) == 100_000;
    assert Pow10(10) == 10_000_000_000;
    assert Pow10(15) == 1_000_000_000_000_000;
    assert Pow10(20) == 100_000_000_000_000_000_000;
  }

  lemma ParsePrinted(n: nat)
    ensures ParseU64(Decimal(n)) == if n <= U64_MAX then Some(n) else None
  {
    DecimalCanonical(n);
    assert Digit(Decimal(n)[0]);
  }

  lemma CanonicalIffPrinted(s: string)
    ensures Canonical(s) <==> exists n :: Decimal(n) == s
  {
    if Canonical(s) { CanonicalDecimal(s); }
    if n :| Decimal(n) == s { DecimalCanonical(n); }
  }

  /** Each of the three validators accepts exactly the printings of 0 to 2^64 - 1, with the printed value. */
  lemma U64Validators(s: string, n: nat)
    ensures ContractU64(s) == Ok(n) <==> n <= U64_MAX && s == Decimal(n)
    ensures CloudLinkU64(s) == Ok(n) <==> n <= U64_MAX && s == Decimal(n)
    ensures ControlU64(s, false) == Ok(n) <==> n <= U64_MAX && s == Decimal(n)
    ensures PositiveU64(s) == Ok(n) <==> 0 < n <= U64_MAX && s == Decimal(n)
    ensures ControlU64(s, true) == Ok(n) <==> 0 < n <= U64_MAX && s == Decimal(n)
  {
    hide Decimal, Value, Digits;
    ParsePrinted(n);
    DecimalCanonical(n);
    if n <= U64_MAX { U64Width(n); }
    if Canonical(s) { CanonicalDecimal(s); PlainParse(s); }
    PlusParse(s);
  }

  lemma PlainParse(s: string)
    requires Canonical(s)
    ensures ParseU64(s) == if Value(s) <= U64_MAX then Some(Value(s)) else None
  {
    assert Digit(s[0]);
  }

  lemma PlusParse(s: string)
    ensures ParseU64(s).Some? ==> ParseU64(s).value <= U64_MAX
    ensures Canonical(s) <==> 0 < |s| && Digits(s) && (s[0] == '0' ==> |s| == 1)
    ensures Digits("0")
  {}
}
