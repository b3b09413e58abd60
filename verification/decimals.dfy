/** Canonical wire decimals and the looser domain check. */
module Decimals {
  import opened Outcomes
  import opened Numerals
  import opened Identifiers

  const MAX_DECIMAL_CHARS: nat := 96

  function Unsigned(s: string): string { if s != "" && s[0] == '-' then s[1..] else s }

  /** The position of the first dot, or the length when there is none. */
  function Dot(s: string): (k: nat)
    ensures k <= |s| && (k < |s| ==> s[k] == '.') && forall i | 0 <= i < k :: s[i] != '.'
  {
    if s == "" || s[0] == '.' then 0 else 1 + Dot(s[1..])
  }

  function Whole(s: string): string { s[..Dot(s)] }

  /** What follows the first dot, when there is one. */
  function Fraction(s: string): Option<string> { if Dot(s) == |s| then None else Some(s[Dot(s) + 1..]) }

  /** The wire check. */
  predicate WireDecimal(s: string) {
    if MAX_DECIMAL_CHARS < |s| || s == "" then false
    else if s == "0" then true
    else
      var whole, fraction := Whole(Unsigned(s)), Fraction(Unsigned(s));
      && whole != "" && Digits(whole) && (whole == "0" || whole[0] != '0')
      && (fraction.Some? ==>
            fraction.value != "" && Digits(fraction.value) && fraction.value[|fraction.value| - 1] != '0')
      && !(s[0] == '-' && whole == "0" && (fraction.Some? ==> AllZero(fraction.value)))
      && (fraction.Some? ==> '.' !in fraction.value)
  }

  predicate AllZero(s: string) { forall i | 0 <= i < |s| :: s[i] == '0' }

  /** The domain check, which splits at every dot and allows at most one. */
  predicate DomainDecimal(s: string) {
    var u := Unsigned(s);
    if u == "" then false
    else
      var whole, fraction := Whole(u), Fraction(u);
      && (fraction.Some? ==> Dot(fraction.value) == |fraction.value|)
      && whole != "" && Digits(whole) && !(1 < |whole| && whole[0] == '0')
      && !(s[0] == '-' && whole == "0" && fraction.None?)
      && (fraction.Some? ==> fraction.value != "" && Digits(fraction.value))
  }

  /** A domain decimal whose fraction, if it has one, does not end in zero. */
  predicate Reduced(s: string) { DomainDecimal(s) && (Fraction(Unsigned(s)).Some? ==> s[|s| - 1] != '0') }

  /** A wire decimal is a reduced domain decimal of bounded length. */
  lemma WireIffDomain(s: string)
    ensures WireDecimal(s) <==> Reduced(s) && |s| <= MAX_DECIMAL_CHARS
  {
    var u := Unsigned(s);
    assert Dot("0") == 1 by { assert Dot("") == 0 && "0"[1..] == ""; }
    assert Digit('0');
    if Fraction(u).Some? {
      var f := Fraction(u).value;
      assert f != "" ==> f[|f| - 1] == s[|s| - 1];
      assert forall i | 0 <= i < |f| && Digits(f) :: Digit(f[i]) && f[i] != '.';
    }
  }

  // ---------- what a decimal denotes ----------

  function FractionDigits(s: string): string {
    match Fraction(Unsigned(s))
    case Some(f) => f
    case None => ""
  }

  function Mantissa(s: string): int
    requires DomainDecimal(s)
  {
    var m := Value(Whole(Unsigned(s)) + FractionDigits(s));
    if s[0] == '-' then 0 - m else m as int
  }

  /** The rational a decimal denotes. */
  function Denoted(s: string): real
    requires DomainDecimal(s)
  {
    Mantissa(s) as real / Pow10(|FractionDigits(s)|) as real
  }

  lemma CrossMultiply(a: int, p: nat, b: int, q: nat)
    requires 0 < p && 0 < q && a as real / p as real == b as real / q as real
    ensures a * q == b * p
  {
    var x := a as real / p as real;
    assert a as real == x * p as real && b as real == x * q as real;
    assert (a * q) as real == a as real * q as real == x * p as real * q as real;
    assert (b * p) as real == b as real * p as real == x * q as real * p as real;
  }

  lemma {:induction false} PowSplit(j: nat, k: nat)
    ensures Pow10(j + k) == Pow10(j) * Pow10(k)
  {
    if j != 0 {
      PowSplit(j - 1, k);
      assert Pow10(j + k) == 10 * Pow10(j - 1 + k);
    }
  }

  /** A longer scale would need the longer mantissa to end in zero. */
  lemma NoShorterScale(a: int, j: nat, b: int, k: nat)
    requires a * Pow10(k) == b * Pow10(j) && j < k
    ensures b % 10 == 0
  {
    var d := k - j;
    PowSplit(j, d);
    Regroup(a, Pow10(j), Pow10(d));
    CancelFactor(a * Pow10(d), b, Pow10(j));
    Regroup(a, 10, Pow10(d - 1));
  }

  lemma Regroup(a: int, p: nat, q: nat)
    ensures a * (p * q) == (a * q) * p == p * (a * q)
  {}

  lemma AtLeastOnce(x: int, p: nat)
    requires 1 <= x
    ensures p <= x * p
  {
    assert x * p == (x - 1) * p + p;
  }

  lemma Spread(a: int, b: int, p: nat)
    ensures (a - b) * p == a * p - b * p
  {}

  lemma CancelFactor(a: int, b: int, p: nat)
    requires 0 < p && a * p == b * p
    ensures a == b
  {
    Spread(a, b, p);
    Spread(b, a, p);
    if a < b { AtLeastOnce(b - a, p); }
    if b < a { AtLeastOnce(a - b, p); }
  }

  lemma LastDigit(s: string)
    requires Digits(s) && s != "" && s[|s| - 1] != '0'
    ensures Value(s) % 10 != 0
  {
    assert Digit(s[|s| - 1]);
  }

  /** Digit runs of one length are equal when their values are. */
  lemma {:induction false} SameRun(s: string, t: string)
    requires Digits(s) && Digits(t) && |s| == |t| && Value(s) == Value(t)
    ensures s == t
  {
    if s != "" {
      var k := |s| - 1;
      assert Digit(s[k]) && Digit(t[k]);
      SameRun(s[..k], t[..k]);
      assert s == s[..k] + [s[k]] && t == t[..k] + [t[k]];
    }
  }

  lemma Quotient(a: nat, r: nat, b: nat, q: nat, p: nat)
    requires 0 < p && r < p && q < p && a * p + r == b * p + q
    ensures a == b && r == q
  {
    Spread(a, b, p);
    Spread(b, a, p);
    if a < b { AtLeastOnce(b - a, p); }
    if b < a { AtLeastOnce(a - b, p); }
  }

  lemma SameParts(w: string, f: string, v: string, g: string)
    requires Canonical(w) && Canonical(v) && Digits(f) && Digits(g) && |f| == |g|
    requires Digits(w + f) && Digits(v + g) && Value(w + f) == Value(v + g)
    ensures w == v && f == g
  {
    ValueSplit(w, f);
    ValueSplit(v, g);
    ValueWidth(f);
    ValueWidth(g);
    Quotient(Value(w), Value(f), Value(v), Value(g), Pow10(|f|));
    CanonicalDecimal(w);
    CanonicalDecimal(v);
    SameRun(f, g);
  }

  lemma WholeCanonical(s: string)
    requires DomainDecimal(s)
    ensures Canonical(Whole(Unsigned(s))) && Digits(FractionDigits(s)) && Digits(Whole(Unsigned(s)) + FractionDigits(s))
    ensures Fraction(Unsigned(s)).Some? ==> Fraction(Unsigned(s)).value != ""
  {
    hide Dot;
  }

  function Signed(negative: bool, u: string): string { if negative then "-" + u else u }

  function Joined(w: string, f: string): string { if f == "" then w else w + "." + f }

  /** The decimal with a given sign, whole part and fraction. */
  function Spelled(negative: bool, w: string, f: string): string { Signed(negative, Joined(w, f)) }

  lemma SplitAtDot(u: string)
    requires Fraction(u).Some? ==> Fraction(u).value != ""
    ensures u == Joined(Whole(u), if Fraction(u).Some? then Fraction(u).value else "")
  {
    hide Dot;
    var k := Dot(u);
    if k < |u| {
      assert u == u[..k] + [u[k]] + u[k + 1..];
    } else {
      assert u == u[..k];
    }
  }

  lemma Reassembled(s: string)
    requires s != "" && (Fraction(Unsigned(s)).Some? ==> Fraction(Unsigned(s)).value != "")
    ensures s == Spelled(s[0] == '-', Whole(Unsigned(s)), FractionDigits(s))
    ensures FractionDigits(s) != "" ==> FractionDigits(s)[|FractionDigits(s)| - 1] == s[|s| - 1]
  {
    hide Joined, Whole, Fraction, Dot;
    var u := Unsigned(s);
    SplitAtDot(u);
    assert s == Signed(s[0] == '-', u);
    LastJoined(Whole(u), FractionDigits(s));
  }

  lemma LastJoined(w: string, f: string)
    ensures f != "" ==> Joined(w, f) != "" && Joined(w, f)[|Joined(w, f)| - 1] == f[|f| - 1]
  {}

  lemma SignedBy(s: string)
    requires Reduced(s) && Canonical(Whole(Unsigned(s))) && Digits(Whole(Unsigned(s)) + FractionDigits(s))
    requires FractionDigits(s) != "" ==> FractionDigits(s)[|FractionDigits(s)| - 1] == s[|s| - 1]
    ensures FractionDigits(s) != "" ==> Mantissa(s) % 10 != 0
    ensures s[0] == '-' <==> Mantissa(s) < 0
  {
    hide Dot;
    var w, f := Whole(Unsigned(s)), FractionDigits(s);
    if f != "" {
      assert (w + f)[|w + f| - 1] == f[|f| - 1];
      LastDigit(w + f);
    } else {
      assert w + f == w;
      CanonicalDecimal(w);
    }
  }

  /** The pieces of a reduced decimal. */
  lemma Shape(s: string)
    requires Reduced(s)
    ensures Canonical(Whole(Unsigned(s))) && Digits(FractionDigits(s)) && Digits(Whole(Unsigned(s)) + FractionDigits(s))
    ensures FractionDigits(s) != "" ==> Mantissa(s) % 10 != 0
    ensures s[0] == '-' <==> Mantissa(s) < 0
    ensures s == Spelled(s[0] == '-', Whole(Unsigned(s)), FractionDigits(s))
  {
    WholeCanonical(s);
    Reassembled(s);
    SignedBy(s);
  }

  /** Two reduced decimals of any length that denote the same rational are the same text. */
  lemma OneReducedSpelling(s: string, t: string)
    requires Reduced(s) && Reduced(t) && Denoted(s) == Denoted(t)
    ensures s == t
  {
    hide DomainDecimal, Whole, Unsigned, FractionDigits, Digits, Spelled;
    Shape(s);
    Shape(t);
    var f, g := FractionDigits(s), FractionDigits(t);
    CrossMultiply(Mantissa(s), Pow10(|f|), Mantissa(t), Pow10(|g|));
    if |f| < |g| { NoShorterScale(Mantissa(s), |f|, Mantissa(t), |g|); }
    if |g| < |f| { NoShorterScale(Mantissa(t), |g|, Mantissa(s), |f|); }
    CancelFactor(Mantissa(s), Mantissa(t), Pow10(|f|));
    SameParts(Whole(Unsigned(s)), f, Whole(Unsigned(t)), g);
  }

  /** Two accepted wire decimals that denote the same rational are the same text. */
  lemma OneSpelling(s: string, t: string)
    requires WireDecimal(s) && WireDecimal(t) && DomainDecimal(s) && DomainDecimal(t) && Denoted(s) == Denoted(t)
    ensures s == t
  {
    hide DomainDecimal, Denoted;
    WireIffDomain(s);
    WireIffDomain(t);
    OneReducedSpelling(s, t);
  }

  // ---------- the spellings of one number ----------

  /** The first dot of a text with exactly one. */
  lemma DotAt(s: string, k: nat)
    requires k < |s| && s[k] == '.' && forall i | 0 <= i < k :: s[i] != '.'
    ensures Dot(s) == k
  {
    hide Dot;
  }

  lemma NoDot(s: string)
    requires forall i | 0 <= i < |s| :: s[i] != '.'
    ensures Dot(s) == |s|
  {
    hide Dot;
  }

  lemma DigitsNoDot(s: string)
    requires Digits(s)
    ensures forall i | 0 <= i < |s| :: s[i] != '.'
  {
    assert forall i | 0 <= i < |s| :: Digit(s[i]);
  }

  lemma SignTaken(negative: bool, u: string)
    requires u != "" && u[0] != '-'
    ensures Unsigned(Signed(negative, u)) == u && (Signed(negative, u)[0] == '-' <==> negative)
  {
    assert negative ==> ("-" + u)[1..] == u;
  }

  lemma JoinedApart(w: string, f: string)
    requires Digits(w) && w != "" && Digits(f)
    ensures var u := Joined(w, f);
            u != "" && u[0] != '-' && Whole(u) == w && Fraction(u) == (if f == "" then None else Some(f)) && Dot(f) == |f|
  {
    hide Dot, Digits;
    DigitsFirst(w);
    DigitsNoDot(w);
    DigitsNoDot(f);
    NoDot(f);
    var u := Joined(w, f);
    if f == "" {
      NoDot(u);
    } else {
      assert u == w + ("." + f);
      assert u[..|w|] == w && u[|w|] == '.' && u[|w| + 1..] == f;
      DotAfter(w, u);
    }
  }

  lemma DotAfter(w: string, u: string)
    requires |w| < |u| && u[..|w|] == w && u[|w|] == '.' && forall i | 0 <= i < |w| :: w[i] != '.'
    ensures Dot(u) == |w|
  {
    hide Dot;
    assert forall i | 0 <= i < |w| :: u[i] == w[i];
    DotAt(u, |w|);
  }

  lemma DigitsFirst(w: string)
    requires Digits(w) && w != ""
    ensures w[0] != '-'
  {
    assert Digit(w[0]);
  }

  /** A sign, a whole part and a fraction put together come apart again. */
  lemma TakenApart(negative: bool, w: string, f: string)
    requires Digits(w) && w != "" && Digits(f)
    ensures var u := Joined(w, f);
            var s := Spelled(negative, w, f);
            && Unsigned(s) == u && Whole(u) == w && FractionDigits(s) == f && Fraction(u) == (if f == "" then None else Some(f))
            && s != "" && (s[0] == '-' <==> negative) && Dot(f) == |f|
  {
    hide Dot, Digits, Whole, Fraction, Joined, Unsigned, Signed;
    JoinedApart(w, f);
    SignTaken(negative, Joined(w, f));
    SignedNonEmpty(negative, Joined(w, f));
  }

  lemma SignedNonEmpty(negative: bool, u: string)
    requires u != ""
    ensures Signed(negative, u) != ""
  {}

  lemma SpelledValid(negative: bool, w: string, f: string)
    requires Canonical(w) && Digits(f)
    ensures DomainDecimal(Spelled(negative, w, f)) <==> !(negative && w == "0" && f == "")
    ensures DomainDecimal(Spelled(negative, w, f)) ==>
              && Digits(w + f)
              && Mantissa(Spelled(negative, w, f)) == (if negative then 0 - Value(w + f) else Value(w + f) as int)
              && FractionDigits(Spelled(negative, w, f)) == f
    ensures Fraction(Unsigned(Spelled(negative, w, f))).Some? <==> f != ""
  {
    TakenApart(negative, w, f);
    hide Dot, Unsigned, Whole, Fraction, FractionDigits, Value;
  }

  /** Every domain decimal is the spelling of its parts. */
  lemma Respelled(s: string)
    requires DomainDecimal(s)
    ensures Canonical(Whole(Unsigned(s))) && Digits(FractionDigits(s)) && s == Spelled(s[0] == '-', Whole(Unsigned(s)), FractionDigits(s))
  {
    hide Dot, Spelled, Whole, FractionDigits, Digits;
    WholeCanonical(s);
    Reassembled(s);
  }

  /** Appending a zero to the fraction multiplies the mantissa and the scale by ten. */
  lemma OneMoreZero(negative: bool, w: string, f: string)
    requires Canonical(w) && Digits(f) && DomainDecimal(Spelled(negative, w, f))
    ensures DomainDecimal(Spelled(negative, w, f + "0")) && Denoted(Spelled(negative, w, f + "0")) == Denoted(Spelled(negative, w, f))
  {
    hide DomainDecimal, Spelled, FractionDigits, Mantissa, Digits, Value, Pow10;
    ZeroAppended(w, f);
    SpelledValid(negative, w, f);
    SpelledValid(negative, w, f + "0");
    SameRatio(Mantissa(Spelled(negative, w, f)), Pow10(|f|));
  }

  lemma ZeroAppended(w: string, f: string)
    requires Digits(w) && Digits(f)
    ensures Digits(w + f) && Digits(f + "0") && Digits(w + (f + "0")) && f + "0" != ""
    ensures Value(w + (f + "0")) == 10 * Value(w + f) && Pow10(|f + "0"|) == 10 * Pow10(|f|)
  {
    assert Digit('0');
    var d := w + f;
    assert w + (f + "0") == d + "0" && (d + "0")[..|d|] == d;
  }

  lemma SameRatio(a: int, p: nat)
    requires 0 < p
    ensures (10 * a) as real / (10 * p) as real == a as real / p as real
  {
    var x := a as real / p as real;
    assert x * p as real == a as real;
    assert (10 * a) as real == 10.0 * a as real && (10 * p) as real == 10.0 * p as real;
    assert x * (10 * p) as real == (10 * a) as real;
  }

  /** A second spelling of the same number: one more zero after the point. */
  function Padded(s: string): string { if Fraction(Unsigned(s)).Some? then s + "0" else s + ".0" }

  /** Every domain decimal has another domain spelling, so the domain check alone never gives one spelling per number. */
  lemma AnotherSpelling(s: string)
    requires DomainDecimal(s)
    ensures DomainDecimal(Padded(s)) && Denoted(Padded(s)) == Denoted(s) && Padded(s) != s && !Reduced(Padded(s))
  {
    hide DomainDecimal, Denoted, Spelled, Unsigned, Whole, FractionDigits, Fraction, Digits, Padded, Value;
    NonEmpty(s);
    Respelled(s);
    var n, w, f := s[0] == '-', Whole(Unsigned(s)), FractionDigits(s);
    ZeroAppended(w, f);
    PaddedIs(s, n, w, f);
    OneMoreZero(n, w, f);
    SpelledValid(n, w, f + "0");
    LastOf(n, w, f + "0");
    Longer(s);
  }

  lemma NonEmpty(s: string)
    requires DomainDecimal(s)
    ensures s != ""
  {}

  lemma Longer(s: string)
    ensures |s| < |Padded(s)|
  {}

  lemma PaddedIs(s: string, n: bool, w: string, f: string)
    requires s == Spelled(n, w, f) && Canonical(w) && Digits(f) && Digits(f + "0")
    ensures Padded(s) == Spelled(n, w, f + "0")
  {
    hide Unsigned, Fraction, DomainDecimal, Mantissa, FractionDigits;
    SpelledValid(n, w, f);
    if f == "" {
      assert s + ".0" == Signed(n, w + "." + "0");
    } else {
      assert s + "0" == Signed(n, w + "." + (f + "0"));
    }
  }

  /** The fraction without its trailing zeros. */
  function Stripped(f: string): string
    decreases |f|
  {
    if f != "" && f[|f| - 1] == '0' then Stripped(f[..|f| - 1]) else f
  }

  /** The reduced spelling: trailing zeros of the fraction dropped, and the sign of zero. */
  function Reduce(s: string): string {
    var w, f := Whole(Unsigned(s)), Stripped(FractionDigits(s));
    Spelled(s != "" && s[0] == '-' && !(w == "0" && f == ""), w, f)
  }

  lemma {:induction false} StrippedKeeps(negative: bool, w: string, f: string)
    requires Canonical(w) && Digits(f) && DomainDecimal(Spelled(negative, w, f))
    ensures var g := Stripped(f);
            && Digits(g) && (g != "" ==> g[|g| - 1] != '0')
            && var n := negative && !(w == "0" && g == "");
               DomainDecimal(Spelled(n, w, g)) && Denoted(Spelled(n, w, g)) == Denoted(Spelled(negative, w, f))
    decreases |f|
  {
    hide DomainDecimal, Spelled, Denoted, Digits, Value, Mantissa, FractionDigits, Unsigned, Fraction;
    SpelledValid(negative, w, f);
    if f != "" && f[|f| - 1] == '0' {
      var front := f[..|f| - 1];
      DigitsFront(f);
      assert f == front + "0";
      if negative && w == "0" && front == "" {
        ZeroSign();
      } else {
        SpelledValid(negative, w, front);
        OneMoreZero(negative, w, front);
        StrippedKeeps(negative, w, front);
      }
    }
  }

  lemma DigitsFront(f: string)
    requires Digits(f) && f != ""
    ensures Digits(f[..|f| - 1])
  {}

  lemma ZeroSign()
    ensures Digits("0") && Canonical("0") && DomainDecimal(Spelled(false, "0", "")) && DomainDecimal(Spelled(true, "0", "0"))
    ensures Denoted(Spelled(true, "0", "0")) == Denoted(Spelled(false, "0", ""))
  {
    assert Digit('0');
    SpelledValid(false, "0", "");
    SpelledValid(true, "0", "0");
    assert "0" + "" == "0" && "0" + "0" == "00" && "00"[..1] == "0" && "0"[..0] == "";
    assert Value("0") == 0 && Value("00") == 0;
  }

  /** The reduced spelling of a domain decimal is reduced and denotes the same number. */
  lemma ReduceKeeps(s: string)
    requires DomainDecimal(s)
    ensures Reduced(Reduce(s)) && Denoted(Reduce(s)) == Denoted(s)
  {
    Respelled(s);
    var w, f := Whole(Unsigned(s)), FractionDigits(s);
    hide DomainDecimal, Denoted, Spelled, Unsigned, Whole, FractionDigits, Fraction, Stripped;
    StrippedKeeps(s[0] == '-', w, f);
    var g := Stripped(f);
    var n := s[0] == '-' && !(w == "0" && g == "");
    SpelledValid(n, w, g);
    LastOf(n, w, g);
  }

  lemma LastOf(n: bool, w: string, g: string)
    ensures g != "" ==> Spelled(n, w, g)[|Spelled(n, w, g)| - 1] == g[|g| - 1]
  {}

  /** Two domain decimals denote the same number exactly when they have the same reduced spelling. */
  lemma SameNumberIffSameReduced(s: string, t: string)
    requires DomainDecimal(s) && DomainDecimal(t)
    ensures Denoted(s) == Denoted(t) <==> Reduce(s) == Reduce(t)
  {
    hide DomainDecimal, Denoted, Reduce;
    ReduceKeeps(s);
    ReduceKeeps(t);
    if Denoted(s) == Denoted(t) { OneReducedSpelling(Reduce(s), Reduce(t)); }
  }

  /** Reducing leaves exactly the reduced spellings alone. */
  lemma ReduceFixes(s: string)
    requires DomainDecimal(s)
    ensures Reduce(s) == s <==> Reduced(s)
  {
    hide DomainDecimal, Denoted, Reduce;
    ReduceKeeps(s);
    if Reduced(s) { OneReducedSpelling(s, Reduce(s)); }
  }
}
