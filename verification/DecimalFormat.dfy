/** Exact number text: a fraction prints as a terminating decimal when it has
    one and as `numerator/denominator` otherwise, never through a rounding step. */
module DecimalFormat {
  import opened Outcomes
  import opened Arithmetic

  datatype Fraction = Fraction(numerator: int, denominator: int) {
    /** What Python's `Fraction` keeps: a positive, reduced denominator. */
    ghost predicate Reduced() {
      denominator > 0 && Coprime(Abs(numerator), denominator)
    }

    function Value(): real
      requires denominator > 0
    {
      numerator as real / denominator as real
    }
  }

  type Rational = f: Fraction | f.Reduced() witness Fraction(0, 1)

  function Whole(k: int): Rational {
    OverOne(k);
    Fraction(k, 1)
  }

  lemma OverOne(k: int)
    ensures Coprime(Abs(k), 1)
  {
    assert Gcd(Abs(k), 1) == Gcd(1, Abs(k) % 1) == Gcd(1, 0);
  }

  // ----- digit strings -----

  predicate IsDigit(c: char) {
    '0' <= c <= '9'
  }

  ghost predicate AllDigits(s: string) {
    forall i :: 0 <= i < |s| ==> IsDigit(s[i])
  }

  function DigitChar(d: nat): (c: char)
    requires d < 10
    ensures IsDigit(c) && DigitValue(c) == d
  {
    ('0' as int + d) as char
  }

  function DigitValue(c: char): (d: nat)
    requires IsDigit(c)
    ensures d < 10
  {
    c as int - '0' as int
  }

  function Digits(n: nat): (s: string)
    ensures |s| > 0 && AllDigits(s)
    ensures ReadNat(s) == n
  {
    if n < 10 then
      assert ReadNat("") == 0;
      [DigitChar(n)]
    else
      var high := Digits(n / 10);
      assert (high + [DigitChar(n % 10)])[..|high|] == high;
      high + [DigitChar(n % 10)]
  }

  function ReadNat(s: string): nat
    requires AllDigits(s)
  {
    if s == "" then 0 else ReadNat(s[..|s| - 1]) * 10 + DigitValue(s[|s| - 1])
  }

  lemma {:induction false} ReadNatAppend(s: string, t: string)
    requires AllDigits(s) && AllDigits(t)
    ensures AllDigits(s + t)
    ensures ReadNat(s + t) == ReadNat(s) * Pow(10, |t|) + ReadNat(t)
    decreases |t|
  {
    if t == "" {
      assert s + t == s;
    } else {
      var front, last := t[..|t| - 1], DigitValue(t[|t| - 1]);
      ReadNatAppend(s, front);
      assert (s + t)[..|s + t| - 1] == s + front;
      assert ReadNat(s + t) == ReadNat(s + front) * 10 + last;
      ShiftDigit(ReadNat(s), Pow(10, |front|), ReadNat(front), last);
    }
  }

  lemma ShiftDigit(a: int, p: int, b: int, c: int)
    ensures (a * p + b) * 10 + c == a * (10 * p) + (b * 10 + c)
  {
  }

  function Zeros(n: nat): (s: string)
    ensures |s| == n && AllDigits(s)
    ensures forall i :: 0 <= i < n ==> s[i] == '0'
    ensures ReadNat(s) == 0
  {
    if n == 0 then "" else
    assert (Zeros(n - 1) + "0")[..n - 1] == Zeros(n - 1);
    Zeros(n - 1) + "0"
  }

  /** Python's `zfill` on a digit string: pad with zeros on the left. */
  function ZeroFill(s: string, width: nat): (r: string)
    requires AllDigits(s)
    ensures AllDigits(r) && |r| >= width && |r| >= |s|
    ensures ReadNat(r) == ReadNat(s)
    ensures s != "" ==> r != "" && r[|r| - 1] == s[|s| - 1]
  {
    if |s| < width then
      ReadNatAppend(Zeros(width - |s|), s);
      Zeros(width - |s|) + s
    else s
  }

  /** Python's `rstrip("0")`. */
  function TrimZeros(s: string): string {
    if s != "" && s[|s| - 1] == '0' then TrimZeros(s[..|s| - 1]) else s
  }

  // ----- the printer -----

  lemma QuotientShrinks(d: nat, p: nat)
    requires d > 0 && p > 1 && d % p == 0
    ensures 0 < d / p < d && d == p * (d / p)
  {
    var q := d / p;
    assert d == p * q;
    if q >= 1 {
      ProductAtLeast(p - 1, q);
    } else {
      ProductAtLeast(1 - q, p);
    }
  }

  /** How often p divides d, and what is left once it no longer does. */
  function Strip(d: nat, p: nat): (r: (nat, nat))
    requires d > 0 && p > 1
    ensures 0 < r.1
  {
    if d % p == 0 then
      QuotientShrinks(d, p);
      var rest := Strip(d / p, p);
      (rest.0 + 1, rest.1)
    else (0, d)
  }

  lemma {:induction false} StripFactors(d: nat, p: nat)
    requires d > 0 && p > 1
    ensures d == Pow(p, Strip(d, p).0) * Strip(d, p).1
    ensures Strip(d, p).1 % p != 0
  {
    if d % p == 0 {
      QuotientShrinks(d, p);
      StripFactors(d / p, p);
      MulAssoc(p, Pow(p, Strip(d / p, p).0), Strip(d / p, p).1);
    }
  }

  function Twos(value: Rational): nat { Strip(value.denominator, 2).0 }
  function Fives(value: Rational): nat { Strip(Strip(value.denominator, 2).1, 5).0 }
  function OtherFactors(value: Rational): nat { Strip(Strip(value.denominator, 2).1, 5).1 }

  predicate PrintsAsRatio(value: Rational) { OtherFactors(value) != 1 }

  function Max(a: nat, b: nat): nat { if a > b then a else b }

  function Exponent(value: Rational): nat { Max(Twos(value), Fives(value)) }

  function ScaledBy(value: Rational, exponent: nat): nat {
    NatProduct(Abs(value.numerator), Pow(10, exponent) / value.denominator);
    Abs(value.numerator) * (Pow(10, exponent) / value.denominator)
  }

  function Scaled(value: Rational): nat { ScaledBy(value, Exponent(value)) }

  function Sign(value: Rational): string { if value.numerator < 0 then "-" else "" }

  function ScaledDigits(value: Rational): (s: string)
    ensures AllDigits(s) && |s| > Exponent(value) && ReadNat(s) == Scaled(value)
  {
    ZeroFill(Digits(Scaled(value)), Exponent(value) + 1)
  }

  function IntegerDigits(value: Rational): string {
    ScaledDigits(value)[..|ScaledDigits(value)| - Exponent(value)]
  }

  function FractionDigits(value: Rational): string {
    ScaledDigits(value)[|ScaledDigits(value)| - Exponent(value)..]
  }

  function RatioTop(value: Rational): string {
    Sign(value) + Digits(Abs(value.numerator))
  }

  function Format(value: Rational): string {
    if PrintsAsRatio(value) then
      RatioTop(value) + "/" + Digits(value.denominator)
    else if Exponent(value) == 0 then
      Sign(value) + ScaledDigits(value)
    else
      var fraction := TrimZeros(FractionDigits(value));
      if fraction == "" then Sign(value) + IntegerDigits(value)
      else Sign(value) + (IntegerDigits(value) + "." + fraction)
  }

  method FormatNumber(value: Rational) returns (text: string)
    ensures text == Format(value)
  {
    var remainder: nat := value.denominator;
    var twos, fives := 0, 0;
    while remainder % 2 == 0
      invariant remainder > 0
      invariant Strip(value.denominator, 2) == (twos + Strip(remainder, 2).0, Strip(remainder, 2).1)
      decreases remainder
    {
      remainder := remainder / 2;
      twos := twos + 1;
    }
    while remainder % 5 == 0
      invariant remainder > 0
      invariant twos == Twos(value)
      invariant Strip(Strip(value.denominator, 2).1, 5) == (fives + Strip(remainder, 5).0, Strip(remainder, 5).1)
      decreases remainder
    {
      remainder := remainder / 5;
      fives := fives + 1;
    }
    if remainder != 1 {
      return Sign(value) + Digits(Abs(value.numerator)) + "/" + Digits(value.denominator);
    }
    assert remainder == OtherFactors(value) && fives == Fives(value);
    text := DecimalText(value, twos, fives);
  }

  /** The terminating branch: scale, pad, slice at the point, strip zeros. */
  method DecimalText(value: Rational, twos: nat, fives: nat) returns (text: string)
    requires !PrintsAsRatio(value) && twos == Twos(value) && fives == Fives(value)
    ensures text == Format(value)
  {
    hide Strip, ReadNat, Pow;
    var exponent := Max(twos, fives);
    var scaled := ScaledBy(value, exponent);
    var digits := ZeroFill(Digits(scaled), exponent + 1);
    assert digits == ScaledDigits(value);
    var sign := if value.numerator < 0 then "-" else "";
    if exponent == 0 {
      return sign + digits;
    }
    var integerPart := digits[..|digits| - exponent];
    var fractionalPart := TrimZeros(digits[|digits| - exponent..]);
    if fractionalPart == "" {
      return sign + integerPart;
    }
    return sign + (integerPart + "." + fractionalPart);
  }

  // ----- which denominators terminate -----

  lemma DenominatorFactors(value: Rational)
    ensures value.denominator == Pow(2, Twos(value)) * (Pow(5, Fives(value)) * OtherFactors(value))
    ensures OtherFactors(value) % 2 != 0 && OtherFactors(value) % 5 != 0
  {
    var odd := Strip(value.denominator, 2).1;
    StripFactors(value.denominator, 2);
    StripFactors(odd, 5);
    if OtherFactors(value) % 2 == 0 {
      ModZeroIffDivides(OtherFactors(value), 2);
      DividesProduct(2, OtherFactors(value), Pow(5, Fives(value)));
      ModZeroIffDivides(odd, 2);
    }
  }

  /** A prime's power that divides p^k * m, with m free of p, is at most the k-th. */
  lemma {:induction false} PrimePowerBound(p: nat, a: nat, q: int, k: nat, m: int)
    requires p == 2 || p == 5
    requires Pow(p, a) * q == Pow(p, k) * m && m % p != 0
    ensures a <= k
    decreases a
  {
    if a > 0 {
      var x := Pow(p, a - 1);
      assert Pow(p, a) == p * x;
      MulAssoc(p, x, q);
      if k == 0 {
        MultipleModZero(x * q, p);
      } else {
        var y := Pow(p, k - 1);
        assert Pow(p, k) == p * y;
        MulAssoc(p, y, m);
        Cancel(p, x * q, y * m);
        PrimePowerBound(p, a - 1, q, k - 1, m);
      }
    }
  }

  lemma PrimeFreeProduct(p: nat, a: int, b: int)
    requires p == 2 || p == 5
    requires a % p != 0 && b % p != 0
    ensures (a * b) % p != 0
  {
    if p == 2 {
      OddProduct(a, b);
    } else {
      FiveFreeProduct(a, b);
    }
  }

  lemma ExpandProduct(p: int, i: int, x: int, j: int, y: int)
    ensures (p * i + x) * (p * j + y) == p * (p * (i * j) + i * y + x * j) + x * y
  {
    assert (p * i) * (p * j) == p * (p * (i * j));
    assert (p * i) * y == p * (i * y);
    assert x * (p * j) == p * (x * j);
  }

  lemma OddProduct(a: int, b: int)
    requires a % 2 != 0 && b % 2 != 0
    ensures (a * b) % 2 != 0
  {
    var i, j := a / 2, b / 2;
    ExpandProduct(2, i, 1, j, 1);
    var n := 2 * (i * j) + i + j;
    assert a == 2 * i + 1 && b == 2 * j + 1;
    assert a * b == 2 * n + 1;
  }

  lemma FiveFreeProduct(a: int, b: int)
    requires a % 5 != 0 && b % 5 != 0
    ensures (a * b) % 5 != 0
  {
    var i, x, j, y := a / 5, a % 5, b / 5, b % 5;
    ExpandProduct(5, i, x, j, y);
    assert a == 5 * i + x && b == 5 * j + y;
    ResidueProduct(x, y, 5 * (i * j) + i * y + x * j);
  }

  lemma ResidueProduct(x: int, y: int, n: int)
    requires 1 <= x <= 4 && 1 <= y <= 4
    ensures (5 * n + x * y) % 5 != 0
  {
    if x == 1 {} else if x == 2 {} else if x == 3 {} else {}
  }

  lemma {:induction false} PrimeFreePower(p: nat, base: nat, k: nat)
    requires p == 2 || p == 5
    requires base % p != 0
    ensures Pow(base, k) % p != 0
    decreases k
  {
    if k > 0 {
      PrimeFreePower(p, base, k - 1);
      PrimeFreeProduct(p, base, Pow(base, k - 1));
    }
  }

  /** A factor of a power of ten that is odd and no multiple of five is 1. */
  lemma {:induction false} TenFreeDivisor(r: nat, q: int, k: nat)
    requires r % 2 != 0 && r % 5 != 0
    requires q * r == Pow(10, k)
    ensures r == 1
    decreases k
  {
    if k == 0 {
      UnitFactor(q, r);
    } else {
      TenFreeStep(r, q, Pow(10, k - 1));
      TenFreeDivisor(r, q / 10, k - 1);
    }
  }

  lemma UnitFactor(q: int, r: nat)
    requires q * r == 1
    ensures r == 1
  {
    if q >= 1 { ProductAtLeast(q, r); }
  }

  lemma TenFreeStep(r: nat, q: int, m: int)
    requires r % 2 != 0 && r % 5 != 0
    requires q * r == 10 * m
    ensures (q / 10) * r == m
  {
    EvenCofactor(r, q, 5 * m);
    FiveCofactor(r, q, 2 * m);
    TenFactor(q);
    MulAssoc(10, q / 10, r);
  }

  lemma EvenCofactor(r: int, q: int, m: int)
    requires q * r == 2 * m && r % 2 != 0
    ensures q % 2 == 0
  {
    if q % 2 != 0 {
      OddProduct(q, r);
    }
  }

  lemma FiveCofactor(r: int, q: int, m: int)
    requires q * r == 5 * m && r % 5 != 0
    ensures q % 5 == 0
  {
    if q % 5 != 0 {
      FiveFreeProduct(q, r);
    }
  }

  lemma TenFactor(q: int)
    requires q % 2 == 0 && q % 5 == 0
    ensures q == 10 * (q / 10)
  {
  }

  lemma DecimalDenominator(value: Rational)
    requires !PrintsAsRatio(value)
    ensures var e := Exponent(value);
            Pow(10, e) == (Pow(2, e - Twos(value)) * Pow(5, e - Fives(value))) * value.denominator
    ensures Pow(10, Exponent(value)) / value.denominator
         == Pow(2, Exponent(value) - Twos(value)) * Pow(5, Exponent(value) - Fives(value))
  {
    var e, a, b := Exponent(value), Twos(value), Fives(value);
    DenominatorFactors(value);
    PowTen(e);
    PowAdd(2, e - a, a);
    PowAdd(5, e - b, b);
    Regroup(Pow(2, e - a), Pow(2, a), Pow(5, e - b), Pow(5, b));
    MultipleModZero(Pow(2, e - a) * Pow(5, e - b), value.denominator);
  }

  /** A decimal is printed exactly when some power of ten is a multiple of the
      reduced denominator. */
  lemma RatioIffNonTerminating(value: Rational)
    ensures PrintsAsRatio(value) <==> !exists k: nat :: Divides(value.denominator, Pow(10, k))
  {
    if !PrintsAsRatio(value) {
      DecimalDenominator(value);
      var e := Exponent(value);
      DividesIntro(value.denominator, Pow(10, e), Pow(2, e - Twos(value)) * Pow(5, e - Fives(value)));
    }
    if k: nat :| Divides(value.denominator, Pow(10, k)) {
      DenominatorFactors(value);
      var q :| q * value.denominator == Pow(10, k);
      PullFactor(q, Pow(2, Twos(value)), Pow(5, Fives(value)), OtherFactors(value));
      TenFreeDivisor(OtherFactors(value), q * (Pow(2, Twos(value)) * Pow(5, Fives(value))), k);
    }
  }

  lemma PullFactor(q: int, a: int, b: int, r: int)
    ensures q * (a * (b * r)) == (q * (a * b)) * r
  {
    MulAssoc(a, b, r);
    MulAssoc(q, a * b, r);
  }

  // ----- fewest fractional digits -----

  /** Any decimal mantissa/10^k equal to the value has at least as many digits
      after the point as the one printed. */
  lemma FewestDigits(value: Rational, mantissa: int, k: nat)
    requires !PrintsAsRatio(value)
    requires mantissa * value.denominator == value.numerator * Pow(10, k)
    ensures Exponent(value) <= k
  {
    var twos, fives := Pow(2, Twos(value)), Pow(5, Fives(value));
    assert value.denominator == twos * fives by {
      DenominatorFactors(value);
    }
    PowTen(k);
    hide OtherFactors, Pow, Strip, Gcd;
    FewestForPrime(value, 2, Twos(value), fives, mantissa, k, Pow(5, k));
    FewestForPrime(value, 5, Fives(value), twos, mantissa, k, Pow(2, k));
  }

  lemma FewestForPrime(value: Rational, p: nat, a: nat, cofactor: nat, mantissa: int, k: nat, others: int)
    requires (p == 2 && others == Pow(5, k)) || (p == 5 && others == Pow(2, k))
    requires value.denominator == Pow(p, a) * cofactor
    requires Pow(10, k) == Pow(p, k) * others
    requires mantissa * value.denominator == value.numerator * Pow(10, k)
    ensures a <= k
  {
    if a > 0 {
      NumeratorFree(value, p, a, cofactor);
      PrimeFreePower(p, if p == 2 then 5 else 2, k);
      PrimeBound(p, a, cofactor, value.denominator, mantissa, value.numerator, k, others, Pow(10, k));
    }
  }

  lemma PrimeBound(p: nat, a: nat, cofactor: int, d: int, mantissa: int, numerator: int, k: nat, others: int, ten: int)
    requires p == 2 || p == 5
    requires numerator % p != 0 && others % p != 0
    requires d == Pow(p, a) * cofactor && ten == Pow(p, k) * others
    requires mantissa * d == numerator * ten
    ensures a <= k
  {
    hide Pow;
    PrimeFreeProduct(p, numerator, others);
    Swap(mantissa, Pow(p, a), cofactor, d);
    Swap(numerator, Pow(p, k), others, ten);
    PrimePowerBound(p, a, mantissa * cofactor, k, numerator * others);
  }

  lemma Swap(a: int, b: int, c: int, product: int)
    requires product == b * c
    ensures a * product == b * (a * c)
  {
  }

  /** Reduced: a prime in the denominator is not in the numerator. */
  lemma NumeratorFree(value: Rational, p: nat, a: nat, cofactor: nat)
    requires p == 2 || p == 5
    requires a > 0 && value.denominator == Pow(p, a) * cofactor
    ensures value.numerator % p != 0
  {
    if value.numerator % p == 0 {
      assert Abs(value.numerator) % p == 0 by {
        ModZeroIffDivides(value.numerator, p);
        DividesProduct(p, value.numerator, -1);
        ModZeroIffDivides(-value.numerator, p);
      }
      ModZeroIffDivides(Abs(value.numerator), p);
      MulAssoc(p, Pow(p, a - 1), cofactor);
      DividesIntro(p, value.denominator, Pow(p, a - 1) * cofactor);
      CoprimeNoCommonFactor(Abs(value.numerator), value.denominator, p);
    }
  }

  /** The last printed digit is never a zero, so stripping zeros removes nothing. */
  lemma TrimIsIdle(value: Rational)
    requires !PrintsAsRatio(value) && Exponent(value) > 0
    ensures |FractionDigits(value)| == Exponent(value)
    ensures TrimZeros(FractionDigits(value)) == FractionDigits(value)
  {
    ScaledLastDigit(value);
    var s := ScaledDigits(value);
    assert ReadNat(s) == ReadNat(s[..|s| - 1]) * 10 + DigitValue(s[|s| - 1]);
    assert s[|s| - 1] != '0';
  }

  lemma ScaledLastDigit(value: Rational)
    requires !PrintsAsRatio(value) && Exponent(value) > 0
    ensures Scaled(value) % 10 != 0
  {
    var e, a, b := Exponent(value), Twos(value), Fives(value);
    DecimalDenominator(value);
    DenominatorFactors(value);
    var quotient := Pow(10, e) / value.denominator;
    if e == a {
      NumeratorFree(value, 2, a, Pow(5, b));
      PrimeFreePower(2, 5, e - b);
      ScaledFree(2, value.numerator, quotient);
    } else {
      NumeratorFree(value, 5, b, Pow(2, a));
      PrimeFreePower(5, 2, e - a);
      ScaledFree(5, value.numerator, quotient);
    }
  }

  lemma ScaledFree(p: nat, n: int, quotient: int)
    requires p == 2 || p == 5
    requires n % p != 0 && quotient % p != 0
    ensures (Abs(n) * quotient) % 10 != 0
  {
    AbsFree(p, n);
    PrimeFreeProduct(p, Abs(n), quotient);
    NotMultipleOfTen(p, Abs(n) * quotient);
  }

  lemma AbsFree(p: nat, n: int)
    requires (p == 2 || p == 5) && n % p != 0
    ensures Abs(n) % p != 0
  {
    if p == 2 {} else {}
  }

  lemma NotMultipleOfTen(p: nat, n: int)
    requires (p == 2 || p == 5) && n % p != 0
    ensures n % 10 != 0
  {
    if p == 2 {
      assert n % 2 == (n % 10) % 2;
    } else {
      assert n % 5 == (n % 10) % 5;
    }
  }

  // ----- reading the text back -----

  function DigitRun(s: string): (n: nat)
    ensures n <= |s| && AllDigits(s[..n])
    ensures n < |s| ==> !IsDigit(s[n])
  {
    if s != "" && IsDigit(s[0]) then
      assert forall i :: 1 <= i < 1 + DigitRun(s[1..]) ==> s[i] == s[1..][..DigitRun(s[1..])][i - 1];
      1 + DigitRun(s[1..])
    else 0
  }

  lemma {:induction false} DigitRunExact(s: string, rest: string)
    requires AllDigits(s)
    requires rest != "" ==> !IsDigit(rest[0])
    ensures DigitRun(s + rest) == |s| && (s + rest)[..|s|] == s && (s + rest)[|s|..] == rest
    decreases |s|
  {
  }

  datatype Scan = Scan(value: real, length: nat)

  /** An unsigned decimal at the front of s: digits, then a point and digits. */
  function ScanUnsigned(s: string): (r: Option<Scan>)
    ensures r.Some? ==> 0 < r.value.length <= |s|
  {
    var n := DigitRun(s);
    if n == 0 then None
    else if n < |s| && s[n] == '.' && DigitRun(s[n + 1..]) > 0 then
      var m := DigitRun(s[n + 1..]);
      Some(Scan(PointedValue(s[..n], s[n + 1..][..m]), n + 1 + m))
    else Some(Scan(ReadNat(s[..n]) as real, n))
  }

  /** The same with an optional minus sign attached in front. */
  function ScanDecimal(s: string): (r: Option<Scan>)
    ensures r.Some? ==> 0 < r.value.length <= |s|
  {
    if s != "" && s[0] == '-' then
      match ScanUnsigned(s[1..])
      case Some(scan) => Some(Scan(-scan.value, scan.length + 1))
      case None => None
    else ScanUnsigned(s)
  }

  /** Reads a whole text as a decimal or as a ratio of two decimals. */
  function ParseNumber(s: string): Option<real> {
    match ScanDecimal(s)
    case None => None
    case Some(first) =>
      var rest := s[first.length..];
      if rest == "" then Some(first.value)
      else if rest[0] != '/' then None
      else
        match ScanDecimal(rest[1..])
        case Some(second) =>
          if second.length == |rest| - 1 && second.value != 0.0 then Some(first.value / second.value) else None
        case None => None
  }

  /** Text after which a decimal has certainly ended. */
  ghost predicate EndsNumber(rest: string) {
    rest != "" ==> !IsDigit(rest[0]) && rest[0] != '.'
  }

  lemma ScanInteger(negative: bool, digits: string, rest: string)
    requires AllDigits(digits) && digits != "" && EndsNumber(rest)
    ensures var text := (if negative then "-" else "") + digits;
            var value := ReadNat(digits) as real;
            ScanDecimal(text + rest) == Some(Scan(if negative then -value else value, |text|))
  {
    ScanUnsignedInteger(digits, rest);
    SignedScan(negative, digits, rest, Scan(ReadNat(digits) as real, |digits|));
  }

  lemma ScanUnsignedInteger(digits: string, rest: string)
    requires AllDigits(digits) && digits != "" && EndsNumber(rest)
    ensures ScanUnsigned(digits + rest) == Some(Scan(ReadNat(digits) as real, |digits|))
    ensures ScanDecimal(digits + rest) == ScanUnsigned(digits + rest)
  {
    DigitRunExact(digits, rest);
    assert IsDigit((digits + rest)[0]);
  }

  lemma SignedScan(negative: bool, text: string, rest: string, scan: Scan)
    requires text != "" && text[0] != '-' && ScanUnsigned(text + rest) == Some(scan)
    ensures var sign := if negative then "-" else "";
            ScanDecimal(sign + text + rest)
            == Some(Scan(if negative then -scan.value else scan.value, |sign| + scan.length))
  {
    if negative {
      assert ("-" + text + rest)[1..] == text + rest;
    } else {
      assert "" + text + rest == text + rest;
    }
  }

  function PointedValue(whole: string, fraction: string): real
    requires AllDigits(whole) && AllDigits(fraction)
  {
    PowPositive(10, |fraction|);
    ReadNat(whole) as real + ReadNat(fraction) as real / Pow(10, |fraction|) as real
  }

  lemma ScanUnsignedPointed(whole: string, fraction: string, rest: string)
    requires AllDigits(whole) && whole != "" && AllDigits(fraction) && fraction != "" && EndsNumber(rest)
    ensures ScanUnsigned(whole + ("." + (fraction + rest)))
         == Some(Scan(PointedValue(whole, fraction), |whole| + 1 + |fraction|))
  {
    var tail := "." + (fraction + rest);
    var body := whole + tail;
    DigitRunExact(whole, tail);
    DigitRunExact(fraction, rest);
    assert body[|whole|] == '.';
    assert body[|whole| + 1..] == fraction + rest;
  }

  lemma JoinPointed(whole: string, fraction: string, rest: string)
    ensures (whole + "." + fraction) + rest == whole + ("." + (fraction + rest))
  {
  }

  lemma ScanPointed(negative: bool, whole: string, fraction: string, rest: string, scan: Scan)
    requires AllDigits(whole) && whole != "" && AllDigits(fraction) && fraction != "" && EndsNumber(rest)
    requires scan == Scan(PointedValue(whole, fraction), |whole| + 1 + |fraction|)
    ensures var sign := if negative then "-" else "";
            ScanDecimal(sign + (whole + "." + fraction) + rest)
            == Some(Scan(if negative then -scan.value else scan.value, |sign| + scan.length))
  {
    ScanUnsignedPointed(whole, fraction, rest);
    JoinPointed(whole, fraction, rest);
    assert (whole + "." + fraction)[0] == whole[0];
    SignedScan(negative, whole + "." + fraction, rest, scan);
  }

  lemma EqualQuotients(s: int, p: int, n: int, d: int)
    requires p > 0 && d > 0 && s * d == n * p
    ensures s as real / p as real == n as real / d as real
  {
  }

  lemma DecimalPieces(value: Rational)
    requires !PrintsAsRatio(value) && Exponent(value) > 0
    ensures AllDigits(IntegerDigits(value)) && IntegerDigits(value) != ""
    ensures AllDigits(FractionDigits(value)) && FractionDigits(value) != ""
    ensures Format(value) == Sign(value) + (IntegerDigits(value) + "." + FractionDigits(value))
    ensures Pow(10, Exponent(value)) > 0
    ensures PointedValue(IntegerDigits(value), FractionDigits(value))
         == Scaled(value) as real / Pow(10, Exponent(value)) as real
  {
    TrimIsIdle(value);
    DigitsSplit(value);
    hide ScaledDigits, Scaled, Exponent, PrintsAsRatio, TrimZeros, IntegerDigits, FractionDigits, Sign, Pow, ReadNat;
    var whole, fraction := IntegerDigits(value), FractionDigits(value);
    PowPositive(10, Exponent(value));
    SplitQuotient(ReadNat(whole), ReadNat(fraction), Pow(10, Exponent(value)));
  }

  /** The digits before and after the point are those of the scaled number. */
  lemma DigitsSplit(value: Rational)
    requires Exponent(value) > 0
    ensures var whole, fraction := IntegerDigits(value), FractionDigits(value);
            && AllDigits(whole) && whole != "" && AllDigits(fraction) && |fraction| == Exponent(value)
            && Scaled(value) == ReadNat(whole) * Pow(10, Exponent(value)) + ReadNat(fraction)
  {
    hide ScaledDigits, Scaled, Exponent;
    var whole, fraction := IntegerDigits(value), FractionDigits(value);
    assert whole + fraction == ScaledDigits(value);
    ReadNatAppend(whole, fraction);
  }

  lemma ScanWhole(value: Rational, rest: string)
    requires !PrintsAsRatio(value) && Exponent(value) == 0 && EndsNumber(rest)
    ensures ScanDecimal(Format(value) + rest) == Some(Scan(value.Value(), |Format(value)|))
  {
    ScaledValue(value);
    assert Pow(10, 0) == 1;
    ScanInteger(value.numerator < 0, ScaledDigits(value), rest);
  }

  lemma ScanFractional(value: Rational, rest: string)
    requires !PrintsAsRatio(value) && Exponent(value) > 0 && EndsNumber(rest)
    ensures ScanDecimal(Format(value) + rest) == Some(Scan(value.Value(), |Format(value)|))
  {
    var negative := value.numerator < 0;
    assert Sign(value) == if negative then "-" else "";
    hide *;
    DecimalPieces(value);
    var whole, fraction := IntegerDigits(value), FractionDigits(value);
    var scan := Scan(if negative then -value.Value() else value.Value(), |whole| + 1 + |fraction|);
    assert scan.value == PointedValue(whole, fraction) by {
      ScaledValue(value);
    }
    ScanPointed(negative, whole, fraction, rest, scan);
  }

  /** A decimal text at the front of a line scans to exactly the value printed. */
  lemma ScanFormattedDecimal(value: Rational, rest: string)
    requires !PrintsAsRatio(value) && EndsNumber(rest)
    ensures ScanDecimal(Format(value) + rest) == Some(Scan(value.Value(), |Format(value)|))
  {
    if Exponent(value) == 0 {
      ScanWhole(value, rest);
    } else {
      ScanFractional(value, rest);
    }
  }

  lemma SplitQuotient(whole: int, fraction: int, p: int)
    requires p > 0
    ensures (whole * p + fraction) as real / p as real == whole as real + fraction as real / p as real
  {
    assert (whole * p + fraction) as real == whole as real * p as real + fraction as real;
  }

  lemma ScaledValue(value: Rational)
    requires !PrintsAsRatio(value)
    ensures Pow(10, Exponent(value)) > 0
    ensures var magnitude := Scaled(value) as real / Pow(10, Exponent(value)) as real;
            value.Value() == if value.numerator < 0 then -magnitude else magnitude
  {
    var p := Pow(10, Exponent(value));
    DecimalDenominator(value);
    PowPositive(10, Exponent(value));
    MulAssoc(Abs(value.numerator), p / value.denominator, value.denominator);
    EqualQuotients(Scaled(value), p, Abs(value.numerator), value.denominator);
    NegatedQuotient(value.numerator, value.denominator);
  }

  lemma NegatedQuotient(n: int, d: int)
    requires d > 0
    ensures (-n) as real / d as real == -(n as real / d as real)
  {
  }

  lemma ScanRatioTop(value: Rational, rest: string)
    requires PrintsAsRatio(value)
    ensures ScanDecimal(RatioTop(value) + ("/" + rest)) == Some(Scan(value.numerator as real, |RatioTop(value)|))
  {
    ScanInteger(value.numerator < 0, Digits(Abs(value.numerator)), "/" + rest);
  }

  lemma ScanFormattedRatio(value: Rational, rest: string)
    requires PrintsAsRatio(value) && EndsNumber(rest)
    ensures ScanDecimal(Format(value) + rest) == Some(Scan(value.numerator as real, |RatioTop(value)|))
    ensures Format(value) == RatioTop(value) + "/" + Digits(value.denominator)
    ensures var bottom := Digits(value.denominator);
            ScanDecimal(bottom + rest) == Some(Scan(value.denominator as real, |bottom|))
  {
    var bottom := Digits(value.denominator);
    ScanRatioTop(value, bottom + rest);
    assert Format(value) + rest == RatioTop(value) + ("/" + (bottom + rest));
    ScanUnsignedInteger(bottom, rest);
  }

  /** The printed text reads back as exactly the value, for every rational. */
  lemma FormatRoundTrip(value: Rational)
    ensures ParseNumber(Format(value)) == Some(value.Value())
  {
    assert Format(value) + "" == Format(value);
    if PrintsAsRatio(value) {
      ScanFormattedRatio(value, "");
      assert Digits(value.denominator) + "" == Digits(value.denominator);
      assert Format(value)[|RatioTop(value)|..] == "/" + Digits(value.denominator);
      assert ("/" + Digits(value.denominator))[1..] == Digits(value.denominator);
    } else {
      ScanFormattedDecimal(value, "");
    }
  }
}
