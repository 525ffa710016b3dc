/** Positional numerals: writing a number in base 8, 10 or 16 and reading it back. */
module Numbers {

  datatype Base = Octal | Decimal | Hex

  function Radix(b: Base): (r: nat) { match b case Octal => 8 case Decimal => 10 case Hex => 16 }

  // The arithmetic of one digit, base by base.

  function Quot(u: nat, b: Base): (q: nat)
    ensures q <= u && (u >= Radix(b) ==> 0 < q < u) && (u < Radix(b) ==> q == 0)
  {
    match b case Octal => u / 8 case Decimal => u / 10 case Hex => u / 16
  }

  function Rem(u: nat, b: Base): (r: nat)
    ensures r < Radix(b)
  {
    match b case Octal => u % 8 case Decimal => u % 10 case Hex => u % 16
  }

  function Horner(x: nat, b: Base, d: nat): (r: nat) {
    match b case Octal => 8 * x + d case Decimal => 10 * x + d case Hex => 16 * x + d
  }

  function Pow(b: Base, n: nat): (p: nat)
    ensures p > 0
  {
    if n == 0 then 1 else Horner(Pow(b, n - 1), b, 0)
  }

  predicate IsDigit(c: char) { '0' <= c <= '9' }

  function DigitChar(d: nat, upper: bool): (r: char)
    requires d < 16
  {
    (if upper then "0123456789ABCDEF" else "0123456789abcdef")[d]
  }

  /** The value of a digit in any base up to 16; 16 for anything else. */
  function DigitValue(c: char): (r: nat) {
    if '0' <= c <= '9' then c as int - '0' as int
    else if 'a' <= c <= 'f' then c as int - 'a' as int + 10
    else if 'A' <= c <= 'F' then c as int - 'A' as int + 10
    else 16
  }

  predicate IsDigitOf(c: char, b: Base) { DigitValue(c) < Radix(b) }

  predicate AllDigits(s: string, b: Base) { s != "" && forall i :: 0 <= i < |s| ==> IsDigitOf(s[i], b) }

  function LeadingDigits(s: string, b: Base): (r: string)
    ensures |r| <= |s|
  {
    if s == "" || !IsDigitOf(s[0], b) then "" else [s[0]] + LeadingDigits(s[1..], b)
  }

  /** What the digits of `s` denote, most significant first. */
  function Value(s: string, b: Base): (r: nat) {
    if s == "" then 0 else Horner(Value(s[..|s| - 1], b), b, DigitValue(s[|s| - 1]))
  }

  /** The last `n` digits of `u`. */
  function Numeral(u: nat, b: Base, n: nat, upper: bool): (s: string)
    ensures |s| == n
  {
    if n == 0 then "" else Numeral(Quot(u, b), b, n - 1, upper) + [DigitChar(Rem(u, b), upper)]
  }

  /** How many digits it takes to write `u`. */
  function NumDigits(u: nat, b: Base): (n: nat)
    ensures n > 0
  {
    if u < Radix(b) then 1 else 1 + NumDigits(Quot(u, b), b)
  }

  /** `u` without its last `i` digits. */
  function Shift(u: nat, b: Base, i: nat): (r: nat) {
    if i == 0 then u else Quot(Shift(u, b, i - 1), b)
  }

  function InDecimal(u: nat): (r: string) { Numeral(u, Decimal, NumDigits(u, Decimal), false) }

  // ---- Lemmas ----

  lemma DigitRoundTrip(d: nat, upper: bool)
    requires d < 16
    ensures DigitValue(DigitChar(d, upper)) == d
    ensures d < 10 ==> DigitChar(d, upper) == '0' + d as char && IsDigit(DigitChar(d, upper))
  {
  }

  lemma QuotRem(u: nat, b: Base)
    ensures u == Horner(Quot(u, b), b, Rem(u, b))
  {
  }

  lemma ModUnique(u: int, m: int, q: int, r: int)
    requires m > 0 && u == m * q + r && 0 <= r < m
    ensures u % m == r
  {
    var q2, r2 := u / m, u % m;
    assert u == m * q2 + r2;
    assert m * (q - q2) == r2 - r && m * (q2 - q) == r - r2;
    if q > q2 {
      MulAtLeast(q - q2, m);
    } else if q2 > q {
      MulAtLeast(q2 - q, m);
    }
  }

  lemma MulAtLeast(x: int, m: int)
    requires x >= 1 && m >= 0
    ensures m * x >= m
  {
  }

  lemma Regroup(b: Base, p: nat, q: nat, pq: nat)
    requires pq == p * q
    ensures Horner(p, b, 0) * q == Horner(pq, b, 0)
  {
    match b
    case Octal => assert 8 * p * q == 8 * (p * q);
    case Decimal => assert 10 * p * q == 10 * (p * q);
    case Hex => assert 16 * p * q == 16 * (p * q);
  }

  lemma ModBound(u: nat, p: nat) returns (q: nat, pq: nat, r: nat)
    requires p > 0
    ensures u == pq + r && pq == p * q && r == u % p && r < p
  {
    q, r := u / p, u % p;
    pq := u - r;
  }

  /** Splitting off the last digit commutes with taking remainders. */
  lemma ModStep(u: nat, b: Base, p: nat)
    requires p > 0
    ensures u % Horner(p, b, 0) == Horner(Quot(u, b) % p, b, Rem(u, b))
  {
    QuotRem(u, b);
    var q, pq, r := ModBound(Quot(u, b), p);
    Regroup(b, p, q, pq);
    ModUnique(u, Horner(p, b, 0), q, Horner(r, b, Rem(u, b)));
  }

  lemma ValueAppend(s: string, b: Base, d: nat, upper: bool)
    requires d < 16
    ensures Value(s + [DigitChar(d, upper)], b) == Horner(Value(s, b), b, d)
  {
    var t := s + [DigitChar(d, upper)];
    assert t[..|t| - 1] == s && t[|t| - 1] == DigitChar(d, upper);
    DigitRoundTrip(d, upper);
  }

  /** Reading a numeral gives the number back, up to the digits that fit. */
  lemma {:induction false} NumeralValue(u: nat, b: Base, n: nat, upper: bool)
    ensures Value(Numeral(u, b, n, upper), b) == u % Pow(b, n)
  {
    if n > 0 {
      NumeralValue(Quot(u, b), b, n - 1, upper);
      ValueAppend(Numeral(Quot(u, b), b, n - 1, upper), b, Rem(u, b), upper);
      ModStep(u, b, Pow(b, n - 1));
    }
  }

  /** `NumDigits` digits are enough. */
  lemma {:induction false} NumDigitsEnough(u: nat, b: Base)
    ensures u < Pow(b, NumDigits(u, b))
  {
    QuotRem(u, b);
    assert Pow(b, 1) == Horner(Pow(b, 0), b, 0);
    if u >= Radix(b) {
      NumDigitsEnough(Quot(u, b), b);
    }
  }

  /** No fewer digits are enough. */
  lemma {:induction false} NumDigitsNeeded(u: nat, b: Base)
    requires u >= Radix(b)
    ensures Pow(b, NumDigits(u, b) - 1) <= u
  {
    QuotRem(u, b);
    assert Pow(b, 1) == Horner(Pow(b, 0), b, 0);
    if Quot(u, b) >= Radix(b) {
      NumDigitsNeeded(Quot(u, b), b);
    }
  }

  lemma {:induction false} PowMonotone(b: Base, m: nat, n: nat)
    requires m <= n
    ensures Pow(b, m) <= Pow(b, n)
    decreases n
  {
    if m < n {
      PowMonotone(b, m, n - 1);
    }
  }

  lemma SmallMod(u: nat, m: nat)
    requires u < m
    ensures u % m == u
  {
  }

  lemma DecimalValue(u: nat)
    ensures Value(InDecimal(u), Decimal) == u
  {
    var n := NumDigits(u, Decimal);
    NumeralValue(u, Decimal, n, false);
    NumDigitsEnough(u, Decimal);
    SmallMod(u, Pow(Decimal, n));
  }

  lemma {:induction false} NumeralDigits(u: nat, n: nat, j: nat)
    requires j < n
    ensures IsDigit(Numeral(u, Decimal, n, false)[j])
  {
    DigitRoundTrip(Rem(u, Decimal), false);
    if j < n - 1 {
      NumeralDigits(Quot(u, Decimal), n - 1, j);
    }
  }

  lemma {:induction false} ShiftInside(u: nat, b: Base, i: nat)
    ensures Shift(u, b, i + 1) == Shift(Quot(u, b), b, i)
  {
    if i > 0 {
      ShiftInside(u, b, i - 1);
    }
  }

  /** The digit at a given place. */
  lemma {:induction false} NumeralAt(u: nat, b: Base, n: nat, upper: bool, i: nat)
    requires i < n
    ensures Numeral(u, b, n, upper)[n - 1 - i] == DigitChar(Rem(Shift(u, b, i), b), upper)
    decreases n
  {
    hide Quot, Rem, DigitChar;
    if i > 0 {
      NumeralAt(Quot(u, b), b, n - 1, upper, i - 1);
      ShiftInside(u, b, i - 1);
    }
  }

  lemma {:induction false} NumeralIsDigits(u: nat, b: Base, n: nat, upper: bool)
    ensures forall i :: 0 <= i < n ==> IsDigitOf(Numeral(u, b, n, upper)[i], b)
  {
    if n > 0 {
      DigitRoundTrip(Rem(u, b), upper);
      NumeralIsDigits(Quot(u, b), b, n - 1, upper);
    }
  }

  lemma {:induction false} ReadsDigits(ds: string, t: string, b: Base)
    requires (forall i :: 0 <= i < |ds| ==> IsDigitOf(ds[i], b)) && (t == "" || !IsDigitOf(t[0], b))
    ensures LeadingDigits(ds + t, b) == ds
  {
    if ds == "" {
      assert ds + t == t;
    } else {
      assert (ds + t)[1..] == ds[1..] + t;
      ReadsDigits(ds[1..], t, b);
    }
  }
}
