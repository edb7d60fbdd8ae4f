/** Which texts the integer decoder accepts, and what it reads: the whole grammar of decimal numbers. */
module NumberTexts {
  import opened Wrappers
  import opened Text
  import opened Arithmetic
  import opened Specs

  // The grammar

  datatype Exponent = NoExponent | Exponent(mark: char, sign: string, digits: string)

  /** The parts of a decimal number as written. */
  datatype Numeral = Numeral(sign: string, whole: string, point: bool, fraction: string, exponent: Exponent)

  predicate IsSign(s: string) {
    s == "" || s == "+" || s == "-"
  }

  predicate AllDigits(s: string) {
    forall i :: 0 <= i < |s| ==> IsDigit(s[i])
  }

  predicate ExponentOk(e: Exponent) {
    e.Exponent? ==> (e.mark == 'e' || e.mark == 'E') && IsSign(e.sign) && AllDigits(e.digits) && e.digits != ""
  }

  /** At least one digit before the exponent, a fraction only after a point, an exponent only with digits. */
  predicate WellFormed(n: Numeral) {
    && IsSign(n.sign) && AllDigits(n.whole) && AllDigits(n.fraction) && ExponentOk(n.exponent)
    && (n.fraction != "" ==> n.point) && (n.whole == "" ==> n.fraction != "")
  }

  function ExponentText(e: Exponent): string {
    match e
    case NoExponent => ""
    case Exponent(mark, sign, digits) => [mark] + (sign + digits)
  }

  function PointText(n: Numeral): string {
    if n.point then "." + (n.fraction + ExponentText(n.exponent)) else ExponentText(n.exponent)
  }

  function NumeralText(n: Numeral): string {
    n.sign + (n.whole + PointText(n))
  }

  function ExponentValue(e: Exponent): int {
    match e
    case NoExponent => 0
    case Exponent(_, sign, digits) => var v: int := Value(digits); if sign == "-" then -v else v
  }

  /** (-1)^sign * digits * 10^(exponent - length of the fraction) */
  function Meaning(n: Numeral): Number {
    Number(n.sign == "-", n.whole + n.fraction, ExponentValue(n.exponent) - |n.fraction|, "")
  }

  // Every numeral is read as what it means

  lemma SignRead(sign: string, t: string)
    requires IsSign(sign) && t != "" && t[0] != '+' && t[0] != '-'
    ensures ScanSign(sign + t) == (sign == "-", t)
  {
    if sign == "" {
      assert sign + t == t;
    } else {
      assert (sign + t)[1..] == t;
    }
  }

  lemma DigitsRead(digits: string, rest: string)
    requires AllDigits(digits) && (rest == "" || !IsDigit(rest[0]))
    ensures ScanDigits(digits + rest) == (digits, rest)
  {
    DigitSpanConcat(digits, rest);
    DropFirst(digits, rest);
  }

  lemma ExponentRead(e: Exponent)
    requires ExponentOk(e)
    ensures ScanExponent(ExponentText(e)) == (ExponentValue(e), "")
  {
    if e.Exponent? {
      assert ([e.mark] + (e.sign + e.digits))[1..] == e.sign + e.digits;
      SignRead(e.sign, e.digits);
      assert e.digits + "" == e.digits;
      DigitsRead(e.digits, "");
    }
  }

  lemma PointRead(n: Numeral)
    requires WellFormed(n)
    ensures ScanFraction(PointText(n)) == (n.fraction, ExponentText(n.exponent))
    ensures PointText(n) == "" || !IsDigit(PointText(n)[0])
  {
    var x := ExponentText(n.exponent);
    if n.point {
      assert ("." + (n.fraction + x))[1..] == n.fraction + x;
      DigitsRead(n.fraction, x);
    }
  }

  lemma ScaleRead(negative: bool, digits: string, point: nat, e: Exponent)
    requires digits != "" && ExponentOk(e)
    ensures Scale(negative, digits, point, ExponentText(e)) == Some(Number(negative, digits, ExponentValue(e) - point, ""))
  {
    ExponentRead(e);
  }

  lemma UnsignedRead(negative: bool, whole: string, fraction: string, tail: string, e: Exponent)
    requires AllDigits(whole) && (tail == "" || !IsDigit(tail[0])) && whole + fraction != "" && ExponentOk(e)
    requires ScanFraction(tail) == (fraction, ExponentText(e))
    ensures ScanUnsigned(negative, whole + tail)
            == Some(Number(negative, whole + fraction, ExponentValue(e) - |fraction|, ""))
  {
    hide ScanDigits, Scale, ExponentText, ExponentValue;
    DigitsRead(whole, tail);
    ScaleRead(negative, whole + fraction, |fraction|, e);
  }

  lemma PartsRead(sign: string, whole: string, fraction: string, tail: string, e: Exponent)
    requires AllDigits(whole) && (tail == "" || !IsDigit(tail[0])) && whole + fraction != "" && ExponentOk(e)
    requires ScanFraction(tail) == (fraction, ExponentText(e))
    requires IsSign(sign) && whole + tail != "" && (whole + tail)[0] != '+' && (whole + tail)[0] != '-'
    ensures ScanNumber(sign + (whole + tail))
            == Some(Number(sign == "-", whole + fraction, ExponentValue(e) - |fraction|, ""))
  {
    hide ScanSign, ScanUnsigned;
    SignRead(sign, whole + tail);
    UnsignedRead(sign == "-", whole, fraction, tail, e);
  }

  lemma UnsignedStart(n: Numeral)
    requires WellFormed(n)
    ensures n.whole + n.fraction != ""
    ensures var t := n.whole + PointText(n); t != "" && t[0] != '+' && t[0] != '-'
  {
  }

  lemma NumeralRead(n: Numeral)
    requires WellFormed(n)
    ensures ScanNumber(NumeralText(n)) == Some(Meaning(n))
  {
    hide ScanNumber;
    UnsignedStart(n);
    PointRead(n);
    PartsRead(n.sign, n.whole, n.fraction, PointText(n), n.exponent);
  }

  // Every text that is read to its end is a numeral

  lemma SignWritten(s: string) returns (sign: string)
    ensures IsSign(sign) && s == sign + ScanSign(s).1
  {
    sign := if s != "" && s[0] in "+-" then [s[0]] else "";
  }

  lemma DigitsWritten(s: string)
    ensures AllDigits(ScanDigits(s).0) && s == ScanDigits(s).0 + ScanDigits(s).1
  {
  }

  lemma ExponentWritten(x: string) returns (e: Exponent)
    ensures ScanExponent(x).1 == "" ==> ExponentOk(e) && x == ExponentText(e)
  {
    e := NoExponent;
    if x != "" && ScanExponent(x).1 == "" {
      var sign := SignWritten(x[1..]);
      var t := ScanSign(x[1..]).1;
      DigitsWritten(t);
      e := Exponent(x[0], sign, ScanDigits(t).0);
      assert t == ScanDigits(t).0 + "" == ScanDigits(t).0;
      assert x == [x[0]] + x[1..];
    }
  }

  lemma FractionWritten(r: string) returns (point: bool)
    ensures AllDigits(ScanFraction(r).0) && (ScanFraction(r).0 != "" ==> point)
    ensures r == if point then "." + (ScanFraction(r).0 + ScanFraction(r).1) else ScanFraction(r).1
  {
    point := r != "" && r[0] == '.';
    if point {
      DigitsWritten(r[1..]);
      assert r == "." + r[1..];
    }
  }

  lemma NumeralWritten(s: string) returns (n: Numeral)
    ensures ScanNumber(s).Some? && ScanNumber(s).value.rest == "" ==> WellFormed(n) && NumeralText(n) == s
  {
    var sign := SignWritten(s);
    var t := ScanSign(s).1;
    DigitsWritten(t);
    var r := ScanDigits(t).1;
    var point := FractionWritten(r);
    var e := ExponentWritten(ScanFraction(r).1);
    n := Numeral(sign, ScanDigits(t).0, point, ScanFraction(r).0, e);
  }

  // What the decoder makes of them

  function PositivePart(x: int): nat {
    if x > 0 then x else 0
  }

  /** m == mantissa * 10^exponent, without fractions. */
  predicate IsShifted(m: nat, mantissa: nat, exponent: int) {
    m * Pow(10, PositivePart(-exponent)) == mantissa * Pow(10, PositivePart(exponent))
  }

  lemma ShiftedMeans(m: nat, mantissa: nat, exponent: int)
    ensures Shifted(mantissa, exponent) == Some(m) <==> IsShifted(m, mantissa, exponent)
  {
    if exponent < 0 {
      var scale := Pow(10, -exponent);
      PowPositive(10, -exponent);
      assert Pow(10, PositivePart(exponent)) == 1;
      if m * scale == mantissa {
        QuotientUnique(mantissa, scale, m, 0);
      }
      Division(mantissa, scale);
    } else {
      assert Pow(10, PositivePart(-exponent)) == 1;
    }
  }

  /** v is what reading the number as a double and rounding it to an integer yields, if that is accepted. */
  ghost predicate Denotes(n: Number, v: int) {
    exists m: nat :: IsShifted(m, Value(n.digits), n.exponent) && v == Rounded(m) && v < TWO63 && (n.negative ==> v == 0)
  }

  lemma AssessedIsDenoted(n: Number, v: int)
    requires n.rest == ""
    ensures Assess(n) == Ok(v) <==> Denotes(n, v)
  {
    PowPositive(2, 961);
    ScaledAtLeast(TWO63, Pow(2, 961));
    if Assess(n) == Ok(v) {
      ShiftedMeans(Magnitude(n).value, Value(n.digits), n.exponent);
    }
    if Denotes(n, v) {
      var m: nat :| IsShifted(m, Value(n.digits), n.exponent) && v == Rounded(m) && v < TWO63 && (n.negative ==> v == 0);
      ShiftedMeans(m, Value(n.digits), n.exponent);
    }
  }

  /**
   The integer decoder, for every text: it yields v exactly when the text is a numeral whose value is an integer, is
   not negative, and is v as a double.
   */
  lemma IntegerTexts(s: string, v: int)
    ensures DecodeInteger(s) == Ok(v) <==>
            exists n :: WellFormed(n) && NumeralText(n) == s && Denotes(Meaning(n), v)
  {
    if DecodeInteger(s) == Ok(v) {
      var n := NumeralWritten(s);
      NumeralRead(n);
      AssessedIsDenoted(Meaning(n), v);
    }
    if n :| WellFormed(n) && NumeralText(n) == s && Denotes(Meaning(n), v) {
      NumeralRead(n);
      AssessedIsDenoted(Meaning(n), v);
    }
  }

  // Negative numbers

  /** Text after a minus sign is read as zero or not at all. */
  lemma MinusReadsZero(t: string)
    ensures DecodeInteger("-" + t).Ok? ==> DecodeInteger("-" + t).value == 0
  {
    assert ("-" + t)[1..] == t;
  }

  lemma RoundedPositive(m: nat)
    requires 0 < m <= TWO63
    ensures 0 < Rounded(m) < TWO63 * Pow(2, 961)
  {
    RoundedExact(m);
    var u := Ulp(m);
    if m < TWO53 {
      assert u == 1;
    } else {
      var k := UlpShape(m);
      Division(m, u);
      NextMultiple(0, m / u, u);
    }
    assert u <= m;
    PowPositive(2, 959);
    assert Pow(2, 961) == 2 * Pow(2, 960) == 4 * Pow(2, 959);
  }

  /** A negative integer, as it is written, is an invalid configuration. */
  lemma NegativeIsInvalid(n: int)
    requires -TWO63 <= n < 0
    ensures DecodeInteger(Signed(n)) == Err(InvalidConfiguration)
  {
    DecodeSigned(n);
    RoundedPositive(-n);
  }

  /** So are a negative time, percentage, rate and phase range, as they are encoded. */
  lemma NegativesAreInvalid(n: int, m: int)
    requires -TWO63 <= n < 0 && Exact(m)
    ensures DecodeTime(EncodeTime(n)) == Err(InvalidConfiguration)
    ensures DecodePercentile(EncodePercentile(n)) == Err(InvalidConfiguration)
    ensures DecodeBase(EncodeBase(BaseRate(m, n))) == Err(InvalidConfiguration)
    ensures DecodeBase(EncodeBase(BaseRate(n, m))) == Err(InvalidConfiguration)
    ensures DecodeRange(EncodeRange(Range(n, m))) == Err(InvalidConfiguration)
    ensures DecodeRange(EncodeRange(Range(m, n))) == Err(InvalidConfiguration)
  {
    NegativeIsInvalid(n);
    IntegerRoundTrip(m);
    DecodeEncodedTime(n);
    assert EncodePercentile(n) == Signed(n) + ("%" + "");
    SignedCuts(n, "%", "");
    DecodeEncodedBase(BaseRate(m, n));
    DecodeEncodedBase(BaseRate(n, m));
    SignedCuts(n, "..", Signed(m));
    SignedCuts(m, "..", Signed(n));
  }

  // Fractions

  lemma NextDigit(v: nat, p: nat, r: nat, d: nat)
    ensures 10 * (v * p + r) + d == v * (10 * p) + (10 * r + d)
  {
  }

  lemma {:induction false} ValueConcat(a: string, b: string)
    ensures Value(a + b) == Value(a) * Pow(10, |b|) + Value(b)
  {
    if b == "" {
      assert a + b == a;
    } else {
      var front := b[..|b| - 1];
      assert (a + b)[..|a + b| - 1] == a + front;
      ValueConcat(a, front);
      assert (a + b)[|a + b| - 1] == b[|b| - 1];
      NextDigit(Value(a), Pow(10, |b| - 1), Value(front), DigitValue(b[|b| - 1]));
    }
  }

  lemma {:induction false} ValueBelow(s: string)
    ensures Value(s) < Pow(10, |s|)
  {
    if s != "" {
      ValueBelow(s[..|s| - 1]);
    }
  }

  lemma PointNumber(w: nat, fraction: string)
    requires AllDigits(fraction)
    ensures ScanNumber(Digits(w) + ("." + fraction)) == Some(Number(false, Digits(w) + fraction, -|fraction|, ""))
  {
    hide ScanNumber, NumeralText;
    PointNumeral(Digits(w), fraction);
    NumeralRead(Numeral("", Digits(w), true, fraction, NoExponent));
  }

  lemma PointNumeral(whole: string, fraction: string)
    ensures NumeralText(Numeral("", whole, true, fraction, NoExponent)) == whole + ("." + fraction)
  {
    assert fraction + "" == fraction;
    assert "" + (whole + ("." + fraction)) == whole + ("." + fraction);
  }

  lemma PointValue(w: nat, fraction: string)
    ensures Value(Digits(w) + fraction) == w * Pow(10, |fraction|) + Value(fraction) && Value(fraction) < Pow(10, |fraction|)
  {
    ValueDigits(w);
    ValueConcat(Digits(w), fraction);
    ValueBelow(fraction);
  }

  lemma PointShifted(w: nat, f: nat, k: nat, exponent: int)
    requires f < Pow(10, k) && exponent == -(k as int)
    ensures Shifted(w * Pow(10, k) + f, exponent) == if f == 0 then Some(w) else None
  {
    if k > 0 {
      QuotientUnique(w * Pow(10, k) + f, Pow(10, k), w, f);
    }
  }

  lemma PointMagnitude(w: nat, fraction: string)
    ensures Magnitude(Number(false, Digits(w) + fraction, -|fraction|, "")) == if Value(fraction) == 0 then Some(w) else None
  {
    hide Value, Digits, Pow, Shifted;
    PointValue(w, fraction);
    PointShifted(w, Value(fraction), |fraction|, -|fraction|);
  }

  /** A whole number with a fraction is read as the whole number if the fraction is zero, and is invalid otherwise. */
  lemma FractionMustBeZero(w: nat, fraction: string)
    requires AllDigits(fraction)
    ensures DecodeInteger(Digits(w) + ("." + fraction))
            == if Value(fraction) == 0 then DecodeInteger(Digits(w)) else Err(InvalidConfiguration)
  {
    PointNumber(w, fraction);
    PointMagnitude(w, fraction);
    DecodeSigned(w);
  }

  // Errors of the number itself

  /** A number begins with a digit, or with a point and a digit, after its sign. */
  predicate BeginsNumber(t: string) {
    t != "" && (IsDigit(t[0]) || (t[0] == '.' && |t| > 1 && IsDigit(t[1])))
  }

  /** "Not a number" is thrown exactly when no number begins the text. */
  lemma NotANumberExactly(s: string)
    ensures DecodeInteger(s) == Err(NotANumber) <==> !BeginsNumber(ScanSign(s).1)
  {
    var t := ScanSign(s).1;
    assert ScanDigits(t).0 == "" <==> t == "" || !IsDigit(t[0]);
    if t != "" && t[0] == '.' {
      assert ScanDigits(t).1 == t;
      assert ScanDigits(t[1..]).0 == "" <==> t[1..] == "" || !IsDigit(t[1..][0]);
    }
  }

  lemma {:induction false} PowGrows(b: nat, m: nat, n: nat)
    requires b >= 2 && m <= n
    ensures Pow(b, m) <= Pow(b, n) && (m < n ==> Pow(b, m) < Pow(b, n))
  {
    PowPositive(b, m);
    if m < n {
      PowGrows(b, m, n - 1);
      PowPositive(b, n - 1);
    }
  }

  lemma ScaledMonotone(c: nat, a: nat, b: nat)
    requires a <= b
    ensures c * a <= c * b
  {
  }

  /** Rounding does not take a number below 2^52 times its spacing. */
  lemma RoundedAtLeast(n: nat)
    requires n >= TWO53
    ensures Rounded(n) >= TWO52 * Ulp(n)
  {
    hide Ulp, Nearest;
    var k := UlpShape(n);
    NearestAtLeast(n / Ulp(n), n % Ulp(n), Ulp(n), TWO52);
  }

  lemma NearestAtLeast(q: nat, r: nat, u: nat, c: nat)
    requires c <= q
    ensures Nearest(q, r, u) >= c * u
  {
    NextMultiple(q, q + 1, u);
    if c < q {
      NextMultiple(c, q, u);
    }
  }

  /** From 2^1024 on a number is out of range; below 2^63 it never is. */
  lemma OutOfRangeExactly(n: nat)
    ensures n >= TWO63 * Pow(2, 961) ==> DecodeInteger(Digits(n)) == Err(OutOfRange)
    ensures n <= TWO63 ==> DecodeInteger(Digits(n)) != Err(OutOfRange)
  {
    DecodeSigned(n);
    if n >= TWO63 * Pow(2, 961) {
      PowPositive(2, 961);
      ScaledAtLeast(TWO63, Pow(2, 961));
      SpacingOfHuge(n);
      RoundedAtLeast(n);
    }
    if 0 < n <= TWO63 {
      RoundedPositive(n);
    }
    if n == 0 {
      RoundedExact(0);
      PowPositive(2, 961);
    }
  }

  lemma SpacingOfHuge(n: nat)
    requires n >= TWO63 * Pow(2, 961) && n >= TWO53
    ensures TWO52 * Ulp(n) >= TWO63 * Pow(2, 961)
  {
    var p := Pow(2, 961);
    var k := UlpShape(n);
    assert Pow(2, 971) == 1024 * p && Pow(2, 972) == 2048 * p by {
      assert Pow(2, 965) == 16 * p;
      assert Pow(2, 969) == 16 * Pow(2, 965);
      assert Pow(2, 972) == 8 * Pow(2, 969);
    }
    if k <= 971 {
      PowGrows(2, k, 971);
      Division(n, Ulp(n));
      NextMultiple(n / Ulp(n), TWO53, Ulp(n));
    } else {
      PowGrows(2, 972, k);
      ScaledMonotone(TWO52, 2048 * p, Ulp(n));
    }
  }

  /** Halfway between two doubles, the one with the even significand is taken. */
  lemma TiesGoToEven(n: nat)
    requires 2 * (n % Ulp(n)) == Ulp(n)
    ensures Rounded(n) / Ulp(n) % 2 == 0
  {
    hide Ulp, Nearest;
    NearestTie(n / Ulp(n), n % Ulp(n), Ulp(n));
  }

  lemma NearestTie(q: nat, r: nat, u: nat)
    requires 2 * r == u && u > 0
    ensures Nearest(q, r, u) / u % 2 == 0
  {
    QuotientUnique(q * u, u, q, 0);
    QuotientUnique((q + 1) * u, u, q + 1, 0);
  }

  // What encoders write

  /** No superfluous zero: only the number zero begins with one. */
  lemma {:induction false} NoLeadingZero(n: nat)
    ensures Digits(n)[0] == '0' <==> n == 0
    ensures n == 0 ==> Digits(n) == "0"
  {
    if n >= 10 {
      NoLeadingZero(n / 10);
    }
  }

  lemma TwoDigits(n: nat)
    requires 10 <= n < 100
    ensures Digits(n) == ['0' + (n / 10) as char, '0' + (n % 10) as char]
  {
    assert Digits(n / 10) == ['0' + (n / 10) as char];
  }

  /** The forms that are written, on the numbers of the repository's own examples. */
  lemma WrittenForms()
    ensures EncodeTime(30) == "30" + " nanoseconds"
    ensures EncodeBase(BaseRate(20, 30)) == "30" + (" per " + ("20" + " nanoseconds"))
    ensures EncodePercentile(25) == "25" + "%" && EncodePercentile(-25) == ("-" + "25") + "%"
    ensures EncodeRange(Range(0, 10)) == "0" + (".." + "10")
  {
    hide Digits;
    TwoDigits(30);
    TwoDigits(20);
    TwoDigits(25);
    TwoDigits(10);
    NoLeadingZero(0);
  }

  /** The bounds are those of the machine types: doubles hold 53 bits, integers 63, phase numbers 32. */
  lemma MachineBounds()
    ensures TWO53 == Pow(2, 53) && TWO52 == Pow(2, 52) && TWO63 == Pow(2, 63) && UINT_MAX == Pow(2, 32) - 1
  {
    assert Pow(2, 8) == 256;
    assert Pow(2, 16) == 256 * Pow(2, 8);
    assert Pow(2, 24) == 256 * Pow(2, 16);
    assert Pow(2, 32) == 256 * Pow(2, 24);
    assert Pow(2, 40) == 256 * Pow(2, 32);
    assert Pow(2, 48) == 256 * Pow(2, 40);
    assert Pow(2, 52) == 16 * Pow(2, 48);
    assert Pow(2, 56) == 16 * Pow(2, 52);
    assert Pow(2, 63) == 128 * Pow(2, 56);
  }
}
