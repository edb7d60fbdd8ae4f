/**
 The text forms of configuration values: integers, times, rates and phase ranges, each with its encoder and
 its decoder. Numbers are read as doubles, so an integer survives a round trip exactly when a double holds it.
 */
module Specs {
  import opened Wrappers
  import opened Text
  import opened Arithmetic

  /**
   What a decoder throws: InvalidConfigurationException, or one of the two exceptions of std::stod.  Overflow
   stands for a product that does not fit 64 bits, where the language defines no result.
   */
  datatype Error = InvalidConfiguration | NotANumber | OutOfRange | Overflow

  const TWO52 := 0x10_0000_0000_0000
  const TWO53 := 0x20_0000_0000_0000
  const TWO63 := 0x8000_0000_0000_0000
  const UINT_MAX := 0xFFFF_FFFF

  // Decimal text

  function Pow(b: nat, n: nat): nat {
    if n == 0 then 1 else b * Pow(b, n - 1)
  }

  function Digits(n: nat): (s: string)
    ensures s != "" && forall i :: 0 <= i < |s| ==> IsDigit(s[i])
  {
    var last := ['0' + (n % 10) as char];
    if n < 10 then last else Digits(n / 10) + last
  }

  /** How an integer is written to a stream. */
  function Signed(n: int): string {
    if n < 0 then "-" + Digits(-n) else Digits(n)
  }

  function DigitValue(c: char): nat {
    if IsDigit(c) then (c - '0') as nat else 0
  }

  function Value(s: string): nat {
    if s == "" then 0 else 10 * Value(s[..|s| - 1]) + DigitValue(s[|s| - 1])
  }

  // Reading a number

  /** (-1)^negative * digits * 10^exponent, and the text after it. */
  datatype Number = Number(negative: bool, digits: string, exponent: int, rest: string)

  function ScanSign(s: string): (bool, string) {
    if s != "" && s[0] in "+-" then (s[0] == '-', s[1..]) else (false, s)
  }

  /** The digits at the front, and the text after them. */
  function ScanDigits(s: string): (string, string) {
    (s[..DigitSpan(s)], s[DigitSpan(s)..])
  }

  function ScanFraction(s: string): (string, string) {
    if s != "" && s[0] == '.' then ScanDigits(s[1..]) else ("", s)
  }

  /** All digits before an exponent, how many of them are after the point, and the text after them. */
  function ScanMantissa(s: string): (string, nat, string) {
    var (whole, t) := ScanDigits(s);
    var (fraction, rest) := ScanFraction(t);
    (whole + fraction, |fraction|, rest)
  }

  /** An exponent without digits is not part of the number. */
  function ScanExponent(s: string): (int, string) {
    if s != "" && s[0] in "eE" then
      var (negative, t) := ScanSign(s[1..]);
      var (digits, rest) := ScanDigits(t);
      var e: int := Value(digits);
      if digits == "" then (0, s) else (if negative then -e else e, rest)
    else (0, s)
  }

  /** The longest number at the front; None if there is no digit. */
  function ScanNumber(s: string): Option<Number> {
    var (negative, t) := ScanSign(s);
    ScanUnsigned(negative, t)
  }

  function ScanUnsigned(negative: bool, t: string): Option<Number> {
    var (digits, point, rest) := ScanMantissa(t);
    Scale(negative, digits, point, rest)
  }

  function Scale(negative: bool, digits: string, point: nat, s: string): Option<Number> {
    if digits == "" then None
    else
      var (exponent, rest) := ScanExponent(s);
      Some(Number(negative, digits, exponent - point, rest))
  }

  /** The magnitude, if it is a whole number. */
  function Magnitude(n: Number): Option<nat> {
    Shifted(Value(n.digits), n.exponent)
  }

  /** mantissa * 10^exponent, if it is a whole number. */
  function Shifted(mantissa: nat, exponent: int): Option<nat> {
    if exponent >= 0 then Some(mantissa * Pow(10, exponent))
    else
      var scale := Pow(10, -exponent);
      PowPositive(10, -exponent);
      if mantissa % scale == 0 then Some(mantissa / scale) else None
  }

  lemma PowPositive(b: nat, n: nat)
    requires b > 0
    ensures Pow(b, n) > 0
  {
  }

  // Doubles

  /** The distance between neighbouring doubles around n: a power of two that leaves 53 significant bits. */
  function Ulp(n: nat): (u: nat)
    ensures u > 0
  {
    if n < TWO53 then 1 else 2 * Ulp(n / 2)
  }

  /** The nearest double, ties to the even significand. */
  function Rounded(n: nat): nat {
    Nearest(n / Ulp(n), n % Ulp(n), Ulp(n))
  }

  /** The multiple of u nearest to q * u + r. */
  function Nearest(q: nat, r: nat, u: nat): nat {
    if 2 * r < u || (2 * r == u && q % 2 == 0) then q * u else (q + 1) * u
  }

  /** Integers that a double holds exactly and that fit 64 bits. */
  predicate Exact(n: int) {
    0 <= n < TWO63 && n % Ulp(n) == 0
  }

  // Integer

  /** What decoding makes of a whole number with the given magnitude; doubles end at 2^1024 = 2^63 * 2^961. */
  function FromDouble(negative: bool, magnitude: nat, rest: string): Result<int, Error> {
    var d := Rounded(magnitude);
    if d >= TWO63 * Pow(2, 961) then Err(OutOfRange)
    else if rest != "" || d >= TWO63 || (negative && d > 0) then Err(InvalidConfiguration)
    else Ok(d)
  }

  function DecodeInteger(text: string): Result<int, Error> {
    match ScanNumber(text)
    case None => Err(NotANumber)
    case Some(n) => Assess(n)
  }

  function Assess(n: Number): Result<int, Error> {
    match Magnitude(n)
    case None => Err(InvalidConfiguration)
    case Some(magnitude) => FromDouble(n.negative, magnitude, n.rest)
  }

  // Delimiters

  /** The text around the first occurrence of a delimiter. */
  function Cut(s: string, delimiter: string): (r: Option<(string, string)>)
    ensures r.Some? ==> r.value.0 + (delimiter + r.value.1) == s
  {
    if delimiter <= s then Some(("", s[|delimiter|..]))
    else if s == "" then None
    else
      match Cut(s[1..], delimiter)
      case None => None
      case Some((before, after)) => Some(([s[0]] + before, after))
  }

  /** A substring that is parsed as YAML loses the blanks around it. */
  function Trim(s: string): string {
    if s != "" && s[0] == ' ' then Trim(s[1..])
    else if s != "" && s[|s| - 1] == ' ' then Trim(s[..|s| - 1])
    else s
  }

  // Time

  function EncodeTime(nanoseconds: int): string {
    Signed(nanoseconds) + " nanoseconds"
  }

  /** Only the beginning of the unit matters, so plurals are units too. */
  function UnitNanoseconds(unit: string): Option<nat> {
    if "nanosecond" <= unit then Some(1)
    else if "microsecond" <= unit then Some(1_000)
    else if "millisecond" <= unit then Some(1_000_000)
    else if "second" <= unit then Some(1_000_000_000)
    else if "minute" <= unit then Some(60_000_000_000)
    else if "hour" <= unit then Some(3_600_000_000_000)
    else None
  }

  function DecodeTime(text: string): Result<int, Error> {
    match Cut(text, " ")
    case None => Err(InvalidConfiguration)
    case Some((count, unit)) =>
      match DecodeInteger(Trim(count))
      case Err(e) => Err(e)
      case Ok(n) =>
        match UnitNanoseconds(unit)
        case None => Err(InvalidConfiguration)
        case Some(factor) => if n * factor < TWO63 then Ok(n * factor) else Err(Overflow)
  }

  // Rates

  datatype BaseRate = BaseRate(per: int, operations: int)

  datatype Rate = Empty | Base(base: BaseRate) | Percentile(percent: int)

  function EncodeBase(b: BaseRate): string {
    Signed(b.operations) + (" per " + EncodeTime(b.per))
  }

  function DecodeBase(text: string): Result<BaseRate, Error> {
    match Cut(text, " per ")
    case None => Err(InvalidConfiguration)
    case Some((count, time)) =>
      match DecodeInteger(Trim(count))
      case Err(e) => Err(e)
      case Ok(operations) =>
        match DecodeTime(Trim(time))
        case Err(e) => Err(e)
        case Ok(per) => Ok(BaseRate(per, operations))
  }

  function EncodePercentile(percent: int): string {
    Signed(percent) + "%"
  }

  function DecodePercentile(text: string): Result<int, Error> {
    match Cut(text, "%")
    case None => Err(InvalidConfiguration)
    case Some((count, after)) =>
      if after != "" then Err(InvalidConfiguration)
      else
        match DecodeInteger(Trim(count))
        case Err(e) => Err(e)
        case Ok(percent) => if percent > 100 then Err(InvalidConfiguration) else Ok(percent)
  }

  function EncodeRate(r: Rate): Result<string, Error> {
    match r
    case Base(b) => Ok(EncodeBase(b))
    case Percentile(p) => Ok(EncodePercentile(p))
    case Empty => Err(InvalidConfiguration)
  }

  /** Only an invalid configuration makes the decoder try the other form; number errors are not caught. */
  function DecodeRate(text: string): Result<Rate, Error> {
    var t := Trim(text);
    match DecodeBase(t)
    case Ok(b) => Ok(Base(b))
    case Err(InvalidConfiguration) =>
      (match DecodePercentile(t)
       case Ok(p) => Ok(Percentile(p))
       case Err(e) => Err(e))
    case Err(e) => Err(e)
  }

  // Phase ranges

  datatype Range = Range(start: int, end: int)

  function EncodeRange(r: Range): string {
    Signed(r.start) + (".." + Signed(r.end))
  }

  /** The constructor's check that both ends are unsigned 32-bit integers. */
  function MakeRange(start: int, end: int): Result<Range, Error> {
    if 0 <= start <= UINT_MAX && 0 <= end <= UINT_MAX then Ok(Range(start, end)) else Err(InvalidConfiguration)
  }

  function DecodeRange(text: string): Result<Range, Error> {
    match Cut(text, "..")
    case None =>
      (match DecodeInteger(text)
       case Err(e) => Err(e)
       case Ok(n) => MakeRange(n, n))
    case Some((first, second)) =>
      match DecodeInteger(Trim(first))
      case Err(e) => Err(e)
      case Ok(start) =>
        match DecodeInteger(Trim(second))
        case Err(e) => Err(e)
        case Ok(end) => if start > end then Err(InvalidConfiguration) else MakeRange(start, end)
  }

  // Decimal text is read back

  lemma {:induction false} ValueDigits(n: nat)
    ensures Value(Digits(n)) == n
  {
    var last := ['0' + (n % 10) as char];
    if n < 10 {
      assert Digits(n)[..0] == "";
    } else {
      ValueDigits(n / 10);
      assert Digits(n)[..|Digits(n)| - 1] == Digits(n / 10);
    }
  }

  /** The shape of every encoded integer: digits and minus signs only. */
  predicate Plain(s: string) {
    s != "" && forall i :: 0 <= i < |s| ==> IsDigit(s[i]) || s[i] == '-'
  }

  lemma UnsignedScans(negative: bool, n: nat, rest: string)
    requires rest == "" || (!IsDigit(rest[0]) && rest[0] != '.')
    ensures ScanUnsigned(negative, Digits(n) + rest)
            == var (exponent, after) := ScanExponent(rest); Some(Number(negative, Digits(n), exponent, after))
  {
    DigitSpanConcat(Digits(n), rest);
    DropFirst(Digits(n), rest);
    assert Digits(n) + "" == Digits(n);
  }

  lemma SignScans(n: int, rest: string)
    ensures ScanSign(Signed(n) + rest) == (n < 0, Digits(if n < 0 then -n else n) + rest)
    ensures Plain(Signed(n))
  {
    if n < 0 {
      assert Signed(n) + rest == "-" + (Digits(-n) + rest);
    }
  }

  lemma DecodeSigned(n: int)
    ensures DecodeInteger(Signed(n)) == FromDouble(n < 0, if n < 0 then -n else n, "")
  {
    assert Signed(n) + "" == Signed(n);
    SignScans(n, "");
    UnsignedScans(n < 0, if n < 0 then -n else n, "");
    ValueDigits(if n < 0 then -n else n);
  }

  /** Scientific notation: "n e k" is read like the written-out n * 10^k. */
  lemma ScientificNotation(n: nat, k: nat)
    ensures DecodeInteger(Digits(n) + ("e" + Digits(k))) == DecodeInteger(Digits(n * Pow(10, k)))
  {
    SignScans(n, "e" + Digits(k));
    UnsignedScans(false, n, "e" + Digits(k));
    ExponentScans(k);
    ValueDigits(n);
    DecodeSigned(n * Pow(10, k));
  }

  lemma ExponentScans(k: nat)
    ensures ScanExponent("e" + Digits(k)) == (k, "")
  {
    assert ("e" + Digits(k))[1..] == Digits(k);
    assert Digits(k) + "" == Digits(k);
    DigitSpanConcat(Digits(k), "");
    assert Digits(k)[..|Digits(k)|] == Digits(k);
    ValueDigits(k);
  }

  // Rounding

  lemma ScaledAtLeast(m: nat, p: nat)
    requires p > 0
    ensures m * p >= m
  {
  }

  lemma NearestExact(n: nat, q: nat, r: nat, u: nat)
    requires n == q * u + r && r < u
    ensures Nearest(q, r, u) == n <==> r == 0
    ensures 2 * n - u <= 2 * Nearest(q, r, u) <= 2 * n + u
  {
    NextMultiple(q, q + 1, u);
  }

  lemma NearestToMultiple(n: nat, u: nat)
    requires u > 0
    ensures Nearest(n / u, n % u, u) == n <==> n % u == 0
    ensures 2 * n - u <= 2 * Nearest(n / u, n % u, u) <= 2 * n + u
  {
    Division(n, u);
    NearestExact(n, n / u, n % u, u);
  }

  /** Rounding moves a number by at most half the spacing, and leaves exactly the multiples of it alone. */
  lemma RoundedExact(n: nat)
    ensures Rounded(n) == n <==> n % Ulp(n) == 0
    ensures 2 * n - Ulp(n) <= 2 * Rounded(n) <= 2 * n + Ulp(n)
  {
    NearestToMultiple(n, Ulp(n));
  }

  lemma SmallIsExact(n: nat)
    requires n <= TWO53
    ensures Exact(n)
  {
    if n == TWO53 {
      assert Ulp(n) == 2 * Ulp(TWO52);
    }
  }

  /** The spacing is a power of two, and large numbers have a significand of exactly 53 bits. */
  lemma {:induction false} UlpShape(n: nat) returns (k: nat)
    ensures Ulp(n) == Pow(2, k)
    ensures n / Ulp(n) < TWO53 && (n >= TWO53 ==> TWO52 <= n / Ulp(n))
  {
    if n < TWO53 {
      k := 0;
    } else {
      var half := n / 2;
      var k' := UlpShape(half);
      k := k' + 1;
      var u, q, r := Ulp(half), half / Ulp(half), half % Ulp(half);
      assert half == q * u + r;
      assert n == q * (2 * u) + (2 * r + n % 2);
      QuotientUnique(n, 2 * u, q, 2 * r + n % 2);
    }
  }

  lemma {:induction false} UlpOfScaled(m: nat, k: nat)
    requires TWO52 <= m < TWO53
    ensures Ulp(m * Pow(2, k)) == Pow(2, k)
  {
    if k > 0 {
      var p := Pow(2, k - 1);
      PowPositive(2, k - 1);
      assert m * Pow(2, k) == 2 * (m * p);
      ScaledAtLeast(m, p);
      UlpOfScaled(m, k - 1);
    }
  }

  lemma ScaledIsMultiple(m: nat, k: nat)
    requires TWO52 <= m <= TWO53
    ensures m * Pow(2, k) % Ulp(m * Pow(2, k)) == 0
  {
    if m < TWO53 {
      UlpOfScaled(m, k);
      PowPositive(2, k);
      QuotientUnique(m * Pow(2, k), Pow(2, k), m, 0);
    } else {
      assert m * Pow(2, k) == TWO52 * Pow(2, k + 1);
      UlpOfScaled(TWO52, k + 1);
      PowPositive(2, k + 1);
      QuotientUnique(m * Pow(2, k), Pow(2, k + 1), TWO52, 0);
    }
  }

  /** A rounded number is a double: rounding again changes nothing. */
  lemma RoundedStable(n: nat)
    ensures Rounded(n) % Ulp(Rounded(n)) == 0
  {
    if n >= TWO53 {
      var k := UlpShape(n);
      ScaledIsMultiple(n / Ulp(n), k);
      ScaledIsMultiple(n / Ulp(n) + 1, k);
    }
  }

  // Round trips

  /** An integer is read back exactly when it is not negative, fits 64 bits, and a double holds it. */
  lemma IntegerRoundTrip(n: int)
    ensures DecodeInteger(Signed(n)) == Ok(n) <==> Exact(n)
  {
    DecodeSigned(n);
    if n >= 0 {
      RoundedExact(n);
    }
    PowPositive(2, 961);
    ScaledAtLeast(TWO63, Pow(2, 961));
  }

  lemma InRange(magnitude: nat)
    requires Rounded(magnitude) < TWO63
    ensures FromDouble(false, magnitude, "") == Ok(Rounded(magnitude))
  {
    PowPositive(2, 961);
    ScaledAtLeast(TWO63, Pow(2, 961));
  }

  lemma TieGoesToEven()
    ensures Ulp(TWO53 + 1) == 2 && Rounded(TWO53 + 1) == TWO53
  {
    assert (TWO53 + 1) / 2 == TWO52;
    assert Ulp(TWO52) == 1;
  }

  /** The first integer that is not read back: the double below it is. */
  lemma FirstInexact()
    ensures !Exact(TWO53 + 1) && DecodeInteger(Signed(TWO53 + 1)) == Ok(TWO53)
  {
    TieGoesToEven();
    InRange(TWO53 + 1);
    DecodeSigned(TWO53 + 1);
  }

  /** What the decoder accepts is read back unchanged from its written-out form. */
  lemma IntegerNormalForm(text: string)
    ensures DecodeInteger(text).Ok? ==> DecodeInteger(Signed(DecodeInteger(text).value)) == DecodeInteger(text)
  {
    if DecodeInteger(text).Ok? {
      RoundedStable(Magnitude(ScanNumber(text).value).value);
      IntegerRoundTrip(DecodeInteger(text).value);
    }
  }

  lemma {:induction false} CutAround(a: string, delimiter: string, b: string)
    requires delimiter != "" && delimiter[0] !in a
    ensures Cut(a + (delimiter + b), delimiter) == Some((a, b))
  {
    var s := a + (delimiter + b);
    if a == "" {
      assert s == delimiter + b;
      DropFirst(delimiter, b);
    } else {
      assert s[0] == a[0] && a == [a[0]] + a[1..];
      assert !(delimiter <= s);
      assert s[1..] == a[1..] + (delimiter + b);
      CutAround(a[1..], delimiter, b);
    }
  }

  lemma {:induction false} CutNothing(s: string, delimiter: string)
    requires delimiter != "" && delimiter[0] !in s
    ensures Cut(s, delimiter) == None
  {
    if s != "" {
      CutNothing(s[1..], delimiter);
    }
  }

  lemma NothingToTrim(s: string)
    requires s != "" && s[0] != ' ' && s[|s| - 1] != ' '
    ensures Trim(s) == s
  {
  }

  /** Encoded integers hold no blank, so they are cut at the delimiter and left untrimmed. */
  lemma SignedCuts(n: int, delimiter: string, b: string)
    requires delimiter != "" && !IsDigit(delimiter[0]) && delimiter[0] != '-'
    ensures Trim(Signed(n)) == Signed(n)
    ensures Cut(Signed(n) + (delimiter + b), delimiter) == Some((Signed(n), b))
  {
    SignScans(n, "");
    NothingToTrim(Signed(n));
    CutAround(Signed(n), delimiter, b);
  }

  lemma DecodedFits(text: string)
    ensures DecodeInteger(text).Ok? ==> 0 <= DecodeInteger(text).value < TWO63
  {
  }

  /** An encoded time reads like its count of nanoseconds. */
  lemma DecodeEncodedTime(t: int)
    ensures DecodeTime(EncodeTime(t)) == DecodeInteger(Signed(t))
  {
    assert EncodeTime(t) == Signed(t) + (" " + "nanoseconds");
    SignedCuts(t, " ", "nanoseconds");
    assert "nanosecond" <= "nanoseconds";
    DecodedFits(Signed(t));
  }

  /** A time is read back exactly when its count of nanoseconds is exact. */
  lemma TimeRoundTrip(t: int)
    ensures DecodeTime(EncodeTime(t)) == Ok(t) <==> Exact(t)
  {
    DecodeEncodedTime(t);
    IntegerRoundTrip(t);
  }

  /** Each unit is the right multiple of the one below it, and what follows the singular does not matter. */
  lemma UnitLadder(suffix: string)
    ensures UnitNanoseconds("nanosecond" + suffix) == Some(1)
    ensures UnitNanoseconds("microsecond" + suffix) == Some(1000)
    ensures UnitNanoseconds("millisecond" + suffix) == Some(1000 * 1000)
    ensures UnitNanoseconds("second" + suffix) == Some(1000 * 1000 * 1000)
    ensures UnitNanoseconds("minute" + suffix) == Some(60 * UnitNanoseconds("second" + suffix).value)
    ensures UnitNanoseconds("hour" + suffix) == Some(60 * UnitNanoseconds("minute" + suffix).value)
  {
    assert ("microsecond" + suffix)[0] == 'm' && ("microsecond" + suffix)[1] == 'i';
    assert ("millisecond" + suffix)[0] == 'm' && ("millisecond" + suffix)[2] == 'l';
    assert ("second" + suffix)[0] == 's';
    assert ("minute" + suffix)[0] == 'm' && ("minute" + suffix)[2] == 'n';
    assert ("hour" + suffix)[0] == 'h';
  }

  /** A count in any unit is read as that many units exactly when these nanoseconds fit 64 bits. */
  lemma TimeInUnit(n: nat, unit: string)
    requires Exact(n) && UnitNanoseconds(unit).Some?
    ensures DecodeTime(Signed(n) + (" " + unit))
            == if n * UnitNanoseconds(unit).value < TWO63 then Ok(n * UnitNanoseconds(unit).value) else Err(Overflow)
  {
    SignedCuts(n, " ", unit);
    IntegerRoundTrip(n);
  }

  /** What decoding an encoded base rate amounts to. */
  lemma DecodeEncodedBase(b: BaseRate)
    ensures DecodeBase(EncodeBase(b))
            == match DecodeInteger(Signed(b.operations))
               case Err(e) => Err(e)
               case Ok(operations) =>
                 match DecodeInteger(Signed(b.per))
                 case Err(e) => Err(e)
                 case Ok(per) => Ok(BaseRate(per, operations))
  {
    SignedCuts(b.operations, " per ", EncodeTime(b.per));
    SignScans(b.per, "");
    NothingToTrim(EncodeTime(b.per));
    DecodeEncodedTime(b.per);
  }

  lemma BaseRoundTrip(b: BaseRate)
    ensures DecodeBase(EncodeBase(b)) == Ok(b) <==> Exact(b.operations) && Exact(b.per)
  {
    DecodeEncodedBase(b);
    IntegerRoundTrip(b.operations);
    IntegerRoundTrip(b.per);
  }

  lemma PercentileRoundTrip(p: int)
    ensures DecodePercentile(EncodePercentile(p)) == Ok(p) <==> 0 <= p <= 100
  {
    assert EncodePercentile(p) == Signed(p) + ("%" + "");
    SignedCuts(p, "%", "");
    IntegerRoundTrip(p);
    if 0 <= p <= 100 {
      SmallIsExact(p);
    }
  }

  /** The rates that survive a round trip. */
  predicate Representable(r: Rate) {
    match r
    case Empty => false
    case Base(b) => Exact(b.operations) && Exact(b.per)
    case Percentile(p) => 0 <= p <= 100
  }

  /**
   An encoded rate is read back exactly when it is representable, and whatever is read back is the variant
   that was encoded.
   */
  lemma RateRoundTrip(r: Rate, text: string)
    requires EncodeRate(r) == Ok(text)
    ensures DecodeRate(text) == Ok(r) <==> Representable(r)
    ensures DecodeRate(text).Ok? ==> (DecodeRate(text).value.Base? <==> r.Base?) && !DecodeRate(text).value.Empty?
  {
    match r
    case Base(b) => BaseVariant(b);
    case Percentile(p) => PercentileVariant(p);
  }

  lemma BaseVariant(b: BaseRate)
    ensures DecodeRate(EncodeBase(b)).Ok? ==> DecodeRate(EncodeBase(b)).value.Base?
    ensures DecodeRate(EncodeBase(b)) == Ok(Base(b)) <==> Exact(b.operations) && Exact(b.per)
  {
    SignScans(b.operations, "");
    SignScans(b.per, "");
    assert EncodeBase(b) == Signed(b.operations) + (" per " + (Signed(b.per) + " nanoseconds"));
    assert '%' !in EncodeBase(b);
    CutNothing(EncodeBase(b), "%");
    NothingToTrim(EncodeBase(b));
    BaseRoundTrip(b);
  }

  lemma PercentileVariant(p: int)
    ensures DecodeRate(EncodePercentile(p)).Ok? ==> DecodeRate(EncodePercentile(p)).value.Percentile?
    ensures DecodeRate(EncodePercentile(p)) == Ok(Percentile(p)) <==> 0 <= p <= 100
  {
    SignScans(p, "");
    assert ' ' !in EncodePercentile(p);
    CutNothing(EncodePercentile(p), " per ");
    NothingToTrim(EncodePercentile(p));
    PercentileRoundTrip(p);
  }

  /** A phase range is read back exactly when its start is not after its end. */
  lemma RangeRoundTrip(r: Range)
    requires 0 <= r.start <= UINT_MAX && 0 <= r.end <= UINT_MAX
    ensures DecodeRange(EncodeRange(r)) == Ok(r) <==> r.start <= r.end
  {
    SignedCuts(r.start, "..", Signed(r.end));
    SignedCuts(r.end, "..", "");
    SmallIsExact(r.start);
    SmallIsExact(r.end);
    IntegerRoundTrip(r.start);
    IntegerRoundTrip(r.end);
  }

  /** A single phase number stands for the range of just that phase. */
  lemma SinglePhase(n: nat)
    ensures DecodeRange(Signed(n)) == Ok(Range(n, n)) <==> n <= UINT_MAX
  {
    SignScans(n, "");
    CutNothing(Signed(n), "..");
    IntegerRoundTrip(n);
    if n <= UINT_MAX {
      SmallIsExact(n);
    }
  }

  /** Every accepted range text is ordered, fits, and is read back from its encoded form. */
  lemma RangeNormalForm(text: string)
    ensures DecodeRange(text).Ok? ==>
              var r := DecodeRange(text).value;
              && 0 <= r.start <= r.end <= UINT_MAX
              && DecodeRange(EncodeRange(r)) == Ok(r)
  {
    if DecodeRange(text).Ok? {
      RangeRoundTrip(DecodeRange(text).value);
    }
  }

  // Which form of a rate is read, and which exception is thrown

  predicate Numeric(c: char) {
    IsDigit(c) || c in "+-.eE"
  }

  predicate AllNumeric(s: string) {
    forall i :: 0 <= i < |s| ==> Numeric(s[i])
  }

  lemma NumericSign(s: string)
    requires AllNumeric(ScanSign(s).1)
    ensures AllNumeric(s)
  {
    var t := ScanSign(s).1;
    assert s == t || s == [s[0]] + t;
  }

  lemma NumericDigits(s: string)
    requires AllNumeric(ScanDigits(s).1)
    ensures AllNumeric(s)
  {
    var (digits, rest) := ScanDigits(s);
    assert s == digits + rest;
  }

  lemma NumericFraction(s: string)
    requires AllNumeric(ScanFraction(s).1)
    ensures AllNumeric(s)
  {
    if s != "" && s[0] == '.' {
      NumericDigits(s[1..]);
      assert s == [s[0]] + s[1..];
    }
  }

  lemma NumericExponent(s: string)
    requires AllNumeric(ScanExponent(s).1)
    ensures AllNumeric(s)
  {
    if s != "" && s[0] in "eE" && ScanDigits(ScanSign(s[1..]).1).0 != "" {
      NumericDigits(ScanSign(s[1..]).1);
      NumericSign(s[1..]);
      assert s == [s[0]] + s[1..];
    }
  }

  /** A text that is one number holds only characters of numbers. */
  lemma NumberIsNumeric(s: string)
    ensures ScanNumber(s).Some? && ScanNumber(s).value.rest == "" ==> AllNumeric(s)
  {
    if ScanNumber(s).None? || ScanNumber(s).value.rest != "" {
      return;
    }
    var t := ScanSign(s).1;
    NumericExponent(ScanMantissa(t).2);
    NumericFraction(ScanDigits(t).1);
    NumericDigits(t);
    NumericSign(s);
  }

  lemma {:induction false} TrimKeeps(s: string, c: char)
    requires c in s && c != ' '
    ensures c in Trim(s)
    decreases |s|
  {
    if s[0] == ' ' {
      TrimKeeps(s[1..], c);
    } else if s[|s| - 1] == ' ' {
      assert s == s[..|s| - 1] + [s[|s| - 1]];
      TrimKeeps(s[..|s| - 1], c);
    }
  }

  /** A text with another character in it is not accepted as an integer. */
  lemma OnlyNumericAccepted(s: string, c: char)
    requires c in s && c != ' ' && !Numeric(c)
    ensures DecodeInteger(Trim(s)).Err?
  {
    TrimKeeps(s, c);
    NumberIsNumeric(Trim(s));
  }

  lemma CutHolds(s: string, delimiter: string, c: char)
    requires Cut(s, delimiter).Some? && c in delimiter
    ensures c in s
  {
    var (before, after) := Cut(s, delimiter).value;
    assert c in delimiter + after;
  }

  /** A text that reads as a percentage does not read as a base rate, nor does it raise a number error there. */
  lemma PercentageIsNoBase(t: string)
    ensures DecodePercentile(t).Ok? ==> DecodeBase(t) == Err(InvalidConfiguration)
  {
    if DecodePercentile(t).Ok? && Cut(t, " per ").Some? {
      CutHolds(t, " per ", 'r');
      var (count, after) := Cut(t, "%").value;
      assert 'r' in count + ("%" + after);
      OnlyNumericAccepted(count, 'r');
    }
  }

  /** The number errors that the decoder lets through never cost a form: each form is read exactly when it applies. */
  lemma RateForms(text: string, b: BaseRate, p: int)
    ensures DecodeRate(text) == Ok(Base(b)) <==> DecodeBase(Trim(text)) == Ok(b)
    ensures DecodeRate(text) == Ok(Percentile(p)) <==> DecodePercentile(Trim(text)) == Ok(p)
  {
    PercentageIsNoBase(Trim(text));
  }

  lemma DigitSpanStops(s: string, u: string)
    requires u != "" && u[0] == ' '
    ensures DigitSpan(s + u) == DigitSpan(s)
  {
    var n := DigitSpan(s);
    assert s + u == s[..n] + (s[n..] + u);
    DigitSpanConcat(s[..n], s[n..] + u);
  }

  lemma ScanSignStops(s: string, u: string)
    requires u != "" && u[0] == ' '
    ensures ScanSign(s + u) == (ScanSign(s).0, ScanSign(s).1 + u)
  {
    if s == "" {
      assert s + u == u;
    } else {
      assert (s + u)[1..] == s[1..] + u;
    }
  }

  lemma SliceConcat(s: string, u: string, n: nat)
    requires n <= |s|
    ensures (s + u)[..n] == s[..n] && (s + u)[n..] == s[n..] + u
  {
  }

  lemma ScanDigitsStops(s: string, u: string)
    requires u != "" && u[0] == ' '
    ensures ScanDigits(s + u) == (ScanDigits(s).0, ScanDigits(s).1 + u)
  {
    DigitSpanStops(s, u);
    SliceConcat(s, u, DigitSpan(s));
  }

  lemma ScanFractionStops(s: string, u: string)
    requires u != "" && u[0] == ' '
    ensures ScanFraction(s + u) == (ScanFraction(s).0, ScanFraction(s).1 + u)
  {
    if s == "" {
      assert s + u == u;
    } else {
      assert (s + u)[1..] == s[1..] + u;
      ScanDigitsStops(s[1..], u);
    }
  }

  lemma ScanMantissaStops(s: string, u: string)
    requires u != "" && u[0] == ' '
    ensures ScanMantissa(s + u) == (ScanMantissa(s).0, ScanMantissa(s).1, ScanMantissa(s).2 + u)
  {
    ScanDigitsStops(s, u);
    ScanFractionStops(ScanDigits(s).1, u);
  }

  lemma ScanExponentStops(s: string, u: string)
    requires u != "" && u[0] == ' '
    ensures ScanExponent(s + u) == (ScanExponent(s).0, ScanExponent(s).1 + u)
  {
    if s == "" {
      assert s + u == u;
    } else {
      assert (s + u)[1..] == s[1..] + u;
      ScanSignStops(s[1..], u);
      ScanDigitsStops(ScanSign(s[1..]).1, u);
    }
  }

  /** The same number, with more text after it. */
  predicate Longer(n: Option<Number>, m: Option<Number>, u: string) {
    if n.None? then m.None? else m == Some(n.value.(rest := n.value.rest + u))
  }

  lemma ScaleStops(negative: bool, digits: string, point: nat, s: string, u: string)
    requires u != "" && u[0] == ' '
    ensures Longer(Scale(negative, digits, point, s), Scale(negative, digits, point, s + u), u)
  {
    ScanExponentStops(s, u);
  }

  lemma ScanUnsignedStops(negative: bool, t: string, u: string)
    requires u != "" && u[0] == ' '
    ensures Longer(ScanUnsigned(negative, t), ScanUnsigned(negative, t + u), u)
  {
    ScanMantissaStops(t, u);
    var (digits, point, rest) := ScanMantissa(t);
    ScaleStops(negative, digits, point, rest, u);
  }

  /** Reading a number stops at a blank. */
  lemma ScanNumberStops(s: string, u: string)
    requires u != "" && u[0] == ' '
    ensures Longer(ScanNumber(s), ScanNumber(s + u), u)
  {
    ScanSignStops(s, u);
    ScanUnsignedStops(ScanSign(s).0, ScanSign(s).1, u);
  }

  /** A number that is itself at fault is so whatever follows it. */
  lemma FaultIgnoresRest(n: Number, rest: string, e: Error)
    requires e != InvalidConfiguration
    ensures Assess(n.(rest := rest)) == Err(e) <==> Assess(n) == Err(e)
  {
    assert Magnitude(n.(rest := rest)) == Magnitude(n);
  }

  lemma NumberFaultStops(s: string, u: string, e: Error)
    requires u != "" && u[0] == ' ' && e != InvalidConfiguration
    ensures DecodeInteger(s + u) == Err(e) <==> DecodeInteger(s) == Err(e)
  {
    ScanNumberStops(s, u);
    if ScanNumber(s).Some? {
      FaultIgnoresRest(ScanNumber(s).value, ScanNumber(s + u).value.rest, e);
    }
  }

  predicate Blank(s: string) {
    forall i :: 0 <= i < |s| ==> s[i] == ' '
  }

  /** Trimming text that does not begin with a blank takes off the blanks at its end. */
  lemma {:induction false} TrimAtEnd(s: string) returns (blanks: string)
    requires s == "" || s[0] != ' '
    ensures s == Trim(s) + blanks && Blank(blanks)
    decreases |s|
  {
    blanks := "";
    if s != "" && s[|s| - 1] == ' ' {
      blanks := TrimAtEnd(s[..|s| - 1]);
      blanks := blanks + " ";
    }
  }

  /** Trimming at the end stays behind a prefix as long as something follows it. */
  lemma {:induction false} TrimConcat(d: string, v: string, k: nat) returns (u: string)
    requires d != "" && d[0] != ' ' && k < |v| && v[k] != ' '
    ensures Trim(d + v) == d + u && u != "" && u[0] == v[0]
    decreases |v|
  {
    u := v;
    if v[|v| - 1] == ' ' {
      assert (d + v)[..|d + v| - 1] == d + v[..|v| - 1];
      u := TrimConcat(d, v[..|v| - 1], k);
    }
  }

  lemma {:induction false} TrimmedStart(s: string)
    ensures Trim(s) == "" || Trim(s)[0] != ' '
    decreases |s|
  {
    if s != "" && s[0] == ' ' {
      TrimmedStart(s[1..]);
    } else if s != "" && s[|s| - 1] == ' ' {
      TrimmedStart(s[..|s| - 1]);
    }
  }

  lemma AfterCount(blanks: string, rest: string) returns (v: string, k: nat)
    requires Blank(blanks)
    ensures v == blanks + (" per " + rest) && k < |v| && v[k] != ' ' && v[0] == ' '
  {
    v, k := blanks + (" per " + rest), |blanks| + 3;
    assert v[k] == (" per " + rest)[3];
    assert v[0] == if blanks == "" then (" per " + rest)[0] else blanks[0];
  }

  lemma TextFault(count: string, d: string, blanks: string, rest: string, e: Error)
    requires count == d + blanks && Blank(blanks) && d != "" && d[0] != ' ' && e != InvalidConfiguration
    ensures DecodeInteger(Trim(count + (" per " + rest))) == Err(e) <==> DecodeInteger(d) == Err(e)
  {
    var v, k := AfterCount(blanks, rest);
    var u := TrimConcat(d, v, k);
    assert count + (" per " + rest) == d + v;
    NumberFaultStops(d, u, e);
  }

  /** The count of a base rate, with more after it, is at fault exactly when it is at fault by itself. */
  lemma CountFault(count: string, rest: string, e: Error)
    requires count != "" && count[0] != ' ' && e != InvalidConfiguration
    ensures DecodeInteger(Trim(count + (" per " + rest))) == Err(e) <==> DecodeInteger(Trim(count)) == Err(e)
  {
    var blanks := TrimAtEnd(count);
    TextFault(count, Trim(count), blanks, rest, e);
  }

  lemma DropLast(a: string, b: string, q: string, c: char)
    requires a + b == q + [c] && b != ""
    ensures q == a + b[..|b| - 1] && b[|b| - 1] == c
  {
    assert (a + b)[..|a + b| - 1] == a + b[..|b| - 1] && (a + b)[|a + b| - 1] == b[|b| - 1];
    assert (q + [c])[..|q|] == q && (q + [c])[|q|] == c;
  }

  /** The percentage form raises no number error where there is a base rate whose count is not at fault. */
  lemma PercentageFaultIsCountFault(t: string, e: Error)
    requires t != "" && t[0] != ' ' && Cut(t, " per ").Some? && e != InvalidConfiguration
    ensures DecodePercentile(t) == Err(e) ==> DecodeInteger(Trim(Cut(t, " per ").value.0)) == Err(e)
  {
    if DecodePercentile(t) != Err(e) {
      return;
    }
    var (count, time) := Cut(t, " per ").value;
    var q := Cut(t, "%").value.0;
    assert t == q + ['%'];
    DropLast(count, " per " + time, q, '%');
    assert time != "";
    assert (" per " + time)[..|time| + 4] == " per " + time[..|time| - 1];
    assert count == "" ==> t == " per " + time;
    CountFault(count, time[..|time| - 1], e);
  }

  /** The number error that a rate text raises, by the numbers in it. */
  predicate RaisesNumberError(t: string, e: Error) {
    match Cut(t, " per ")
    case Some((count, time)) =>
      || DecodeInteger(Trim(count)) == Err(e)
      || (DecodeInteger(Trim(count)).Ok? && DecodeTime(Trim(time)) == Err(e))
    case None =>
      match Cut(t, "%")
      case Some((count, after)) => after == "" && DecodeInteger(Trim(count)) == Err(e)
      case None => false
  }

  /**
   When decoding a rate ends with anything but an invalid configuration: exactly when " per " is there and the
   count or the time raises that error, or when only a final "%" is there and its count does.
   */
  lemma UncaughtNumberError(text: string, e: Error)
    requires e != InvalidConfiguration
    ensures DecodeRate(text) == Err(e) <==> RaisesNumberError(Trim(text), e)
  {
    var t := Trim(text);
    TrimmedStart(text);
    if Cut(t, " per ").Some? {
      PercentageFaultIsCountFault(t, e);
    }
  }

  /** A count that raises a number error raises it as that of a rate. */
  lemma BadCount(count: string, time: string, e: Error)
    requires count != "" && ' ' !in count && time != "" && time[|time| - 1] != ' '
    requires e != InvalidConfiguration
    ensures DecodeInteger(count) == Err(e) ==> DecodeRate(count + (" per " + time)) == Err(e)
  {
    NothingToTrim(count);
    NothingToTrim(count + (" per " + time));
    CutAround(count, " per ", time);
  }

  /** For instance: a letter is no number, and that is the exception thrown, though the text is no valid rate. */
  lemma NumberErrorIsNotCaught()
    ensures DecodeRate("x" + (" per " + "1 second")) == Err(NotANumber)
  {
    assert ScanNumber("x") == None;
    BadCount("x", "1 second", NotANumber);
  }
}
