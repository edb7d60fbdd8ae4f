/** Which texts the decoders of times, rates and phase ranges accept, for every text. */
module SpecTexts {
  import opened Wrappers
  import opened Text
  import opened Specs
  import opened NumberTexts

  // Delimiters and blanks

  /** a and b are what is before and after the first occurrence of d in s. */
  ghost predicate FirstCut(s: string, d: string, a: string, b: string) {
    s == a + (d + b) && forall i :: 0 <= i < |a| ==> !(d <= s[i..])
  }

  ghost predicate Nowhere(s: string, d: string) {
    forall i :: 0 <= i <= |s| ==> !(d <= s[i..])
  }

  lemma {:induction false} CutIsFirst(s: string, d: string)
    requires d != ""
    ensures Cut(s, d).None? ==> Nowhere(s, d)
    ensures Cut(s, d).Some? ==> FirstCut(s, d, Cut(s, d).value.0, Cut(s, d).value.1)
    decreases |s|
  {
    if !(d <= s) && s != "" {
      CutIsFirst(s[1..], d);
      assert forall i :: 1 <= i <= |s| ==> s[i..] == s[1..][i - 1..];
    }
  }

  lemma OccursAfter(a: string, d: string, b: string)
    ensures d <= (a + (d + b))[|a|..]
  {
    DropFirst(a, d + b);
  }

  lemma SameLength(a: string, d: string, b: string, a': string, b': string)
    requires a + (d + b) == a' + (d + b') && |a| == |a'|
    ensures a == a' && b == b'
  {
    DropFirst(a, d + b);
    DropFirst(a', d + b');
    DropFirst(d, b);
    DropFirst(d, b');
  }

  lemma FirstCutUnique(s: string, d: string, a: string, b: string, a': string, b': string)
    requires FirstCut(s, d, a, b) && FirstCut(s, d, a', b')
    ensures a == a' && b == b'
  {
    OccursAfter(a, d, b);
    OccursAfter(a', d, b');
    SameLength(a, d, b, a', b');
  }

  /** Cutting finds the first occurrence, and finds one if there is any. */
  lemma CutExactly(s: string, d: string, a: string, b: string)
    requires d != ""
    ensures Cut(s, d) == Some((a, b)) <==> FirstCut(s, d, a, b)
    ensures Cut(s, d) == None <==> Nowhere(s, d)
  {
    CutIsFirst(s, d);
    if FirstCut(s, d, a, b) {
      OccursAfter(a, d, b);
      FirstCutUnique(s, d, a, b, Cut(s, d).value.0, Cut(s, d).value.1);
    }
    if Cut(s, d).Some? {
      OccursAfter(Cut(s, d).value.0, d, Cut(s, d).value.1);
    }
  }

  lemma {:induction false} TrimFront(blanks: string, t: string)
    requires Blank(blanks)
    ensures Trim(blanks + t) == Trim(t)
  {
    if blanks == "" {
      assert blanks + t == t;
    } else {
      assert (blanks + t)[1..] == blanks[1..] + t;
      TrimFront(blanks[1..], t);
    }
  }

  lemma {:induction false} TrimBack(t: string, blanks: string)
    requires Blank(blanks) && (t == "" || (t[0] != ' ' && t[|t| - 1] != ' '))
    ensures Trim(t + blanks) == t
  {
    if blanks == "" {
      assert t + blanks == t;
    } else if t == "" {
      assert t + blanks == blanks + "";
      TrimFront(blanks, "");
    } else {
      var n := |blanks| - 1;
      assert (t + blanks)[..|t + blanks| - 1] == t + blanks[..n];
      TrimBack(t, blanks[..n]);
    }
  }

  /** Trimming takes off the blanks around a text and nothing else. */
  lemma TrimExactly(before: string, t: string, after: string)
    requires Blank(before) && Blank(after) && (t == "" || (t[0] != ' ' && t[|t| - 1] != ' '))
    ensures Trim(before + (t + after)) == t
  {
    TrimFront(before, t + after);
    TrimBack(t, after);
  }

  // Units

  const UNITS := ["nanosecond", "microsecond", "millisecond", "second", "minute", "hour"]

  /** The units are the six names with anything after them; every other text is refused as a unit. */
  lemma KnownUnits(unit: string)
    ensures UnitNanoseconds(unit).Some? <==> exists i :: 0 <= i < |UNITS| && UNITS[i] <= unit
  {
    if UnitNanoseconds(unit).Some? {
      assert UNITS[0] <= unit || UNITS[1] <= unit || UNITS[2] <= unit || UNITS[3] <= unit || UNITS[4] <= unit || UNITS[5] <= unit;
    }
  }

  lemma UnknownUnitRefused(n: nat, unit: string)
    requires Exact(n) && forall i :: 0 <= i < |UNITS| ==> !(UNITS[i] <= unit)
    ensures DecodeTime(Signed(n) + (" " + unit)) == Err(InvalidConfiguration)
  {
    KnownUnits(unit);
    SignedCuts(n, " ", unit);
    IntegerRoundTrip(n);
  }

  // The decoders, for every text

  ghost predicate IsTime(s: string, v: int, count: string, unit: string, n: int) {
    && s == count + (" " + unit) && ' ' !in count && DecodeInteger(count) == Ok(n)
    && UnitNanoseconds(unit).Some? && v == n * UnitNanoseconds(unit).value < TWO63
  }

  lemma NoBlankNoTrim(s: string)
    requires ' ' !in s
    ensures Trim(s) == s
  {
    if s != "" {
      assert s[0] in s && s[|s| - 1] in s;
    }
  }

  lemma FirstCutByChar(s: string, c: char, a: string, b: string)
    ensures FirstCut(s, [c], a, b) <==> s == a + ([c] + b) && c !in a
  {
    if s == a + ([c] + b) {
      forall i | 0 <= i < |a|
        ensures [c] <= s[i..] <==> a[i] == c
      {
        assert s[i..][0] == a[i];
      }
      if c in a {
        var i :| 0 <= i < |a| && a[i] == c;
        assert [c] <= s[i..];
      }
    }
  }

  /** A time: an integer without blanks, one blank, a unit, and a product that fits 64 bits. */
  lemma TimeTexts(s: string, v: int)
    ensures DecodeTime(s) == Ok(v) <==> exists count, unit, n :: IsTime(s, v, count, unit, n)
  {
    hide DecodeInteger, UnitNanoseconds;
    if DecodeTime(s) == Ok(v) {
      var (count, unit) := Cut(s, " ").value;
      CutExactly(s, " ", count, unit);
      FirstCutByChar(s, ' ', count, unit);
      NoBlankNoTrim(count);
      assert IsTime(s, v, count, unit, DecodeInteger(count).value);
    }
    if count, unit, n :| IsTime(s, v, count, unit, n) {
      FirstCutByChar(s, ' ', count, unit);
      CutExactly(s, " ", count, unit);
      NoBlankNoTrim(count);
    }
  }

  ghost predicate IsPercentage(s: string, p: int, count: string) {
    s == count + "%" && '%' !in count && DecodeInteger(Trim(count)) == Ok(p) && p <= 100
  }

  /** A percentage: an integer up to 100 and a single percent sign at the very end. */
  lemma PercentageTexts(s: string, p: int)
    ensures DecodePercentile(s) == Ok(p) <==> exists count :: IsPercentage(s, p, count)
  {
    hide DecodeInteger, Trim;
    if DecodePercentile(s) == Ok(p) {
      var (count, after) := Cut(s, "%").value;
      CutExactly(s, "%", count, after);
      FirstCutByChar(s, '%', count, after);
      assert count + ("%" + "") == count + "%";
      assert IsPercentage(s, p, count);
    }
    if count :| IsPercentage(s, p, count) {
      assert count + ("%" + "") == count + "%";
      FirstCutByChar(s, '%', count, "");
      CutExactly(s, "%", count, "");
    }
  }

  ghost predicate IsBase(s: string, b: BaseRate, count: string, time: string) {
    && FirstCut(s, " per ", count, time)
    && DecodeInteger(Trim(count)) == Ok(b.operations) && DecodeTime(Trim(time)) == Ok(b.per)
  }

  /** A base rate: an integer, the first " per ", and a time. */
  lemma BaseTexts(s: string, b: BaseRate)
    ensures DecodeBase(s) == Ok(b) <==> exists count, time :: IsBase(s, b, count, time)
  {
    hide DecodeInteger, DecodeTime, Trim;
    if DecodeBase(s) == Ok(b) {
      var (count, time) := Cut(s, " per ").value;
      CutExactly(s, " per ", count, time);
      assert IsBase(s, b, count, time);
    }
    if count, time :| IsBase(s, b, count, time) {
      CutExactly(s, " per ", count, time);
    }
  }

  ghost predicate IsRange(s: string, r: Range, a: string, b: string) {
    FirstCut(s, "..", a, b) && DecodeInteger(Trim(a)) == Ok(r.start) && DecodeInteger(Trim(b)) == Ok(r.end)
  }

  /** A phase range: one integer, or two around the first ".."; ordered and within 32 bits in either case. */
  lemma RangeTexts(s: string, r: Range)
    ensures DecodeRange(s) == Ok(r) <==>
            && r.start <= r.end <= UINT_MAX && 0 <= r.start
            && (|| (Nowhere(s, "..") && r.start == r.end && DecodeInteger(s) == Ok(r.start))
                || exists a, b :: IsRange(s, r, a, b))
  {
    hide DecodeInteger, Trim;
    CutExactly(s, "..", "", "");
    if Cut(s, "..").Some? {
      var (a, b) := Cut(s, "..").value;
      CutExactly(s, "..", a, b);
      if DecodeRange(s) == Ok(r) {
        assert IsRange(s, r, a, b);
      }
    }
    if a, b :| IsRange(s, r, a, b) {
      CutExactly(s, "..", a, b);
    }
  }

  // Negative numbers in any text

  lemma MinusTrimmed(a: string)
    requires a != "" && a[0] == '-'
    ensures Trim(a) != "" && Trim(a)[0] == '-'
    ensures DecodeInteger(Trim(a)).Ok? ==> DecodeInteger(Trim(a)).value == 0
  {
    var blanks := TrimAtEnd(a);
    assert Trim(a)[0] == a[0];
    assert Trim(a) == "-" + Trim(a)[1..];
    MinusReadsZero(Trim(a)[1..]);
  }

  lemma MinusBefore(t: string, d: string)
    requires d != "" && d[0] != '-'
    ensures Cut("-" + t, d).Some? ==> Cut("-" + t, d).value.0 != "" && Cut("-" + t, d).value.0[0] == '-'
  {
    if Cut("-" + t, d).Some? {
      var (a, b) := Cut("-" + t, d).value;
      assert (a + (d + b))[0] == '-';
    }
  }

  /** Text after a minus sign: whatever is decoded from it, the number that comes first is zero. */
  lemma MinusTexts(t: string)
    ensures DecodeTime("-" + t).Ok? ==> DecodeTime("-" + t).value == 0
    ensures DecodePercentile("-" + t).Ok? ==> DecodePercentile("-" + t).value == 0
    ensures DecodeBase("-" + t).Ok? ==> DecodeBase("-" + t).value.operations == 0
    ensures DecodeRange("-" + t).Ok? ==> DecodeRange("-" + t).value.start == 0
  {
    hide DecodeInteger, Trim, Cut, UnitNanoseconds;
    var s := "-" + t;
    MinusReadsZero(t);
    MinusBefore(t, " ");
    MinusBefore(t, "%");
    MinusBefore(t, " per ");
    MinusBefore(t, "..");
    MinusFirst(s, " ");
    MinusFirst(s, "%");
    MinusFirst(s, " per ");
    MinusFirst(s, "..");
  }

  lemma MinusFirst(s: string, d: string)
    requires Cut(s, d).Some? ==> Cut(s, d).value.0 != "" && Cut(s, d).value.0[0] == '-'
    ensures Cut(s, d).Some? && DecodeInteger(Trim(Cut(s, d).value.0)).Ok? ==> DecodeInteger(Trim(Cut(s, d).value.0)).value == 0
  {
    if Cut(s, d).Some? {
      MinusTrimmed(Cut(s, d).value.0);
    }
  }
}
