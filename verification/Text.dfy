/** Scanning for decimal digits, and taking concatenations apart. */
module Text {

  predicate IsDigit(c: char) {
    '0' <= c <= '9'
  }

  /** The length of the longest prefix of digits. */
  function DigitSpan(s: string): (n: nat)
    ensures n <= |s|
    ensures forall i :: 0 <= i < n ==> IsDigit(s[i])
    ensures n < |s| ==> !IsDigit(s[n])
  {
    if s == "" || !IsDigit(s[0]) then 0 else 1 + DigitSpan(s[1..])
  }

  lemma {:induction false} DigitSpanConcat(a: string, b: string)
    requires (forall i :: 0 <= i < |a| ==> IsDigit(a[i])) && (b == "" || !IsDigit(b[0]))
    ensures DigitSpan(a + b) == |a|
  {
    if a == "" {
      assert a + b == b;
    } else {
      assert (a + b)[1..] == a[1..] + b;
      DigitSpanConcat(a[1..], b);
    }
  }

  lemma DropFirst<T>(a: seq<T>, b: seq<T>)
    ensures (a + b)[|a|..] == b && (a + b)[..|a|] == a
  {
  }

  lemma DropTwo<T>(a: seq<T>, b: seq<T>, c: seq<T>)
    ensures (a + (b + c))[|a| + |b|..] == c
  {
  }
}
