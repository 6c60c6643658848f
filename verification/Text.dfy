// Decimal text and string splitting, as the parsers below use them.
module Text {
  import opened Domain

  // ----- Digits -----

  predicate IsDigit(c: char) {
    '0' <= c <= '9'
  }

  predicate AllDigits(s: string) {
    forall i :: 0 <= i < |s| ==> IsDigit(s[i])
  }

  function DigitValue(c: char): nat
    requires IsDigit(c)
  {
    (c - '0') as nat
  }

  function DigitChar(d: nat): (c: char)
    requires d < 10
    ensures IsDigit(c) && DigitValue(c) == d
  {
    '0' + d as char
  }

  function Pow10(n: nat): (p: nat)
    ensures p >= 1
  {
    if n == 0 then 1 else 10 * Pow10(n - 1)
  }

  /** The value of a string of digits; the empty string is zero. */
  function DigitsValue(s: string): nat
    requires AllDigits(s)
  {
    if s == [] then 0 else 10 * DigitsValue(s[..|s| - 1]) + DigitValue(s[|s| - 1])
  }

  /** The decimal digits of a number, without leading zeros. */
  function Decimal(n: nat): (s: string)
    ensures s != [] && AllDigits(s) && DigitsValue(s) == n
  {
    if n < 10 then [DigitChar(n)]
    else
      SnocValue(Decimal(n / 10), n % 10);
      Decimal(n / 10) + [DigitChar(n % 10)]
  }

  lemma SnocValue(front: string, d: nat)
    requires AllDigits(front) && d < 10
    ensures AllDigits(front + [DigitChar(d)]) && DigitsValue(front + [DigitChar(d)]) == 10 * DigitsValue(front) + d
  {
    assert (front + [DigitChar(d)])[..|front|] == front;
  }

  function Zeros(n: nat): (s: string)
    ensures |s| == n && AllDigits(s) && forall i :: 0 <= i < n ==> s[i] == '0'
  {
    seq(n, _ => '0')
  }

  lemma {:induction false} DigitsAppend(a: string, b: string)
    requires AllDigits(a) && AllDigits(b)
    ensures AllDigits(a + b) && DigitsValue(a + b) == DigitsValue(a) * Pow10(|b|) + DigitsValue(b)
  {
    if b == [] {
      assert a + b == a;
    } else {
      var b' := b[..|b| - 1];
      DigitsAppend(a, b');
      FrontAndLast(a, b);
      Shift(DigitsValue(a), Pow10(|b'|), DigitsValue(b'), DigitValue(b[|b| - 1]));
    }
  }

  lemma FrontAndLast(a: string, b: string)
    requires b != []
    ensures (a + b)[..|a + b| - 1] == a + b[..|b| - 1] && (a + b)[|a + b| - 1] == b[|b| - 1]
  {}

  lemma Shift(x: nat, p: nat, y: nat, d: nat)
    ensures 10 * (x * p + y) + d == x * (10 * p) + (10 * y + d)
  {}

  lemma {:induction false} DigitsBound(s: string)
    requires AllDigits(s)
    ensures DigitsValue(s) < Pow10(|s|)
  {
    if s != [] {
      DigitsBound(s[..|s| - 1]);
    }
  }

  lemma {:induction false} DigitsZero(s: string)
    requires AllDigits(s)
    ensures DigitsValue(s) == 0 <==> forall i :: 0 <= i < |s| ==> s[i] == '0'
  {
    if s != [] {
      DigitsZero(s[..|s| - 1]);
      assert DigitValue(s[|s| - 1]) == 0 <==> s[|s| - 1] == '0';
      forall i | 0 <= i < |s| - 1 ensures s[..|s| - 1][i] == s[i] {}
    }
  }

  lemma AppendZeros(s: string, n: nat)
    requires AllDigits(s)
    ensures AllDigits(s + Zeros(n)) && DigitsValue(s + Zeros(n)) == DigitsValue(s) * Pow10(n)
  {
    DigitsAppend(s, Zeros(n));
    DigitsZero(Zeros(n));
  }

  lemma {:induction false} DecimalLength(n: nat, k: nat)
    requires k >= 1 && n < Pow10(k)
    ensures |Decimal(n)| <= k
    decreases k
  {
    if n >= 10 {
      DecimalLength(n / 10, k - 1);
    }
  }

  lemma {:induction false} PowAdd(a: nat, b: nat)
    ensures Pow10(a + b) == Pow10(a) * Pow10(b)
  {
    if a > 0 {
      PowAdd(a - 1, b);
      assert 10 * (Pow10(a - 1) * Pow10(b)) == Pow10(a) * Pow10(b);
    }
  }

  /** Rust's unsigned `parse`: an optional plus sign, at least one digit, and a
      value within the type's range. */
  function ParseUnsigned(s: string, max: nat): Option<nat> {
    var digits := if s != [] && s[0] == '+' then s[1..] else s;
    if digits == [] || !AllDigits(digits) || DigitsValue(digits) > max then None
    else Some(DigitsValue(digits))
  }

  // ----- Splitting -----

  /** The text before and after the first separator, as `split_once`. */
  function SplitOnce(s: string, c: char): (parts: Option<(string, string)>)
    ensures parts.None? ==> c !in s
    ensures parts.Some? ==> c !in parts.value.0 && s == parts.value.0 + [c] + parts.value.1
  {
    if s == [] then None
    else if s[0] == c then Some(([], s[1..]))
    else
      match SplitOnce(s[1..], c)
      case None => None
      case Some((a, b)) => Some(([s[0]] + a, b))
  }

  lemma {:induction false} SplitOnceAt(a: string, c: char, b: string)
    requires c !in a
    ensures SplitOnce(a + [c] + b, c) == Some((a, b))
  {
    var s := a + [c] + b;
    if a == [] {
      assert s[1..] == b;
    } else {
      assert s[1..] == a[1..] + [c] + b && s[0] == a[0] != c;
      SplitOnceAt(a[1..], c, b);
      assert [a[0]] + a[1..] == a;
    }
  }

  lemma {:induction false} SplitOnceNone(s: string, c: char)
    requires c !in s
    ensures SplitOnce(s, c) == None
  {
    if s != [] {
      SplitOnceNone(s[1..], c);
    }
  }

  /** All the pieces between separators, as `split`. */
  function Split(s: string, c: char): (parts: seq<string>)
    ensures parts != []
    decreases |s|
  {
    match SplitOnce(s, c)
    case None => [s]
    case Some((a, b)) => [a] + Split(b, c)
  }

  /** Exactly three pieces: two separators, none within a piece. */
  lemma SplitThree(s: string, c: char)
    ensures |Split(s, c)| == 3 ==>
              var p := Split(s, c);
              c !in p[0] && c !in p[1] && c !in p[2] && s == p[0] + [c] + p[1] + [c] + p[2]
  {
    if |Split(s, c)| == 3 {
      var rest := SplitOnce(s, c).value.1;
      assert Split(s, c)[1..] == Split(rest, c);
      var rest' := SplitOnce(rest, c).value.1;
      assert Split(rest, c)[1..] == Split(rest', c);
    }
  }

  lemma SplitThreePieces(a: string, b: string, d: string, c: char)
    requires c !in a && c !in b && c !in d
    ensures Split(a + [c] + b + [c] + d, c) == [a, b, d]
  {
    var rest := b + [c] + d;
    assert a + [c] + b + [c] + d == a + [c] + rest;
    SplitFirst(a, c, rest);
    SplitFirst(b, c, d);
    SplitWhole(d, c);
  }

  lemma SplitFirst(a: string, c: char, rest: string)
    requires c !in a
    ensures Split(a + [c] + rest, c) == [a] + Split(rest, c)
  {
    SplitOnceAt(a, c, rest);
  }

  lemma SplitWhole(s: string, c: char)
    requires c !in s
    ensures Split(s, c) == [s]
  {
    SplitOnceNone(s, c);
  }
}
