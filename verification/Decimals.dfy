// The two decimal-to-base-unit converters: the text one of the websocket adapter
// (src/polymarket/ws.rs) and the mantissa/scale one of the REST adapter
// (src/polymarket/rest.rs).
module Decimals {
  import opened Domain
  import opened Arithmetic
  import opened Text

  const U128_MAX: nat := 0xFFFF_FFFF_FFFF_FFFF_FFFF_FFFF_FFFF_FFFF
  const BASE_SCALE: nat := 6

  /** The decimal with mantissa `whole * 10^scale + rest`, as the library prints
      it: all `scale` digits after the point, and no point at scale zero. */
  function Print(whole: nat, rest: nat, scale: nat): string
    requires rest < Pow10(scale)
  {
    if scale == 0 then Decimal(whole) else Decimal(whole) + "." + FractionText(rest, scale)
  }

  function FractionText(r: nat, scale: nat): (s: string)
    requires scale >= 1 && r < Pow10(scale)
    ensures |s| == scale && AllDigits(s) && DigitsValue(s) == r
  {
    DecimalLength(r, scale);
    var digits := Decimal(r);
    var zeros := Zeros(scale - |digits|);
    DigitsAppend(zeros, digits);
    DigitsZero(zeros);
    zeros + digits
  }

  /** The websocket converter: split at the point, then check and combine. */
  function FromText(text: string): Option<nat> {
    match SplitOnce(text, '.')
    case Some((whole, fraction)) => FromParts(whole, fraction)
    case None => FromParts(text, [])
  }

  function FromParts(whole: string, fraction: string): Option<nat> {
    if (whole != [] && whole[0] == '-') || whole == [] || !AllDigits(whole) then None
    else if |fraction| > 6 && (exists i :: 6 <= i < |fraction| && fraction[i] != '0') then None
    else if !AllDigits(fraction) then None
    else
      match (ParseUnsigned(whole, U64_MAX), ParseUnsigned(Padded(fraction), U64_MAX))
      case (Some(units), Some(rest)) =>
        if units * 1_000_000 > U64_MAX || units * 1_000_000 + rest > U64_MAX then None
        else Some(units * 1_000_000 + rest)
      case _ => None
  }

  /** The first six fraction digits, padded with zeros on the right. */
  function Padded(fraction: string): (s: string)
    requires AllDigits(fraction)
    ensures |s| == 6 && AllDigits(s)
  {
    (if |fraction| < 6 then fraction + Zeros(6 - |fraction|) else fraction)[..6]
  }

  /** The REST converter. */
  function FromMantissa(mantissa: nat, scale: nat): Option<nat> {
    var scaled :=
      if scale <= BASE_SCALE then
        var product := mantissa * Pow10(BASE_SCALE - scale);
        if product <= U128_MAX then Some(product) else None
      else
        var divisor := Pow10(scale - BASE_SCALE);
        if mantissa % divisor == 0 then Some(mantissa / divisor) else None;
    match scaled
    case Some(units) => if units <= U64_MAX then Some(units) else None
    case None => None
  }

  /** The exact number of base units, `mantissa * 10^6 / 10^scale`, when it is an
      integer that fits. */
  function Exact(mantissa: nat, scale: nat): Option<nat> {
    var product := mantissa * 1_000_000;
    if product % Pow10(scale) == 0 && product / Pow10(scale) <= U64_MAX then Some(product / Pow10(scale)) else None
  }

  // ----- Arithmetic -----

  lemma Pow10Six()
    ensures Pow10(6) == 1_000_000
  {
    assert Pow10(3) == 1000;
    PowAdd(3, 3);
  }

  lemma DivModUnique(a: nat, q: nat, r: nat, d: nat)
    requires d > 0 && a == q * d + r && r < d
    ensures a / d == q && a % d == r
  {
    var q', r' := a / d, a % d;
    assert a == q' * d + r';
    if q < q' {
      MulStrict(q, q', d);
    } else if q' < q {
      MulStrict(q', q, d);
    }
  }

  /** Dividing a common factor out of both sides. */
  lemma CancelFactor(m: nat, f: nat, d: nat)
    requires f > 0 && d > 0
    ensures (m * f) % (d * f) == 0 <==> m % d == 0
    ensures m % d == 0 ==> (m * f) / (d * f) == m / d
  {
    var q, r := m / d, m % d;
    assert m == q * d + r;
    assert m * f == q * (d * f) + r * f;
    MulStrict(r, d, f);
    DivModUnique(m * f, q, r * f, d * f);
    assert r * f == 0 <==> r == 0;
  }

  /** What exactness means on each side of scale six. */
  lemma ExactBySides(m: nat, scale: nat)
    ensures scale <= 6 ==> Exact(m, scale)
                           == (if m * Pow10(6 - scale) <= U64_MAX then Some(m * Pow10(6 - scale)) else None)
    ensures scale > 6 ==> Exact(m, scale)
                          == (if m % Pow10(scale - 6) == 0 && m / Pow10(scale - 6) <= U64_MAX
                              then Some(m / Pow10(scale - 6)) else None)
  {
    Pow10Six();
    if scale <= 6 {
      PowAdd(6 - scale, scale);
      var f := Pow10(6 - scale);
      assert m * 1_000_000 == (m * f) * Pow10(scale);
      DivModUnique(m * 1_000_000, m * f, 0, Pow10(scale));
    } else {
      PowAdd(scale - 6, 6);
      CancelFactor(m, 1_000_000, Pow10(scale - 6));
    }
  }

  /** The REST converter is exact, for every mantissa and scale. */
  lemma MantissaExact(m: nat, scale: nat)
    ensures FromMantissa(m, scale) == Exact(m, scale)
  {
    ExactBySides(m, scale);
  }

  // ----- The text converter -----

  lemma ParsePlainDigits(s: string, max: nat)
    requires s != [] && AllDigits(s)
    ensures ParseUnsigned(s, max) == if DigitsValue(s) <= max then Some(DigitsValue(s)) else None
  {}

  /** The text converter on a whole part and a fraction of digits. */
  function Assemble(whole: nat, fraction: string): Option<nat>
    requires AllDigits(fraction)
  {
    if |fraction| <= 6 then InRange(whole * 1_000_000 + DigitsValue(fraction) * Pow10(6 - |fraction|))
    else if DigitsValue(fraction[6..]) != 0 then None
    else InRange(whole * 1_000_000 + DigitsValue(fraction[..6]))
  }

  lemma FractionFits(s: string)
    requires AllDigits(s) && |s| == 6
    ensures DigitsValue(s) < 1_000_000
  {
    DigitsBound(s);
    Pow10Six();
  }

  lemma PaddedIs(fraction: string)
    requires AllDigits(fraction)
    ensures Padded(fraction) == if |fraction| <= 6 then fraction + Zeros(6 - |fraction|) else fraction[..6]
  {}

  lemma ExcessDigits(fraction: string)
    requires AllDigits(fraction) && |fraction| > 6
    ensures (exists i :: 6 <= i < |fraction| && fraction[i] != '0') <==> DigitsValue(fraction[6..]) != 0
  {
    DigitsZero(fraction[6..]);
    if exists i :: 6 <= i < |fraction| && fraction[i] != '0' {
      var i :| 6 <= i < |fraction| && fraction[i] != '0';
      assert fraction[6..][i - 6] != '0';
    }
  }

  lemma PartsAssemble(whole: string, fraction: string)
    requires whole != [] && AllDigits(whole) && AllDigits(fraction)
    ensures FromParts(whole, fraction) == Assemble(DigitsValue(whole), fraction)
  {
    if |fraction| <= 6 {
      ShortAssembles(whole, fraction);
    } else {
      LongAssembles(whole, fraction);
    }
  }

  lemma ShortAssembles(whole: string, fraction: string)
    requires whole != [] && AllDigits(whole) && AllDigits(fraction) && |fraction| <= 6
    ensures FromParts(whole, fraction) == Assemble(DigitsValue(whole), fraction)
  {
    var rest := ShortValue(fraction);
    CombineParts(whole, fraction, rest);
  }

  /** A number of base units, if it fits 64 bits. */
  function InRange(units: nat): Option<nat> {
    if units <= U64_MAX then Some(units) else None
  }

  lemma ShortValue(fraction: string) returns (rest: nat)
    requires AllDigits(fraction) && |fraction| <= 6
    ensures rest == DigitsValue(Padded(fraction)) == DigitsValue(fraction) * Pow10(6 - |fraction|)
  {
    PaddedIs(fraction);
    AppendZeros(fraction, 6 - |fraction|);
    rest := DigitsValue(Padded(fraction));
  }

  lemma LongAssembles(whole: string, fraction: string)
    requires whole != [] && AllDigits(whole) && AllDigits(fraction) && |fraction| > 6
    ensures FromParts(whole, fraction) == Assemble(DigitsValue(whole), fraction)
  {
    PaddedIs(fraction);
    ExcessDigits(fraction);
    CombineParts(whole, fraction, DigitsValue(fraction[..6]));
  }

  lemma CombineParts(whole: string, fraction: string, rest: nat)
    requires whole != [] && AllDigits(whole) && AllDigits(fraction)
    requires rest == DigitsValue(Padded(fraction))
    ensures FromParts(whole, fraction)
         == if |fraction| > 6 && (exists i :: 6 <= i < |fraction| && fraction[i] != '0') then None
            else InRange(DigitsValue(whole) * 1_000_000 + rest)
  {
    ParsePlainDigits(whole, U64_MAX);
    ParsePlainDigits(Padded(fraction), U64_MAX);
    FractionFits(Padded(fraction));
  }

  lemma AssembleExact(m: nat, scale: nat, w: nat, r: nat)
    requires scale >= 1 && m == w * Pow10(scale) + r && r < Pow10(scale)
    ensures Assemble(w, FractionText(r, scale)) == Exact(m, scale)
  {
    ExactBySides(m, scale);
    if scale <= 6 {
      ShortFraction(m, scale, w, r);
    } else {
      LongFraction(m, scale, w, r, FractionText(r, scale));
    }
  }

  lemma ShortFraction(m: nat, scale: nat, w: nat, r: nat)
    requires 1 <= scale <= 6 && m == w * Pow10(scale) + r
    ensures m * Pow10(6 - scale) == w * 1_000_000 + r * Pow10(6 - scale)
  {
    Pow10Six();
    PowAdd(scale, 6 - scale);
    Scale(m, w, Pow10(scale), r, Pow10(6 - scale));
  }

  lemma Scale(m: nat, w: nat, p: nat, r: nat, k: nat)
    requires m == w * p + r
    ensures m * k == w * (p * k) + r * k
  {}

  lemma Regroup(m: nat, w: nat, d: nat, r: nat, high: nat, low: nat, k: nat)
    requires m == w * (d * k) + r && r == high * d + low
    ensures m == (w * k + high) * d + low
  {
    assert w * (d * k) == (w * k) * d;
  }

  lemma LongFraction(m: nat, scale: nat, w: nat, r: nat, f: string)
    requires scale > 6 && m == w * Pow10(scale) + r && r < Pow10(scale)
    requires |f| == scale && AllDigits(f) && DigitsValue(f) == r
    ensures var d := Pow10(scale - 6);
            && (DigitsValue(f[6..]) == 0 <==> m % d == 0)
            && (m % d == 0 ==> m / d == w * 1_000_000 + DigitsValue(f[..6]))
  {
    var d := Pow10(scale - 6);
    Pow10Six();
    PowAdd(scale - 6, 6);
    DigitsAppend(f[..6], f[6..]);
    assert f[..6] + f[6..] == f;
    DigitsBound(f[6..]);
    var high, low := DigitsValue(f[..6]), DigitsValue(f[6..]);
    Regroup(m, w, d, r, high, low, 1_000_000);
    DivModUnique(m, w * 1_000_000 + high, low, d);
  }

  lemma WholeExact(w: nat)
    ensures FromText(Print(w, 0, 0)) == Exact(w, 0)
  {
    SplitOnceNone(Decimal(w), '.');
    PartsAssemble(Decimal(w), []);
    Pow10Six();
    ExactBySides(w, 0);
  }

  /** The text converter is exact on the printed form of every non-negative decimal. */
  lemma TextExact(m: nat, scale: nat, w: nat, r: nat)
    requires m == w * Pow10(scale) + r && r < Pow10(scale)
    ensures FromText(Print(w, r, scale)) == Exact(m, scale)
  {
    if scale == 0 {
      WholeExact(w);
    } else {
      SplitOnceAt(Decimal(w), '.', FractionText(r, scale));
      PartsAssemble(Decimal(w), FractionText(r, scale));
      AssembleExact(m, scale, w, r);
    }
  }

  /** Whole and fractional part of a mantissa, at `d` units to the whole. */
  function Parts(m: nat, d: nat): (p: (nat, nat))
    requires d > 0
    ensures m == p.0 * d + p.1 && p.1 < d
  {
    (m / d, m % d)
  }

  /** A decimal as text: `m` units of the last of `scale` places. */
  function Printed(m: nat, scale: nat): string {
    var (whole, rest) := Parts(m, Pow10(scale));
    Print(whole, rest, scale)
  }

  /** The two converters agree on every non-negative decimal: both return exactly
      mantissa * 10^6 / 10^scale, and both fail exactly when that is no integer or
      does not fit 64 bits. */
  lemma ConvertersAgree(m: nat, scale: nat)
    ensures FromText(Printed(m, scale)) == FromMantissa(m, scale) == Exact(m, scale)
  {
    var (whole, rest) := Parts(m, Pow10(scale));
    TextExact(m, scale, whole, rest);
    MantissaExact(m, scale);
  }

  // ----- Exactly which texts are accepted -----

  /** The text is a whole part of at least one digit, perhaps followed by a point and
      a fraction of digits. */
  ghost predicate Reads(text: string, whole: string, fraction: string) {
    && whole != [] && AllDigits(whole) && AllDigits(fraction)
    && (text == whole + ['.'] + fraction || (text == whole && fraction == []))
  }

  /** `units` base units are the number that the digits denote: a million of them
      make one, and each digit of the fraction divides by ten. */
  ghost predicate Worth(whole: string, fraction: string, units: nat)
    requires AllDigits(whole) && AllDigits(fraction)
  {
    units * Pow10(|fraction|) == (DigitsValue(whole) * Pow10(|fraction|) + DigitsValue(fraction)) * 1_000_000
  }

  lemma ShortWorth(w: nat, d: nat, units: nat, p: nat, q: nat)
    requires p > 0 && p * q == 1_000_000
    ensures units * p == (w * p + d) * 1_000_000 <==> units == w * 1_000_000 + d * q
  {
    assert (w * 1_000_000 + d * q) * p == w * 1_000_000 * p + d * (q * p);
    MulEqual(units, w * 1_000_000 + d * q, p);
  }

  lemma MulEqual(a: nat, b: nat, p: nat)
    requires p > 0
    ensures a * p == b * p <==> a == b
  {
    if a < b {
      MulStrict(a, b, p);
    } else if b < a {
      MulStrict(b, a, p);
    }
  }

  lemma LongWorth(w: nat, head: nat, tail: nat, units: nat, q: nat)
    requires tail < q
    ensures units * (1_000_000 * q) == (w * (1_000_000 * q) + (head * q + tail)) * 1_000_000
       <==> tail == 0 && units == w * 1_000_000 + head
  {
    var n := w * 1_000_000 + head;
    assert w * (1_000_000 * q) + (head * q + tail) == n * q + tail;
    assert units * (1_000_000 * q) == units * q * 1_000_000;
    if units * q == n * q + tail {
      DivModUnique(units * q, units, 0, q);
      DivModUnique(units * q, n, tail, q);
    }
  }

  lemma AssembleIff(whole: string, fraction: string, units: nat)
    requires AllDigits(whole) && AllDigits(fraction)
    ensures Assemble(DigitsValue(whole), fraction) == Some(units)
       <==> Worth(whole, fraction, units) && units <= U64_MAX
  {
    var w, n := DigitsValue(whole), |fraction|;
    Pow10Six();
    if n <= 6 {
      PowAdd(n, 6 - n);
      ShortWorth(w, DigitsValue(fraction), units, Pow10(n), Pow10(6 - n));
    } else {
      var head, tail := fraction[..6], fraction[6..];
      DigitsAppend(head, tail);
      assert head + tail == fraction;
      DigitsBound(tail);
      PowAdd(6, n - 6);
      LongWorth(w, DigitsValue(head), DigitsValue(tail), units, Pow10(n - 6));
    }
  }

  lemma PartsIff(whole: string, fraction: string, units: nat)
    ensures FromParts(whole, fraction) == Some(units)
       <==> && whole != [] && AllDigits(whole) && AllDigits(fraction)
            && Worth(whole, fraction, units) && units <= U64_MAX
  {
    if whole != [] && AllDigits(whole) && AllDigits(fraction) {
      PartsAssemble(whole, fraction);
      AssembleIff(whole, fraction, units);
    }
  }

  lemma ReadsSplit(text: string, whole: string, fraction: string)
    requires Reads(text, whole, fraction)
    ensures FromText(text) == FromParts(whole, fraction)
  {
    if text == whole + ['.'] + fraction {
      SplitOnceAt(whole, '.', fraction);
    } else {
      SplitOnceNone(whole, '.');
    }
  }

  /** The text converter, exactly: it accepts digits with at most one point behind the
      first of them, no sign and no exponent, when the number they denote is a whole
      number of base units within 64 bits; and that number is the result. */
  lemma TextIff(text: string, units: nat)
    ensures FromText(text) == Some(units)
       <==> units <= U64_MAX
            && exists whole, fraction :: Reads(text, whole, fraction) && Worth(whole, fraction, units)
  {
    if FromText(text) == Some(units) {
      var (whole, fraction) := match SplitOnce(text, '.') case Some(parts) => parts case None => (text, []);
      PartsIff(whole, fraction, units);
      assert Reads(text, whole, fraction);
    }
    if whole, fraction :| Reads(text, whole, fraction) && Worth(whole, fraction, units) {
      ReadsSplit(text, whole, fraction);
      PartsIff(whole, fraction, units);
    }
  }
}
