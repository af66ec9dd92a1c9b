/** Printing, parsing and adding decimals. */
module Decimals {
  import opened Base
  import opened Exprs
  import AggSpec

  // ------------------------------------------------------------------ digits

  predicate IsDigit(c: char) {
    '0' <= c <= '9'
  }

  function DigitChar(d: nat): (c: char)
    requires d < 10
    ensures IsDigit(c) && DigitValue(c) == d
  {
    '0' + d as char
  }

  function DigitValue(c: char): (d: nat) {
    if IsDigit(c) then (c - '0') as nat else 0
  }

  predicate AllDigits(s: string) {
    forall i | 0 <= i < |s| :: IsDigit(s[i])
  }

  function DigitsValue(s: string): (n: nat) {
    if s == "" then 0 else 10 * DigitsValue(s[..|s| - 1]) + DigitValue(s[|s| - 1])
  }

  function NatString(n: nat): (s: string)
    ensures s != "" && AllDigits(s)
  {
    if n < 10 then [DigitChar(n)] else NatString(n / 10) + [DigitChar(n % 10)]
  }

  function IntString(w: int): (s: string) {
    if w < 0 then "-" + NatString(-w) else NatString(w)
  }

  function Zeros(n: nat): (s: string)
    ensures |s| == n && AllDigits(s)
  {
    seq(n, _ => '0')
  }

  lemma {:induction false} NatStringValue(n: nat)
    ensures DigitsValue(NatString(n)) == n
  {
    if n >= 10 {
      NatStringValue(n / 10);
      assert NatString(n)[..|NatString(n)| - 1] == NatString(n / 10);
    }
  }

  lemma {:induction false} ValueCat(a: string, b: string)
    ensures DigitsValue(a + b) == DigitsValue(a) * Pow10(|b|) + DigitsValue(b)
  {
    if b == "" {
      assert a + b == a;
    } else {
      var n := |b| - 1;
      ValueCat(a, b[..n]);
      assert (a + b)[..|a + b| - 1] == a + b[..n];
      assert Pow10(|b|) == 10 * Pow10(n);
      Regroup(DigitsValue(a), Pow10(n), DigitsValue(b[..n]));
    }
  }

  lemma Regroup(x: nat, p: nat, y: nat)
    ensures 10 * (x * p + y) == x * (10 * p) + 10 * y
  {
  }

  lemma {:induction false} ValueBound(s: string)
    ensures DigitsValue(s) < Pow10(|s|)
  {
    if s != "" {
      ValueBound(s[..|s| - 1]);
    }
  }

  lemma {:induction false} ZerosValue(n: nat)
    ensures DigitsValue(Zeros(n)) == 0
  {
    if n == 0 {
    } else {
      ZerosValue(n - 1);
      assert Zeros(n)[..n - 1] == Zeros(n - 1);
    }
  }

  /** A number has at most `k` digits exactly when it is below the `k`-th power of ten. */
  lemma {:induction false} DigitCount(n: nat, k: nat)
    requires k >= 1
    ensures |NatString(n)| <= k <==> n < Pow10(k)
  {
    if k == 1 {
      assert Pow10(1) == 10 * Pow10(0);
    } else {
      assert Pow10(k) == 10 * Pow10(k - 1);
      if n >= 10 {
        DigitCount(n / 10, k - 1);
      } else {
        assert Pow10(k - 1) >= 1;
      }
    }
  }

  // ------------------------------------------------------------------ printing

  function Padded(w: int, s: nat): (r: string)
    ensures |r| > s
  {
    var ds := IntString(w);
    if |ds| <= s then Zeros(s + 1 - |ds|) + ds else ds
  }

  function Print(w: int, s: nat): (r: string) {
    var padded := Padded(w, s);
    padded[..|padded| - s] + "." + padded[|padded| - s..]
  }

  // ------------------------------------------------------------------ parsing

  /** A 64-bit integer: an optional sign, then digits. */
  function ParseInt(s: string): (r: Option<int>) {
    if s == "" then None
    else
      var signed := s[0] == '-' || s[0] == '+';
      var body := if signed then s[1..] else s;
      var n: int := DigitsValue(body);
      if body == "" || !AllDigits(body) then None else Fit(if s[0] == '-' then -n else n)
  }

  /**
   * A decimal with `p` digits, `s` of them after the point; nothing on a malformed field, a number out of
   * range, or an overflow on the way.
   */
  function Parse(field: string, p: nat, s: nat): (r: Option<int>)
    requires s <= p
  {
    var parts := DotParts(field);
    if |parts| > 2 || Fit(Pow10(p - s)).None? || Fit(Pow10(s)).None? then None
    else
      var integer := ParseInt(parts[0]);
      if integer.None? || Abs(integer.value) >= Pow10(p - s) then None
      else
        var scaled := if |parts| == 1 then Some(0) else Fraction(parts[1], s);
        var whole := Fit(integer.value * Pow10(s));
        if scaled.None? || whole.None? then None
        else Fit(if integer.value < 0 then whole.value - scaled.value else whole.value + scaled.value)
  }

  /** The digits after the point, at scale `s`. */
  function Fraction(part: string, s: nat): (r: Option<int>) {
    var n := ParseInt(part);
    if n.None? || n.value < 0 || n.value >= Pow10(s) || |part| > s then None else Fit(n.value * Pow10(s - |part|))
  }

  // ------------------------------------------------------------------ round trip

  lemma NoPoint(s: string)
    requires AllDigits(s)
    ensures '.' !in s
  {
  }

  lemma ParseDigits(s: string)
    requires s != "" && AllDigits(s)
    ensures ParseInt(s) == Fit(DigitsValue(s))
  {
  }

  lemma ParseNegative(s: string)
    requires s != "" && AllDigits(s)
    ensures ParseInt("-" + s) == Fit(0 - DigitsValue(s))
  {
    assert ("-" + s)[1..] == s;
  }

  /** Digits cut `s` from the right: the two parts are quotient and remainder by the power of ten. */
  lemma CutValue(ds: string, s: nat)
    requires s <= |ds|
    ensures var a, b := ds[..|ds| - s], ds[|ds| - s..];
      DigitsValue(ds) == DigitsValue(a) * Pow10(s) + DigitsValue(b) && DigitsValue(b) < Pow10(s)
  {
    var a, b := ds[..|ds| - s], ds[|ds| - s..];
    assert ds == a + b;
    ValueCat(a, b);
    ValueBound(b);
  }

  lemma {:induction false} PowAdd(a: nat, b: nat)
    ensures Pow10(a + b) == Pow10(a) * Pow10(b)
  {
    if a == 0 {
    } else {
      PowAdd(a - 1, b);
    }
  }

  lemma TimesMonotone(x: nat, y: nat, q: nat)
    ensures x >= y ==> x * q >= y * q
  {
    if x >= y {
      assert x * q == y * q + (x - y) * q;
    }
  }

  lemma FractionOf(part: string, s: nat)
    requires |part| == s >= 1 && AllDigits(part) && Fit(DigitsValue(part)).Some?
    ensures Fraction(part, s) == Some(DigitsValue(part))
  {
    ValueBound(part);
    ParseDigits(part);
    assert Pow10(0) == 1;
  }

  lemma PaddedDigits(w: nat, s: nat)
    ensures AllDigits(Padded(w, s)) && DigitsValue(Padded(w, s)) == w
  {
    hide NatString, DigitsValue;
    var ds := NatString(w);
    NatStringValue(w);
    if |ds| <= s {
      ZerosValue(s + 1 - |ds|);
      ValueCat(Zeros(s + 1 - |ds|), ds);
    }
  }

  /** The parts of a field, parsed one by one. */
  lemma ParseParts(front: string, back: string, p: nat, s: nat, i: int, f: nat)
    requires s <= p && '.' !in front && '.' !in back
    requires ParseInt(front) == Some(i) && Fraction(back, s) == Some(f) && Abs(i) < Pow10(p - s)
    requires Fit(Pow10(p - s)).Some? && Fit(Pow10(s)).Some? && Fit(i * Pow10(s)).Some?
    ensures Parse(front + "." + back, p, s) == Fit(if i < 0 then i * Pow10(s) - f else i * Pow10(s) + f)
  {
    hide ParseInt, Fraction, DotParts, Pow10;
    DotPartsOnce(front, back);
  }

  /** Digits cut before the last `s`: quotient and remainder, each in range. */
  lemma CutBounds(ds: string, w: nat, p: nat, s: nat)
    requires 1 <= s <= |ds| && s <= p && DigitsValue(ds) == w < Pow10(p)
    ensures var q, f := DigitsValue(ds[..|ds| - s]), DigitsValue(ds[|ds| - s..]);
      w == q * Pow10(s) + f && q < Pow10(p - s) && 2 * q <= w && f < Pow10(s) && q * Pow10(s) <= w
  {
    hide DigitsValue;
    CutValue(ds, s);
    var q := DigitsValue(ds[..|ds| - s]);
    PowAdd(p - s, s);
    TimesMonotone(q, Pow10(p - s), Pow10(s));
    TimesMonotone(Pow10(s), 2, q);
  }

  /** What parses back: digits, the last `s` of them behind the point, with or without a minus in front. */
  lemma CutParses(ds: string, w: nat, p: nat, s: nat, negative: bool)
    requires 1 <= s < |ds| && s <= p && AllDigits(ds) && DigitsValue(ds) == w < Pow10(p)
    requires Fit(Pow10(p - s)).Some? && Fit(Pow10(s)).Some? && Fit(if negative then 0 - w else w).Some?
    requires negative ==> DigitsValue(ds[..|ds| - s]) > 0
    ensures var a, b := ds[..|ds| - s], ds[|ds| - s..];
      Parse((if negative then "-" else "") + a + "." + b, p, s) == Some(if negative then 0 - w else w)
  {
    hide Parse, ParseInt, Fraction, DigitsValue, Pow10;
    var a, b := ds[..|ds| - s], ds[|ds| - s..];
    var front := (if negative then "-" else "") + a;
    CutBounds(ds, w, p, s);
    var q, f := DigitsValue(a), DigitsValue(b);
    NoPoint(a);
    NoPoint(b);
    FractionOf(b, s);
    if negative {
      ParseNegative(a);
      assert (0 - q) * Pow10(s) == 0 - q * Pow10(s);
      ParseParts(front, b, p, s, 0 - q, f);
    } else {
      assert front == a;
      ParseDigits(a);
      ParseParts(front, b, p, s, q, f);
    }
  }

  lemma RoundTripNonNegative(w: nat, p: nat, s: nat)
    requires 1 <= s <= p && w < Pow10(p) && Fit(Pow10(p - s)).Some? && Fit(Pow10(s)).Some? && Fit(w).Some?
    ensures Parse(Print(w, s), p, s) == Some(w)
  {
    hide Parse, Padded;
    PaddedDigits(w, s);
    var ds := Padded(w, s);
    CutParses(ds, w, p, s, false);
    assert "" + ds[..|ds| - s] == ds[..|ds| - s];
  }

  lemma RoundTripNegative(n: nat, p: nat, s: nat)
    requires 1 <= s <= p && Pow10(s) <= n < Pow10(p) && Fit(Pow10(p - s)).Some? && Fit(Pow10(s)).Some? && Fit(0 - n).Some?
    ensures Parse(Print(0 - n, s), p, s) == Some(0 - n)
  {
    hide Parse, NatString, DigitsValue;
    var ds := NatString(n);
    NatStringValue(n);
    DigitCount(n, s);
    CutValue(ds, s);
    CutParses(ds, n, p, s, true);
    var text := "-" + ds;
    assert Padded(0 - n, s) == text;
    assert text[..|text| - s] == "-" + ds[..|ds| - s] && text[|text| - s..] == ds[|ds| - s..];
  }

  // ------------------------------------------------------------------ what does not parse back

  /** Without digits after the point the fraction is empty. */
  lemma NoFraction(w: int, p: nat)
    ensures Parse(Print(w, 0), p, 0) == None
  {
    hide Fit;
    var ds := Padded(w, 0);
    assert ds == IntString(w);
    IntStringNoPoint(w);
    assert ds[..|ds| - 0] == ds && ds[|ds| - 0..] == "";
    DotPartsOnce(ds, "");
  }

  lemma IntStringNoPoint(w: int)
    ensures '.' !in IntString(w)
  {
    NoPoint(NatString(if w < 0 then -w else w));
  }

  lemma MinusInside(k: nat, ds: string, scale: nat)
    requires k >= 1 && ds != ""
    ensures Fraction(Zeros(k) + "-" + ds, scale) == None
  {
    var s := Zeros(k) + "-" + ds;
    assert s[0] == '0' && s[k] == '-';
  }

  lemma BadPart(front: string, back: string, p: nat, s: nat)
    requires s <= p && '.' !in front && '.' !in back
    requires ParseInt(front) == None || Fraction(back, s) == None
    ensures Parse(front + "." + back, p, s) == None
  {
    hide ParseInt, Fraction, DotParts, Pow10, Fit;
    DotPartsOnce(front, back);
  }

  /** The minus of a padded number ends up behind the point. */
  lemma PaddedMinus(n: nat, s: nat, ds: string)
    requires ds == NatString(n) && n > 0 && |ds| < s
    ensures var padded := Padded(0 - n, s);
      && padded[..|padded| - s] == "0" && '.' !in padded[|padded| - s..]
      && Fraction(padded[|padded| - s..], s) == None
  {
    hide NatString, DigitsValue, Fit, Fraction;
    NatStringValue(n);
    NoPoint(ds);
    var k := s - |ds|;
    var padded := Padded(0 - n, s);
    assert padded == Zeros(k) + ("-" + ds);
    var b := Zeros(k - 1) + "-" + ds;
    assert padded[..|padded| - s] == "0" && padded[|padded| - s..] == b;
    NoPoint(Zeros(k - 1));
    if k - 1 >= 1 {
      MinusInside(k - 1, ds, s);
    } else {
      assert b == "-" + ds;
      NegativeFraction(ds, s);
    }
  }

  lemma NegativeFraction(ds: string, s: nat)
    requires ds != "" && AllDigits(ds) && DigitsValue(ds) > 0
    ensures Fraction("-" + ds, s) == None
  {
    ParseNegative(ds);
  }

  /** A negative number above minus one: its minus ends up behind the point, or alone in front of it. */
  lemma SmallNegative(n: nat, p: nat, s: nat)
    requires 1 <= s <= p && 0 < n < Pow10(s)
    ensures Parse(Print(0 - n, s), p, s) == None
  {
    hide Parse, NatString, Fraction, DigitsValue, Pow10;
    var ds := NatString(n);
    DigitCount(n, s);
    NoPoint(ds);
    var padded := Padded(0 - n, s);
    if |ds| < s {
      PaddedMinus(n, s, ds);
      BadPart("0", padded[|padded| - s..], p, s);
    } else {
      var text := "-" + ds;
      assert padded == text;
      assert text[..|text| - s] == "-" && text[|text| - s..] == ds;
      BadPart("-", ds, p, s);
    }
  }

  /**
   * A decimal survives printing and parsing if and only if it has digits after the point and is not strictly
   * between minus one and zero.
   */
  lemma RoundTripIff(w: int, p: nat, s: nat)
    requires s <= p && Abs(w) < Pow10(p)
    requires Fit(Pow10(p - s)).Some? && Fit(Pow10(s)).Some? && Fit(w).Some?
    ensures Parse(Print(w, s), p, s) == Some(w) <==> s >= 1 && (w >= 0 || w <= 0 - Pow10(s))
  {
    hide Parse, Print;
    if s == 0 {
      NoFraction(w, p);
    } else if w >= 0 {
      RoundTripNonNegative(w, p, s);
    } else if w <= 0 - Pow10(s) {
      RoundTripNegative(-w, p, s);
    } else {
      SmallNegative(-w, p, s);
    }
  }

  // ------------------------------------------------------------------ arithmetic

  /** The number a field stands for. */
  function Number(f: Field): (r: real)
    requires f.BigInt? || f.Decimal?
  {
    if f.BigInt? then f.i as real else f.whole as real / Pow10(f.scale) as real
  }

  lemma RealTimes(x: int, y: int)
    ensures (x * y) as real == x as real * y as real
  {
  }

  lemma CancelFactor(x: real, a: real, b: real)
    requires a > 0.0 && b > 0.0
    ensures x * b / (a * b) == x / a
  {
    assert x / a * (a * b) == x * b;
  }

  lemma Rescaled(x: int, s: nat, n: nat)
    ensures (x * Pow10(n)) as real / Pow10(s + n) as real == x as real / Pow10(s) as real
  {
    hide Pow10;
    PowAdd(s, n);
    RealTimes(x, Pow10(n));
    RealTimes(Pow10(s), Pow10(n));
    CancelFactor(x as real, Pow10(s) as real, Pow10(n) as real);
  }

  lemma SumOver(x: int, y: int, d: real)
    requires d > 0.0
    ensures (x + y) as real / d == x as real / d + y as real / d
    ensures (x - y) as real / d == x as real / d - y as real / d
  {
  }

  /** A field as a number of units of the power of ten that its scale gives. */
  function Units(f: Field): (u: (int, nat))
    requires f.BigInt? || f.Decimal?
  {
    if f.BigInt? then (f.i, 0) else (f.whole, f.scale)
  }

  lemma NumberUnits(f: Field)
    requires f.BigInt? || f.Decimal?
    ensures Number(f) == Units(f).0 as real / Pow10(Units(f).1) as real
  {
    assert Pow10(0) == 1;
  }

  predicate Wide(f: Field) {
    (f.BigInt? || f.Decimal?) && Fit(Units(f).0).Some?
  }

  /** A number of units at a scale larger by `n` is a 64-bit number, and so is the power of ten itself. */
  predicate Scales(x: int, n: nat) {
    Fit(Pow10(n)).Some? && Fit(x * Pow10(n)).Some?
  }

  /** What addition and subtraction compute: both operands at the larger scale, unless one of them overflows. */
  lemma AddSubUnits(f: (int, int) -> int, a: Field, b: Field)
    requires Wide(a) && Wide(b)
    ensures var (x, s) := Units(a); var (y, t) := Units(b); var scale := if s > t then s else t;
      var z := f(x * Pow10(scale - s), y * Pow10(scale - t)); var r := AddSub(f, a, b);
      && (r.Some? <==> Scales(x, scale - s) && Scales(y, scale - t) && Fit(z).Some?)
      && (r.Some? ==> (r.value.BigInt? || r.value.Decimal?) && Units(r.value) == (z, scale))
  {
    assert Pow10(0) == 1;
  }

  /** Sums and differences of integers and decimals, of any two scales, are exact unless they overflow. */
  lemma AddSubExact(a: Field, b: Field)
    requires Wide(a) && Wide(b)
    ensures var r := AddSub((x, y) => x + y, a, b);
      r.Some? ==> (r.value.BigInt? || r.value.Decimal?) && Number(r.value) == Number(a) + Number(b)
    ensures var r := AddSub((x, y) => x - y, a, b);
      r.Some? ==> (r.value.BigInt? || r.value.Decimal?) && Number(r.value) == Number(a) - Number(b)
  {
    hide AddSub, Pow10, Number, Scales;
    var (x, s) := Units(a);
    var (y, t) := Units(b);
    var scale := if s > t then s else t;
    NumberUnits(a);
    NumberUnits(b);
    Rescaled(x, s, scale - s);
    Rescaled(y, t, scale - t);
    SumOver(x * Pow10(scale - s), y * Pow10(scale - t), Pow10(scale) as real);
    var sum, difference := AddSub((x, y) => x + y, a, b), AddSub((x, y) => x - y, a, b);
    AddSubUnits((x, y) => x + y, a, b);
    AddSubUnits((x, y) => x - y, a, b);
    if sum.Some? {
      NumberUnits(sum.value);
    }
    if difference.Some? {
      NumberUnits(difference.value);
    }
  }

  // ------------------------------------------------------------------ sums of groups

  predicate AllWide(vals: seq<Field>) {
    forall i | 0 <= i < |vals| :: Wide(vals[i])
  }

  function Total(vals: seq<Field>): (t: real)
    requires AllWide(vals)
  {
    if vals == [] then 0.0 else Total(vals[..|vals| - 1]) + Number(vals[|vals| - 1])
  }

  lemma SumWide(a: Field, b: Field)
    requires Wide(a) && Wide(b)
    ensures var r := AddSub((x, y) => x + y, a, b); r.Some? ==> Wide(r.value)
  {
    AddSubUnits((x, y) => x + y, a, b);
  }

  /** SUM over integers and decimals of any scales is the exact total of the group, unless it overflows. */
  lemma {:induction false} SumExact(vals: seq<Field>)
    requires vals != [] && AllWide(vals)
    ensures var r := AggSpec.Fold(AggSpec.Sum, vals); r.Some? ==> Wide(r.value) && Number(r.value) == Total(vals)
  {
    hide AddSub, Number, Wide;
    var n := |vals| - 1;
    if n == 0 {
      assert Total(vals[..0]) == 0.0;
    } else {
      SumExact(vals[..n]);
      var acc := AggSpec.Fold(AggSpec.Sum, vals[..n]);
      if acc.Some? {
        SumWide(acc.value, vals[n]);
        AddSubExact(acc.value, vals[n]);
      }
    }
  }
}
