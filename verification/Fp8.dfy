/** 8-bit e4m3-style activations over the reals: the rounding of the mantissa is taken as exact arithmetic. */
module Fp8 {

  type Magnitude = x: real | x >= 0.0
  type Code = c: int | 0 <= c < 0x80

  datatype Float = Finite(neg: bool, mag: Magnitude) | Infinite(neg: bool) | Nan(neg: bool)

  const MAX: Code := 0x77
  const STEP: real := 0.001953125    // 2^-9, the spacing of the subnormals

  /** 2^e. */
  function Base(e: int): (b: real)
    ensures b > 0.0
    decreases if e < 0 then -e else e
  {
    if e == 0 then 1.0 else if e > 0 then 2.0 * Base(e - 1) else Base(e + 1) / 2.0
  }

  lemma BaseDoubles(e: int)
    ensures Base(e + 1) == 2.0 * Base(e)
  {}

  lemma {:induction false} BaseGrows(a: int, b: int)
    requires a <= b
    ensures Base(a) <= Base(b) && (a < b ==> 2.0 * Base(a) <= Base(b))
    decreases b - a
  {
    if a < b {
      BaseDoubles(b - 1);
      BaseGrows(a, b - 1);
    }
  }

  lemma BaseValues()
    ensures Base(8) == 256.0 && Base(7) == 128.0 && Base(-6) == 8.0 * STEP && Base(-9) == STEP
  {
    assert Base(3) == 8.0;
    assert Base(-3) == 0.125;
  }

  /** The exponent of a: the largest e up to top with 2^e <= a. */
  function FloorExp(a: real, top: int): (e: int)
    requires Base(-9) <= a < Base(top + 1) && -9 <= top
    ensures -9 <= e <= top && Base(e) <= a < Base(e + 1)
    decreases top + 9
  {
    if a >= Base(top) then top else if top == -9 then -9 else FloorExp(a, top - 1)
  }

  /** floor(x + 1/2). */
  function Nearest(x: real): int { (x + 0.5).Floor }

  /** The mantissa of a in the binade that starts at base. */
  function Eighths(a: real, base: real): int
    requires base > 0.0
  {
    Nearest((a / base - 1.0) * 8.0)
  }

  function Subnormal(a: real): Code
    requires 0.0 <= a < 8.0 * STEP
  {
    var mant := Nearest(a / STEP);
    if mant <= 0 then 0 else if mant > 7 then 7 else mant
  }

  function EncodeMagnitude(a: Magnitude): Code {
    if a == 0.0 then 0
    else if a >= 240.0 then MAX
    else if a < STEP then Subnormal(a)
    else
      BaseValues();
      var e := FloorExp(a, 7);
      BaseGrows(e, 7);
      var exp := e + 7;
      if exp <= 0 then
        BaseGrows(e + 1, -6);
        Subnormal(a)
      else
        var mant := Eighths(a, Base(e));
        var carried := if mant >= 8 then (exp + 1, 0) else (exp, mant);
        if carried.0 >= 15 then MAX
        else
          assert 0 <= carried.1 < 8 by { MantissaRange(a, e); }
          carried.0 * 8 + carried.1
  }

  lemma MantissaRange(a: real, e: int)
    requires Base(e) <= a < Base(e + 1)
    ensures 1.0 <= a / Base(e) < 2.0 && 0 <= Eighths(a, Base(e)) <= 8
  {
    BaseDoubles(e);
    Ratio(a, Base(e));
  }

  lemma Times(x: real, y: real, b: real)
    requires b > 0.0
    ensures x < y <==> x * b < y * b
  {
    assert (y - x) * b == y * b - x * b;
    assert y > x ==> (y - x) * b > 0.0;
    assert y <= x ==> (x - y) * b >= 0.0;
  }

  lemma RatioBelow(a: real, b: real, y: real)
    requires 0.0 < b && a < 2.0 * b && y * b == a
    ensures y < 2.0
  {
    Times(y, 2.0, b);
  }

  lemma RatioAbove(a: real, b: real, y: real)
    requires 0.0 < b <= a && y * b == a
    ensures 1.0 <= y
  {
    Times(y, 1.0, b);
  }

  lemma Quotient(a: real, b: real)
    requires b > 0.0
    ensures a / b * b == a
  {}

  lemma Ratio(a: real, b: real)
    requires 0.0 < b <= a < 2.0 * b
    ensures 1.0 <= a / b < 2.0
  {
    Quotient(a, b);
    RatioBelow(a, b, a / b);
    RatioAbove(a, b, a / b);
  }

  function MagnitudeCode(f: Float): Code { if f.Finite? then EncodeMagnitude(f.mag) else MAX }

  /** Sign bit and magnitude code. */
  function Encode(f: Float): int { (if f.neg then 0x80 else 0) + MagnitudeCode(f) }

  /** One and n eighths. */
  function Factor(n: int): real { 1.0 + n as real / 8.0 }

  /** The n-th eighth of the binade of 2^e. */
  function Value(e: int, n: int): real { Factor(n) * Base(e) }

  lemma ValuePositive(e: int, n: int)
    requires n >= 0
    ensures Value(e, n) > 0.0
  {
    Times(0.0, Factor(n), Base(e));
  }

  function DecodeMagnitude(c: Code): Magnitude {
    var exp, mant := c / 8, c % 8;
    if exp == 0 then mant as real * STEP
    else if exp >= 15 then 240.0
    else
      ValuePositive(exp - 7, mant);
      Value(exp - 7, mant)
  }

  function Decode(code: int): (f: Float)
    requires 0 <= code < 0x100
  {
    Finite(code >= 0x80, DecodeMagnitude(code % 0x80))
  }

  // Shape of the encoder ------------------------------------------------------------------

  /** A normal magnitude in the binade of 2^e is 8(e + 7) plus its rounded mantissa, carry included. */
  lemma NormalCode(a: Magnitude, e: int)
    requires 8.0 * STEP <= a < 240.0 && Base(e) <= a < Base(e + 1) && -6 <= e <= 7
    ensures EncodeMagnitude(a) == 8 * (e + 7) + Eighths(a, Base(e))
  {
    BaseValues();
    ExpIs(a, e, 7);
    MantissaRange(a, e);
    if e == 7 { TopBinade(a); }
  }

  lemma {:induction false} ExpIs(a: real, e: int, top: int)
    requires Base(-9) <= a < Base(top + 1) && -9 <= e <= top && Base(e) <= a < Base(e + 1)
    ensures FloorExp(a, top) == e
    decreases top - e
  {
    if e < top {
      BaseGrows(e + 1, top);
      ExpIs(a, e, top - 1);
    }
  }

  /** Below 240 the last binade does not carry. */
  lemma TopBinade(a: Magnitude)
    requires 128.0 <= a < 240.0
    ensures Eighths(a, 128.0) <= 7
  {}

  lemma SmallCode(a: Magnitude)
    requires a < 8.0 * STEP
    ensures var n := Nearest(a / STEP); n >= 0 && EncodeMagnitude(a) == if n > 7 then 7 else n
  {
    BaseValues();
    if a >= STEP {
      var e := FloorExp(a, 7);
      if e >= -6 { BaseGrows(-6, e); }
    }
  }

  // Main properties -----------------------------------------------------------------------

  function Abs(x: real): real { if x < 0.0 then -x else x }

  /** The binade of a normal magnitude. */
  lemma Binade(a: Magnitude) returns (e: int)
    requires 8.0 * STEP <= a < 240.0
    ensures -6 <= e <= 7 && Base(e) <= a < Base(e + 1)
  {
    BaseValues();
    e := FloorExp(a, 7);
    if e < -6 { BaseGrows(e + 1, -6); }
  }

  lemma ScaledMonotone(a: real, b: real, base: real)
    requires base > 0.0 && a <= b
    ensures Eighths(a, base) <= Eighths(b, base)
  {
    var x, y := a / base, b / base;
    assert x * base == a && y * base == b;
    Times(y, x, base);
  }

  /** The codes of a binade lie between its start and the start of the next one. */
  lemma CodeRange(a: Magnitude, e: int)
    requires 8.0 * STEP <= a < 240.0 && Base(e) <= a < Base(e + 1) && -6 <= e <= 7
    ensures 8 * (e + 7) <= EncodeMagnitude(a) <= 8 * (e + 8)
  {
    NormalCode(a, e);
    MantissaRange(a, e);
  }

  lemma SameBinadeMonotone(a: Magnitude, b: Magnitude, e: int)
    requires 8.0 * STEP <= a <= b < 240.0 && Base(e) <= a && b < Base(e + 1) && -6 <= e <= 7
    ensures EncodeMagnitude(a) <= EncodeMagnitude(b)
  {
    NormalCode(a, e);
    NormalCode(b, e);
    ScaledMonotone(a, b, Base(e));
  }

  lemma NormalMonotone(a: Magnitude, b: Magnitude)
    requires 8.0 * STEP <= a <= b < 240.0
    ensures EncodeMagnitude(a) <= EncodeMagnitude(b)
  {
    var d := Binade(a);
    var e := Binade(b);
    if d == e {
      SameBinadeMonotone(a, b, e);
    } else {
      if d > e { BaseGrows(e + 1, d); }
      CodeRange(a, d);
      CodeRange(b, e);
    }
  }

  /** Larger magnitudes never get smaller codes. */
  lemma Monotone(a: Magnitude, b: Magnitude)
    requires a <= b
    ensures EncodeMagnitude(a) <= EncodeMagnitude(b) <= MAX
  {
    if a < 8.0 * STEP { SmallCode(a); }
    if b < 8.0 * STEP { SmallCode(b); }
    if 8.0 * STEP <= b < 240.0 {
      var e := Binade(b);
      CodeRange(b, e);
      if e == 7 { BaseValues(); TopBinade(b); NormalCode(b, e); }
      if 8.0 * STEP <= a { NormalMonotone(a, b); }
    }
  }

  lemma DecodedParts(f: Float)
    ensures 0 <= Encode(f) < 0x100 && Decode(Encode(f)) == Finite(f.neg, DecodeMagnitude(MagnitudeCode(f)))
  {
    assert Encode(f) % 0x80 == MagnitudeCode(f);
  }

  /** Saturation: nothing decodes beyond 240, and infinities, NaNs and everything from 240 on become 240. */
  lemma Saturates(f: Float)
    ensures 0 <= Encode(f) < 0x100 && Decode(Encode(f)).neg == f.neg
    ensures Decode(Encode(f)).mag <= 240.0
    ensures !f.Finite? || f.mag >= 240.0 ==> Decode(Encode(f)).mag == 240.0
  {
    DecodedParts(f);
    MaxDecodes();
    if f.Finite? { Monotone(f.mag, f.mag); }
    DecodeMonotone(MagnitudeCode(f), MAX);
  }

  lemma MaxDecodes()
    ensures DecodeMagnitude(MAX) == 240.0
  {
    BaseValues();
  }

  /** The eighth step is the start of the next binade. */
  lemma NextBinade(e: int)
    ensures Value(e, 8) == Value(e + 1, 0)
  {
    BaseDoubles(e);
    assert Factor(8) == 2.0 && Factor(0) == 1.0;
  }

  lemma DecodeNormal(c: Code, e: int, n: int)
    requires -6 <= e <= 7 && 0 <= n <= 8 && c == 8 * (e + 7) + n <= MAX
    ensures DecodeMagnitude(c) == Value(e, n)
  {
    if n == 8 {
      NextBinade(e);
      assert c / 8 == e + 8 && c % 8 == 0;
    } else {
      assert c / 8 == e + 7 && c % 8 == n;
    }
  }

  lemma StepUp(e: int, n: int)
    ensures Value(e, n) <= Value(e, n + 1)
  {
    Times(Factor(n), Factor(n + 1), Base(e));
  }

  lemma SmallStep(c: Code)
    requires c < 8
    ensures DecodeMagnitude(c) <= DecodeMagnitude(c + 1)
  {
    BaseValues();
    assert c / 8 == 0 && c % 8 == c && (c < 7 ==> (c + 1) / 8 == 0 && (c + 1) % 8 == c + 1);
    assert c == 7 ==> (c + 1) / 8 == 1 && (c + 1) % 8 == 0;
  }

  lemma DecodeStep(c: Code)
    requires c < MAX
    ensures DecodeMagnitude(c) <= DecodeMagnitude(c + 1)
  {
    if c < 8 {
      SmallStep(c);
    } else {
      var e, n := c / 8 - 7, c % 8;
      DecodeNormal(c, e, n);
      DecodeNormal(c + 1, e, n + 1);
      StepUp(e, n);
    }
  }

  lemma {:induction false} DecodeMonotone(c: Code, d: Code)
    requires c <= d <= MAX
    ensures DecodeMagnitude(c) <= DecodeMagnitude(d)
    decreases d - c
  {
    if c < d {
      DecodeStep(d - 1);
      DecodeMonotone(c, d - 1);
    }
  }

  lemma TimesLe(x: real, y: real, b: real)
    requires b > 0.0 && x <= y
    ensures x * b <= y * b
  {
    assert (y - x) * b >= 0.0;
  }

  lemma NotAbove(b: real, y: real, yb: real, f: real, fb: real)
    requires 0.0 < b && f <= y + 0.0625 && y * b == yb && f * b == fb
    ensures fb <= yb + 0.0625 * b
  {
    TimesLe(f, y + 0.0625, b);
  }

  lemma NearestEighth(y: real, n: int)
    requires n == Nearest((y - 1.0) * 8.0)
    ensures Factor(n) <= y + 0.0625 && y <= Factor(n) + 0.0625
  {}

  lemma Close(v: real, a: real, b: real)
    requires b <= a && v <= a + 0.0625 * b && a <= v + 0.0625 * b
    ensures Abs(v - a) <= a / 16.0
  {}

  lemma CloseFactors(b: real, y: real, a: real, f: real, v: real)
    requires 0.0 < b <= a && y * b == a && f * b == v && f <= y + 0.0625 && y <= f + 0.0625
    ensures Abs(v - a) <= a / 16.0
  {
    NotAbove(b, y, a, f, v);
    NotAbove(b, f, v, y, a);
    Close(v, a, b);
  }

  lemma RoundedNear(a: real, b: real, n: int)
    requires 0.0 < b <= a && n == Eighths(a, b)
    ensures Abs(Factor(n) * b - a) <= a / 16.0
  {
    Quotient(a, b);
    NearestEighth(a / b, n);
    CloseFactors(b, a / b, a, Factor(n), Factor(n) * b);
  }

  /** Rounding to eighths is at most a sixteenth off. */
  lemma Rounding(a: real, e: int, n: int)
    requires Base(e) <= a && n == Eighths(a, Base(e))
    ensures Abs(Value(e, n) - a) <= a / 16.0
  {
    RoundedNear(a, Base(e), n);
  }

  lemma NormalError(a: Magnitude, e: int)
    requires 8.0 * STEP <= a < 240.0 && Base(e) <= a < Base(e + 1) && -6 <= e <= 7
    ensures Abs(DecodeMagnitude(EncodeMagnitude(a)) - a) <= a / 16.0
  {
    var n := Eighths(a, Base(e));
    NormalCode(a, e);
    MantissaRange(a, e);
    Monotone(a, a);
    DecodeNormal(EncodeMagnitude(a), e, n);
    Rounding(a, e, n);
  }

  lemma SmallError(a: Magnitude)
    requires a < 8.0 * STEP
    ensures Abs(DecodeMagnitude(EncodeMagnitude(a)) - a) <= STEP
  {
    SmallCode(a);
    var c := EncodeMagnitude(a);
    assert c / 8 == 0 && c % 8 == c;
  }

  /** The error is at most a sixteenth of the value or, near zero, one subnormal step. */
  lemma ErrorBound(a: Magnitude)
    requires a <= 240.0
    ensures Abs(DecodeMagnitude(EncodeMagnitude(a)) - a) <= if a / 16.0 > STEP then a / 16.0 else STEP
  {
    if a == 240.0 {
      MaxDecodes();
    } else if a < 8.0 * STEP {
      SmallError(a);
    } else {
      var e := Binade(a);
      NormalError(a, e);
    }
  }

  function Tolerance(a: real): real { if a / 16.0 > STEP then a / 16.0 else STEP }

  /** The same for the whole byte: what is decoded has the sign and nearly the value of what was encoded. */
  lemma DecodedError(f: Float)
    requires f.Finite? && f.mag <= 240.0
    ensures 0 <= Encode(f) < 0x100 && Decode(Encode(f)).neg == f.neg
            && Abs(Decode(Encode(f)).mag - f.mag) <= Tolerance(f.mag)
  {
    DecodedParts(f);
    ErrorBound(f.mag);
  }

  /** Every code below the reserved exponent is what its own value encodes to. */
  lemma MagnitudeRoundTrip(c: Code)
    requires c / 8 < 15
    ensures EncodeMagnitude(DecodeMagnitude(c)) == c
  {
    var a := DecodeMagnitude(c);
    BaseValues();
    if c / 8 == 0 {
      assert a / STEP == c as real;
      SmallCode(a);
    } else if c == MAX {
      MaxDecodes();
    } else {
      NormalRoundTrip(c, c / 8 - 7, c % 8);
    }
  }

  lemma EighthIsExact(y: real, m: int)
    requires y == Factor(m)
    ensures Nearest((y - 1.0) * 8.0) == m
  {}

  /** Every step of a binade is rounded to itself. */
  lemma StepIsExact(e: int, m: int)
    requires 0 <= m < 8
    ensures Base(e) <= Value(e, m) < Base(e + 1) && Eighths(Value(e, m), Base(e)) == m
  {
    InBinade(Factor(m), Base(e), Value(e, m));
    Divide(Factor(m), Base(e));
    BaseDoubles(e);
    EighthIsExact(Value(e, m) / Base(e), m);
  }

  lemma NormalRange(c: Code, e: int, a: real)
    requires -6 <= e <= 7 && 8 <= c < MAX && a == DecodeMagnitude(c) && Base(e) <= a
    ensures 8.0 * STEP <= a < 240.0
  {
    BaseGrows(-6, e);
    BaseValues();
    BelowMax(c);
  }

  lemma NormalRoundTrip(c: Code, e: int, m: int)
    requires -6 <= e <= 7 && 0 <= m < 8 && c == 8 * (e + 7) + m < MAX
    ensures EncodeMagnitude(DecodeMagnitude(c)) == c
  {
    DecodeNormal(c, e, m);
    StepIsExact(e, m);
    NormalRange(c, e, Value(e, m));
    NormalCode(Value(e, m), e);
  }

  lemma InBinade(y: real, b: real, p: real)
    requires b > 0.0 && 1.0 <= y < 2.0 && p == y * b
    ensures b <= p < 2.0 * b
  {
    Times(y, 2.0, b);
    TimesLe(1.0, y, b);
  }

  lemma Divide(y: real, b: real)
    requires b > 0.0
    ensures y * b / b == y
  {}

  lemma BelowMax(c: Code)
    requires 8 <= c < MAX
    ensures DecodeMagnitude(c) < 240.0
  {
    DecodeMonotone(c, MAX - 1);
    BaseValues();
    assert (MAX - 1) / 8 == 14 && (MAX - 1) % 8 == 6;
  }

  lemma CodeParts(code: int)
    requires 0 <= code < 0x100
    ensures code % 0x80 / 8 == code / 8 % 16 && code == (if code >= 0x80 then 0x80 else 0) + code % 0x80
  {}

  lemma RoundTrip(code: int)
    requires 0 <= code < 0x100 && code / 8 % 16 < 15
    ensures Encode(Decode(code)) == code
  {
    CodeParts(code);
    MagnitudeRoundTrip(code % 0x80);
  }
}
