/** binary16 activations: the bit-level conversions between f32 and f16 against the values they stand for. */
module Half {
  import opened Bytes

  type U16 = x: int | 0 <= x < 0x1_0000

  function Pow2(n: nat): (p: nat)
    ensures p > 0
  {
    if n == 0 then 1 else 2 * Pow2(n - 1)
  }

  lemma {:induction false} Pow2Add(a: nat, b: nat)
    ensures Pow2(a + b) == Pow2(a) * Pow2(b)
    decreases a
  {
    if a > 0 {
      Pow2Add(a - 1, b);
      assert Pow2(a + b) == 2 * Pow2(a - 1 + b) == 2 * (Pow2(a - 1) * Pow2(b)) == Pow2(a) * Pow2(b);
    }
  }

  lemma MulLe(c: nat, a: nat, b: nat)
    ensures a <= b ==> c * a <= c * b
    ensures c > 0 && a < b ==> c * a < c * b
  {
    if a <= b { assert c * b == c * a + c * (b - a); }
  }

  lemma Distribute(c: nat, a: nat, b: nat)
    ensures c * (a + b) == c * a + c * b && (a + b) * c == a * c + b * c && a * c == c * a
  {}

  lemma Triple(a: nat, b: nat, c: nat)
    ensures a * b * c == a * (b * c)
  {}

  lemma Divided(m: nat, r: nat)
    requires r > 0
    ensures m / r >= 0 && m == r * (m / r) + m % r && m % r < r
  {}

  lemma SameQuotient(m: nat, r: nat, t: nat, w: nat, q: nat)
    requires m == r * t + w && w < r && r * q <= m < r * q + r
    ensures t == q
  {
    Distribute(r, q, 1);
    Distribute(r, t, 1);
    MulLe(r, q + 1, t);
    MulLe(r, t + 1, q);
  }

  lemma QuotientIs(m: nat, r: nat, q: nat)
    requires r > 0 && r * q <= m < r * q + r
    ensures m / r == q && m % r == m - r * q
  {
    Divided(m, r);
    SameQuotient(m, r, m / r, m % r, q);
  }

  // Values -----------------------------------------------------------------------------

  function Exp32(bits: U32): nat { bits / 0x80_0000 % 0x100 }
  function Mant32(bits: U32): nat { bits % 0x80_0000 }
  predicate Neg32(bits: U32) { bits >= 0x8000_0000 }
  predicate Finite32(bits: U32) { Exp32(bits) != 0xff }
  predicate IsNan32(bits: U32) { Exp32(bits) == 0xff && Mant32(bits) != 0 }

  /** The magnitude of a finite f32, counted in units of 2^-149. */
  function Value32(bits: U32): nat {
    if Exp32(bits) == 0 then Mant32(bits) else (0x80_0000 + Mant32(bits)) * Pow2(Exp32(bits) - 1)
  }

  predicate Neg16(h: U16) { h >= 0x8000 }
  function Magnitude16(h: U16): nat { h % 0x8000 }
  const INF16: nat := 0x7c00
  const QUIET_NAN16: nat := 0x7e00
  predicate Finite16(h: U16) { Magnitude16(h) < INF16 }
  predicate IsNan16(h: U16) { Magnitude16(h) > INF16 }

  /** The magnitude of an f16 code in units of 2^-24. The code of infinity stands for 2^16, the value at
      which rounding overflows. */
  function Value16(code: nat): nat
  {
    if code < 0x400 then code else (0x400 + code % 0x400) * Pow2(code / 0x400 - 1)
  }

  /** 2^-24 in units of 2^-149. */
  ghost const UNIT: nat := Pow2(125)

  function Distance(x: nat, y: nat): nat { if x < y then y - x else x - y }

  /** The f16 magnitudes, where u of x's units make one of theirs. */
  function Grid(u: nat): nat -> nat { (code: nat) => Value16(code) * u }

  /** code is the f16 magnitude nearest to x; of two equally near ones it is the even code. */
  ghost predicate NearestEven(x: nat, code: nat, v: nat -> nat) {
    && code <= INF16
    && forall k: nat :: k <= INF16 && k != code ==>
         Distance(x, v(code)) < Distance(x, v(k)) || (Distance(x, v(code)) == Distance(x, v(k)) && code % 2 == 0)
  }

  // Conversions ------------------------------------------------------------------------

  function F32ToF16(bits: U32): U16 {
    var sign := if Neg32(bits) then 0x8000 else 0;
    sign + MagnitudeToF16(Exp32(bits), Mant32(bits))
  }

  function MagnitudeToF16(exp32: nat, mant: nat): (h: nat)
    requires exp32 <= 0xff && mant < 0x80_0000
    ensures h < 0x8000
  {
    var exp := exp32 - 127 + 15;
    if exp <= 0 then
      if exp < -10 then 0 else Denormal(mant + 0x80_0000, 14 - exp)
    else if exp >= 31 then
      if exp32 == 0xff && mant != 0 then 0x7e00 else 0x7c00
    else Normal(exp, mant)
  }

  function Denormal(mant: nat, shift: nat): (h: nat)
    requires 0x80_0000 <= mant < 0x100_0000 && 14 <= shift <= 24
    ensures h <= 0x400
  {
    DenormalRange(mant, shift);
    ShiftRounded(mant, Pow2(shift), Pow2(shift - 1))
  }

  /** mant / p rounded, where the bits below are the round bit, worth r, and the sticky bits. */
  function ShiftRounded(mant: nat, p: nat, r: nat): nat
    requires p > 0 && r > 0
  {
    var half := mant / p;
    var roundBit := mant / r % 2;
    var sticky := mant % r;
    if roundBit == 1 && (sticky != 0 || half % 2 == 1) then half + 1 else half
  }

  lemma Pow2At14()
    ensures Pow2(14) == 0x4000
  {}

  lemma QuotientBelow(m: nat, p: nat, c: nat)
    requires p > 0 && m < p * c
    ensures m / p < c
  {
    Divided(m, p);
    MulLe(p, c, m / p);
  }

  lemma DenormalRange(mant: nat, shift: nat)
    requires mant < 0x100_0000 && 14 <= shift
    ensures mant / Pow2(shift) < 0x400
  {
    Pow2At14();
    Pow2Add(14, shift - 14);
    var p, rest := Pow2(shift), Pow2(shift - 14);
    assert p == 0x4000 * rest && p * 0x400 >= 0x100_0000;
    QuotientBelow(mant, p, 0x400);
  }

  function Normal(exp: nat, mant: nat): (h: nat)
    requires 1 <= exp <= 30 && mant < 0x80_0000
    ensures h <= INF16
  {
    var half := exp * 0x400 + mant / 0x2000;
    var round := mant % 0x2000;
    if round > 0x1000 || (round == 0x1000 && half % 2 == 1) then half + 1 else half
  }

  // Nearest ----------------------------------------------------------------------------

  lemma NextCode(code: nat)
    ensures if code % 0x400 == 0x3ff then (code + 1) / 0x400 == code / 0x400 + 1 && (code + 1) % 0x400 == 0
            else (code + 1) / 0x400 == code / 0x400 && (code + 1) % 0x400 == code % 0x400 + 1
  {}

  lemma OneUlp(m: nat, p: nat)
    ensures (0x400 + (m + 1)) * p == (0x400 + m) * p + p && 0x400 * (2 * p) == (0x400 + 0x3ff) * p + p
  {}

  /** Successive codes are one unit in the last place apart, across exponents too. */
  lemma Step16(code: nat)
    requires code < INF16
    ensures Value16(code) < Value16(code + 1)
    ensures code >= 0x400 ==> Value16(code + 1) == Value16(code) + Pow2(code / 0x400 - 1)
    ensures code < 0x400 ==> Value16(code + 1) == Value16(code) + 1
  {
    NextCode(code);
    if code >= 0x400 {
      var p := Pow2(code / 0x400 - 1);
      OneUlp(code % 0x400, p);
      if code % 0x400 == 0x3ff { assert Pow2(code / 0x400) == 2 * p; }
    }
  }

  lemma {:induction false} Monotone16(a: nat, b: nat)
    requires a < b <= INF16
    ensures Value16(a) < Value16(b)
    decreases b
  {
    Step16(b - 1);
    if a < b - 1 { Monotone16(a, b - 1); }
  }

  ghost predicate Increasing(v: nat -> nat) { forall a: nat, b: nat :: a < b <= INF16 ==> v(a) < v(b) }

  lemma GridIncreases(u: nat)
    requires u > 0
    ensures Increasing(Grid(u))
  {
    forall a: nat, b: nat | a < b <= INF16 ensures Grid(u)(a) < Grid(u)(b) {
      Monotone16(a, b);
      MulLe(u, Value16(a), Value16(b));
    }
  }

  /** Between two successive codes, rounding the offset decides which one is nearest. */
  lemma NearestInCell(x: nat, code: nat, v: nat -> nat)
    requires code < INF16 && Increasing(v) && v(code) <= x < v(code + 1)
    ensures var twice, gap := 2 * (x - v(code)), v(code + 1) - v(code);
            NearestEven(x, if twice > gap || (twice == gap && code % 2 == 1) then code + 1 else code, v)
  {}

  lemma NearestAbove(x: nat, v: nat -> nat)
    requires Increasing(v) && x >= v(INF16)
    ensures NearestEven(x, INF16, v)
  {}

  // The encoder rounds to nearest even ---------------------------------------------------

  lemma CodeParts(exp: nat, top: nat)
    requires 1 <= exp && top < 0x400
    ensures (exp * 0x400 + top) / 0x400 == exp && (exp * 0x400 + top) % 0x400 == top
  {}

  /** The ends of the cell of a normal result, in units of the f32's own last place s. */
  lemma NormalCell(exp: nat, top: nat, s: nat, u: nat)
    requires 1 <= exp <= 30 && top < 0x400 && Pow2(exp - 1) * u == 0x2000 * s
    ensures var code := exp * 0x400 + top;
            && Value16(code) * u == 0x2000 * (0x400 + top) * s
            && Value16(code + 1) * u == 0x2000 * (0x400 + top) * s + 0x2000 * s
  {
    var code, p := exp * 0x400 + top, Pow2(exp - 1);
    CodeParts(exp, top);
    Step16(code);
    Triple(0x400 + top, p, u);
    Triple(0x400 + top, 0x2000, s);
    Distribute(u, Value16(code), p);
  }

  lemma Compare(a: nat, b: nat, s: nat)
    requires s > 0
    ensures 2 * (a * s) > b * s <==> 2 * a > b
    ensures 2 * (a * s) == b * s <==> 2 * a == b
    ensures a < b ==> a * s < b * s
  {
    Distribute(s, a, a);
    Distribute(s, b, b);
    MulLe(s, 2 * a, b);
    MulLe(s, b, 2 * a);
    MulLe(s, a, b);
  }

  /** The cell given by its start, the offset in it and its width. */
  lemma RoundInCell(x: nat, code: nat, offset: nat, width: nat, v: nat -> nat, rounded: nat)
    requires code < INF16 && Increasing(v) && x == v(code) + offset && offset < width && v(code + 1) == v(code) + width
    requires rounded == if 2 * offset > width || (2 * offset == width && code % 2 == 1) then code + 1 else code
    ensures NearestEven(x, rounded, v)
  {
    NearestInCell(x, code, v);
  }

  /** The same with offset and width counted in units of s. */
  lemma RoundScaled(x: nat, code: nat, low: nat, p: nat, s: nat, v: nat -> nat, rounded: nat)
    requires code < INF16 && Increasing(v) && s > 0 && low < p
    requires x == v(code) + low * s && v(code + 1) == v(code) + p * s
    requires rounded == if 2 * low > p || (2 * low == p && code % 2 == 1) then code + 1 else code
    ensures NearestEven(x, rounded, v)
  {
    Compare(low, p, s);
    RoundInCell(x, code, low * s, p * s, v, rounded);
  }

  /** The round bit and the sticky bits compare what is shifted out with one half. */
  lemma HalfParts(mant: nat, p: nat, r: nat)
    requires r > 0 && p == 2 * r
    ensures 2 * (mant % p) > p <==> mant / r % 2 == 1 && mant % r != 0
    ensures 2 * (mant % p) == p <==> mant / r % 2 == 1 && mant % r == 0
  {
    Divided(mant, p);
    var h, low := mant / p, mant % p;
    TwoHalves(mant, r, h, low);
  }

  lemma TwoHalves(mant: nat, r: nat, h: nat, low: nat)
    requires r > 0 && mant == 2 * r * h + low && low < 2 * r
    ensures if low >= r then mant / r == 2 * h + 1 && mant % r == low - r else mant / r == 2 * h && mant % r == low
  {
    Distribute(r, 2 * h, 1);
    Triple(r, 2, h);
    if low >= r { QuotientIs(mant, r, 2 * h + 1); } else { QuotientIs(mant, r, 2 * h); }
  }

  lemma ShiftRoundedIs(mant: nat, p: nat, r: nat)
    requires r > 0 && p == 2 * r
    ensures var code, low := mant / p, mant % p;
            ShiftRounded(mant, p, r) == if 2 * low > p || (2 * low == p && code % 2 == 1) then code + 1 else code
  {
    HalfParts(mant, p, r);
  }

  lemma DenormalCell(mant: nat, p: nat, s: nat, u: nat)
    requires p > 0 && u == p * s && mant / p < 0x400
    ensures mant * s == Value16(mant / p) * u + mant % p * s
    ensures Value16(mant / p + 1) * u == Value16(mant / p) * u + u
  {
    var code, low := mant / p, mant % p;
    Divided(mant, p);
    Step16(code);
    Distribute(s, p * code, low);
    Triple(code, p, s);
    Distribute(u, code, 1);
  }

  lemma Pow2Small()
    ensures Pow2(13) == 0x2000
  {}

  /** The exponent of the significand's last place, and the significand, in units of 2^-149. */
  function Scale32(bits: U32): nat { if Exp32(bits) == 0 then 0 else Exp32(bits) - 1 }
  function Sig32(bits: U32): (m: nat)
    ensures m < 0x100_0000 && (Exp32(bits) > 0 ==> m >= 0x80_0000)
  {
    if Exp32(bits) == 0 then Mant32(bits) else 0x80_0000 + Mant32(bits)
  }

  lemma ValueIs(bits: U32)
    ensures Value32(bits) == Sig32(bits) * Pow2(Scale32(bits))
  {}

  lemma UnitSplit(e: nat)
    requires e <= 100
    ensures UNIT == Pow2(e) * (0x200_0000 * Pow2(100 - e))
  {
    Pow2Add(e, 125 - e);
    Pow2Add(25, 100 - e);
    Pow2Add(12, 13);
    Pow2Small();
    assert Pow2(13) == 2 * Pow2(12) && Pow2(25) == 0x200_0000;
  }

  lemma BelowHalf(m: nat, p: nat, q: nat)
    requires m < 0x100_0000 && p > 0 && q > 0
    ensures 2 * (m * p) < p * (0x200_0000 * q)
  {
    MulLe(p, m, 0x100_0000);
    MulLe(p, 0x200_0000, 0x200_0000 * q);
  }

  lemma TinyValue(bits: U32)
    requires Exp32(bits) <= 101
    ensures 2 * Value32(bits) < UNIT
  {
    var e := Scale32(bits);
    ValueIs(bits);
    UnitSplit(e);
    BelowHalf(Sig32(bits), Pow2(e), Pow2(100 - e));
  }

  lemma InfinityIs(n: nat)
    requires n == 30
    ensures Value16(INF16) == 0x400 * Pow2(n)
  {}

  lemma OverflowAt(top: nat, low: nat)
    requires top == 17 && low == 125
    ensures Value16(INF16) * UNIT == 0x80_0000 * Pow2(top + low)
  {
    var p, q := Pow2(top), Pow2(low);
    InfinityIs(13 + top);
    Pow2Add(13, top);
    Pow2Small();
    assert Value16(INF16) == 0x80_0000 * p;
    Pow2Add(top, low);
    Triple(0x80_0000, p, q);
  }

  lemma AtLeast(m: nat, p: nat, q: nat)
    requires 0x80_0000 <= m && q > 0
    ensures 0x80_0000 * p <= m * (p * q)
  {
    MulLe(p, 1, q);
    MulLe(p * q, 0x80_0000, m);
  }

  lemma Overflows(m: nat, e: nat, top: nat, low: nat)
    requires 0x80_0000 <= m && top == 17 && low == 125 && top + low <= e
    ensures m * Pow2(e) >= Value16(INF16) * UNIT
  {
    OverflowAt(top, low);
    Pow2Add(top + low, e - (top + low));
    AtLeast(m, Pow2(top + low), Pow2(e - (top + low)));
  }

  lemma HugeValue(bits: U32)
    requires 143 <= Exp32(bits)
    ensures Value32(bits) >= Value16(INF16) * UNIT
  {
    ValueIs(bits);
    Overflows(Sig32(bits), Scale32(bits), 17, 125);
  }

  /** The magnitude the encoder writes. */
  function Rounded(bits: U32): nat { MagnitudeToF16(Exp32(bits), Mant32(bits)) }

  lemma EncodedIs(bits: U32)
    ensures Magnitude16(F32ToF16(bits)) == Rounded(bits) && Neg16(F32ToF16(bits)) == Neg32(bits)
  {}

  lemma TinyRounds(bits: U32, v: nat -> nat)
    requires Exp32(bits) <= 101 && Increasing(v) && v(0) == 0 && v(1) == UNIT
    ensures NearestEven(Value32(bits), 0, v)
  {
    TinyValue(bits);
    RoundInCell(Value32(bits), 0, Value32(bits), UNIT, v, 0);
  }

  /** A subnormal result: what is shifted out of the significand is rounded off. */
  lemma ShiftRounds(mant: nat, p: nat, r: nat, code: nat, low: nat, s: nat, v: nat -> nat)
    requires r > 0 && p == 2 * r && s > 0 && mant == p * code + low && low < p && code < 0x400 && Increasing(v)
    requires mant * s == v(code) + low * s && v(code + 1) == v(code) + p * s
    ensures NearestEven(mant * s, ShiftRounded(mant, p, r), v)
  {
    QuotientIs(mant, p, code);
    ShiftRoundedIs(mant, p, r);
    RoundScaled(mant * s, code, low, p, s, v, ShiftRounded(mant, p, r));
  }

  lemma SmallUnit(e: nat)
    requires 102 <= e <= 112
    ensures UNIT == Pow2(126 - e) * Pow2(e - 1) && Pow2(126 - e) == 2 * Pow2(125 - e)
  {
    Pow2Add(126 - e, e - 1);
  }

  lemma SmallParts(e: nat, m: nat)
    requires 102 <= e <= 112 && m < 0x80_0000
    ensures NearestEven((0x80_0000 + m) * Pow2(e - 1), Denormal(m + 0x80_0000, 126 - e), Grid(UNIT))
  {
    var mant, p, s := m + 0x80_0000, Pow2(126 - e), Pow2(e - 1);
    SmallUnit(e);
    DenormalRange(mant, 126 - e);
    DenormalCell(mant, p, s, UNIT);
    Divided(mant, p);
    GridIncreases(UNIT);
    ShiftRounds(mant, p, Pow2(125 - e), mant / p, mant % p, s, Grid(UNIT));
  }

  lemma SmallRounds(bits: U32)
    requires 102 <= Exp32(bits) <= 112
    ensures NearestEven(Value32(bits), Rounded(bits), Grid(UNIT))
  {
    SmallParts(Exp32(bits), Mant32(bits));
  }

  lemma NormalIs(exp: nat, top: nat, low: nat)
    requires 1 <= exp <= 30 && top < 0x400 && low < 0x2000
    ensures var code := exp * 0x400 + top;
            Normal(exp, 0x2000 * top + low)
            == if 2 * low > 0x2000 || (2 * low == 0x2000 && code % 2 == 1) then code + 1 else code
  {}

  lemma Mantissa(top: nat, low: nat, s: nat)
    ensures (0x80_0000 + (0x2000 * top + low)) * s == 0x2000 * (0x400 + top) * s + low * s
  {
    assert 0x80_0000 + (0x2000 * top + low) == 0x2000 * (0x400 + top) + low;
    Distribute(s, 0x2000 * (0x400 + top), low);
  }

  /** A normal result: top is what the f16 keeps of the mantissa, low is what is rounded off. */
  lemma NormalRounds(exp: nat, mant: nat, top: nat, low: nat, s: nat, v: nat -> nat)
    requires 1 <= exp <= 30 && top < 0x400 && low < 0x2000 && mant == 0x2000 * top + low && s > 0 && Increasing(v)
    requires v(exp * 0x400 + top) == 0x2000 * (0x400 + top) * s
    requires v(exp * 0x400 + top + 1) == 0x2000 * (0x400 + top) * s + 0x2000 * s
    ensures NearestEven((0x80_0000 + mant) * s, Normal(exp, mant), v)
  {
    NormalIs(exp, top, low);
    Mantissa(top, low, s);
    RoundScaled((0x80_0000 + mant) * s, exp * 0x400 + top, low, 0x2000, s, v, Normal(exp, mant));
  }

  lemma MediumUnit(e: nat)
    requires 113 <= e
    ensures Pow2(e - 113) * UNIT == 0x2000 * Pow2(e - 1)
  {
    Pow2Add(13, e - 1);
    Pow2Add(e - 113, 125);
    Pow2Small();
  }

  lemma MediumParts(e: nat, m: nat)
    requires 113 <= e <= 142 && m < 0x80_0000
    ensures NearestEven((0x80_0000 + m) * Pow2(e - 1), Normal(e - 112, m), Grid(UNIT))
  {
    var top, low := m / 0x2000, m % 0x2000;
    MediumUnit(e);
    assert m == 0x2000 * top + low && top < 0x400;
    NormalCell(e - 112, top, Pow2(e - 1), UNIT);
    GridIncreases(UNIT);
    NormalRounds(e - 112, m, top, low, Pow2(e - 1), Grid(UNIT));
  }

  lemma MediumRounds(bits: U32)
    requires 113 <= Exp32(bits) <= 142
    ensures NearestEven(Value32(bits), Rounded(bits), Grid(UNIT))
  {
    MediumParts(Exp32(bits), Mant32(bits));
  }

  /** Every finite f32 becomes the nearest f16, ties to even, through the subnormals, the carry into the
      exponent and the overflow to infinity. */
  lemma RoundsToNearestEven(bits: U32)
    requires Finite32(bits)
    ensures NearestEven(Value32(bits), Magnitude16(F32ToF16(bits)), Grid(UNIT)) && Neg16(F32ToF16(bits)) == Neg32(bits)
  {
    EncodedIs(bits);
    var e := Exp32(bits);
    if e <= 101 {
      GridIncreases(UNIT);
      TinyRounds(bits, Grid(UNIT));
    } else if e <= 112 {
      SmallRounds(bits);
    } else if e <= 142 {
      MediumRounds(bits);
    } else {
      GridIncreases(UNIT);
      HugeValue(bits);
      NearestAbove(Value32(bits), Grid(UNIT));
    }
  }

  /** Infinities stay infinities and NaNs become quiet NaNs, with their sign. */
  lemma SpecialsKept(bits: U32)
    requires !Finite32(bits)
    ensures Neg16(F32ToF16(bits)) == Neg32(bits)
    ensures Magnitude16(F32ToF16(bits)) == if IsNan32(bits) then QUIET_NAN16 else INF16
  {
    EncodedIs(bits);
  }

  // The decoder is exact -------------------------------------------------------------------

  /** bits stand for exactly what h stands for: the same sign and value, infinity for infinity, and the same
      NaN payload in the upper mantissa bits. */
  ghost predicate DecodesTo(h: U16, bits: U32) { DecodesAs(Neg16(h), Magnitude16(h), bits) }

  ghost predicate DecodesAs(neg: bool, code: nat, bits: U32) { Neg32(bits) == neg && SameValue(code, bits) }

  ghost predicate SameValue(code: nat, bits: U32) {
    if code < INF16 then Finite32(bits) && Value32(bits) == Value16(code) * UNIT
    else Exp32(bits) == 0xff && Mant32(bits) == (code - INF16) * 0x2000
  }

  lemma Fields16(h: U16)
    ensures h / 0x400 % 0x20 == Magnitude16(h) / 0x400 <= 31 && h % 0x400 == Magnitude16(h) % 0x400
    ensures Magnitude16(h) == Magnitude16(h) / 0x400 * 0x400 + Magnitude16(h) % 0x400
  {
    var c, n := Magnitude16(h), if Neg16(h) then 32 else 0;
    assert h == 0x400 * n + c;
    Divided(c, 0x400);
    QuotientIs(h, 0x400, n + c / 0x400);
  }

  function Assemble(neg: bool, exp: nat, mant: nat): U32
    requires exp <= 0xff && mant < 0x80_0000
  {
    (if neg then 0x8000_0000 else 0) + exp * 0x80_0000 + mant
  }

  lemma Assembled(neg: bool, exp: nat, mant: nat)
    requires exp <= 0xff && mant < 0x80_0000
    ensures var b := Assemble(neg, exp, mant); Neg32(b) == neg && Exp32(b) == exp && Mant32(b) == mant
  {
    QuotientIs(Assemble(neg, exp, mant), 0x80_0000, (if neg then 0x100 else 0) + exp);
  }

  /** k/0x400 times a power of two, as an f32. */
  lemma DecodedValue(k: nat, exp: int)
    requires 0x400 <= k < 0x800 && -111 <= exp <= 30
    ensures (0x80_0000 + (k - 0x400) * 0x2000) * Pow2(exp + 111) == k * Pow2(exp + 124)
  {
    Pow2Add(13, exp + 111);
    Pow2Small();
    assert 0x80_0000 + (k - 0x400) * 0x2000 == k * 0x2000;
    Triple(k, 0x2000, Pow2(exp + 111));
  }

  lemma NormalDecodes(neg: bool, e: nat, m: nat)
    requires 1 <= e <= 30 && m < 0x400
    ensures DecodesAs(neg, e * 0x400 + m, Assemble(neg, e + 112, m * 0x2000))
  {
    Assembled(neg, e + 112, m * 0x2000);
    CodeParts(e, m);
    DecodedValue(0x400 + m, e);
    Pow2Add(e - 1, 125);
    Triple(0x400 + m, Pow2(e - 1), UNIT);
  }

  lemma SubnormalDecodes(neg: bool, m: nat, k: nat, steps: nat)
    requires 0 < m < 0x400 && steps <= 10 && k == m * Pow2(steps) && 0x400 <= k < 0x800
    ensures DecodesAs(neg, m, Assemble(neg, 113 - steps, (k - 0x400) * 0x2000))
  {
    Assembled(neg, 113 - steps, (k - 0x400) * 0x2000);
    DecodedValue(k, 1 - steps);
    Pow2Add(steps, 125 - steps);
    Triple(m, Pow2(steps), Pow2(125 - steps));
  }

  lemma EnoughSteps(m: nat)
    requires 0 < m
    ensures m * Pow2(10) >= 0x400
  {
    assert Pow2(10) == 0x400;
    MulLe(0x400, 1, m);
    Distribute(0x400, m, 0);
  }

  lemma Doubled(m: nat, p: nat)
    ensures 2 * (m * p) == m * (2 * p)
  {}

  /** Shifts the mantissa of a subnormal up to the implicit bit. */
  method Normalise(m: nat) returns (mant: nat, exp: int)
    requires 0 < m < 0x400
    ensures 0x400 <= mant < 0x800 && -9 <= exp <= 1 && mant == m * Pow2(1 - exp)
  {
    mant, exp := m, 1;
    while mant < 0x400
      invariant 0 < mant < 0x800 && 0 <= 1 - exp <= 10 && mant == m * Pow2(1 - exp)
      decreases 0x800 - mant
    {
      EnoughSteps(m);
      Doubled(m, Pow2(1 - exp));
      mant := 2 * mant;
      exp := exp - 1;
    }
  }

  method F16ToF32(h: U16) returns (bits: U32)
    ensures DecodesTo(h, bits)
  {
    var neg := Neg16(h);
    var exp: nat, mant: nat := h / 0x400 % 0x20, h % 0x400;
    Fields16(h);
    if exp == 0 {
      if mant == 0 {
        bits := Assemble(neg, 0, 0);
        Assembled(neg, 0, 0);
      } else {
        var m, e := Normalise(mant);
        bits := Assemble(neg, e + 127 - 15, (m - 0x400) * 0x2000);
        SubnormalDecodes(neg, mant, m, 1 - e);
      }
    } else if exp == 31 {
      bits := Assemble(neg, 0xff, mant * 0x2000);
      Assembled(neg, 0xff, mant * 0x2000);
    } else {
      bits := Assemble(neg, exp + 127 - 15, mant * 0x2000);
      NormalDecodes(neg, exp, mant);
    }
  }

  lemma ExactIsNearest(x: nat, code: nat, nearest: nat, v: nat -> nat)
    requires Increasing(v) && code <= INF16 && x == v(code) && NearestEven(x, nearest, v)
    ensures nearest == code
  {}

  lemma SignAndMagnitude(a: U16, b: U16)
    requires Neg16(a) == Neg16(b) && Magnitude16(a) == Magnitude16(b)
    ensures a == b
  {}

  /** Decoding and encoding again gives the same code, for every code but the NaNs, which stay NaNs. */
  lemma RoundTrip(h: U16, bits: U32)
    requires DecodesTo(h, bits)
    ensures if IsNan16(h) then IsNan16(F32ToF16(bits)) else F32ToF16(bits) == h
  {
    if Finite16(h) {
      FiniteRoundTrip(h, bits);
    } else {
      SpecialsKept(bits);
      if !IsNan16(h) { SignAndMagnitude(F32ToF16(bits), h); }
    }
  }

  lemma FiniteRoundTrip(h: U16, bits: U32)
    requires DecodesTo(h, bits) && Finite16(h)
    ensures F32ToF16(bits) == h
  {
    RoundsToNearestEven(bits);
    GridIncreases(UNIT);
    ExactIsNearest(Value32(bits), Magnitude16(h), Magnitude16(F32ToF16(bits)), Grid(UNIT));
    SignAndMagnitude(F32ToF16(bits), h);
  }
}
