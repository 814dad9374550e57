/** Conversion between halves and doubles (half.hpp, float2half_impl(double) and half2float_impl(double)). */
module HalfDouble {
  import opened Powers
  import opened Binary16
  import opened Rounding
  import opened HalfCommon

  /** A double, as the two words the program splits it into. */
  datatype Double = Double(hi: uint32, lo: uint32)
  {
    function Magnitude(): nat { hi % 0x8000_0000 }
    function Sign(): (s: nat)
      ensures s == 0 || s == SIGN
    {
      if hi >= 0x8000_0000 then SIGN else 0
    }
    function Exponent(): (e: nat)
      ensures e <= 0x7FF
    {
      Magnitude() / 0x10_0000
    }
    function Fraction(): (f: nat)
      ensures f < 0x10_0000
    {
      hi % 0x10_0000
    }
    predicate IsFinite() { Exponent() < 0x7FF }
    predicate IsInfinite() { Exponent() == 0x7FF && Fraction() == 0 && lo == 0 }
    predicate IsNaN() { Exponent() == 0x7FF && (Fraction() != 0 || lo != 0) }
    /** The upper word of the significand, with the implicit bit of a normal number. */
    function Significand(): nat { if Exponent() == 0 then Fraction() else Fraction() + 0x10_0000 }
    /** The magnitude of a finite double, in units of 2^-24. */
    ghost function InUnits(): real
    {
      Scale((Significand() * 0x1_0000_0000 + lo) as real, (if Exponent() == 0 then 1 else Exponent()) - 1051)
    }
    ghost function Value(): real
    {
      if Sign() == SIGN then -(InUnits() / 16777216.0) else InUnits() / 16777216.0
    }
  }

  /** IEEE 754-2019, sections 5.4.2 and 6.2: conversion to a half, every mode, every double. */
  ghost predicate IsConverted(mode: RoundingMode, d: Double, h: Half)
  {
    if d.IsNaN() then IsQuietNaN(h) && SignOf(h) == d.Sign() && Abs(h) % 0x200 == (d.Fraction() / 0x400) % 0x200
    else if d.IsInfinite() then IsInfinite(h) && SignOf(h) == d.Sign()
    else if d.Value() == 0.0 then IsZero(h) && SignOf(h) == d.Sign()
    else RoundsTo(mode, d.Value(), h)
  }

  lemma SixteenPlaces(m: nat, t: int)
    ensures Scale((m * 0x1_0000_0000) as real, t - 32) == Scale(m as real, t)
  {
    assert Scale(m as real, 8) == 256.0 * m as real;
    assert Scale(m as real, 16) == 65536.0 * m as real;
    assert Scale(m as real, 24) == 16777216.0 * m as real;
    assert Scale(m as real, 32) == 4294967296.0 * m as real;
    ScaleCompose(m as real, 32, t - 32);
  }

  /** The upper significand word, with the lower word as sticky flag. */
  lemma SplitWords(m: nat, lo: nat, t: int, v: real)
    requires lo < 0x1_0000_0000 && v == Scale((m * 0x1_0000_0000 + lo) as real, t - 32)
    ensures Brackets(m, lo != 0, t, v, 0)
  {
    SixteenPlaces(m, t);
    SixteenPlaces(m + 1, t);
    ScaleOrder((m * 0x1_0000_0000) as real, (m * 0x1_0000_0000 + lo) as real, t - 32);
    ScaleOrder((m * 0x1_0000_0000 + lo) as real, ((m + 1) * 0x1_0000_0000) as real, t - 32);
    assert Shr(m, 0) == m && !LowBits(m, 0);
  }

  lemma DoubleSign(d: Double)
    requires d.IsFinite()
    ensures d.Value() == 0.0 <==> d.Magnitude() == 0 && d.lo == 0
    ensures d.Value() != 0.0 ==> d.InUnits() > 0.0 && (d.Value() < 0.0 <==> d.Sign() == SIGN)
    ensures Units(d.Value()) == d.InUnits()
  {
    ScaleSign((d.Significand() * 0x1_0000_0000 + d.lo) as real, (if d.Exponent() == 0 then 1 else d.Exponent()) - 1051);
    assert d.Magnitude() == d.Exponent() * 0x10_0000 + d.Fraction();
  }

  /** A normal double, as a Q1.20 significand with a sticky bit. */
  lemma DoubleResolved(d: Double, v: real, t: int)
    requires d.IsFinite() && d.Exponent() > 0 && v == d.InUnits() && t == d.Exponent() - 1019
    ensures 0x10_0000 <= d.Significand() < 0x20_0000 && Resolved(d.Significand(), d.lo != 0, t, v, 0)
  {
    SplitWords(d.Significand(), d.lo, t, v);
    assert Pow2(11) == 0x800;
  }

  lemma TinyDouble(d: Double)
    requires d.Exponent() == 0
    ensures d.InUnits() < 0.5
  {
    var x := (d.Significand() * 0x1_0000_0000 + d.lo) as real;
    assert x < 4503599627370496.0;
    GrowingScale(x, -61, -1050);
    ScaleCompose(x, -24, -24);
    ScaleCompose(x, -48, -13);
    ScaleTable(x);
    ScaleTable(Scale(x, -24));
    ScaleTable(Scale(x, -48));
  }

  /** The two branches of the conversion that round, by the double's exponent field. */
  lemma ConversionRounds(mode: RoundingMode, d: Double, sign: nat, h: nat, k: nat)
    requires 998 <= d.Exponent() <= 1038 && (sign == 0 || sign == SIGN)
    requires h == (if d.Exponent() < 1009 then 1019 - d.Exponent() else 10)
    requires k == (if d.Exponent() < 1009 then 0 else (d.Exponent() - 1009) * 0x400) + Shr(d.Significand(), h)
    ensures k <= MAX_FINITE && Rounds(mode, sign, d.InUnits(), Place(mode, d.Significand(), h, k, sign, d.lo != 0))
  {
    PowerTable();
    DoubleResolved(d, d.InUnits(), d.Exponent() - 1019);
    FixedRounds(mode, 20, d.Significand(), d.Exponent() - 1009, sign, d.lo != 0, d.InUnits(), 0, h, k);
  }

  /** Shifts by constants are divisions. */
  lemma ShiftsOfWord(m: nat)
    ensures Shr(m, 10) == m / 0x400 && Shr(m, 9) == m / 0x200
    ensures LowBits(m, 9) <==> m % 0x200 != 0
  {
    assert Shr(m, 0) == m && Shr(m, 1) == m / 2 && Shr(m, 2) == m / 4 && Shr(m, 3) == m / 8;
    assert Shr(m, 4) == m / 16 && Shr(m, 5) == m / 32 && Shr(m, 6) == m / 64 && Shr(m, 7) == m / 128;
    assert Shr(m, 8) == m / 256 && Shr(m, 9) == m / 512 && Shr(m, 10) == m / 1024;
    assert !LowBits(m, 0) && (LowBits(m, 2) <==> m % 4 != 0);
    assert LowBits(m, 4) <==> m % 16 != 0;
    assert LowBits(m, 6) <==> m % 64 != 0;
    assert LowBits(m, 8) <==> m % 256 != 0;
  }

  /** The word, the guard bit and the sticky bit of a normal result, from the upper word. */
  function NormalWord(hi: nat): int { (hi / 0x10_0000 - 1008) * 0x400 + (hi / 0x400) % 0x400 }

  predicate GuardOf(hi: nat) { (hi / 0x200) % 2 == 1 }

  predicate StickyOf(hi: nat) { hi % 0x200 != 0 }

  lemma EvenOffset(e: nat, q: nat)
    ensures (e * 0x800 + q) % 2 == q % 2
  {
    assert e * 0x800 + q == 2 * (e * 0x400) + q;
  }

  lemma FieldArithmetic(hi: nat, m: nat, e: nat, f: nat)
    requires f < 0x10_0000 && hi == e * 0x10_0000 + f && m == 0x10_0000 + f
    ensures hi / 0x400 == e * 0x400 + f / 0x400 && m / 0x400 == 0x400 + f / 0x400
    ensures hi / 0x200 == e * 0x800 + f / 0x200 && m / 0x200 == 0x800 + f / 0x200
    ensures hi % 0x200 == f % 0x200 == m % 0x200
    ensures hi / 0x10_0000 == e && (hi / 0x400) % 0x400 == f / 0x400
    ensures (hi / 0x200) % 2 == (m / 0x200) % 2
  {
    assert hi / 0x200 == e * 0x800 + f / 0x200;
    assert hi / 0x400 == e * 0x400 + f / 0x400;
    EvenOffset(e, f / 0x200);
    EvenOffset(1, f / 0x200);
  }

  lemma FieldsByShifts(hi: nat, m: nat, e: nat, f: nat)
    requires f < 0x10_0000 && hi == e * 0x10_0000 + f && m == 0x10_0000 + f
    ensures NormalWord(hi) == (e - 1009) * 0x400 + Shr(m, 10)
    ensures (GuardOf(hi) <==> Shr(m, 9) % 2 == 1) && (StickyOf(hi) <==> LowBits(m, 9))
  {
    ShiftsOfWord(m);
    FieldArithmetic(hi, m, e, f);
  }

  /** The fields the normal branch extracts from the upper word. */
  lemma NormalFields(d: Double, hi: nat, m: nat)
    requires 1009 <= d.Exponent() <= 1038 && hi == d.Magnitude() && m == d.Significand()
    ensures NormalWord(hi) == (d.Exponent() - 1009) * 0x400 + Shr(m, 10)
    ensures (GuardOf(hi) <==> Shr(m, 9) % 2 == 1) && (StickyOf(hi) <==> LowBits(m, 9))
  {
    FieldsByShifts(hi, m, d.Exponent(), d.Fraction());
  }

  method RoundNormal(mode: RoundingMode, d: Double) returns (h: Half)
    requires 1009 <= d.Exponent() <= 1038
    ensures Rounds(mode, d.Sign(), d.InUnits(), h)
  {
    var hi: nat, lo: nat, sign: nat := d.Magnitude(), d.lo, d.Sign();
    ghost var m: nat := d.Significand();
    NormalFields(d, hi, m);
    var k: nat := NormalWord(hi);
    ConversionRounds(mode, d, sign, 10, k);
    h := Rounded(mode, sign + k, GuardOf(hi), StickyOf(hi) || lo != 0);
    assert h == Place(mode, d.Significand(), 10, k, sign, lo != 0);
  }

  method RoundSubnormal(mode: RoundingMode, d: Double) returns (h: Half)
    requires 998 <= d.Exponent() < 1009
    ensures Rounds(mode, d.Sign(), d.InUnits(), h)
  {
    var hi: nat, lo: nat, sign: nat := d.Magnitude(), d.lo, d.Sign();
    var i: nat := 1018 - hi / 0x10_0000;
    hi := hi % 0x10_0000 + 0x10_0000;
    assert hi == d.Significand() && i == 1018 - d.Exponent();
    var k: nat := Shr(hi, i + 1);
    ConversionRounds(mode, d, sign, i + 1, k);
    h := Rounded(mode, sign + k, Shr(hi, i) % 2 == 1, LowBits(hi, i) || lo != 0);
    assert h == Place(mode, d.Significand(), i + 1, k, sign, lo != 0);
  }

  method RoundExtreme(mode: RoundingMode, d: Double) returns (h: Half)
    requires d.IsFinite() && d.InUnits() > 0.0 && (d.Exponent() > 1038 || d.Exponent() < 998)
    ensures Rounds(mode, d.Sign(), d.InUnits(), h)
  {
    ghost var v := d.InUnits();
    if d.Exponent() > 0 {
      DoubleResolved(d, v, d.Exponent() - 1019);
      PowerTable();
      Magnitudes(20, d.Significand(), d.Exponent() - 1009, d.lo != 0, v, 0);
    } else {
      TinyDouble(d);
    }
    if d.Magnitude() >= 0x40F0_0000 {
      OverflowCorrect(mode, d.Sign(), v);
      h := Overflow(mode, d.Sign());
    } else {
      UnderflowCorrect(mode, d.Sign(), v);
      h := Underflow(mode, d.Sign());
    }
  }

  /** 0x200 | payload. */
  function QuietPayload(payload: nat): (p: nat)
    requires payload < 0x400
    ensures 0x200 <= p < 0x400 && p % 0x200 == payload % 0x200
  {
    if payload >= 0x200 then payload else payload + 0x200
  }

  lemma QuietBit(p: nat)
    requires p < 0x400
    ensures ((0x7C00 + p) / 0x200) % 2 == p / 0x200 && ((0x8000 + 0x7C00 + p) / 0x200) % 2 == p / 0x200
    ensures (0x7C00 + p) % 0x200 == p % 0x200
  {
  }

  /** Infinities and NaNs. */
  method ConvertSpecial(mode: RoundingMode, d: Double) returns (h: Half)
    requires d.Exponent() == 0x7FF
    ensures IsConverted(mode, d, h)
  {
    var payload := (d.Magnitude() / 0x400) % 0x400;
    FieldArithmetic(d.Magnitude(), 0x10_0000 + d.Fraction(), 0x7FF, d.Fraction());
    var quiet := if d.Fraction() == 0 && d.lo == 0 then 0 else QuietPayload(payload);
    SignedWord(d.Sign(), 0x7C00 + quiet);
    QuietBit(quiet);
    h := d.Sign() + (0x7C00 + quiet);
  }

  method DoubleToHalf(mode: RoundingMode, d: Double) returns (h: Half)
    ensures IsConverted(mode, d, h)
  {
    var hi := d.Magnitude();
    if hi >= 0x7FF0_0000 {
      assert d.Exponent() == 0x7FF;
      h := ConvertSpecial(mode, d);
      return;
    }
    DoubleSign(d);
    if 0x3F10_0000 <= hi < 0x40F0_0000 {
      h := RoundNormal(mode, d);
    } else if 0x3E60_0000 <= hi < 0x3F10_0000 {
      h := RoundSubnormal(mode, d);
    } else if hi != 0 || d.lo != 0 {
      h := RoundExtreme(mode, d);
    } else {
      return d.Sign();
    }
    FromMagnitude(mode, d.Value(), d.Sign(), h);
  }

  /** Double d stands for exactly the half x: value and sign, or infinity, or the same NaN payload. */
  ghost predicate IsExtension(x: Half, d: Double)
  {
    && d.Sign() == SignOf(x) && d.lo == 0
    && if IsNaN(x) then d.IsNaN() && d.Fraction() == (Abs(x) % 0x400) * 0x400
       else if IsInfinite(x) then d.IsInfinite()
       else d.IsFinite() && d.Value() == Value(x)
  }

  /** The value of the double assembled from a normalised half significand. */
  lemma ExtendedValue(d: Double, m: nat, e: int, v: real)
    requires -9 <= e <= 30 && 0x400 <= m < 0x800 && v == Scale(m as real, e - 1) && d.lo == 0
    requires d.Exponent() == 1008 + e && d.Fraction() == (m - 0x400) * 0x400
    ensures d.InUnits() == v
  {
    assert d.Significand() == m * 0x400;
    SixteenPlaces(m * 0x400, e - 11);
    assert Scale(m as real, 10) == 1024.0 * m as real;
    ScaleCompose(m as real, 10, e - 11);
    assert e - 11 - 32 == d.Exponent() - 1051;
  }

  lemma ShiftBound(shift: nat, abs: nat)
    requires Pow2(shift) <= abs < 0x800
    ensures shift <= 10
  {
    PowerTable();
    if shift > 10 { Pow2Monotone(11, shift); }
  }

  /** The normalisation loop of half2float_impl: the upper word drops by one exponent step per shift. */
  method ShiftUp(abs0: nat, hi0: nat) returns (abs: nat, hi: nat, ghost shift: nat)
    requires 0 < abs0 < 0x8000 && hi0 >= 0x3F00_0000
    ensures hi + shift * 0x10_0000 == hi0
    ensures abs0 >= 0x400 ==> abs == abs0 && shift == 0
    ensures abs0 < 0x400 ==> 0x400 <= abs < 0x800 && shift <= 10 && Scaled(abs0, abs, 0 - shift)
  {
    abs, hi, shift := abs0, hi0, 0;
    while abs < 0x400
      invariant 0 < abs && (abs0 >= 0x400 ==> abs == abs0 && shift == 0)
      invariant abs0 < 0x400 ==> abs < 0x800 && Pow2(shift) <= abs && Scaled(abs0, abs, 0 - shift)
      invariant shift <= 10 && hi + shift * 0x10_0000 == hi0
      decreases 0x400 - abs
    {
      ScaleDouble(abs as real, 0 - shift - 1);
      ShiftBound(shift + 1, 2 * abs);
      abs, hi, shift := 2 * abs, hi - 0x10_0000, shift + 1;
    }
  }

  lemma AssembledFields(sign: nat, hi: nat, abs: nat, e: int)
    requires (sign == 0 || sign == 0x8000_0000) && 0x400 <= abs < 0x8000
    requires hi == (1008 + e) * 0x10_0000 && -10 <= e <= 1008 && (abs >= 0x800 ==> e == 0 || e == 1008)
    ensures var w := sign + hi + abs * 0x400;
            && w < 0x1_0000_0000
            && Double(w, 0).Exponent() == 1008 + e + abs / 0x400 && Double(w, 0).Fraction() == (abs % 0x400) * 0x400
            && (Double(w, 0).Sign() == SIGN <==> sign != 0)
  {
    var w := sign + hi + abs * 0x400;
    assert w == sign + (1008 + e + abs / 0x400) * 0x10_0000 + (abs % 0x400) * 0x400;
  }

  /** half.hpp, half2float_impl(double). */
  method HalfToDouble(x: Half) returns (d: Double)
    ensures IsExtension(x, d)
  {
    var sign: nat := if Negative(x) then 0x8000_0000 else 0;
    var abs: nat := Abs(x);
    if abs == 0 {
      ScaleSign(0.0, -1050);
      return Double(sign, 0);
    }
    var hi: nat := if abs >= 0x7C00 then 0x7E00_0000 else 0x3F00_0000;
    ghost var shift: nat;
    abs, hi, shift := ShiftUp(abs, hi);
    AssembledFields(sign, hi, abs, (if Abs(x) >= 0x7C00 then 1008 else 0) - shift);
    d := Double(sign + hi + abs * 0x400, 0);
    if Abs(x) <= MAX_FINITE {
      ValueSign(x);
      if Abs(x) >= 0x400 { MagByFields(Abs(x)); }
      ExtendedValue(d, abs % 0x400 + 0x400, abs / 0x400 - shift, Mag(Abs(x)) as real);
    }
  }

  /** The magnitude of a quiet NaN, from its low nine bits. */
  lemma QuietWord(k: nat)
    requires 0x7C00 < k < 0x8000 && (k / 0x200) % 2 == 1
    ensures k == 0x7E00 + k % 0x200
  {
    assert k / 0x200 == 0x3F;
  }

  lemma LowNine(x: Half, q: Half)
    requires IsNaN(x) && q == Quieted(x)
    ensures Abs(q) % 0x200 == (Abs(x) % 0x400) % 0x200 && SignOf(q) == SignOf(x)
    ensures 0x7C00 < Abs(q) && (Abs(q) / 0x200) % 2 == 1
  {
  }

  lemma SignApart(h: Half)
    ensures h == SignOf(h) + Abs(h) && (h / 0x200) % 2 == (Abs(h) / 0x200) % 2
  {
  }

  lemma QuietedPayload(x: Half, h: Half, f: nat)
    requires IsNaN(x) && IsQuietNaN(h) && SignOf(h) == SignOf(x) && f == (Abs(x) % 0x400) * 0x400
    requires Abs(h) % 0x200 == (f / 0x400) % 0x200
    ensures h == Quieted(x)
  {
    assert f / 0x400 == Abs(x) % 0x400;
    QuietWord(Abs(h));
    QuietWord(Abs(Quieted(x)));
    LowNine(x, Quieted(x));
    SignApart(h);
    SignApart(Quieted(x));
  }

  /** Converting a half to a double and back returns it, in every rounding mode; only a signalling NaN changes,
      by its quiet bit. */
  lemma RoundTrip(mode: RoundingMode, x: Half, d: Double, h: Half)
    requires IsExtension(x, d) && IsConverted(mode, d, h)
    ensures h == if IsNaN(x) then Quieted(x) else x
  {
    if IsFinite(x) {
      ValueSign(x);
      if !IsZero(x) {
        ExactRounds(mode, x);
        RoundingIsUnique(mode, Value(x), x, h);
      }
    } else if IsNaN(x) {
      QuietedPayload(x, h, d.Fraction());
    }
  }
}
