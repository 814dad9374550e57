/** Fused multiply-add of halves (half.hpp, fma): one rounding of the exact x * y + z. */
module HalfFma {
  import opened Powers
  import opened Binary16
  import opened Rounding
  import opened HalfCommon
  import opened HalfProduct
  import opened HalfSum

  ghost function ExactFused(x: Half, y: Half, z: Half): real
    requires IsFinite(x) && IsFinite(y) && IsFinite(z)
  {
    Times(Value(x), Value(y)) + Value(z)
  }

  /** IEEE 754-2019, sections 5.4.1 and 6.1 to 6.3. */
  ghost predicate IsFused(mode: RoundingMode, x: Half, y: Half, z: Half, h: Half)
  {
    if IsNaN(x) || IsNaN(y) || IsNaN(z) || (IsInfinite(x) && IsZero(y)) || (IsZero(x) && IsInfinite(y))
      then IsQuietNaN(h)
    else if IsInfinite(x) || IsInfinite(y) then
      if IsInfinite(z) && SignOf(z) != SignProduct(x, y) then IsQuietNaN(h)
      else IsInfinite(h) && SignOf(h) == SignProduct(x, y)
    else if IsInfinite(z) then h == z
    else
      if ExactFused(x, y, z) == 0.0 then
        IsZero(h) && SignOf(h) == if SignProduct(x, y) == SignOf(z) then SignOf(z)
                                  else if mode == TowardNegative then SIGN else 0
      else RoundsTo(mode, ExactFused(x, y, z), h)
  }

  /** A significand in the Q1.23 format of fma, with biased exponent exp. */
  ghost predicate Wide(m: nat, exp: int, v: real)
  {
    0x80_0000 <= m < 0x100_0000 && m % 4 == 0 && v == Scale(m as real, exp - 14)
  }

  lemma ThirteenPlaces(m: nat)
    ensures Shl(m, 13) == 8192 * m
  {
    assert Scale(m as real, 13) == 8192.0 * m as real;
    ShlReal(m, 13);
  }

  lemma WideOperand(mz: nat, ez: int, v: real)
    requires v == Scale(mz as real, ez - 1) && 0x400 <= mz < 0x800
    ensures Wide(Shl(mz, 13), ez, v)
  {
    ThirteenPlaces(mz);
    ShlScale(mz, 13, ez - 14);
  }

  lemma WideProduct(x: Half, y: Half, mx: nat, my: nat, ex: int, ey: int, p: nat, i: nat)
    requires IsFinite(x) && IsFinite(y) && p as real == Times(mx as real, my as real)
    requires Scaled(Mag(Abs(x)), mx, ex - 1) && Scaled(Mag(Abs(y)), my, ey - 1)
    requires 0x10_0000 <= p < 0x40_0000 && i == p / 0x20_0000
    ensures Wide(if i == 0 then 8 * p else 4 * p, -15 + ex + ey + i, Units(Times(Value(x), Value(y))))
  {
    ValueSign(x);
    ValueSign(y);
    ProductSignificand(Value(x), Value(y), mx, my, ex, ey, p);
    var t := ex + ey - 26;
    ScaleDouble(p as real, t - 1);
    ScaleDouble((2 * p) as real, t - 2);
    ScaleDouble((4 * p) as real, t - 3);
  }

  /** The exact product of two finite nonzero halves. */
  method MultiplyWide(x: Half, y: Half) returns (m: uint32, exp: int)
    requires IsFinite(x) && IsFinite(y) && !IsZero(x) && !IsZero(y)
    ensures Wide(m, exp, Units(Times(Value(x), Value(y))))
  {
    var mx, ex := Normalize(Abs(x));
    var my, ey := Normalize(Abs(y));
    SignificandProduct(mx, my);
    RealProduct(mx, my);
    m := mx * my;
    var i := m / 0x20_0000;
    WideProduct(x, y, mx, my, ex, ey, m, i);
    exp := -15 + ex + ey + i;
    m := if i == 0 then 8 * m else 4 * m;
  }

  /** The normalisation loop after a cancellation. */
  method NormalizeWide(m0: nat, exp0: int, ghost v: real) returns (m: nat, exp: int, ghost g: nat)
    requires 0 < m0 < 0x100_0000 && Resolved(m0, false, exp0 - 14, v, 1)
    ensures 0x80_0000 <= m < 0x100_0000 && Resolved(m, false, exp - 14, v, g)
  {
    m, exp, g := m0, exp0, 1;
    while m < 0x80_0000
      invariant 0 < m < 0x100_0000 && Resolved(m, false, exp - 14, v, g)
      decreases 0x80_0000 - m
    {
      ShlResolved(m, false, exp - 14, v, g);
      m, exp, g := 2 * m, exp - 1, g + 1;
    }
  }

  lemma WidePowers()
    ensures Pow2(12) == 0x1000 && Pow2(23) == 0x80_0000 && Pow2(24) == 0x100_0000
  {
    PowerTable();
  }

  lemma WideDifference(m: nat, exp: int, mz: nat, expz: int, d: nat, t: int, a: real, b: real, v: real)
    requires Wide(m, exp, a) && Wide(mz, expz, b) && v == a - b
    requires d == exp - expz && t == exp - 14 && (d == 0 ==> mz <= m)
    ensures var w := m - Aligned(mz, d, 24);
            0 <= w < 0x100_0000 && Resolved(w, false, t, v, 1) && (w == 0 <==> v == 0.0) && v >= 0.0
  {
    WidePowers();
    assert expz - 14 == t - d;
    DifferenceResolved(m, mz, t, d, 24, a, b, v);
  }

  method SubtractWide(mode: RoundingMode, m: nat, exp: int, mz: nat, expz: int, sign: nat,
                      ghost a: real, ghost b: real, ghost v: real)
    returns (h: Half)
    requires Wide(m, exp, a) && Wide(mz, expz, b) && v == a - b && (sign == 0 || sign == SIGN)
    requires expz < exp || (expz == exp && mz <= m)
    ensures if v == 0.0 then h == (if mode == TowardNegative then SIGN else 0) else v > 0.0 && Rounds(mode, sign, v, h)
  {
    var d := exp - expz;
    WideDifference(m, exp, mz, expz, d, exp - 14, a, b, v);
    var w := m - Aligned(mz, d, 24);
    if w == 0 {
      return if mode == TowardNegative then SIGN else 0;
    }
    ghost var g: nat;
    var e: int;
    w, e, g := NormalizeWide(w, exp, v);
    WidePowers();
    h := RoundOff(mode, 23, w, e - 1, sign, false, e - 14, v, g);
  }

  /** The sum of the significands, with a carry shifted back stickily. */
  lemma WideCarry(w: nat, t: int, v: real, i: nat)
    requires 0x80_0000 <= w < 0x200_0000 && Brackets(w, false, t, v, 1) && i == w / 0x100_0000
    ensures var w2 := if i == 1 then ShrSticky(w, 1) else w;
            i <= 1 && 0x80_0000 <= w2 < 0x100_0000 && Resolved(w2, false, t + i, v, 1)
  {
    assert Pow2(12) == 0x1000;
    if w >= 0x100_0000 {
      assert Shr(w, 0) == w && Shr(w, 1) == w / 2;
      StickyShift(w, false, t, v, 1);
    }
  }

  lemma WideSum(m: nat, exp: int, mz: nat, expz: int, d: nat, t: int, a: real, b: real, v: real)
    requires Wide(m, exp, a) && Wide(mz, expz, b) && v == a + b && d == exp - expz && t == exp - 14
    ensures var w := m + Aligned(mz, d, 24); 0x80_0000 <= w < 0x200_0000 && Brackets(w, false, t, v, 1)
  {
    WidePowers();
    assert expz - 14 == t - d;
    SumBracketed(m, mz, t, d, 24, a, b, v);
    AlignedFar(mz, d, 24);
  }

  method AddWide(mode: RoundingMode, m: nat, exp: int, mz: nat, expz: int, sign: nat,
                 ghost a: real, ghost b: real, ghost v: real)
    returns (h: Half)
    requires Wide(m, exp, a) && Wide(mz, expz, b) && v == a + b && (sign == 0 || sign == SIGN)
    requires expz < exp || (expz == exp && mz <= m)
    ensures v > 0.0 && Rounds(mode, sign, v, h)
  {
    var d: nat := exp - expz;
    WideSum(m, exp, mz, expz, d, exp - 14, a, b, v);
    var w := m + Aligned(mz, d, 24);
    var i := w / 0x100_0000;
    WideCarry(w, exp - 14, v, i);
    w := if i == 1 then ShrSticky(w, 1) else w;
    var e := exp + i;
    WidePowers();
    h := RoundOff(mode, 23, w, e - 1, sign, false, e - 14, v, 1);
  }

  lemma WideOrder(m: nat, exp: int, mz: nat, expz: int, a: real, b: real)
    requires Wide(m, exp, a) && Wide(mz, expz, b) && (expz < exp || (expz == exp && mz <= m))
    ensures 0.0 < b <= a
  {
    ScaleSign(mz as real, expz - 14);
    if expz == exp {
      ScaleOrder(m as real, mz as real, exp - 14);
    } else {
      ScaleOrder(mz as real, 2.0 * m as real, expz - 14);
      ScaleDouble(m as real, expz - 14);
      GrowingScale(m as real, exp - 14, expz + 1 - 14);
    }
  }

  /** The addition step of fma, for a nonzero product p and a nonzero addend q. */
  method AddToProduct(mode: RoundingMode, m0: nat, exp0: int, mz0: nat, expz0: int, signP: nat, signZ: nat,
                      ghost p: real, ghost q: real, ghost r: real)
    returns (h: Half)
    requires Wide(m0, exp0, Units(p)) && Wide(mz0, expz0, Units(q)) && r == p + q
    requires signP == (if p < 0.0 then SIGN else 0) && signZ == (if q < 0.0 then SIGN else 0)
    ensures if r == 0.0 then signP != signZ && h == (if mode == TowardNegative then SIGN else 0)
            else RoundsTo(mode, r, h)
  {
    var m, exp, mz, expz, sign, sub := m0, exp0, mz0, expz0, signP, signP != signZ;
    ghost var a: real, b: real := p, q;
    if expz > exp || (expz == exp && mz > m) {
      m, exp, mz, expz := mz, expz, m, exp;
      if sub {
        sign := signZ;
      }
      a, b := q, p;
    }
    ghost var v := if sub then Units(a) - Units(b) else Units(a) + Units(b);
    WideOrder(m, exp, mz, expz, Units(a), Units(b));
    if sub {
      h := SubtractWide(mode, m, exp, mz, expz, sign, Units(a), Units(b), v);
    } else {
      h := AddWide(mode, m, exp, mz, expz, sign, Units(a), Units(b), v);
    }
    if v != 0.0 {
      SignedSum(mode, a, b, r, sign, v, h);
    }
  }

  lemma ZeroProduct(x: real, y: real)
    requires x == 0.0 || y == 0.0
    ensures Times(x, y) == 0.0
  {
  }

  lemma NonzeroTimes(x: real, y: real)
    requires x != 0.0 && y != 0.0
    ensures Times(x, y) != 0.0
  {
  }

  lemma NonzeroProduct(x: Half, y: Half)
    requires IsFinite(x) && IsFinite(y) && !IsZero(x) && !IsZero(y)
    ensures Times(Value(x), Value(y)) != 0.0
    ensures SignProduct(x, y) == if Times(Value(x), Value(y)) < 0.0 then SIGN else 0
  {
    ValueSign(x);
    ValueSign(y);
    UnitsProduct(Value(x), Value(y));
    NonzeroTimes(Value(x), Value(y));
  }

  method RoundProduct(mode: RoundingMode, m: nat, exp: int, sign: nat, ghost p: real) returns (h: Half)
    requires Wide(m, exp, Units(p)) && sign == if p < 0.0 then SIGN else 0
    ensures RoundsTo(mode, p, h)
  {
    WidePowers();
    h := RoundOff(mode, 23, m, exp - 1, sign, false, exp - 14, Units(p), 1);
    FromMagnitude(mode, p, sign, h);
  }

  lemma FusedFinite(mode: RoundingMode, x: Half, y: Half, z: Half, r: real, h: Half)
    requires IsFinite(x) && IsFinite(y) && IsFinite(z) && r == ExactFused(x, y, z)
    requires if r == 0.0 then SignProduct(x, y) != SignOf(z) && h == (if mode == TowardNegative then SIGN else 0)
               else RoundsTo(mode, r, h)
    ensures IsFused(mode, x, y, z, h)
  {
  }

  /** fma on finite operands with a nonzero product. */
  method FmaNonzero(mode: RoundingMode, x: Half, y: Half, z: Half) returns (h: Half)
    requires IsFinite(x) && IsFinite(y) && IsFinite(z) && !IsZero(x) && !IsZero(y)
    ensures IsFused(mode, x, y, z, h)
  {
    var absz, sign := Abs(z), SignProduct(x, y);
    ghost var r := ExactFused(x, y, z);
    NonzeroProduct(x, y);
    ValueSign(z);
    var m, exp := MultiplyWide(x, y);
    if absz != 0 {
      var mz, ez := Normalize(absz);
      WideOperand(mz, ez, Units(Value(z)));
      h := AddToProduct(mode, m, exp, Shl(mz, 13), ez, sign, SignOf(z), Times(Value(x), Value(y)), Value(z), r);
    } else {
      h := RoundProduct(mode, m, exp, sign, r);
    }
    FusedFinite(mode, x, y, z, r, h);
  }

  method Fma(mode: RoundingMode, x: Half, y: Half, z: Half) returns (h: Half)
    ensures IsFused(mode, x, y, z, h)
  {
    var absx, absy, absz := Abs(x), Abs(y), Abs(z);
    var sign := SignProduct(x, y);
    var sub := sign != SignOf(z);
    if absx >= 0x7C00 || absy >= 0x7C00 || absz >= 0x7C00 {
      if absx > 0x7C00 || absy > 0x7C00 || absz > 0x7C00 {
        return if absx > 0x7C00 || absy > 0x7C00 then Signal(x, y) else Quieted(z);
      }
      if absx == 0x7C00 {
        return if absy == 0 || (sub && absz == 0x7C00) then INVALID else sign + 0x7C00;
      }
      if absy == 0x7C00 {
        return if absx == 0 || (sub && absz == 0x7C00) then INVALID else sign + 0x7C00;
      }
      return z;
    }
    if absx == 0 || absy == 0 {
      ValueSign(x);
      ValueSign(y);
      ValueSign(z);
      ZeroProduct(Value(x), Value(y));
      if absz != 0 {
        ExactRounds(mode, z);
        return z;
      }
      return if mode == TowardNegative then (if Negative(z) || sign == SIGN then SIGN else 0)
        else if Negative(z) && sign == SIGN then SIGN else 0;
    }
    h := FmaNonzero(mode, x, y, z);
  }
}
