/** Multiplication and division of halves (half.hpp, operator* and operator/). */
module HalfProduct {
  import opened Powers
  import opened Binary16
  import opened Rounding
  import opened HalfCommon

  /** IEEE 754-2019, sections 5.4.1, 6.1, 6.2 and 6.3, for multiplication. */
  ghost predicate IsProduct(mode: RoundingMode, x: Half, y: Half, h: Half)
  {
    if IsNaN(x) || IsNaN(y) || (IsInfinite(x) && IsZero(y)) || (IsZero(x) && IsInfinite(y)) then IsQuietNaN(h)
    else if IsInfinite(x) || IsInfinite(y) then IsInfinite(h) && SignOf(h) == SignProduct(x, y)
    else if IsZero(x) || IsZero(y) then IsZero(h) && SignOf(h) == SignProduct(x, y)
    else RoundsTo(mode, Times(Value(x), Value(y)), h)
  }

  /** The same for division. */
  ghost predicate IsQuotient(mode: RoundingMode, x: Half, y: Half, h: Half)
  {
    if IsNaN(x) || IsNaN(y) || (IsInfinite(x) && IsInfinite(y)) || (IsZero(x) && IsZero(y)) then IsQuietNaN(h)
    else if IsInfinite(x) || IsZero(y) then IsInfinite(h) && SignOf(h) == SignProduct(x, y)
    else if IsZero(x) || IsInfinite(y) then IsZero(h) && SignOf(h) == SignProduct(x, y)
    else ValueSign(y); RoundsTo(mode, Ratio(Value(x), Value(y)), h)
  }

  lemma UnitsProduct(x: real, y: real)
    ensures 16777216.0 * Units(Times(x, y)) == Times(Units(x), Units(y))
    ensures Times(x, y) < 0.0 <==> x != 0.0 && y != 0.0 && (x < 0.0) != (y < 0.0)
  {
    var a, b := if x < 0.0 then -x else x, if y < 0.0 then -y else y;
    assert a * b >= 0.0;
    assert a * b == if (x < 0.0) == (y < 0.0) then x * y else -(x * y);
    assert Units(x) * Units(y) == 16777216.0 * (16777216.0 * (a * b));
  }

  lemma RealProduct(ma: nat, mb: nat)
    ensures (ma * mb) as real == Times(ma as real, mb as real)
  {
  }

  lemma Rescale(m: real, e: int, v: real)
    requires 16777216.0 * v == Scale(m, e)
    ensures v == Scale(m, e - 24)
  {
    ScaleCompose(m, e, -24);
    ScaleTable(Scale(m, e));
  }

  lemma ScaledProduct(a: real, b: real, mx: real, my: real, ex: int, ey: int, m: real)
    requires m == Times(mx, my) && a == Scale(mx, ex) && b == Scale(my, ey)
    ensures Times(a, b) == Scale(m, ex + ey)
  {
    ScaleProduct(mx, my, ex, ey);
  }

  /** The exact product of two nonzero values, from their normalised significands. */
  lemma ProductSignificand(x: real, y: real, mx: nat, my: nat, ex: int, ey: int, m: nat)
    requires m as real == Times(mx as real, my as real)
    requires Units(x) == Scale(mx as real, ex - 1) && Units(y) == Scale(my as real, ey - 1)
    ensures Units(Times(x, y)) == Scale(m as real, ex + ey - 26)
  {
    UnitsProduct(x, y);
    ScaledProduct(Units(x), Units(y), mx as real, my as real, ex - 1, ey - 1, m as real);
    Rescale(m as real, ex + ey - 2, Units(Times(x, y)));
  }

  lemma SignificandProduct(a: nat, b: nat)
    requires 0x400 <= a < 0x800 && 0x400 <= b < 0x800
    ensures 0x10_0000 <= a * b < 0x40_0000
  {
    ProductMonotone(0x400, a, b);
    ProductMonotone(b, 0x7FF, a);
  }

  /** Dropping one bit into the sticky flag. */
  lemma HalveExact(m: nat, t: int, v: real)
    requires v == Scale(m as real, t)
    ensures Brackets(m / 2, m % 2 == 1, t + 1, v, 0)
  {
    ExactBrackets(m, t, v, 1);
    assert Shr(m, 0) == m && !LowBits(m, 0);
    assert Shr(m / 2, 0) == m / 2 && !LowBits(m / 2, 0);
  }

  method Multiply(mode: RoundingMode, x: Half, y: Half) returns (h: Half)
    ensures IsProduct(mode, x, y, h)
  {
    var absx, absy, sign := Abs(x), Abs(y), SignProduct(x, y);
    if absx >= 0x7C00 || absy >= 0x7C00 {
      if absx > 0x7C00 || absy > 0x7C00 {
        return Signal(x, y);
      }
      return if (absx == 0x7C00 && absy == 0) || (absy == 0x7C00 && absx == 0) then INVALID else sign + 0x7C00;
    }
    if absx == 0 || absy == 0 {
      return sign;
    }
    var mx, ex := Normalize(absx);
    var my, ey := Normalize(absy);
    SignificandProduct(mx, my);
    var m: uint32 := mx * my;
    RealProduct(mx, my);
    ghost var r := Times(Value(x), Value(y));
    ValueSign(x);
    ValueSign(y);
    UnitsProduct(Value(x), Value(y));
    ProductSignificand(Value(x), Value(y), mx, my, ex, ey, m);
    PowerTable();
    var i := m / 0x20_0000;
    if i == 1 { HalveExact(m, ex + ey - 26, Units(r)); }
    var exp := -16 + ex + ey + i;
    h := RoundOff(mode, 20, if i == 1 then m / 2 else m, exp, sign, i == 1 && m % 2 == 1, exp - 10, Units(r), 0);
    FromMagnitude(mode, r, sign, h);
  }

  lemma UnitsQuotient(x: real, y: real)
    requires y != 0.0
    ensures Times(Units(Ratio(x, y)), Units(y)) == 16777216.0 * Units(x)
    ensures Ratio(x, y) < 0.0 <==> x != 0.0 && (x < 0.0) != (y < 0.0)
  {
    RatioTimes(x, y);
    UnitsProduct(Ratio(x, y), y);
  }

  /** q and rem are num / den and num % den. */
  predicate IsDivision(num: nat, den: nat, q: nat, rem: nat)
  {
    num == q * den + rem && rem < den
  }

  lemma BoundedFactor(e: real, d: real, r: real)
    requires e * d == r && 0.0 <= r < d
    ensures 0.0 <= e < 1.0 && (e == 0.0 <==> r == 0.0)
  {
  }

  lemma Distribute(u: real, c: real, d: real)
    ensures (u - c) * d == u * d - c * d
  {
  }

  lemma BetweenMultiples(u: real, c: real, d: real, r: real)
    requires Times(u, d) == Times(c, d) + r && 0.0 <= r < d
    ensures c <= u < c + 1.0 && (u == c <==> r == 0.0)
  {
    Distribute(u, c, d);
    BoundedFactor(u - c, d, r);
  }

  lemma QuotientOf(mb: nat, half: nat, q: nat, rem: nat, u: real)
    requires IsDivision(2 * half, 2 * mb, q, rem) && Times(u, mb as real) == half as real
    ensures q as real <= u < (q + 1) as real && (u == q as real <==> rem == 0)
  {
    RealProduct(q, 2 * mb);
    DoubleFactor(mb as real, u);
    Commutes(u, mb as real);
    Commutes(u, (2 * mb) as real);
    BetweenMultiples(u, q as real, (2 * mb) as real, rem as real);
  }

  /** The integer quotient of the scaled significands of a and b, with its remainder as sticky flag. */
  lemma QuotientSignificand(a: real, b: real, ma: nat, mb: nat, ea: int, eb: int, n: nat, q: nat, rem: nat, t: int,
                            v: real)
    requires a == Scale(ma as real, ea) && b == Scale(mb as real, eb) && Times(v, b) == 16777216.0 * a
    requires IsDivision(2 * Shl(ma, n), 2 * mb, q, rem) && t == ea - eb + 24 - n
    ensures InCell(q, t, v, rem == 0)
  {
    var u := Scale(v, -t);
    var p := Times(u, mb as real);
    ScaleCompose(v, -t, t);
    ScaleProduct(u, mb as real, t, eb);
    ScaleCompose(ma as real, ea, 24);
    ScaleTable(a);
    ScaleCompose(p, t + eb, -(t + eb));
    ScaleCompose(ma as real, ea + 24, -(t + eb));
    assert p == Scale(ma as real, n);
    ShlReal(ma, n);
    QuotientOf(mb, Shl(ma, n), q, rem, u);
    ScaleOrder(q as real, u, t);
    ScaleOrder(u, (q + 1) as real, t);
  }

  lemma QuotientBounds(num: nat, den: nat, lo: nat, hi: nat)
    requires lo * den <= num < hi * den
    ensures lo <= num / den < hi && IsDivision(num, den, num / den, num % den)
  {
    var q := num / den;
    assert q * den <= num < (q + 1) * den;
    if q < lo { ProductMonotone(q + 1, lo, den); }
    if q >= hi { ProductMonotone(hi, q, den); }
  }

  lemma DivideSignificands(mx: nat, my: nat, i: nat, num: nat)
    requires 0x400 <= mx < 0x800 && 0x400 <= my < 0x800 && i == (if mx < my then 1 else 0) && num == Shl(mx, 12 + i)
    ensures num < 0x100_0000 && 0x800 <= num / (2 * my) < 0x1000
    ensures IsDivision(num, 2 * my, num / (2 * my), num % (2 * my))
  {
    ShlReal(mx, 12 + i);
    ScaleCompose(mx as real, 12, 1);
    assert Scale(mx as real, 12) == 4096.0 * mx as real;
    QuotientBounds(num, 2 * my, 0x800, 0x1000);
  }

  lemma QuotientOfHalves(x: Half, y: Half, mx: nat, my: nat, ex: int, ey: int, n: nat, q: nat, rem: nat)
    requires IsFinite(x) && IsFinite(y) && !IsZero(x) && !IsZero(y)
    requires Scaled(Mag(Abs(x)), mx, ex - 1) && Scaled(Mag(Abs(y)), my, ey - 1)
    requires IsDivision(Shl(mx, n + 1), 2 * my, q, rem)
    ensures Value(y) != 0.0 && (SignProduct(x, y) == SIGN <==> Ratio(Value(x), Value(y)) < 0.0)
    ensures Brackets(q, rem != 0, ex - ey + 24 - n, Units(Ratio(Value(x), Value(y))), 0)
  {
    ValueSign(x);
    ValueSign(y);
    UnitsQuotient(Value(x), Value(y));
    QuotientSignificand(Units(Value(x)), Units(Value(y)), mx, my, ex - 1, ey - 1, n, q, rem, ex - ey + 24 - n,
                        Units(Ratio(Value(x), Value(y))));
  }

  method DivideNonzero(mode: RoundingMode, x: Half, y: Half) returns (h: Half)
    requires IsFinite(x) && IsFinite(y) && !IsZero(x) && !IsZero(y)
    ensures Value(y) != 0.0 && RoundsTo(mode, Ratio(Value(x), Value(y)), h)
  {
    var sign := SignProduct(x, y);
    var mx, ex := Normalize(Abs(x));
    var my, ey := Normalize(Abs(y));
    var i := if mx < my then 1 else 0;
    var exp := 14 + ex - ey - i;
    var num := Shl(mx, 12 + i);
    var den: uint32 := 2 * my;
    DivideSignificands(mx, my, i, num);
    var q: uint32, rem := num / den, num % den;
    QuotientOfHalves(x, y, mx, my, ex, ey, 11 + i, q, rem);
    ghost var r := Ratio(Value(x), Value(y));
    PowerTable();
    h := RoundOff(mode, 11, q, exp, sign, rem != 0, exp - 1, Units(r), 0);
    FromMagnitude(mode, r, sign, h);
  }

  method Divide(mode: RoundingMode, x: Half, y: Half) returns (h: Half)
    ensures IsQuotient(mode, x, y, h)
  {
    var absx, absy, sign := Abs(x), Abs(y), SignProduct(x, y);
    if absx >= 0x7C00 || absy >= 0x7C00 {
      if absx > 0x7C00 || absy > 0x7C00 {
        return Signal(x, y);
      }
      return if absx == absy then INVALID else sign + if absx == 0x7C00 then 0x7C00 else 0;
    }
    if absx == 0 {
      return if absy != 0 then sign else INVALID;
    }
    if absy == 0 {
      return sign + 0x7C00;
    }
    ValueSign(y);
    h := DivideNonzero(mode, x, y);
  }
}
