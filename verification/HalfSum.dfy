/** Addition and subtraction of halves (half.hpp, operator+ and operator-). */
module HalfSum {
  import opened Powers
  import opened Binary16
  import opened Rounding
  import opened HalfCommon

  ghost function ExactSum(x: Half, y: Half): real
    requires IsFinite(x) && IsFinite(y)
  {
    Value(x) + Value(y)
  }

  /** IEEE 754-2019, sections 5.4.1, 6.1, 6.2 and 6.3: a zero sum of operands with unlike signs is +0, except that
      rounding toward negative makes it -0. */
  ghost predicate IsSum(mode: RoundingMode, x: Half, y: Half, h: Half)
  {
    if IsNaN(x) || IsNaN(y) || (IsInfinite(x) && IsInfinite(y) && x != y) then IsQuietNaN(h)
    else if IsInfinite(x) then h == x
    else if IsInfinite(y) then h == y
    else
      if ExactSum(x, y) == 0.0 then
        IsZero(h) && Negative(h) == if Negative(x) == Negative(y) then Negative(x) else mode == TowardNegative
      else RoundsTo(mode, ExactSum(x, y), h)
  }

  /** A half's significand with three guard bits. */
  lemma GuardedSignificand(k: nat)
    requires 0 < k <= MAX_FINITE
    ensures var m := 8 * Significand(k);
            && 0 < m < 0x4000 && m % 8 == 0 && (ExpField(k) == 1 || m >= 0x2000)
            && Mag(k) as real == Scale(m as real, ExpField(k) - 4)
  {
    MagByFields(k);
    var q: nat, e: int := Significand(k), ExpField(k);
    ScaleDouble((4 * q) as real, e - 4);
    ScaleDouble((2 * q) as real, e - 3);
    ScaleDouble(q as real, e - 2);
  }

  /** The last step: eleven bits of mx and three guard bits, as a half. */
  method RoundGuarded(mode: RoundingMode, mx: nat, exp: int, sign: nat, ghost v: real) returns (h: Half)
    requires 1 <= exp <= 30 && mx < 0x4000 && (exp == 1 || mx >= 0x2000) && (sign == 0 || sign == SIGN)
    requires Brackets(mx, false, exp - 4, v, 2)
    ensures Rounds(mode, sign, v, h)
  {
    PowerTable();
    ShrBounds(mx, 13, 3);
    var k := (exp - 1) * 0x400 + Shr(mx, 3);
    PlacedRounds(mode, mx, exp - 4, 3, sign, false, v, k);
    h := Place(mode, mx, 3, k, sign, false);
  }

  /** Two operands on the same scale, the larger magnitude k first. */
  lemma GuardedOperands(k: nat, j: nat, m: nat, z: nat, t: int, d: int, a: real, b: real)
    requires 0 < j <= k <= MAX_FINITE && m == 8 * Significand(k) && z == 8 * Significand(j)
    requires t == ExpField(k) - 4 && d == ExpField(k) - ExpField(j) && a == Mag(k) as real && b == Mag(j) as real
    ensures 0 <= d && 0 < m < 0x4000 && 0 < z < 0x4000 && m % 8 == 0 && z % 8 == 0
    ensures a == Scale(m as real, t) && b == Scale(z as real, t - d)
    ensures if d == 0 then z <= m else m >= 0x2000
    ensures t == -3 || m >= 0x2000
  {
    GuardedSignificand(k);
    GuardedSignificand(j);
    assert ExpField(j) - 4 == t - d;
  }

  lemma SumOverflows(mx: nat, v: real)
    requires 0x4000 <= mx < 0x8000 && Brackets(mx, false, 26, v, 2)
    ensures v >= Mag(INFINITY) as real
  {
    PowerTable();
    CoarserBrackets(mx, false, 26, v, 2);
    ShrBounds(mx, 14, 3);
    CellMagnitude(Shr(mx, 3), 30, v, !LowBits(mx, 3));
  }

  lemma GuardedSize(z: nat, d: nat)
    requires 0 < z < 0x4000 && z % 8 == 0
    ensures Aligned(z, d, 14) < 0x4000 == Pow2(14)
  {
    assert Pow2(14) == 0x4000;
    AlignedFar(z, d, 14);
  }

  lemma GuardedSum(m: nat, z: nat, t: int, d: nat, a: real, b: real, v: real)
    requires 0 < m < 0x4000 && 0 < z < 0x4000 && m % 8 == 0 && z % 8 == 0 && (t == -3 || m >= 0x2000)
    requires a == Scale(m as real, t) && b == Scale(z as real, t - d) && v == a + b
    ensures var w := m + Aligned(z, d, 14); w < 0x8000 && (t == -3 || w >= 0x2000)
    ensures var bracketed := Brackets(m + Aligned(z, d, 14), false, t, v, 1); bracketed
  {
    GuardedSize(z, d);
    SumBracketed(m, z, t, d, 14, a, b, v);
  }

  lemma GuardedDifference(m: nat, z: nat, t: int, d: nat, a: real, b: real, v: real)
    requires 0 < m < 0x4000 && 0 < z < 0x4000 && m % 8 == 0 && z % 8 == 0 && (if d == 0 then z <= m else m >= 0x2000)
    requires a == Scale(m as real, t) && b == Scale(z as real, t - d) && v == a - b
    ensures var w := m - Aligned(z, d, 14);
            0 <= w < 0x4000 && Resolved(w, false, t, v, 1) && (w == 0 <==> v == 0.0) && v >= 0.0
  {
    assert Pow2(13) == 0x2000 && Pow2(14) == 0x4000;
    DifferenceResolved(m, z, t, d, 14, a, b, v);
  }

  lemma ExponentsOrdered(k: nat, j: nat)
    requires j <= k <= MAX_FINITE
    ensures 1 <= ExpField(j) <= ExpField(k) <= 30
  {
  }

  /** A carry out of fourteen bits is shifted back, stickily. */
  lemma CarryShifted(mx: nat, t: int, v: real)
    requires 0x4000 <= mx < 0x8000 && Brackets(mx, false, t, v, 1)
    ensures 0x2000 <= ShrSticky(mx, 1) < 0x4000 && Brackets(ShrSticky(mx, 1), false, t + 1, v, 2)
  {
    assert Shr(mx, 0) == mx && Shr(mx, 1) == mx / 2;
    StickyShift(mx, false, t, v, 1);
    CoarserBrackets(ShrSticky(mx, 1), false, t + 1, v, 1);
  }

  /** The end of the addition branch: a carry is shifted back, or overflows. */
  method RoundCarried(mode: RoundingMode, mx: nat, exp: int, sign: nat, ghost v: real) returns (h: Half)
    requires 1 <= exp <= 30 && mx < 0x8000 && (exp == 1 || mx >= 0x2000) && (sign == 0 || sign == SIGN)
    requires Brackets(mx, false, exp - 4, v, 1)
    ensures Rounds(mode, sign, v, h)
  {
    var i := mx / 0x4000;
    if exp + i > 30 {
      CoarserBrackets(mx, false, exp - 4, v, 1);
      SumOverflows(mx, v);
      OverflowCorrect(mode, sign, v);
      h := Overflow(mode, sign);
    } else if i == 1 {
      CarryShifted(mx, exp - 4, v);
      h := RoundGuarded(mode, ShrSticky(mx, 1), exp + 1, sign, v);
    } else {
      CoarserBrackets(mx, false, exp - 4, v, 1);
      h := RoundGuarded(mode, mx, exp, sign, v);
    }
  }

  /** The branch of operator+ for operands of equal sign, the larger magnitude k first. */
  method AddMagnitudes(mode: RoundingMode, k: nat, j: nat, sign: nat, ghost a: real, ghost b: real, ghost v: real)
    returns (h: Half)
    requires 0 < j <= k <= MAX_FINITE && (sign == 0 || sign == SIGN) && a == Mag(k) as real && b == Mag(j) as real
             && v == a + b
    ensures Rounds(mode, sign, v, h)
  {
    ExponentsOrdered(k, j);
    var exp: int, d: nat := ExpField(k), ExpField(k) - ExpField(j);
    var mx: nat, my: nat := 8 * Significand(k), 8 * Significand(j);
    GuardedOperands(k, j, mx, my, exp - 4, d, a, b);
    GuardedSum(mx, my, exp - 4, d, a, b, v);
    h := RoundCarried(mode, mx + Aligned(my, d, 14), exp, sign, v);
  }

  /** The loop that follows a cancellation. */
  method NormalizeGuarded(m0: nat, exp0: int, ghost v: real) returns (mx: nat, exp: int)
    requires 1 <= exp0 <= 30 && m0 < 0x4000 && Resolved(m0, false, exp0 - 4, v, 1)
    ensures 1 <= exp <= 30 && mx < 0x4000 && (exp == 1 || mx >= 0x2000) && Brackets(mx, false, exp - 4, v, 2)
  {
    ghost var g: nat := 1;
    mx, exp := m0, exp0;
    while mx < 0x2000 && exp > 1
      invariant 1 <= exp <= 30 && mx < 0x4000 && Resolved(mx, false, exp - 4, v, g)
      decreases exp
    {
      ShlResolved(mx, false, exp - 4, v, g);
      mx, exp, g := 2 * mx, exp - 1, g + 1;
    }
    assert Pow2(14) == 0x4000;
    ResolvedBrackets(mx, false, exp - 4, v, g, 2);
  }

  /** The branch for operands of unlike sign. */
  method SubtractMagnitudes(mode: RoundingMode, k: nat, j: nat, sign: nat, ghost a: real, ghost b: real, ghost v: real)
    returns (h: Half)
    requires 0 < j <= k <= MAX_FINITE && (sign == 0 || sign == SIGN) && a == Mag(k) as real && b == Mag(j) as real
             && v == a - b
    ensures if v == 0.0 then h == (if mode == TowardNegative then SIGN else 0) else v > 0.0 && Rounds(mode, sign, v, h)
  {
    ExponentsOrdered(k, j);
    var exp: int, d: nat := ExpField(k), ExpField(k) - ExpField(j);
    var mx: nat, my: nat := 8 * Significand(k), 8 * Significand(j);
    GuardedOperands(k, j, mx, my, exp - 4, d, a, b);
    GuardedDifference(mx, my, exp - 4, d, a, b, v);
    mx := mx - Aligned(my, d, 14);
    if mx == 0 {
      return if mode == TowardNegative then SIGN else 0;
    }
    mx, exp := NormalizeGuarded(mx, exp, v);
    h := RoundGuarded(mode, mx, exp, sign, v);
  }

  /** The sign of a sum is that of its larger operand, and its magnitude the sum or difference of theirs. */
  lemma SignedSum(mode: RoundingMode, x: real, y: real, r: real, sign: nat, v: real, h: Half)
    requires r == x + y && 0.0 < Units(y) <= Units(x) && sign == (if x < 0.0 then SIGN else 0)
    requires v == (if (x < 0.0) == (y < 0.0) then Units(x) + Units(y) else Units(x) - Units(y))
    requires v > 0.0 && Rounds(mode, sign, v, h)
    ensures r != 0.0 && RoundsTo(mode, r, h)
  {
    FromMagnitude(mode, r, sign, h) by {
      assert Units(r) == v;
    }
  }

  method AddNonzero(mode: RoundingMode, x: Half, y: Half) returns (h: Half)
    requires IsFinite(x) && IsFinite(y) && !IsZero(x) && !IsZero(y)
    ensures IsSum(mode, x, y, h)
  {
    var absx, absy, sub := Abs(x), Abs(y), Negative(x) != Negative(y);
    var sign := SignOf(if sub && absy > absx then y else x);
    ghost var r: real, a: real, b: real := ExactSum(x, y), Value(x), Value(y);
    ValueSign(x);
    ValueSign(y);
    if absy > absx {
      MagMonotone(absx, absy);
      absx, absy, a, b := absy, absx, b, a;
    } else if absy < absx {
      MagMonotone(absy, absx);
    }
    ghost var v := if sub then Units(a) - Units(b) else Units(a) + Units(b);
    if sub {
      h := SubtractMagnitudes(mode, absx, absy, sign, Units(a), Units(b), v);
    } else {
      h := AddMagnitudes(mode, absx, absy, sign, Units(a), Units(b), v);
    }
    if v != 0.0 {
      SignedSum(mode, a, b, r, sign, v, h);
    }
  }

  method Add(mode: RoundingMode, x: Half, y: Half) returns (h: Half)
    ensures IsSum(mode, x, y, h)
  {
    var absx, absy, sub := Abs(x), Abs(y), Negative(x) != Negative(y);
    if absx >= 0x7C00 || absy >= 0x7C00 {
      if absx > 0x7C00 || absy > 0x7C00 {
        return Signal(x, y);
      }
      return if absy != 0x7C00 then x else if sub && absx == 0x7C00 then INVALID else y;
    }
    ValueSign(x);
    ValueSign(y);
    if absx == 0 {
      if absy != 0 {
        ExactRounds(mode, y);
        return y;
      }
      return if mode == TowardNegative then (if Negative(x) || Negative(y) then SIGN else 0)
        else if Negative(x) && Negative(y) then SIGN else 0;
    }
    if absy == 0 {
      ExactRounds(mode, x);
      return x;
    }
    h := AddNonzero(mode, x, y);
  }

  /** half.hpp, operator-: addition of the negated right operand. */
  function Negated(h: Half): Half
  {
    if Negative(h) then h - SIGN else h + SIGN
  }

  lemma NegatedValue(h: Half)
    ensures IsNaN(Negated(h)) == IsNaN(h) && IsInfinite(Negated(h)) == IsInfinite(h)
    ensures Negative(Negated(h)) == !Negative(h) && IsZero(Negated(h)) == IsZero(h)
    ensures IsFinite(h) ==> Value(Negated(h)) == -Value(h)
  {
    assert Abs(Negated(h)) == Abs(h);
  }

  /** IEEE 754-2019, sections 5.4.1 and 6.1 to 6.3, of x - y. */
  ghost predicate IsDifference(mode: RoundingMode, x: Half, y: Half, h: Half)
  {
    if IsNaN(x) || IsNaN(y) || (IsInfinite(x) && x == y) then IsQuietNaN(h)
    else if IsInfinite(x) then h == x
    else if IsInfinite(y) then IsInfinite(h) && Negative(h) == !Negative(y)
    else
      if Value(x) - Value(y) == 0.0 then
        IsZero(h) && Negative(h) == if Negative(x) != Negative(y) then Negative(x) else mode == TowardNegative
      else RoundsTo(mode, Value(x) - Value(y), h)
  }

  lemma DifferenceIsSum(mode: RoundingMode, x: Half, y: Half, h: Half)
    requires IsSum(mode, x, Negated(y), h)
    ensures IsDifference(mode, x, y, h)
  {
    NegatedValue(y);
    if IsFinite(x) && IsFinite(y) { assert ExactSum(x, Negated(y)) == Value(x) - Value(y); }
  }

  method Subtract(mode: RoundingMode, x: Half, y: Half) returns (h: Half)
    ensures IsSum(mode, x, Negated(y), h) && IsDifference(mode, x, y, h)
  {
    h := Add(mode, x, Negated(y));
    DifferenceIsSum(mode, x, y, h);
  }
}
