/** What the arithmetic operators of half.hpp share. */
module HalfCommon {
  import opened Powers
  import opened Binary16
  import opened Rounding

  /** half.hpp, signal: set the quiet bit of a NaN. */
  function Quieted(nan: Half): (h: Half)
    requires IsNaN(nan)
    ensures IsQuietNaN(h)
  {
    if (nan / 0x200) % 2 == 1 then nan else nan + 0x200
  }

  function Signal(x: Half, y: Half): (h: Half)
    requires IsNaN(x) || IsNaN(y)
    ensures IsQuietNaN(h)
  {
    if IsNaN(x) then Quieted(x) else Quieted(y)
  }

  const INVALID: Half := 0x7FFF

  function SignProduct(x: Half, y: Half): (s: nat)
    ensures s == 0 || s == SIGN
  {
    if Negative(x) == Negative(y) then 0 else SIGN
  }

  /** Exponent field, counting subnormals as exponent 1, and significand with its implicit bit. */
  function ExpField(k: nat): nat { if k <= 0x3FF then k / 0x400 + 1 else k / 0x400 }
  function Significand(k: nat): nat { if k > 0x3FF then k % 0x400 + 0x400 else k % 0x400 }

  /** Integer k is exactly m * 2^t. */
  ghost predicate Scaled(k: nat, m: nat, t: int)
  {
    k as real == Scale(m as real, t)
  }

  /** The value of a word, by its fields. */
  lemma MagByFields(k: nat)
    requires k <= MAX_FINITE
    ensures 1 <= ExpField(k) <= 30 && Significand(k) < 0x800 && (ExpField(k) == 1 || Significand(k) >= 0x400)
    ensures Scaled(Mag(k), Significand(k), ExpField(k) - 1)
    ensures k > 0 ==> Mag(k) > 0 && Significand(k) > 0
  {
    var e := ExpField(k) - 1;
    assert k == e * 0x400 + Significand(k);
    Packed(e, Significand(k));
    ShlReal(Significand(k), e);
    if k > 0 { MagMonotone(0, k); }
  }

  /** The loop that brings a subnormal to eleven significant bits. */
  method Normalize(abs: nat) returns (m: nat, e: int)
    requires 0 < abs <= MAX_FINITE
    ensures 0x400 <= m < 0x800 && -9 <= e <= 30
    ensures Scaled(Mag(abs), m, e - 1)
  {
    var a, exp := abs, 0;
    ghost var shift := 0;
    while a < 0x400
      invariant 0 < a && (abs < 0x400 ==> a < 0x800) && (abs >= 0x400 ==> a == abs && exp == 0)
      invariant shift >= 0 && exp == -shift && Pow2(shift) <= a
      invariant abs < 0x400 ==> Scaled(abs, a, exp)
      decreases 0x400 - a
    {
      ScaleDouble(a as real, exp - 1);
      a, exp, shift := 2 * a, exp - 1, shift + 1;
    }
    m, e := a % 0x400 + 0x400, exp + a / 0x400;
    PowerTable();
    if shift > 10 { Pow2Monotone(11, shift); }
    if abs >= 0x400 { MagByFields(abs); } else { assert m == a && e - 1 == exp; }
  }

  /** half.hpp aligns the smaller operand by a sticky shift, or takes the sticky bit alone when the distance
      exceeds its width. */
  function Aligned(m: nat, d: nat, width: nat): nat
    requires width > 0
  {
    if d < width - 1 then ShrSticky(m, d) else 1
  }

  lemma {:induction false} PowerReal(n: nat, t: int)
    ensures Scale(Pow2(n) as real, t) == Scale(1.0, t + n)
  {
    if n > 0 {
      PowerReal(n - 1, t);
      ScaleDouble(Pow2(n - 1) as real, t);
      ScaleSucc(Pow2(n - 1) as real, t);
      ScaleSucc(1.0, t + n - 1);
    }
  }

  lemma FarBelow(m: nat, t: int, v: real, n: nat)
    requires 0 < m < Pow2(n) && v == Scale(m as real, t)
    ensures 0.0 < v < Scale(1.0, t + n)
  {
    ScaleOrder(m as real, Pow2(n) as real, t);
    ScaleSign(m as real, t);
    PowerReal(n, t);
  }

  lemma StickyBitAlone(t: int, v: real)
    requires 0.0 < v < Scale(1.0, t + 1)
    ensures Brackets(1, false, t, v, 1)
  {
    ScaleSign(0.0, t + 1);
    assert Shr(1, 0) == 1;
    assert LowBits(1, 1);
  }

  lemma AlignedBrackets(m: nat, t: int, v: real, d: nat, width: nat)
    requires width > 0 && 0 < m < Pow2(width) && v == Scale(m as real, t)
    ensures Brackets(Aligned(m, d, width), false, t + d, v, 1)
  {
    if d < width - 1 {
      ExactBrackets(m, t, v, 1);
      StickyShift(m, false, t, v, d);
    } else {
      Pow2Monotone(width, d + 1);
      FarBelow(m, t, v, d + 1);
      StickyBitAlone(t + d, v);
    }
  }

  /** Nothing is lost when the shift only drops zeros, and an operand that loses bits has become much smaller. */
  lemma AlignedNear(m: nat, t: int, v: real, d: nat, width: nat)
    requires width > 5 && d <= 2 && m % 4 == 0 && v == Scale(m as real, t)
    ensures v == Scale(Aligned(m, d, width) as real, t + d)
  {
    assert Shr(m, 0) == m && !LowBits(m, 0);
    assert Shr(m, 1) == m / 2 && !LowBits(m, 1);
    ScaleDouble((m / 2) as real, t);
    if d == 2 {
      assert Shr(m, 2) == m / 4 && !LowBits(m, 2);
      ScaleDouble((m / 4) as real, t + 1);
    }
  }

  lemma {:induction false} NotLost(m: nat, d: nat)
    requires m > 0
    ensures Shr(m, d) > 0 || LowBits(m, d)
  {
    if d > 0 { NotLost(m, d - 1); }
  }

  lemma AlignedFar(m: nat, d: nat, width: nat)
    requires width > 5 && 0 < m < Pow2(width)
    ensures 0 < Aligned(m, d, width) && (m % 4 == 0 ==> Aligned(m, d, width) < Pow2(width))
    ensures d >= 3 ==> Aligned(m, d, width) <= Pow2(width - 3)
    ensures d >= 1 && m % 4 == 0 ==> Aligned(m, d, width) < Pow2(width - 1)
  {
    PowerTable();
    assert Shr(m, 0) == m && !LowBits(m, 0);
    NotLost(m, d);
    if d < width - 1 {
      ShrBounds(m, width - 1, d);
      if d >= 3 { Pow2Monotone(width - d, width - 3); } else if d == 2 { assert Shr(m, 1) == m / 2; }
    }
  }

  lemma BracketsAdd(m: nat, z: nat, t: int, a: real, b: real)
    requires m % 2 == 0 && a == Scale(m as real, t) && Brackets(z, false, t, b, 1)
    ensures Brackets(m + z, false, t, a + b, 1)
  {
    assert Shr(z, 0) == z && Shr(m + z, 0) == m + z && !LowBits(z, 0) && !LowBits(m + z, 0);
    ScaleDouble((m / 2) as real, t);
    ScaleAdd((m / 2) as real, (z / 2) as real, t + 1);
    ScaleAdd((m / 2) as real, (z / 2 + 1) as real, t + 1);
  }

  lemma BracketsSubtract(m: nat, z: nat, t: int, a: real, b: real)
    requires m % 2 == 0 && z <= m && a == Scale(m as real, t) && Brackets(z, false, t, b, 1)
    ensures Brackets(m - z, false, t, a - b, 1)
  {
    var h, c := (m / 2) as real, (z / 2) as real;
    assert Shr(z, 0) == z && Shr(m - z, 0) == m - z && !LowBits(z, 0) && !LowBits(m - z, 0);
    ScaleDouble(h, t);
    ScaleAdd(h - c, c, t + 1);
    ScaleAdd(h - c - 1.0, c + 1.0, t + 1);
    ScaleAdd(h - c, 1.0, t + 1);
    ScaleSign(1.0, t + 1);
  }

  /** A bracketed nonzero significand stands for a positive value. */
  lemma BracketsPositive(m: nat, t: int, v: real)
    requires Brackets(m, false, t, v, 1) && m > 0
    ensures v > 0.0
  {
    assert Shr(m, 0) == m && !LowBits(m, 0);
    ScaleSign((m / 2) as real, t + 1);
  }

  lemma {:induction false} GrowingScale(x: real, i: int, j: int)
    requires i >= j && x >= 0.0
    ensures Scale(x, i) >= Scale(x, j)
    decreases i - j
  {
    if i > j {
      GrowingScale(x, i - 1, j);
      ScaleSucc(x, i - 1);
      ScaleSign(x, i - 1);
    }
  }

  lemma CellMagnitude(c: nat, exp: int, v: real, atLow: bool)
    requires 0x800 <= c < 0x1000 && InCell(c, exp - 1, v, atLow)
    ensures exp > 29 ==> v >= Mag(INFINITY) as real
    ensures exp < -11 ==> 0.0 < v < 0.5
  {
    if exp > 29 {
      GrowingScale(c as real, exp - 1, 29);
      ScaleTable(c as real);
      TopOfRange(MAX_FINITE);
    }
    if exp < -11 {
      GrowingScale((c + 1) as real, -13, exp - 1);
      ScaleTable((c + 1) as real);
      ScaleSign(c as real, exp - 1);
    }
  }

  /** The exponent decides whether a significand of F + 1 bits overflows or underflows. */
  lemma Magnitudes(F: nat, m: nat, exp: int, s: bool, v: real, g: nat)
    requires 11 <= F <= 31 && Pow2(F) <= m < Pow2(F + 1) && Resolved(m, s, exp - F + 10, v, g)
    ensures exp > 29 ==> v >= Mag(INFINITY) as real
    ensures exp < -11 ==> 0.0 < v < 0.5
  {
    PowerTable();
    ResolvedBrackets(m, s, exp - F + 10, v, g, F - 11);
    ShrBounds(m, F, F - 11);
    assert exp - F + 10 + (F - 11) == exp - 1;
    CellMagnitude(Shr(m, F - 11), exp, v, !LowBits(m, F - 11) && !s);
  }

  lemma ResolvedPositive(F: nat, m: nat, t: int, s: bool, v: real, g: nat)
    requires 11 <= F <= 31 && Pow2(F) <= m < Pow2(F + 1) && Resolved(m, s, t, v, g)
    ensures v > 0.0
  {
    PowerTable();
    ResolvedBrackets(m, s, t, v, g, F - 11);
    ShrBounds(m, F, F - 11);
    ScaleSign(Shr(m, F - 11) as real, t + (F - 11));
  }

  /** How multiplication, division and fma end: out-of-range exponents are settled first, the rest goes through
      fixed2half. */
  method RoundOff(mode: RoundingMode, F: nat, m: uint32, exp: int, sign: nat, s: bool, ghost t: int, ghost v: real,
                  ghost g: nat)
    returns (h: Half)
    requires 11 <= F <= 30 && Pow2(F) <= m < Pow2(F + 1) && (sign == 0 || sign == SIGN)
    requires t == exp - F + 10 && Resolved(m, s, t, v, g)
    ensures v > 0.0 && Rounds(mode, sign, v, h)
  {
    ResolvedPositive(F, m, t, s, v, g);
    Magnitudes(F, m, exp, s, v, g);
    if exp > 29 {
      OverflowCorrect(mode, sign, v);
      h := Overflow(mode, sign);
    } else if exp < -11 {
      UnderflowCorrect(mode, sign, v);
      h := Underflow(mode, sign);
    } else {
      h := Fixed2Half(mode, F, false, false, m, exp, sign, s, v, g);
    }
  }

  lemma ValueSign(h: Half)
    requires IsFinite(h)
    ensures Value(h) == 0.0 <==> IsZero(h)
    ensures Value(h) < 0.0 <==> Negative(h) && !IsZero(h)
    ensures Units(Value(h)) == Mag(Abs(h)) as real
  {
    if Abs(h) > 0 { MagMonotone(0, Abs(h)); }
  }

  /** Rounding the magnitude of r with r's sign rounds r. */
  lemma FromMagnitude(mode: RoundingMode, r: real, sign: nat, h: nat)
    requires Rounds(mode, sign, Units(r), h) && (sign == SIGN <==> r < 0.0)
    ensures RoundsTo(mode, r, h)
  {
  }

  /** What is left after subtracting the aligned smaller operand z from m, d places up: the exact difference
      unless bits were lost, and then at most one bit of cancellation. */
  lemma DifferenceResolved(m: nat, z: nat, t: int, d: nat, width: nat, a: real, b: real, v: real)
    requires v == a - b && width >= 14 && m % 2 == 0 && z % 4 == 0 && 0 < z < Pow2(width)
    requires if d == 0 then z <= m else m >= Pow2(width - 1)
    requires a == Scale(m as real, t) && b == Scale(z as real, t - d)
    ensures var w := m - Aligned(z, d, width);
            0 <= w < m && Resolved(w, false, t, v, 1) && (w == 0 <==> v == 0.0) && v >= 0.0
  {
    var y := Aligned(z, d, width);
    AlignedFar(z, d, width);
    if d <= 2 {
      AlignedNear(z, t - d, b, d, width);
      if d == 0 { assert Shr(z, 0) == z; }
      ScaleAdd((m - y) as real, y as real, t);
      ScaleSign((m - y) as real, t);
    } else {
      AlignedBrackets(z, t - d, b, d, width);
      BracketsSubtract(m, y, t, a, b);
      assert Pow2(width - 1) == 2 * Pow2(width - 2) == 4 * Pow2(width - 3);
      Pow2Monotone(12, width - 2);
      BracketsPositive(m - y, t, a - b);
    }
  }

  /** The sum, by contrast, is bracketed whatever was lost. */
  lemma SumBracketed(m: nat, z: nat, t: int, d: nat, width: nat, a: real, b: real, v: real)
    requires width >= 14 && m % 2 == 0 && 0 < z < Pow2(width) && v == a + b
    requires a == Scale(m as real, t) && b == Scale(z as real, t - d)
    ensures Brackets(m + Aligned(z, d, width), false, t, v, 1)
  {
    AlignedBrackets(z, t - d, b, d, width);
    BracketsAdd(m, Aligned(z, d, width), t, a, b);
  }

  lemma ExactWord(mode: RoundingMode, sign: nat, k: nat, v: real, h: Half)
    requires (sign == 0 || sign == SIGN) && k <= MAX_FINITE && v == Mag(k) as real && h == sign + k
    ensures Rounds(mode, sign, v, h)
  {
    assert Truncated(k, false, false, v);
    RoundedCorrect(mode, sign, k, false, false, v);
  }

  /** A finite half is its own rounding. */
  lemma ExactRounds(mode: RoundingMode, h: Half)
    requires IsFinite(h) && !IsZero(h)
    ensures RoundsTo(mode, Value(h), h)
  {
    ValueSign(h);
    ExactWord(mode, SignOf(h), Abs(h), Units(Value(h)), h);
    FromMagnitude(mode, Value(h), SignOf(h), h);
  }
}
