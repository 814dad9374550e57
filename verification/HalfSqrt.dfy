/** The bit-by-bit fixed-point square root and the square root of a half (half.hpp, sqrt<F> and sqrt). */
module HalfSqrt {
  import opened Powers
  import opened Binary16
  import opened Rounding
  import opened HalfCommon
  import opened HalfProduct

  /** m is the integer square root of n, with remainder r. */
  predicate IsIntegerRoot(n: nat, m: nat, r: nat)
  {
    n == m * m + r && r <= 2 * m
  }

  /** Before the bits below step have been decided: root holds the decided ones, and n is below (root + step)^2. */
  ghost predicate PartialRoot(n: nat, m: nat, r: nat, root: nat, step: nat)
  {
    m == root * step && n == root * root + r && r < 2 * m + step * step
  }

  lemma KeepBit(n: nat, m: nat, r: nat, root: nat, step: nat, h: nat, bit: nat)
    requires PartialRoot(n, m, r, root, step) && step == 2 * h && bit == h * h && r < m + bit
    ensures PartialRoot(n, m / 2, r, root, h)
  {
    var x := root * h;
    assert m == 2 * x;
  }

  lemma SetBit(n: nat, m: nat, r: nat, root: nat, step: nat, h: nat, bit: nat)
    requires PartialRoot(n, m, r, root, step) && step == 2 * h && bit == h * h && r >= m + bit
    ensures PartialRoot(n, m / 2 + bit, r - (m + bit), root + h, h)
  {
    var x := root * h;
    assert m == 2 * x && step * step == 4 * bit;
    assert (root + h) * h == x + bit;
    assert (root + h) * (root + h) == root * root + 2 * x + bit;
  }

  lemma SquareOfDouble(x: nat)
    ensures (2 * x) * (2 * x) == 4 * (x * x)
  {
  }

  lemma {:induction false} SquareOfPower(k: nat)
    ensures Pow2(2 * k) == Pow2(k) * Pow2(k)
  {
    if k > 0 {
      SquareOfPower(k - 1);
      assert Pow2(2 * k) == 4 * Pow2(2 * (k - 1));
      SquareOfDouble(Pow2(k - 1));
    }
  }

  /** No intermediate value leaves the 32-bit word. */
  lemma NoWrap(m: nat, root: nat, step: nat, h: nat, bit: nat, k: nat)
    requires m == root * step && step == 2 * h && bit == h * h && root + step <= k
    ensures m + bit <= k * k
  {
    ProductMonotone(root, k - step, step);
    ProductMonotone(step, k, k);
    ProductMonotone(h, step, h);
    assert (k - step) * step + step * step == k * step;
  }

  /** The radicand, shifted left by one when the exponent is odd. */
  function Radicand(r: nat, exp: int): nat
  {
    if exp % 2 == 1 then 2 * r else r
  }

  /** The bit under decision when k bits remain. */
  function TopBit(k: nat): nat
  {
    if k == 0 then 0 else Pow2(2 * (k - 1))
  }

  lemma FourTimes(n: nat)
    ensures Pow2(n + 2) == 4 * Pow2(n)
  {
    assert Pow2(n + 1) == 2 * Pow2(n);
  }

  function Quarter(bit: nat): nat { bit / 4 }

  function HalfExponent(exp: int): (h: int)
    ensures 2 * h + exp % 2 == exp
  {
    (exp - exp % 2) / 2
  }

  lemma QuarterPower(i: nat, j: nat)
    requires i == j + 2
    ensures Quarter(Pow2(i)) == Pow2(j)
  {
    FourTimes(j);
  }

  lemma QuarterBit(k: nat)
    ensures Quarter(Pow2(2 * k)) == TopBit(k)
  {
    if k == 0 {
      assert Pow2(0) == 1;
    } else {
      QuarterPower(2 * k, 2 * (k - 1));
    }
  }

  ghost predicate Shown(t: bool) { t }

  ghost predicate WithinWord(top: nat) { top * top <= 0x1_0000_0000 }

  /** The loop invariant with k bits left to decide, guarded so that its products stay out of the loop's own proof. */
  ghost predicate Digits(n: nat, m: nat, r: nat, root: nat, k: nat, top: nat)
  {
    forall t {:trigger Shown(t)} :: Shown(t) ==>
      PartialRoot(n, m, r, root, Pow2(k)) && root + Pow2(k) <= top && WithinWord(top)
  }

  lemma NoBitsLeft(n: nat, m: nat, r: nat, root: nat, k: nat, top: nat)
    requires TopBit(k) == 0 && Digits(n, m, r, root, k, top)
    ensures IsIntegerRoot(n, m, r)
  {
    assert Shown(true);
    assert Pow2(0) == 1 && m == root;
  }

  lemma InitialRoot(n: nat, F: nat, k: nat)
    requires F % 2 == 0 && F <= 30 && n < 4 * Pow2(F) && k == F / 2 + 1
    ensures Digits(n, 0, n, 0, k, Pow2(k)) && Pow2(F) == TopBit(k) && n < 0x1_0000_0000
  {
    SquareOfPower(k);
    Pow2Monotone(F, 30);
    PowerTable();
    assert Pow2(2 * k) == 4 * Pow2(F);
    assert Pow2(31) == 2 * Pow2(30);
  }

  /** One iteration: keep or set the bit. */
  method SqrtStep(ghost n: nat, m0: uint32, r0: uint32, bit: nat, ghost root0: nat, ghost k: nat, ghost top: nat)
    returns (m: uint32, r: uint32, ghost root: nat)
    requires Digits(n, m0, r0, root0, k, top) && bit == TopBit(k) && bit != 0
    ensures k > 0 && Digits(n, m, r, root, k - 1, top)
  {
    assert Shown(true);
    ghost var step: nat, h: nat := Pow2(k), Pow2(k - 1);
    SquareOfPower(k - 1);
    NoWrap(m0, root0, step, h, bit, top);
    if r0 < m0 + bit {
      KeepBit(n, m0, r0, root0, step, h, bit);
      m, r, root := m0 / 2, r0, root0;
    } else {
      SetBit(n, m0, r0, root0, step, h, bit);
      r := r0 - (m0 + bit);
      m, root := m0 / 2 + bit, root0 + h;
    }
  }

  /** half.hpp, sqrt<F>: the integer root of the radicand, and half the exponent. */
  method FixedSqrt(F: nat, r0: uint32, exp0: int) returns (m: uint32, r: uint32, exp: int)
    requires F % 2 == 0 && F <= 30 && Radicand(r0, exp0) < 4 * Pow2(F)
    ensures IsIntegerRoot(Radicand(r0, exp0), m, r) && 2 * exp + exp0 % 2 == exp0
  {
    ghost var n: nat, k: nat, root: nat := Radicand(r0, exp0), F / 2 + 1, 0;
    ghost var top: nat := Pow2(k);
    InitialRoot(n, F, k);
    r, exp, m := Radicand(r0, exp0), HalfExponent(exp0), 0;
    var bit: nat := Pow2(F);
    while bit != 0
      invariant Digits(n, m, r, root, k, top) && bit == TopBit(k)
      decreases k
    {
      m, r, root := SqrtStep(n, m, r, bit, root, k, top);
      k := k - 1;
      QuarterBit(k);
      bit := Quarter(bit);
    }
    NoBitsLeft(n, m, r, root, k, top);
  }

  /** IEEE 754-2019, section 5.4.1: squareRoot of every half. The exact root of a positive half is any positive
      real v whose square is its value. */
  ghost predicate IsRoot(mode: RoundingMode, x: Half, h: Half)
  {
    if IsNaN(x) then IsQuietNaN(h)
    else if IsZero(x) then h == x
    else if Negative(x) then IsQuietNaN(h)
    else if IsInfinite(x) then h == x
    else forall v: real :: v > 0.0 && Times(v, v) == Value(x) ==> RoundsTo(mode, v, h)
  }

  lemma SmallerSquare(x: real, y: real)
    requires 0.0 <= x < y
    ensures Times(x, x) < Times(y, y)
  {
    var d := y - x;
    assert d * d > 0.0;
    assert x * d >= 0.0;
    assert (x + d) * (x + d) == x * x + 2.0 * (x * d) + d * d;
  }

  lemma SquareOrder(x: real, y: real)
    requires x >= 0.0 && y >= 0.0
    ensures x < y <==> Times(x, x) < Times(y, y)
  {
    if x < y {
      SmallerSquare(x, y);
    } else if y < x {
      SmallerSquare(y, x);
    }
  }

  lemma SquareOfSum(a: real, b: real)
    ensures Times(a + b, a + b) == Times(a, a) + 2.0 * Times(a, b) + Times(b, b)
    ensures Times(a, 1.0) == a && Times(a, 0.5) == 0.5 * a && Times(0.5, 0.5) == 0.25 && Times(1.0, 1.0) == 1.0
  {
  }

  /** Where the real root u of m * m + r lies between m and m + 1. */
  lemma RootCut(m: nat, r: nat, n: nat, u: real)
    requires IsIntegerRoot(n, m, r) && u > 0.0 && Times(u, u) == n as real
    ensures CutOff(m, 1, r > m, r != 0, u)
  {
    var a := m as real;
    RealProduct(m, m);
    SquareOrder(u, a);
    SquareOrder(a, u);
    SquareOrder(u, a + 1.0);
    SquareOrder(u, a + 0.5);
    SquareOrder(a + 0.5, u);
    SquareOfSum(a, 1.0);
    SquareOfSum(a, 0.5);
  }

  /** The square of the root of a half, scaled to the radicand's fixed-point format. */
  lemma ScaledRoot(sig: nat, e: int, exp: int, i: int, n: nat, v: real, value: real)
    requires v > 0.0 && Times(v, v) == value && 16777216.0 * value == Scale(sig as real, e - 1)
    requires n as real == Scale(sig as real, 10 + i) && 2 * exp + i == 15 + e
    ensures var u := Scale(Units(v), 1 - exp); u > 0.0 && Times(u, u) == n as real
  {
    var w := Units(v);
    UnitsProduct(v, v);
    Rescale(sig as real, e + 23, Scale(sig as real, e - 1)) by {
      ScaleCompose(sig as real, e - 1, 24);
      ScaleTable(Scale(sig as real, e - 1));
    }
    assert Times(w, w) == Scale(sig as real, e + 23) by {
      ScaleCompose(sig as real, e - 1, 24);
      ScaleTable(Scale(sig as real, e - 1));
    }
    ScaleProduct(w, w, 1 - exp, 1 - exp);
    ScaleCompose(sig as real, e + 23, 2 - 2 * exp);
    ScaleSign(w, 1 - exp);
  }

  lemma ScaledCut(m: nat, e: nat, g: bool, s: bool, u: real, w: real)
    requires CutOff(m, 1, g, s, u) && w == Scale(u, e)
    ensures CutOff(Shl(m, e), Shl(1, e), g, s, w)
  {
    var low := if g then 2 * m + 1 else 2 * m;
    ShlReal(m, e);
    ShlReal(1, e);
    ScaleDouble(u, e);
    ScaleSucc(u, e);
    ScaleDouble(m as real, e);
    ScaleSucc(m as real, e);
    ScaleAdd(2.0 * m as real, 1.0, e);
    ScaleAdd(low as real, 1.0, e);
    ScaleOrder(low as real, 2.0 * u, e);
    ScaleOrder(2.0 * u, (low + 1) as real, e);
  }

  /** The root's word, guard and sticky bits. */
  lemma RootTruncated(m: nat, r: nat, n: nat, exp: int, w: real)
    requires IsIntegerRoot(n, m, r) && 0x400 <= m < 0x800 && 1 <= exp <= 30 && w > 0.0
    requires var u := Scale(w, 1 - exp); u > 0.0 && Times(u, u) == n as real
    ensures exp * 0x400 + m % 0x400 <= MAX_FINITE && Truncated(exp * 0x400 + m % 0x400, r > m, r != 0, w)
  {
    var u := Scale(w, 1 - exp);
    RootCut(m, r, n, u);
    Packed(exp - 1, m);
    ScaleCompose(w, 1 - exp, exp - 1);
    ScaledCut(m, exp - 1, r > m, r != 0, u, w);
    assert exp * 0x400 + m % 0x400 == (exp - 1) * 0x400 + m;
  }

  lemma RootBounds(n: nat, m: nat, r: nat)
    requires IsIntegerRoot(n, m, r) && 0x10_0000 <= n < 0x40_0000
    ensures 0x400 <= m < 0x800
  {
    if m < 0x400 { ProductMonotone(m, 0x3FF, m); }
    if m >= 0x800 { ProductMonotone(0x800, m, m); }
  }

  lemma TenPlaces(m: nat)
    ensures Shl(m, 10) == 1024 * m
  {
    assert Scale(m as real, 10) == 1024.0 * m as real;
    ShlReal(m, 10);
  }

  lemma RadicandScale(sig: nat, exp: int)
    requires 0x400 <= sig < 0x800
    ensures 0x10_0000 <= Radicand(Shl(sig, 10), exp) < 0x40_0000
    ensures Radicand(Shl(sig, 10), exp) as real == Scale(sig as real, 10 + exp % 2)
  {
    TenPlaces(sig);
    ShlReal(sig, 10);
    ScaleSucc(sig as real, 10);
  }

  lemma RootRounds(mode: RoundingMode, sig: nat, e: int, n: nat, m: nat, r: nat, exp: int, k: nat, value: real, v: real)
    requires 16777216.0 * value == Scale(sig as real, e - 1) && v > 0.0 && Times(v, v) == value
    requires n as real == Scale(sig as real, 10 + (15 + e) % 2) && 2 * exp + (15 + e) % 2 == 15 + e && 1 <= exp <= 30
    requires IsIntegerRoot(n, m, r) && 0x400 <= m < 0x800 && k == exp * 0x400 + m % 0x400
    ensures k <= MAX_FINITE && RoundsTo(mode, v, Rounded(mode, k, r > m, r != 0))
  {
    ScaledRoot(sig, e, exp, (15 + e) % 2, n, v, value);
    RootTruncated(m, r, n, exp, Units(v));
    RoundedCorrect(mode, 0, k, r > m, r != 0, Units(v));
    FromMagnitude(mode, v, 0, Rounded(mode, k, r > m, r != 0));
  }

  lemma EveryRootRounds(mode: RoundingMode, sig: nat, e: int, n: nat, m: nat, r: nat, exp: int, k: nat, value: real)
    requires 16777216.0 * value == Scale(sig as real, e - 1)
    requires n as real == Scale(sig as real, 10 + (15 + e) % 2) && 2 * exp + (15 + e) % 2 == 15 + e && 1 <= exp <= 30
    requires IsIntegerRoot(n, m, r) && 0x400 <= m < 0x800 && k == exp * 0x400 + m % 0x400
    ensures k <= MAX_FINITE
    ensures forall v: real :: v > 0.0 && Times(v, v) == value ==> RoundsTo(mode, v, Rounded(mode, k, r > m, r != 0))
  {
    forall v: real | v > 0.0 && Times(v, v) == value
      ensures RoundsTo(mode, v, Rounded(mode, k, r > m, r != 0))
    {
      RootRounds(mode, sig, e, n, m, r, exp, k, value, v);
    }
  }

  /** The digits of the root of a positive finite half, and what they round to. */
  method SqrtPositive(mode: RoundingMode, abs: nat, ghost value: real) returns (h: Half)
    requires 0 < abs <= MAX_FINITE && 16777216.0 * value == Mag(abs) as real
    ensures forall v: real :: v > 0.0 && Times(v, v) == value ==> RoundsTo(mode, v, h)
  {
    var sig, e := Normalize(abs);
    RadicandScale(sig, 15 + e);
    assert Pow2(20) == 0x10_0000 by { PowerTable(); }
    var m, r, exp := FixedSqrt(20, Shl(sig, 10), 15 + e);
    ghost var n := Radicand(Shl(sig, 10), 15 + e);
    RootBounds(n, m, r);
    var k := exp * 0x400 + m % 0x400;
    EveryRootRounds(mode, sig, e, n, m, r, exp, k, value);
    h := Rounded(mode, k, r > m, r != 0);
  }

  lemma UnitsOfPositive(x: Half)
    requires 0 < x <= MAX_FINITE
    ensures Abs(x) == x && 16777216.0 * Value(x) == Mag(x) as real
  {
  }

  method Sqrt(mode: RoundingMode, x: Half) returns (h: Half)
    ensures IsRoot(mode, x, h)
  {
    var abs := Abs(x);
    if abs == 0 || x >= 0x7C00 {
      if abs > 0x7C00 {
        return Quieted(x);
      }
      return if x > 0x8000 then INVALID else x;
    }
    ghost var value := Value(x);
    UnitsOfPositive(x);
    h := SqrtPositive(mode, abs, value);
  }
}
