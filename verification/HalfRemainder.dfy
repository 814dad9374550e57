/** The exact remainders of halves (half.hpp, mod, fmod, remainder and remquo). */
module HalfRemainder {
  import opened Powers
  import opened Binary16
  import opened Rounding
  import opened HalfCommon

  /** Quotient and remainder are unique. */
  lemma DivisionUnique(x: nat, y: nat, q: nat, r: nat)
    requires x == q * y + r && r < y
    ensures x / y == q && x % y == r
  {
    var d, s := x / y, x % y;
    assert x == d * y + s && 0 <= s < y;
    if d < q { ProductMonotone(d + 1, q, y); }
    if q < d { ProductMonotone(q + 1, d, y); }
  }

  lemma DoubledDivision(x: nat, y: nat)
    requires y > 0
    ensures (2 * x) / (2 * y) == x / y && (2 * x) % (2 * y) == 2 * (x % y)
  {
    var q, r := x / y, x % y;
    assert x == q * y + r;
    assert 2 * x == q * (2 * y) + 2 * r;
    DivisionUnique(2 * x, 2 * y, q, 2 * r);
  }

  lemma {:induction false} ScaledDivision(x: nat, y: nat, n: nat)
    requires y > 0
    ensures Shl(y, n) > 0 && Shl(x, n) / Shl(y, n) == x / y && Shl(x, n) % Shl(y, n) == Shl(x % y, n)
  {
    if n > 0 {
      ScaledDivision(x, y, n - 1);
      DoubledDivision(Shl(x, n - 1), Shl(y, n - 1));
    }
  }

  lemma {:induction false} ShlMonotone(a: nat, b: nat, n: nat)
    ensures a < b <==> Shl(a, n) < Shl(b, n)
    ensures Shl(a, n) >= a && (a == 0 <==> Shl(a, n) == 0)
  {
    if n > 0 { ShlMonotone(a, b, n - 1); }
  }

  lemma {:induction false} ShlShift(m: nat, n: nat)
    ensures Shl(2 * m, n) == Shl(m, n + 1)
  {
    if n > 0 { ShlShift(m, n - 1); }
  }

  lemma {:induction false} ShrUndoesShl(m: nat, n: nat)
    ensures Shr(Shl(m, n), n) == m
  {
    if n > 0 {
      ShrOfShl(Shl(m, n - 1), n - 1);
      ShrUndoesShl(m, n - 1);
    }
  }

  /** The long division that mod performs: x1 is the dividend's significand, d places up, my the divisor's; w is
      what is left of the dividend at this scale, quotient * my + mx. */
  ghost predicate Dividing(x1: nat, my: nat, quotient: nat, mx: nat, d: nat)
  {
    x1 == Shl(quotient * my + mx, d) && mx < 2 * my
  }

  /** The quotient counter of the template parameter Q: 32-bit unsigned, and unused when Q is false. */
  predicate Counts(full: bool, q: nat, quotient: nat)
  {
    if full then q == quotient % 0x1_0000_0000 else q == 0
  }

  lemma Regroup(q: nat, y: nat, x: nat)
    ensures 2 * (q * y + x) == (2 * q) * y + 2 * x
    ensures x >= y ==> 2 * (q * y + x) == (2 * (q + 1)) * y + 2 * (x - y)
  {
  }

  lemma DivideStep(x1: nat, my: nat, quotient: nat, mx: nat, d: nat)
    requires Dividing(x1, my, quotient, mx, d) && d > 0
    ensures mx < my ==> Dividing(x1, my, 2 * quotient, 2 * mx, d - 1)
    ensures mx >= my ==> Dividing(x1, my, 2 * (quotient + 1), 2 * (mx - my), d - 1)
  {
    ShlShift(quotient * my + mx, d - 1);
    Regroup(quotient, my, mx);
  }

  lemma {:induction false} ShlMultiple(a: nat, m: nat, n: nat)
    ensures Shl(a * m, n) == Shl(a, n) * m
  {
    if n > 0 {
      ShlMultiple(a, m, n - 1);
      assert 2 * (Shl(a, n - 1) * m) == (2 * Shl(a, n - 1)) * m;
    }
  }

  /** When the significands meet, the division is exact. */
  lemma DivideExact(x1: nat, my: nat, quotient: nat, d: nat)
    requires Dividing(x1, my, quotient, my, d) && my > 0
    ensures x1 % my == 0
  {
    assert quotient * my + my == (quotient + 1) * my + 0;
    var n := (quotient + 1) * my;
    ShlMultiple(quotient + 1, my, d);
    DivisionUnique(x1, my, Shl(quotient + 1, d), 0);
  }

  lemma DivideDone(x1: nat, my: nat, quotient: nat, mx: nat)
    requires Dividing(x1, my, quotient, mx, 0) && my > 0
    ensures mx < my ==> x1 / my == quotient && x1 % my == mx
    ensures mx >= my ==> x1 / my == quotient + 1 && x1 % my == mx - my
  {
    if mx < my {
      DivisionUnique(x1, my, quotient, mx);
    } else {
      assert quotient * my + mx == (quotient + 1) * my + (mx - my);
      DivisionUnique(x1, my, quotient + 1, mx - my);
    }
  }

  /** The counter's two operations, ++q and q <<= 1, as the template parameter Q gates them. */
  function CountUp(full: bool, q: nat): nat { if full then (q + 1) % 0x1_0000_0000 else q }
  function CountShift(full: bool, q: nat): nat { if full then (2 * q) % 0x1_0000_0000 else q }

  lemma Euclid(x: nat, y: nat)
    requires y > 0
    ensures x == (x / y) * y + x % y && x % y < y
  {
  }

  lemma WholeWords(b: nat, c: nat, a: nat)
    requires a == b + c * 0x1_0000_0000
    ensures a % 0x1_0000_0000 == b % 0x1_0000_0000
  {
    var d, r := b / 0x1_0000_0000, b % 0x1_0000_0000;
    Euclid(b, 0x1_0000_0000);
    DivisionUnique(a, 0x1_0000_0000, d + c, r);
  }

  lemma WordModulus(n: nat, a: nat, b: nat)
    requires var q := n % 0x1_0000_0000; (a == n + 1 && b == q + 1) || (a == 2 * n && b == 2 * q)
    ensures a % 0x1_0000_0000 == b % 0x1_0000_0000
  {
    var k := n / 0x1_0000_0000;
    Euclid(n, 0x1_0000_0000);
    WholeWords(b, if a == n + 1 && b == n % 0x1_0000_0000 + 1 then k else 2 * k, a);
  }

  lemma CountsStep(full: bool, q: nat, quotient: nat)
    requires Counts(full, q, quotient)
    ensures Counts(full, CountUp(full, q), quotient + 1) && Counts(full, CountShift(full, q), 2 * quotient)
  {
    if full {
      WordModulus(quotient, quotient + 1, q + 1);
      WordModulus(quotient, 2 * quotient, 2 * q);
    }
  }

  /** One round of the subtract-and-shift loop. */
  method DivideRound(full: bool, ghost x1: nat, my: nat, mx0: nat, q0: nat, ghost quotient0: nat, ghost d: nat)
    returns (mx: nat, q: nat, ghost quotient: nat)
    requires d > 0 && Dividing(x1, my, quotient0, mx0, d) && Counts(full, q0, quotient0)
    ensures Dividing(x1, my, quotient, mx, d - 1) && Counts(full, q, quotient) && quotient % 2 == 0
  {
    mx, q, quotient := mx0, q0, quotient0;
    DivideStep(x1, my, quotient, mx, d);
    if mx >= my {
      CountsStep(full, q, quotient);
      mx, quotient, q := mx - my, quotient + 1, CountUp(full, q);
    }
    CountsStep(full, q, quotient);
    mx, quotient, q := 2 * mx, 2 * quotient, CountShift(full, q);
  }

  /** The subtract-and-shift loop of mod: quotient and remainder of Shl(mx0, d0) by my. */
  method DivideLoop(full: bool, mx0: nat, my: nat, d0: nat) returns (mx: nat, q: nat, ghost quotient: nat)
    requires 0x400 <= mx0 < 0x800 && 0x400 <= my < 0x800
    ensures mx == Shl(mx0, d0) % my
    ensures mx != 0 || full ==>
              quotient == Shl(mx0, d0) / my && (if full then q == quotient % 0x1_0000_0000 else q == quotient % 2)
  {
    ghost var x1 := Shl(mx0, d0);
    var d := d0;
    mx, q, quotient := mx0, 0, 0;
    while d != 0
      invariant d >= 0 && Dividing(x1, my, quotient, mx, d) && Counts(full, q, quotient) && quotient % 2 == 0
      decreases d
    {
      if !full && mx == my {
        DivideExact(x1, my, quotient, d);
        mx := 0;
        return;
      }
      mx, q, quotient := DivideRound(full, x1, my, mx, q, quotient, d);
      d := d - 1;
    }
    DivideDone(x1, my, quotient, mx);
    if mx >= my {
      CountsStep(full, q, quotient);
      mx, quotient, q := mx - my, quotient + 1, (q + 1) % 0x1_0000_0000;
    }
  }

  lemma Unscaled(x: nat, m: nat, b: int)
    requires Scaled(x, m, b) && b < 0
    ensures m == Shl(x, -b)
  {
    ShlReal(x, -b);
    ScaleCompose(m as real, b, -b);
  }

  /** The remainder at the divisor's scale is the remainder of the operands. */
  lemma ScaledRemainder(x: nat, y: nat, x1: nat, my: nat, b: int)
    requires Scaled(x, x1, b) && Scaled(y, my, b) && my > 0 && y > 0
    ensures x1 / my == x / y && Scaled(x % y, x1 % my, b)
  {
    if b >= 0 {
      ShlReal(x1, b);
      ShlReal(my, b);
      ScaledDivision(x1, my, b);
      ShlReal(x1 % my, b);
    } else {
      Unscaled(x, x1, b);
      Unscaled(y, my, b);
      ScaledDivision(x, y, -b);
      ShlReal(x % y, -b);
      ScaleCompose((x % y) as real, -b, b);
    }
  }

  lemma ExponentsOfNormalized(x: nat, y: nat, mx: nat, my: nat, ex: int, ey: int)
    requires Scaled(x, mx, ex - 1) && Scaled(y, my, ey - 1) && x > y
    requires 0x400 <= mx < 0x800 && 0x400 <= my < 0x800
    ensures ex >= ey && Scaled(x, Shl(mx, ex - ey), ey - 1)
  {
    if ex < ey {
      ScaleOrder(mx as real, 2.0 * my as real, ex - 1);
      ScaleDouble(my as real, ex - 1);
      GrowingScale(my as real, ey - 1, ex);
    } else {
      ShlScale(mx, ex - ey, ey - 1);
    }
  }

  lemma HalfOf(m: nat, r: nat, n: nat)
    requires m == Shl(r, n) && n >= 1
    ensures 2 * r <= m
  {
    ShlMonotone(r, r, n - 1);
  }

  /** How mod packs a nonzero remainder: no set bit is lost in the final shift. */
  method PackRemainder(m0: nat, e0: int, ghost r: nat) returns (x: nat)
    requires 0 < m0 < 0x800 && e0 <= 30 && Scaled(r, m0, e0 - 1)
    ensures x <= MAX_FINITE && Mag(x) == r
  {
    var m, e := m0, e0;
    while m < 0x400
      invariant 0 < m < 0x800 && e <= 30 && Scaled(r, m, e - 1)
      decreases 0x400 - m
    {
      ScaleDouble(m as real, e - 2);
      m, e := 2 * m, e - 1;
    }
    if e > 0 {
      Packed(e - 1, m);
      ShlReal(m, e - 1);
      assert e * 0x400 + m % 0x400 == (e - 1) * 0x400 + m;
      x := e * 0x400 + m % 0x400;
    } else {
      Unscaled(r, m, e - 1);
      ShrUndoesShl(r, 1 - e);
      ShlMonotone(0x400, r, 1 - e);
      ShlMonotone(r, 0x400, 1 - e);
      HalfOf(m, r, 1 - e);
      x := Shr(m, 1 - e);
    }
  }

  /** Whether the nearest integer to x / y, ties to even, is above the quotient. */
  predicate RoundsUp(x: nat, y: nat)
    requires y > 0
  {
    2 * (x % y) > y || (2 * (x % y) == y && (x / y) % 2 == 1)
  }

  lemma DoubledWord(x: nat)
    ensures Mag(if x < 0x400 then 2 * x else x + 0x400) == 2 * Mag(x)
  {
  }

  /** mod compares the words of 2x and y, or of x and y / 2. */
  lemma HalfwayWords(x: nat, y: nat, a: nat, b: nat)
    requires if y < 0x800 then a == (if x < 0x400 then 2 * x else x + 0x400) && b == y else a == x && b == y - 0x400
    ensures a > b <==> 2 * Mag(x) > Mag(y)
    ensures a == b <==> 2 * Mag(x) == Mag(y)
  {
    DoubledWord(x);
    if y >= 0x800 { DoubledWord(y - 0x400); }
    if a < b { MagMonotone(a, b); } else if b < a { MagMonotone(b, a); }
  }

  /** The exponents of a remainder at least half the divisor differ by at most one. */
  lemma NearExponents(x: nat, y: nat)
    requires x < y <= MAX_FINITE && 2 * Mag(x) >= Mag(y)
    ensures ExpField(x) <= ExpField(y) <= ExpField(x) + 1
  {
    if ExpField(y) >= ExpField(x) + 2 {
      DoubledWord(x);
      MagMonotone(if x < 0x400 then 2 * x else x + 0x400, y);
    }
  }

  lemma ComplementStart(x: nat, y: nat, d: int)
    requires x < y <= MAX_FINITE && Mag(x) < Mag(y) <= 2 * Mag(x) && 0 <= d <= 1 && d == ExpField(y) - ExpField(x)
    ensures var m := 2 * Significand(y) - Shl(Significand(x), 1 - d);
            && m > 0 && m < 0x800 && (d == 0 ==> m % 2 == 0) && (d == 1 ==> ExpField(y) > 1)
            && Scaled(Mag(y) - Mag(x), m, ExpField(y) - 2)
  {
    var e: int := ExpField(y) - 2;
    var sy, sx := 2 * Significand(y), Shl(Significand(x), 1 - d);
    MagByFields(x);
    MagByFields(y);
    ScaleDouble(Significand(y) as real, e);
    ScaleDouble(Significand(x) as real, e);
    assert Shl(Significand(x), 0) == Significand(x);
    assert Mag(y) as real == Scale(sy as real, e) && Mag(x) as real == Scale(sx as real, e);
    ScaleOrder(sx as real, sy as real, e);
    ScaleAdd((sy - sx) as real, sx as real, e);
    ScaleDouble(sx as real, e);
    ScaleSucc(sx as real, e);
    ScaleOrder(sy as real, 2.0 * sx as real, e);
  }

  /** The signed case of mod: y - x, for a remainder x of at least half of y, with the sign bit set. */
  method Complement(x: nat, y: nat) returns (w: nat)
    requires x < y <= MAX_FINITE && Mag(x) < Mag(y) <= 2 * Mag(x)
    ensures w >= 0x8000 && Mag(w - 0x8000) == Mag(y) - Mag(x)
  {
    NearExponents(x, y);
    var exp: int := ExpField(y);
    var d: int := exp - ExpField(x);
    ComplementStart(x, y, d);
    var m: nat := 2 * Significand(y) - Shl(Significand(x), 1 - d);
    ghost var r: nat := Mag(y) - Mag(x);
    while m < 0x800 && exp > 1
      invariant 1 <= exp <= 30 && m < 0x1000 && Scaled(r, m, exp - 2) && (m % 2 == 0 || (m < 0x800 && exp > 1))
      decreases exp
    {
      ScaleDouble(m as real, exp - 3);
      m, exp := 2 * m, exp - 1;
    }
    ScaleDouble((m / 2) as real, exp - 2);
    Packed(exp - 1, m / 2);
    ShlReal(m / 2, exp - 1);
    w := 0x8000 + (exp - 1) * 0x400 + m / 2;
  }

  lemma RegroupMultiples(k: nat, a: nat, j: nat, n: nat, m: nat)
    requires m == a * n
    ensures k * m + j * n == (k * a + j) * n
  {
    assert k * (a * n) == (k * a) * n;
  }

  lemma NestedModulus(x: nat, m: nat, a: nat, n: nat)
    requires n > 0 && m > 0 && m == a * n
    ensures (x % m) % n == x % n
  {
    var k, r := x / m, x % m;
    Euclid(x, m);
    Euclid(r, n);
    RegroupMultiples(k, a, r / n, n, m);
    DivisionUnique(x, n, k * a + r / n, r % n);
  }

  lemma Masked(q: nat, quotient: nat)
    ensures q == quotient % 0x1_0000_0000 ==> q % 0x4000_0000 == quotient % 0x4000_0000
    ensures (quotient % 0x4000_0000) % 2 == quotient % 2
  {
    NestedModulus(quotient, 0x4000_0000, 0x2000_0000, 2);
    NestedModulus(quotient, 0x1_0000_0000, 4, 0x4000_0000);
  }

  /** The quotient and remainder of mod, before the sign of a nearest remainder is decided. */
  method Reduce(full: bool, x0: nat, y: nat) returns (x: nat, q: nat)
    requires 0 < y < x0 <= MAX_FINITE && Mag(y) > 0
    ensures x <= MAX_FINITE && Mag(x) == Mag(x0) % Mag(y)
    ensures full || x != 0 ==> q % 2 == (Mag(x0) / Mag(y)) % 2
    ensures full ==> q == (Mag(x0) / Mag(y)) % 0x4000_0000
  {
    MagMonotone(y, x0);
    var mx, ex := Normalize(x0);
    var my, ey := Normalize(y);
    ExponentsOfNormalized(Mag(x0), Mag(y), mx, my, ex, ey);
    ScaledRemainder(Mag(x0), Mag(y), Shl(mx, ex - ey), my, ey - 1);
    ghost var quotient: nat;
    mx, q, quotient := DivideLoop(full, mx, my, ex - ey);
    Masked(q, quotient);
    if full {
      q := q % 0x4000_0000;
    }
    if mx == 0 {
      ScaleSign(0.0, ey - 1);
      return 0, q;
    }
    x := PackRemainder(mx, ey, Mag(x0) % Mag(y));
  }

  lemma WordBelow(x: nat, y: nat)
    requires Mag(x) < Mag(y)
    ensures x < y
  {
    if y < x { MagMonotone(y, x); }
  }

  /** half.hpp, mod<Q, R>: full is Q, signed is R. */
  method Mod(full: bool, signed: bool, x0: nat, y: nat) returns (x: nat, quo: nat)
    requires 0 < y <= MAX_FINITE && x0 <= MAX_FINITE && x0 != y
    ensures Mag(y) > 0
    ensures if signed && RoundsUp(Mag(x0), Mag(y)) then x >= 0x8000 && Mag(x - 0x8000) == Mag(y) - Mag(x0) % Mag(y)
            else x <= MAX_FINITE && Mag(x) == Mag(x0) % Mag(y)
    ensures full ==> quo == (Mag(x0) / Mag(y)) % 0x4000_0000 + if signed && RoundsUp(Mag(x0), Mag(y)) then 1 else 0
  {
    MagMonotone(0, y);
    x, quo := x0, 0;
    if x0 > y {
      x, quo := Reduce(full, x0, y);
    } else {
      MagMonotone(x0, y);
      DivisionUnique(Mag(x0), Mag(y), 0, Mag(x0));
    }
    WordBelow(x, y);
    if signed {
      var a := if y < 0x800 then (if x < 0x400 then 2 * x else x + 0x400) else x;
      var b := if y < 0x800 then y else y - 0x400;
      HalfwayWords(x, y, a, b);
      if a > b || (a == b && quo % 2 == 1) {
        x := Complement(x, y);
        quo := if full then quo + 1 else quo;
      }
    }
  }

  /** The integer nearest to x / y, the even one of two. */
  function NearestQuotient(x: nat, y: nat): nat
    requires y > 0
  {
    if RoundsUp(x, y) then x / y + 1 else x / y
  }

  lemma NextMultiple(a: nat, y: nat)
    ensures (a + 1) * y == a * y + y
  {
  }

  function Gap(a: int, b: int): nat { if a < b then b - a else a - b }

  lemma NearestQuotientIsNearest(x: nat, y: nat, n: nat)
    requires y > 0
    ensures var q := NearestQuotient(x, y);
            2 * Gap(x, q * y) <= y && (2 * Gap(x, q * y) == y ==> q % 2 == 0)
            && (n != q ==> Gap(x, n * y) >= Gap(x, q * y))
  {
    var d, q := x / y, NearestQuotient(x, y);
    Euclid(x, y);
    NextMultiple(d, y);
    if n < q {
      NextMultiple(n, y);
      ProductMonotone(n + 1, q, y);
    } else if n > q {
      NextMultiple(q, y);
      ProductMonotone(q + 1, n, y);
    }
  }

  function Signed(m: int, negative: bool): int { if negative then -m else m }

  /** The signed magnitude of a finite half, in units of 2^-24. */
  function Fixed(h: Half): int
  {
    Signed(Mag(Abs(h)), Negative(h))
  }

  lemma FixedValue(h: Half)
    requires IsFinite(h)
    ensures Value(h) == Fixed(h) as real / 16777216.0
  {
  }

  /** The exact remainder x - N y, where the integer N has magnitude n and the sign of x / y; a zero result has the
      sign of x (IEEE 754-2019, section 5.3.1). */
  ghost predicate IsExactRemainder(x: Half, y: Half, n: nat, h: Half)
  {
    && IsFinite(h)
    && Fixed(h) == Fixed(x) - Signed(n, Negative(x) != Negative(y)) * Fixed(y)
    && (IsZero(h) ==> Negative(h) == Negative(x))
  }

  lemma UnitsOfDifference(a: int, n: int, b: int)
    ensures (a - n * b) as real / 16777216.0 == a as real / 16777216.0 - Times(n as real, b as real / 16777216.0)
  {
  }

  /** In values: exactly x - N y. */
  lemma RemainderValue(x: Half, y: Half, n: nat, h: Half)
    requires IsFinite(x) && IsFinite(y) && IsExactRemainder(x, y, n, h)
    ensures Value(h) == Value(x) - Times(Signed(n, Negative(x) != Negative(y)) as real, Value(y))
  {
    FixedValue(x);
    FixedValue(y);
    FixedValue(h);
    UnitsOfDifference(Fixed(x), Signed(n, Negative(x) != Negative(y)), Fixed(y));
  }

  /** What fmod and remainder return for a multiple count n; the exceptional cases are the same. */
  ghost predicate IsRemainder(x: Half, y: Half, n: nat, h: Half)
  {
    if IsNaN(x) || IsNaN(y) || IsInfinite(x) || IsZero(y) then IsQuietNaN(h)
    else if IsInfinite(y) then h == x
    else IsExactRemainder(x, y, n, h)
  }

  function Multiple(n: int, m: int): int { n * m }

  lemma SignedMultiple(n: int, m: int)
    ensures (-n) * m == -(n * m) && n * (-m) == -(n * m) && (-n) * (-m) == n * m
  {
  }

  lemma RemainderOfMagnitudes(x: Half, y: Half, n: nat, h: Half, r: int)
    requires IsFinite(h) && r == Mag(Abs(x)) - Multiple(n, Mag(Abs(y))) && Mag(Abs(h)) == Gap(r, 0)
    requires Negative(h) == if r < 0 then !Negative(x) else Negative(x)
    ensures IsExactRemainder(x, y, n, h)
  {
    SignedMultiple(n, Mag(Abs(y)));
    if Abs(h) > 0 { MagMonotone(0, Abs(h)); }
  }

  ghost function MultipleCount(nearest: bool, x: Half, y: Half): nat
  {
    var u, v := Mag(Abs(x)), Mag(Abs(y));
    if v == 0 then 0 else if nearest then NearestQuotient(u, v) else u / v
  }

  lemma CountedRemainder(x: nat, y: nat, n: nat)
    requires y > 0
    ensures n == x / y ==> x - Multiple(n, y) == x % y
    ensures n == x / y + 1 ==> x - Multiple(n, y) == x % y - y
  {
    Euclid(x, y);
    NextMultiple(x / y, y);
  }

  lemma TruncatedFromMod(x: Half, y: Half, r: nat, h: Half, u: nat, v: nat)
    requires IsFinite(x) && IsFinite(y) && u == Mag(Abs(x)) && v == Mag(Abs(y)) && v > 0
    requires r <= MAX_FINITE && Mag(r) == u % v && h == SignOf(x) + r
    ensures IsExactRemainder(x, y, MultipleCount(false, x, y), h)
  {
    SignedWord(SignOf(x), r);
    CountedRemainder(u, v, MultipleCount(false, x, y));
    RemainderOfMagnitudes(x, y, MultipleCount(false, x, y), h, Mag(r));
  }

  /** half.hpp, fmod, for unequal finite nonzero magnitudes. */
  method FmodFinite(x: Half, y: Half) returns (h: Half)
    requires IsFinite(x) && IsFinite(y) && !IsZero(y) && Abs(x) != Abs(y)
    ensures IsExactRemainder(x, y, MultipleCount(false, x, y), h)
  {
    var r, _ := Mod(false, false, Abs(x), Abs(y));
    h := SignOf(x) + r;
    TruncatedFromMod(x, y, r, h, Mag(Abs(x)), Mag(Abs(y)));
  }

  /** Equal magnitudes leave a zero with the sign of x, and so does a zero x. */
  lemma EasyRemainders(nearest: bool, x: Half, y: Half)
    requires IsFinite(x) && IsFinite(y) && !IsZero(y)
    ensures Abs(x) == Abs(y) ==>
              IsExactRemainder(x, y, MultipleCount(nearest, x, y), SignOf(x)) && MultipleCount(nearest, x, y) == 1
    ensures IsZero(x) ==> IsExactRemainder(x, y, MultipleCount(nearest, x, y), x)
  {
    var v := Mag(Abs(y));
    MagMonotone(0, Abs(y));
    if Abs(x) == Abs(y) {
      DivisionUnique(v, v, 1, 0);
      SignedWord(SignOf(x), 0);
      assert Multiple(1, v) == v;
      RemainderOfMagnitudes(x, y, 1, SignOf(x), 0);
    }
    if IsZero(x) {
      DivisionUnique(0, v, 0, 0);
      assert Multiple(0, v) == 0;
      RemainderOfMagnitudes(x, y, 0, x, 0);
    }
  }

  method Fmod(x: Half, y: Half) returns (h: Half)
    ensures IsRemainder(x, y, MultipleCount(false, x, y), h)
  {
    var absx, absy, sign := Abs(x), Abs(y), SignOf(x);
    if absx >= 0x7C00 || absy >= 0x7C00 {
      if absx > 0x7C00 || absy > 0x7C00 {
        return Signal(x, y);
      }
      return if absx == 0x7C00 then INVALID else x;
    }
    if absy == 0 {
      return INVALID;
    }
    EasyRemainders(false, x, y);
    if absx == 0 {
      return x;
    }
    if absx == absy {
      return sign;
    }
    h := FmodFinite(x, y);
  }

  /** sign ^ w, for a sign bit and a word that may carry one. */
  function ToggleSign(sign: nat, w: Half): Half
    requires sign == 0 || sign == SIGN
  {
    if sign == 0 then w else if Negative(w) then w - SIGN else w + SIGN
  }

  lemma FiniteBelow(w: nat, k: nat)
    requires k <= MAX_FINITE && Mag(w) <= Mag(k)
    ensures w <= MAX_FINITE
  {
    if w > MAX_FINITE { MagMonotone(k, w); }
  }

  /** A sign bit in mod's result reverses the sign of x. */
  lemma Toggled(x: Half, w: Half, k: nat, h: Half)
    requires k <= MAX_FINITE && w == 0x8000 + k && h == ToggleSign(SignOf(x), w)
    ensures IsFinite(h) && Abs(h) == k && Negative(h) == !Negative(x)
  {
  }

  /** n multiples of v are rem more than u. */
  lemma NearestAbove(x: Half, y: Half, w: Half, h: Half, u: nat, v: nat, n: nat, rem: int)
    requires IsFinite(x) && IsFinite(y) && u == Mag(Abs(x)) && v == Mag(Abs(y)) && h == ToggleSign(SignOf(x), w)
    requires u - Multiple(n, v) == -rem && 0 < rem <= v && w >= 0x8000 && Mag(w - 0x8000) == rem
    ensures IsExactRemainder(x, y, n, h)
  {
    FiniteBelow(w - 0x8000, Abs(y));
    Toggled(x, w, w - 0x8000, h);
    RemainderOfMagnitudes(x, y, n, h, -rem);
  }

  lemma NearestResult(x: Half, y: Half, w: Half, h: Half, u: nat, v: nat, n: nat, rem: nat, up: bool)
    requires IsFinite(x) && IsFinite(y) && u == Mag(Abs(x)) && v == Mag(Abs(y)) && h == ToggleSign(SignOf(x), w)
    requires rem < v && u - Multiple(n, v) == if up then rem - v else rem
    requires if up then w >= 0x8000 && Mag(w - 0x8000) == v - rem else w <= MAX_FINITE && Mag(w) == rem
    ensures IsExactRemainder(x, y, n, h)
  {
    if up {
      NearestAbove(x, y, w, h, u, v, n, v - rem);
    } else {
      SignedWord(SignOf(x), w);
      RemainderOfMagnitudes(x, y, n, h, rem);
    }
  }

  lemma NearestCount(u: nat, v: nat)
    requires v > 0
    ensures u - Multiple(NearestQuotient(u, v), v) == if RoundsUp(u, v) then u % v - v else u % v
    ensures u % v < v
  {
    CountedRemainder(u, v, NearestQuotient(u, v));
    Euclid(u, v);
  }

  /** What mod's signed result means: u % v under x's sign, or u % v - v where the quotient rounds up. */
  lemma NearestFromMod(x: Half, y: Half, w: Half, h: Half, u: nat, v: nat)
    requires IsFinite(x) && IsFinite(y) && u == Mag(Abs(x)) && v == Mag(Abs(y)) && v > 0
             && h == ToggleSign(SignOf(x), w)
    requires if RoundsUp(u, v) then w >= 0x8000 && Mag(w - 0x8000) == v - u % v else w <= MAX_FINITE && Mag(w) == u % v
    ensures IsExactRemainder(x, y, MultipleCount(true, x, y), h)
  {
    NearestCount(u, v);
    NearestResult(x, y, w, h, u, v, NearestQuotient(u, v), u % v, RoundsUp(u, v));
  }

  lemma CountModulus(n: nat)
    ensures (n % 0x4000_0000 + 1) % 0x4000_0000 == (n + 1) % 0x4000_0000
    ensures n % 0x4000_0000 % 0x4000_0000 == n % 0x4000_0000
  {
    var k, r := n / 0x4000_0000, n % 0x4000_0000;
    assert n + 1 == k * 0x4000_0000 + (r + 1);
  }

  /** half.hpp, remainder and remquo, for unequal finite magnitudes; full is mod's template parameter Q. */
  method NearestFinite(full: bool, x: Half, y: Half) returns (h: Half, q: nat)
    requires IsFinite(x) && IsFinite(y) && !IsZero(y) && Abs(x) != Abs(y)
    ensures IsExactRemainder(x, y, MultipleCount(true, x, y), h)
    ensures full ==> q <= 0x4000_0000 && q % 0x4000_0000 == MultipleCount(true, x, y) % 0x4000_0000
  {
    ghost var u: nat, v: nat := Mag(Abs(x)), Mag(Abs(y));
    var w;
    w, q := Mod(full, true, Abs(x), Abs(y));
    if RoundsUp(u, v) { FiniteBelow(w - 0x8000, Abs(y)); }
    h := ToggleSign(SignOf(x), w);
    NearestFromMod(x, y, w, h, u, v);
    CountModulus(u / v);
  }

  method Remainder(x: Half, y: Half) returns (h: Half)
    ensures IsRemainder(x, y, MultipleCount(true, x, y), h)
  {
    var absx, absy, sign := Abs(x), Abs(y), SignOf(x);
    if absx >= 0x7C00 || absy >= 0x7C00 {
      if absx > 0x7C00 || absy > 0x7C00 {
        return Signal(x, y);
      }
      return if absx == 0x7C00 then INVALID else x;
    }
    if absy == 0 {
      return INVALID;
    }
    if absx == absy {
      EasyRemainders(true, x, y);
      return sign;
    }
    var q;
    h, q := NearestFinite(false, x, y);
  }

  /** The stored count agrees with n, under the sign of x / y, in its low thirty bits. */
  predicate StoresCount(quo: int, n: nat, negative: bool)
  {
    var c := if negative then -quo else quo;
    0 <= c <= 0x4000_0000 && c % 0x4000_0000 == n % 0x4000_0000
  }

  /** half.hpp, remquo: the nearest remainder, and the low bits of the count of multiples. When the remainder is a
      NaN the original leaves the count alone; the model returns 0. */
  method Remquo(x: Half, y: Half) returns (h: Half, quo: int)
    ensures IsRemainder(x, y, MultipleCount(true, x, y), h)
    ensures IsFinite(x) && IsFinite(y) && !IsZero(y) ==>
              StoresCount(quo, MultipleCount(true, x, y), Negative(x) != Negative(y))
    ensures IsFinite(x) && IsInfinite(y) ==> quo == 0
  {
    var absx, absy, value := Abs(x), Abs(y), SignOf(x);
    if absx >= 0x7C00 || absy >= 0x7C00 {
      if absx > 0x7C00 || absy > 0x7C00 {
        return Signal(x, y), 0;
      }
      return if absx == 0x7C00 then INVALID else x, 0;
    }
    if absy == 0 {
      return INVALID, 0;
    }
    var q: nat := 1;
    if absx != absy {
      h, q := NearestFinite(true, x, y);
    } else {
      EasyRemainders(true, x, y);
      h := value;
    }
    quo := Signed(q, Negative(x) != Negative(y));
  }
}
