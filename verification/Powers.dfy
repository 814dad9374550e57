/** Shifts, as the program uses them on its words, and scaling of real numbers by powers of two. */
module Powers {

  function Pow2(n: nat): (p: nat)
    ensures p > 0
  {
    if n == 0 then 1 else 2 * Pow2(n - 1)
  }

  /** Products of naturals grow with their factors. */
  lemma ProductMonotone(a: nat, b: nat, c: nat)
    requires a <= b
    ensures a * c <= b * c
  {
  }

  /** m << n, m >> n, and whether some bit of m below bit n is set. */
  function Shl(m: nat, n: nat): nat
    decreases n
  {
    if n == 0 then m else 2 * Shl(m, n - 1)
  }

  function Shr(m: nat, n: nat): nat
    decreases n
  {
    if n == 0 then m else Shr(m, n - 1) / 2
  }

  predicate LowBits(m: nat, n: nat)
    decreases n
  {
    n > 0 && (LowBits(m, n - 1) || Shr(m, n - 1) % 2 == 1)
  }

  /** x * 2^j for any integer j. */
  ghost function Scale(x: real, j: int): real
    decreases if j < 0 then -j else j
  {
    if j == 0 then x else if j > 0 then 2.0 * Scale(x, j - 1) else Scale(x, j + 1) / 2.0
  }

  /** Exact product and quotient of real numbers. */
  ghost function Times(x: real, y: real): real { x * y }

  ghost function Ratio(x: real, y: real): real
    requires y != 0.0
  {
    x / y
  }

  lemma RatioTimes(x: real, y: real)
    requires y != 0.0
    ensures Times(Ratio(x, y), y) == x
  {
  }

  lemma ScaleSucc(x: real, j: int)
    ensures Scale(x, j + 1) == 2.0 * Scale(x, j)
  {
  }

  lemma {:induction false} ScaleAdd(x: real, y: real, j: int)
    ensures Scale(x + y, j) == Scale(x, j) + Scale(y, j)
    decreases if j < 0 then -j else j
  {
    if j > 0 { ScaleAdd(x, y, j - 1); } else if j < 0 { ScaleAdd(x, y, j + 1); }
  }

  lemma {:induction false} ScaleDouble(x: real, j: int)
    ensures Scale(2.0 * x, j) == Scale(x, j + 1)
    decreases if j < 0 then -j else j
  {
    ScaleSucc(x, j);
    if j > 0 { ScaleDouble(x, j - 1); } else if j < 0 { ScaleDouble(x, j + 1); }
  }

  lemma {:induction false} ScaleSign(x: real, j: int)
    ensures x > 0.0 <==> Scale(x, j) > 0.0
    ensures x == 0.0 <==> Scale(x, j) == 0.0
    decreases if j < 0 then -j else j
  {
    if j > 0 { ScaleSign(x, j - 1); } else if j < 0 { ScaleSign(x, j + 1); }
  }

  lemma ScaleOrder(x: real, y: real, j: int)
    ensures x < y <==> Scale(x, j) < Scale(y, j)
    ensures x == y <==> Scale(x, j) == Scale(y, j)
  {
    ScaleAdd(x, y - x, j);
    ScaleSign(y - x, j);
  }

  lemma {:induction false} ScaleCompose(x: real, i: int, j: int)
    ensures Scale(Scale(x, i), j) == Scale(x, i + j)
    decreases if j < 0 then -j else j
  {
    if j > 0 {
      ScaleCompose(x, i, j - 1);
      ScaleSucc(x, i + j - 1);
    } else if j < 0 {
      ScaleCompose(x, i, j + 1);
      ScaleSucc(x, i + j);
    }
  }

  lemma DoubleFactor(x: real, y: real)
    ensures Times(2.0 * x, y) == 2.0 * Times(x, y)
  {
  }

  /** Scaling one factor scales the product. */
  lemma {:induction false} ScaleFactor(x: real, y: real, j: int)
    ensures Times(Scale(x, j), y) == Scale(Times(x, y), j)
    decreases if j < 0 then -j else j
  {
    if j > 0 {
      ScaleFactor(x, y, j - 1);
      DoubleFactor(Scale(x, j - 1), y);
    } else if j < 0 {
      ScaleFactor(x, y, j + 1);
      DoubleFactor(Scale(x, j), y);
    }
  }

  lemma Commutes(x: real, y: real)
    ensures Times(x, y) == Times(y, x)
  {
  }

  lemma ScaleProduct(x: real, y: real, i: int, j: int)
    ensures Times(Scale(x, i), Scale(y, j)) == Scale(Times(x, y), i + j)
  {
    ScaleFactor(x, Scale(y, j), i);
    Commutes(x, Scale(y, j));
    ScaleFactor(y, x, j);
    Commutes(x, y);
    ScaleCompose(Times(x, y), j, i);
  }

  lemma {:induction false} Pow2Monotone(a: nat, b: nat)
    requires a <= b
    ensures Pow2(a) <= Pow2(b)
    decreases b
  {
    if a < b {
      Pow2Monotone(a, b - 1);
    }
  }

  lemma {:induction false} ShlReal(m: nat, n: nat)
    ensures Shl(m, n) as real == Scale(m as real, n)
  {
    if n > 0 { ShlReal(m, n - 1); }
  }

  lemma ShlScale(m: nat, n: nat, t: int)
    ensures Scale(Shl(m, n) as real, t) == Scale(m as real, t + n)
  {
    ShlReal(m, n);
    ScaleCompose(m as real, n, t);
  }

  lemma {:induction false} ShrOfShl(m: nat, n: nat)
    ensures Shr(2 * m, n + 1) == Shr(m, n)
    ensures LowBits(2 * m, n + 1) == LowBits(m, n)
  {
    if n > 0 { ShrOfShl(m, n - 1); }
  }

  lemma {:induction false} ShrBounds(m: nat, f: nat, n: nat)
    requires m < Pow2(f + 1) && n <= f + 1
    ensures Shr(m, n) < Pow2(f + 1 - n)
    ensures n <= f && Pow2(f) <= m ==> Pow2(f - n) <= Shr(m, n)
  {
    if n > 0 { ShrBounds(m, f, n - 1); }
  }

  /** The powers that occur as masks and bounds. */
  lemma PowerTable()
    ensures Pow2(1) == 2 && Pow2(2) == 4 && Pow2(3) == 8 && Pow2(4) == 16 && Pow2(9) == 0x200
    ensures Pow2(10) == 0x400 && Pow2(11) == 0x800 && Pow2(12) == 0x1000 && Pow2(13) == 0x2000 && Pow2(14) == 0x4000
    ensures Pow2(20) == 0x10_0000 && Pow2(21) == 0x20_0000 && Pow2(22) == 0x40_0000
    ensures Pow2(23) == 0x80_0000 && Pow2(24) == 0x100_0000 && Pow2(29) == 0x2000_0000 && Pow2(31) == 0x8000_0000
  {
    assert Pow2(4) == 16;
    assert Pow2(8) == 0x100;
    assert Pow2(12) == 0x1000;
    assert Pow2(16) == 0x1_0000;
    assert Pow2(20) == 0x10_0000;
    assert Pow2(24) == 0x100_0000;
    assert Pow2(28) == 0x1000_0000;
  }

  /** Scaling by the constants that occur as units and thresholds. */
  lemma ScaleTable(x: real)
    ensures Scale(x, 24) == 16777216.0 * x && Scale(x, -24) == x / 16777216.0
    ensures Scale(x, 29) == 536870912.0 * x && Scale(x, -13) == x / 8192.0
  {
    assert Scale(x, 8) == 256.0 * x;
    assert Scale(x, 16) == 65536.0 * x;
    assert Scale(x, 24) == 16777216.0 * x;
    assert Scale(x, -8) == x / 256.0;
    assert Scale(x, -16) == x / 65536.0;
  }
}
