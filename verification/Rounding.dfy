/** Rounding from guard and sticky bits, and the conversion from fixed point. */
module Rounding {
  import opened Powers
  import opened Binary16

  /** (m >> d) with the lost bits OR-ed into the last one. */
  function ShrSticky(m: nat, d: nat): nat
  {
    var q := Shr(m, d);
    if LowBits(m, d) && q % 2 == 0 then q + 1 else q
  }

  /** v lies in cell c of width 2^e, at its lower end exactly if atLow. */
  ghost predicate InCell(c: nat, e: int, v: real, atLow: bool)
  {
    Scale(c as real, e) <= v < Scale((c + 1) as real, e) && (v == Scale(c as real, e) <==> atLow)
  }

  /** The integer m with sticky flag s, scaled by 2^t, stands for v down to cells of 2^g steps: v lies in the
      cell of m, at its lower end exactly if no bit of m below the cell and no sticky flag is set. */
  ghost predicate Brackets(m: nat, s: bool, t: int, v: real, g: nat)
  {
    InCell(Shr(m, g), t + g, v, !LowBits(m, g) && !s)
  }

  lemma MergeCells(c: nat, e: int, v: real, atLow: bool)
    requires InCell(c, e, v, atLow)
    ensures InCell(c / 2, e + 1, v, atLow && c % 2 == 0)
  {
    var h := (c / 2) as real;
    ScaleDouble(h, e);
    ScaleDouble(h + 1.0, e);
    ScaleOrder((c + 1) as real, 2.0 * (h + 1.0), e);
    ScaleOrder(2.0 * h, c as real, e);
  }

  lemma CoarserBrackets(m: nat, s: bool, t: int, v: real, g: nat)
    requires Brackets(m, s, t, v, g)
    ensures Brackets(m, s, t, v, g + 1)
  {
    MergeCells(Shr(m, g), t + g, v, !LowBits(m, g) && !s);
    assert t + g + 1 == t + (g + 1);
  }

  lemma {:induction false} MuchCoarserBrackets(m: nat, s: bool, t: int, v: real, g: nat, g2: nat)
    requires Brackets(m, s, t, v, g) && g <= g2
    ensures Brackets(m, s, t, v, g2)
    decreases g2
  {
    if g < g2 {
      MuchCoarserBrackets(m, s, t, v, g, g2 - 1);
      CoarserBrackets(m, s, t, v, g2 - 1);
    }
  }

  /** An exact value is bracketed at every resolution. */
  lemma ExactBrackets(m: nat, t: int, v: real, g: nat)
    requires v == Scale(m as real, t)
    ensures Brackets(m, false, t, v, g)
  {
    ScaleOrder(m as real, (m + 1) as real, t);
    MuchCoarserBrackets(m, false, t, v, 0, g);
  }

  /** A left shift costs one bit of resolution. */
  lemma ShlBrackets(m: nat, s: bool, t: int, v: real, g: nat)
    requires Brackets(m, s, t, v, g)
    ensures Brackets(2 * m, s, t - 1, v, g + 1)
  {
    ShrOfShl(m, g);
    assert t - 1 + (g + 1) == t + g;
  }

  /** A sticky right shift costs none. */
  lemma StickyShift(m: nat, s: bool, t: int, v: real, d: nat)
    requires Brackets(m, s, t, v, 1)
    ensures Brackets(ShrSticky(m, d), s, t + d, v, 1)
  {
    MuchCoarserBrackets(m, s, t, v, 1, d + 1);
    var q := ShrSticky(m, d);
    assert Shr(q, 0) == q && Shr(q, 1) == q / 2;
    assert Shr(q, 1) == Shr(m, d + 1);
    assert LowBits(q, 1) <==> q % 2 == 1;
    assert t + d + 1 == t + (d + 1);
  }

  /** Guard g and sticky s say where v lies above the lower neighbour m, one place u below the next. */
  ghost predicate CutOff(m: nat, u: nat, g: bool, s: bool, v: real)
  {
    var low := if g then 2 * m + u else 2 * m;
    low as real <= 2.0 * v < (low + u) as real && (s <==> 2.0 * v != low as real)
  }

  /** Word k with guard bit g and sticky bit s is magnitude v cut off below the last place. */
  ghost predicate Truncated(k: nat, g: bool, s: bool, v: real)
  {
    CutOff(Mag(k), Ulp(k), g, s, v)
  }

  /** half.hpp, rounded: a half with its two discarded-bit flags. */
  function Rounded(mode: RoundingMode, value: Half, g: bool, s: bool): nat
  {
    match mode
    case ToNearest => if g && (s || value % 2 == 1) then value + 1 else value
    case TowardPositive => if !Negative(value) && (g || s) then value + 1 else value
    case TowardNegative => if Negative(value) && (g || s) then value + 1 else value
    case TowardZero => value
  }

  function Overflow(mode: RoundingMode, sign: nat): Half
    requires sign == 0 || sign == SIGN
  {
    match mode
    case TowardPositive => sign + 0x7C00 - sign / 0x8000
    case TowardNegative => sign + 0x7BFF + sign / 0x8000
    case TowardZero => sign + 0x7BFF
    case ToNearest => sign + 0x7C00
  }

  function Underflow(mode: RoundingMode, sign: nat): Half
    requires sign == 0 || sign == SIGN
  {
    match mode
    case TowardPositive => sign + 1 - sign / 0x8000
    case TowardNegative => sign + sign / 0x8000
    case TowardZero => sign
    case ToNearest => sign
  }

  /** The half h has the given sign, and its magnitude is the rounding of v. */
  ghost predicate Rounds(mode: RoundingMode, sign: nat, v: real, h: nat)
  {
    h < 0x1_0000 && SignOf(h) == sign && RoundsMagnitude(DirectionOf(mode, sign == SIGN), v, Abs(h))
  }

  lemma MagAround(k: nat)
    ensures Mag(k + 1) == Mag(k) + Ulp(k)
    ensures forall j: nat :: (j < k ==> Mag(j) < Mag(k)) && (j > k ==> Mag(j) >= Mag(k + 1))
  {
    MagNext(k);
    forall j: nat
      ensures (j < k ==> Mag(j) < Mag(k)) && (j > k ==> Mag(j) >= Mag(k + 1))
    {
      if j < k { MagMonotone(j, k); } else if j > k + 1 { MagMonotone(k + 1, j); }
    }
  }

  /** A significand q below 2^11, with exponent field e + 1 if normal, packs into word e * 2^10 + q. */
  lemma {:induction false} Packed(e: nat, q: nat)
    requires q < 0x800 && (e == 0 || q >= 0x400)
    ensures Mag(e * 0x400 + q) == Shl(q, e) && Ulp(e * 0x400 + q) == Shl(1, e)
  {
    if e > 0 {
      Packed(e - 1, q);
    }
  }

  lemma TopOfRange(k: nat)
    requires k <= MAX_FINITE
    ensures Mag(INFINITY) == 65536 * 16777216
    ensures k == MAX_FINITE ==> 2 * Mag(k) + Ulp(k) == 2 * 65520 * 16777216
    ensures k < MAX_FINITE ==> Mag(k + 1) <= 65504 * 16777216
  {
    Packed(29, 0x7FF);
    ShlReal(0x7FF, 29);
    ShlReal(1, 29);
    ScaleTable(2047.0);
    ScaleTable(1.0);
    MagNext(MAX_FINITE);
    if k + 1 < MAX_FINITE { MagMonotone(k + 1, MAX_FINITE); }
  }

  /** The rounding of a magnitude is one of its two neighbours; which one, each mode decides from the guard and
      sticky bits alone. */
  lemma RoundDown(k: nat, g: bool, s: bool, v: real)
    requires k <= MAX_FINITE && Truncated(k, g, s, v)
    ensures RoundsMagnitude(Down, v, k)
    ensures !g && !s ==> RoundsMagnitude(Up, v, k)
    ensures g || s ==> RoundsMagnitude(Up, v, k + 1)
  {
    MagAround(k);
  }

  /** The neighbour of v at which a nearest rounding ends up, among the finite ones. */
  lemma ClosestNeighbour(k: nat, c: nat, v: real, a: real, b: real)
    requires a == Mag(k) as real && b == Mag(k + 1) as real
    requires a <= v < b && v < 65520.0 * 16777216.0
    requires c <= MAX_FINITE
    requires if v - a < b - v then c == k else if v - a > b - v then c == k + 1 else c % 2 == 0 && k <= c <= k + 1
    ensures RoundsMagnitude(Nearest, v, c)
  {
    MagAround(k);
    forall j: nat
      ensures Distance(v, Mag(c) as real) <= Distance(v, Mag(j) as real)
      ensures j != c && Distance(v, Mag(c) as real) == Distance(v, Mag(j) as real) ==> c % 2 == 0
    {
      if j < k {
        assert Mag(j) as real < a;
      } else if j > k {
        assert Mag(j) as real >= b;
        if j > k + 1 { MagMonotone(k + 1, j); }
      }
    }
  }

  lemma OverflowThreshold(k: nat, g: bool, s: bool, v: real, m: nat, u: nat)
    requires k <= MAX_FINITE && CutOff(m, u, g, s, v)
    requires k == MAX_FINITE ==> 2 * m + u == 2 * 65520 * 16777216
    requires k < MAX_FINITE ==> m + u <= 65504 * 16777216
    ensures v >= 65520.0 * 16777216.0 <==> k == MAX_FINITE && g
  {
  }

  lemma CloserNeighbour(k: nat, g: bool, s: bool, v: real, m: nat, u: nat)
    requires u > 0 && CutOff(m, u, g, s, v)
    ensures var c, a, b := if g && (s || k % 2 == 1) then k + 1 else k, m as real, (m + u) as real;
            if v - a < b - v then c == k else if v - a > b - v then c == k + 1 else c % 2 == 0
  {
  }

  lemma RoundNearest(k: nat, g: bool, s: bool, v: real)
    requires k <= MAX_FINITE && Truncated(k, g, s, v)
    ensures RoundsMagnitude(Nearest, v, if g && (s || k % 2 == 1) then k + 1 else k)
  {
    MagNext(k);
    TopOfRange(k);
    OverflowThreshold(k, g, s, v, Mag(k), Ulp(k));
    CloserNeighbour(k, g, s, v, Mag(k), Ulp(k));
    if k < MAX_FINITE || !g {
      ClosestNeighbour(k, if g && (s || k % 2 == 1) then k + 1 else k, v, Mag(k) as real, Mag(k + 1) as real);
    }
  }

  lemma SignedWord(sign: nat, k: nat)
    requires (sign == 0 || sign == SIGN) && k < SIGN
    ensures SignOf(sign + k) == sign && Abs(sign + k) == k && (sign + k) % 2 == k % 2
  {
  }

  lemma RoundedCorrect(mode: RoundingMode, sign: nat, k: nat, g: bool, s: bool, v: real)
    requires sign == 0 || sign == SIGN
    requires k <= MAX_FINITE && Truncated(k, g, s, v)
    ensures Rounds(mode, sign, v, Rounded(mode, sign + k, g, s))
  {
    SignedWord(sign, k);
    SignedWord(sign, k + 1);
    match mode {
      case ToNearest => RoundNearest(k, g, s, v);
      case TowardZero => RoundDown(k, g, s, v);
      case TowardPositive => RoundDown(k, g, s, v);
      case TowardNegative => RoundDown(k, g, s, v);
    }
  }

  lemma UnderflowCorrect(mode: RoundingMode, sign: nat, v: real)
    requires sign == 0 || sign == SIGN
    requires 0.0 < v < 0.5
    ensures Rounds(mode, sign, v, Underflow(mode, sign))
  {
    assert Truncated(0, false, true, v);
    RoundedCorrect(mode, sign, 0, false, true, v);
  }

  lemma OverflowCorrect(mode: RoundingMode, sign: nat, v: real)
    requires sign == 0 || sign == SIGN
    requires v >= Mag(INFINITY) as real
    ensures Rounds(mode, sign, v, Overflow(mode, sign))
  {
    TopOfRange(MAX_FINITE);
    MagAround(MAX_FINITE);
  }

  /** Splitting a bracketed significand into result, guard and sticky bits loses nothing. */
  lemma Quantize(m: nat, s: bool, t: int, v: real, h: nat)
    requires h >= 1 && Brackets(m, s, t, v, h - 1) && t + h >= 0
    requires Shr(m, h) < 0x800 && (t + h == 0 || Shr(m, h) >= 0x400)
    ensures Truncated((t + h) * 0x400 + Shr(m, h), Shr(m, h - 1) % 2 == 1, s || LowBits(m, h - 1), v)
  {
    var q, g, e := Shr(m, h), Shr(m, h - 1) % 2 == 1, t + h;
    Packed(e, q);
    ShlReal(q, e);
    ShlReal(1, e);
    ScaleDouble(q as real, e - 1);
    ScaleSucc(1.0, e - 1);
    ScaleAdd(2.0 * q as real, 1.0, e - 1);
    ScaleAdd(2.0 * q as real + 1.0, 1.0, e - 1);
    ScaleSucc(q as real, e - 1);
    assert t + (h - 1) == e - 1;
  }

  /** The shape half.hpp's arithmetic leaves a result in: either exact, or bracketed with at least eleven
      significant bits above the resolution. */
  ghost predicate Resolved(m: nat, s: bool, t: int, v: real, g: nat)
  {
    (v == Scale(m as real, t) && !s) || (Brackets(m, s, t, v, g) && Pow2(g + 11) <= m)
  }

  lemma ShlResolved(m: nat, s: bool, t: int, v: real, g: nat)
    requires Resolved(m, s, t, v, g)
    ensures Resolved(2 * m, s, t - 1, v, g + 1)
  {
    if v == Scale(m as real, t) && !s {
      ScaleDouble(m as real, t - 1);
    } else {
      ShlBrackets(m, s, t, v, g);
    }
  }

  lemma ResolvedBrackets(m: nat, s: bool, t: int, v: real, g: nat, h: nat)
    requires Resolved(m, s, t, v, g) && m < Pow2(h + 12)
    ensures Brackets(m, s, t, v, h)
  {
    if v == Scale(m as real, t) && !s {
      ExactBrackets(m, t, v, h);
    } else {
      if g > h { Pow2Monotone(h + 12, g + 11); }
      MuchCoarserBrackets(m, s, t, v, g, h);
    }
  }

  /** The last step of fixed2half: round word k by the bits of m that a right shift by h drops. */
  function Place(mode: RoundingMode, m: nat, h: nat, k: nat, sign: nat, s: bool): nat
    requires h >= 1 && sign + k < 0x1_0000
  {
    Rounded(mode, sign + k, Shr(m, h - 1) % 2 == 1, s || LowBits(m, h - 1))
  }

  lemma PlacedRounds(mode: RoundingMode, m: nat, t: int, h: nat, sign: nat, s: bool, v: real, k: nat)
    requires h >= 1 && 0 <= t + h <= 29 && (sign == 0 || sign == SIGN) && Brackets(m, s, t, v, h - 1)
    requires Shr(m, h) < 0x800 && (t + h == 0 || Shr(m, h) >= 0x400) && k == (t + h) * 0x400 + Shr(m, h)
    ensures k <= MAX_FINITE
    ensures var rounds := Rounds(mode, sign, v, Place(mode, m, h, k, sign, s)); rounds
  {
    Quantize(m, s, t, v, h);
    RoundedCorrect(mode, sign, k, Shr(m, h - 1) % 2 == 1, s || LowBits(m, h - 1), v);
  }

  /** The shifts fixed2half chooses meet the requirements of PlacedRounds. */
  lemma Placed(F: nat, m: nat, exp: int, s: bool, v: real, g: nat, h: nat)
    requires 11 <= F <= 31 && -11 <= exp <= 29 && (exp == 0 || m >= Pow2(F))
    requires m < Pow2(F + 1) && Resolved(m, s, exp - F + 10, v, g)
    requires h == if exp < 0 then F - 10 - exp else F - 10
    ensures Shr(m, h) < 0x800 && (exp <= 0 || Shr(m, h) >= 0x400)
    ensures var bracketed := Brackets(m, s, exp - F + 10, v, h - 1); bracketed
  {
    PowerTable();
    ShrBounds(m, F, h);
    ResolvedBrackets(m, s, exp - F + 10, v, g, F - 11);
    MuchCoarserBrackets(m, s, exp - F + 10, v, F - 11, h - 1);
    if exp < 0 { Pow2Monotone(11 + exp, 10); }
  }

  lemma FixedRounds(mode: RoundingMode, F: nat, m: nat, exp: int, sign: nat, s: bool, v: real, g: nat, h: nat, k: nat)
    requires 11 <= F <= 31 && -11 <= exp <= 29 && (exp == 0 || m >= Pow2(F)) && (sign == 0 || sign == SIGN)
    requires m < Pow2(F + 1) && Resolved(m, s, exp - F + 10, v, g)
    requires h == (if exp < 0 then F - 10 - exp else F - 10) && k == (if exp < 0 then 0 else exp * 0x400) + Shr(m, h)
    ensures k <= MAX_FINITE && Rounds(mode, sign, v, Place(mode, m, h, k, sign, s))
  {
    Placed(F, m, exp, s, v, g, h);
    PlacedRounds(mode, m, exp - F + 10, h, sign, s, v, k);
  }

  lemma WordWidth(F: nat)
    requires F <= 31
    ensures Pow2(F + 1) == 2 * Pow2(F) <= 0x1_0000_0000
  {
    PowerTable();
    Pow2Monotone(F, 31);
  }

  /** With the template parameter S, the fixed-point word is in two's complement and carries the sign. */
  function FixedMagnitude(signed: bool, m: uint32): uint32
  {
    if signed && m >= 0x8000_0000 then 0x1_0000_0000 - m else m
  }

  function FixedSign(signed: bool, m: uint32, sign: nat): nat
  {
    if signed then if m >= 0x8000_0000 then SIGN else 0 else sign
  }

  /** The normalisation loop of fixed2half (template parameter N). */
  method NormalizeFixed(F: nat, m0: uint32, exp0: int, s: bool, ghost v: real, ghost g0: nat)
    returns (m: uint32, exp: int, ghost g: nat)
    requires F <= 31 && 0 <= exp0 <= 29 && m0 < Pow2(F + 1) && Resolved(m0, s, exp0 - F + 10, v, g0)
    ensures 0 <= exp <= 29 && m < Pow2(F + 1) && Resolved(m, s, exp - F + 10, v, g)
    ensures exp == 0 || m >= Pow2(F)
  {
    WordWidth(F);
    m, exp, g := m0, exp0, g0;
    while m < Pow2(F) && exp != 0
      invariant 0 <= exp <= 29 && m < Pow2(F + 1)
      invariant Resolved(m, s, exp - F + 10, v, g)
      decreases exp
    {
      ShlResolved(m, s, exp - F + 10, v, g);
      m, exp, g := 2 * m, exp - 1, g + 1;
    }
  }

  /** half.hpp, fixed2half: the value m * 2^(exp - F) of fixed-point format Q1.F, with biased exponent exp + 1,
      as a half. signed and normalize are the template parameters S and N. */
  method Fixed2Half(mode: RoundingMode, F: nat, signed: bool, normalize: bool, m0: uint32, exp0: int, sign0: nat,
                    s: bool, ghost v: real, ghost g0: nat)
    returns (h: Half)
    requires 11 <= F <= 31 && F - 41 <= exp0 && -11 <= exp0 <= 29 && (sign0 == 0 || sign0 == SIGN)
    requires FixedMagnitude(signed, m0) < Pow2(F + 1) && Resolved(FixedMagnitude(signed, m0), s, exp0 - F + 10, v, g0)
    requires if normalize then exp0 >= 0 else FixedMagnitude(signed, m0) >= Pow2(F)
    ensures Rounds(mode, FixedSign(signed, m0, sign0), v, h)
  {
    var sign := FixedSign(signed, m0, sign0);
    var m: uint32, exp: int := FixedMagnitude(signed, m0), exp0;
    ghost var g := g0;
    if normalize {
      m, exp, g := NormalizeFixed(F, m, exp, s, v, g);
    } else if exp < 0 {
      FixedRounds(mode, F, m, exp, sign, s, v, g, F - 10 - exp, Shr(m, F - 10 - exp));
      return Place(mode, m, F - 10 - exp, Shr(m, F - 10 - exp), sign, s);
    }
    FixedRounds(mode, F, m, exp, sign, s, v, g, F - 10, exp * 0x400 + Shr(m, F - 10));
    return Place(mode, m, F - 10, exp * 0x400 + Shr(m, F - 10), sign, s);
  }
}
