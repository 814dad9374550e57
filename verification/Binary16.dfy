/** The binary16 interchange format, and correct rounding of exact real values into it. */
module Binary16 {
  import opened Powers

  // A half is the 16-bit word the program stores. Magnitudes are measured in units of 2^-24, the smallest subnormal,
  // so the magnitude of every finite half is a natural number.

  const MAX_FINITE: nat := 0x7BFF
  const INFINITY: nat := 0x7C00
  const SIGN: nat := 0x8000

  type Half = h: nat | h < 0x1_0000
  type uint32 = n: int | 0 <= n < 0x1_0000_0000

  datatype RoundingMode = ToNearest | TowardZero | TowardPositive | TowardNegative

  /** The way a rounding mode moves a magnitude. */
  datatype Direction = Nearest | Down | Up

  function Abs(h: Half): (k: nat)
    ensures k < SIGN
  {
    h % 0x8000
  }

  predicate Negative(h: Half) { h >= SIGN }

  function SignOf(h: Half): (s: nat)
    ensures s == 0 || s == SIGN
  {
    if Negative(h) then SIGN else 0
  }

  predicate IsNaN(h: Half) { Abs(h) > INFINITY }
  predicate IsInfinite(h: Half) { Abs(h) == INFINITY }
  predicate IsFinite(h: Half) { Abs(h) <= MAX_FINITE }
  predicate IsZero(h: Half) { Abs(h) == 0 }

  /** A NaN whose quiet bit is set. */
  predicate IsQuietNaN(h: Half) { IsNaN(h) && (h / 0x200) % 2 == 1 }

  /** The magnitude with word k: words below 2^11 are their own magnitude, and raising the exponent field by one
      doubles. At k == INFINITY it is 2^16, the value that takes infinity's place when overflow is decided
      (IEEE 754-2019, section 4.3.1). */
  function Mag(k: nat): nat
  {
    if k < 0x800 then k else 2 * Mag(k - 0x400)
  }

  /** The distance from magnitude k to the next one. */
  function Ulp(k: nat): (u: nat)
    ensures u > 0
  {
    if k < 0x800 then 1 else 2 * Ulp(k - 0x400)
  }

  /** The value of a finite half; the unit of its magnitude is 2^-24 = 1 / 16777216. */
  ghost function Value(h: Half): real
    requires IsFinite(h)
  {
    if Negative(h) then -(Mag(Abs(h)) as real / 16777216.0) else Mag(Abs(h)) as real / 16777216.0
  }

  function DirectionOf(mode: RoundingMode, negative: bool): Direction
  {
    match mode
    case ToNearest => Nearest
    case TowardZero => Down
    case TowardPositive => if negative then Down else Up
    case TowardNegative => if negative then Up else Down
  }

  ghost function Distance(a: real, b: real): real
  {
    if a < b then b - a else a - b
  }

  /** The magnitude of r in units of 2^-24. */
  ghost function Units(r: real): real
  {
    if r < 0.0 then -16777216.0 * r else 16777216.0 * r
  }

  /** Word k is the rounding of magnitude v (in units of 2^-24):
      - Down: the greatest finite magnitude not above v;
      - Up: the least magnitude not below v, infinity if no finite one is;
      - Nearest: infinity from half-way between the greatest finite magnitude and 2^16 on (65520), and
        otherwise the closest finite magnitude, the even one of two that are equally close. */
  ghost predicate RoundsMagnitude(dir: Direction, v: real, k: nat)
  {
    match dir
    case Down =>
      && k <= MAX_FINITE && Mag(k) as real <= v
      && forall j: nat :: j <= MAX_FINITE && Mag(j) as real <= v ==> Mag(j) <= Mag(k)
    case Up =>
      && k <= INFINITY && (k == INFINITY || v <= Mag(k) as real)
      && forall j: nat :: j <= MAX_FINITE && v <= Mag(j) as real ==> k <= MAX_FINITE && Mag(k) <= Mag(j)
    case Nearest =>
      if v >= 65520.0 * 16777216.0 then k == INFINITY else
        && k <= MAX_FINITE
        && (forall j: nat :: j <= MAX_FINITE ==> Distance(v, Mag(k) as real) <= Distance(v, Mag(j) as real))
        && (forall j: nat :: j <= MAX_FINITE && j != k && Distance(v, Mag(k) as real) == Distance(v, Mag(j) as real)
                             ==> k % 2 == 0)
  }

  /** Half h is the correctly rounded value of the nonzero real r. */
  ghost predicate RoundsTo(mode: RoundingMode, r: real, h: Half)
  {
    && Negative(h) == (r < 0.0)
    && RoundsMagnitude(DirectionOf(mode, r < 0.0), Units(r), Abs(h))
  }

  lemma {:induction false} MagNext(k: nat)
    ensures Mag(k + 1) == Mag(k) + Ulp(k)
  {
    if k >= 0x800 {
      MagNext(k - 0x400);
    }
  }

  lemma {:induction false} MagMonotone(i: nat, j: nat)
    requires i < j
    ensures Mag(i) < Mag(j)
    decreases j
  {
    MagNext(j - 1);
    if i < j - 1 {
      MagMonotone(i, j - 1);
    }
  }

  lemma TwoNearest(v: real, k1: nat, k2: nat)
    requires k1 < k2 <= MAX_FINITE
    ensures !(RoundsMagnitude(Nearest, v, k1) && RoundsMagnitude(Nearest, v, k2))
  {
    if RoundsMagnitude(Nearest, v, k1) && RoundsMagnitude(Nearest, v, k2) {
      MagMonotone(k1, k2);
      // Both would be closest, hence both even, but the odd word between them is strictly closer.
      MagMonotone(k1, k1 + 1);
      if k1 + 1 < k2 { MagMonotone(k1 + 1, k2); }
    }
  }

  lemma NotBoth(mode: RoundingMode, r: real, h1: Half, h2: Half)
    requires Abs(h1) < Abs(h2)
    ensures !(RoundsTo(mode, r, h1) && RoundsTo(mode, r, h2))
  {
    MagMonotone(Abs(h1), Abs(h2));
    if Abs(h2) < INFINITY { TwoNearest(Units(r), Abs(h1), Abs(h2)); }
  }

  /** Correct rounding determines the word. */
  lemma RoundingIsUnique(mode: RoundingMode, r: real, h1: Half, h2: Half)
    requires RoundsTo(mode, r, h1) && RoundsTo(mode, r, h2)
    ensures h1 == h2
  {
    if Abs(h1) < Abs(h2) {
      NotBoth(mode, r, h1, h2);
    } else if Abs(h2) < Abs(h1) {
      NotBoth(mode, r, h2, h1);
    }
  }
}
