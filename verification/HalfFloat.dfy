/** Storing floats in half precision: `vnn_Fp32toFp16`, `vnn_Fp16toFp32` and the float16 branches of the tensor
    copies in vnn_utils.cc.

  Floats are given by their bits.  Shifts and masks of the source are divisions, remainders and sums here.
 */
module HalfFloat {
  type Bits32 = n: int | 0 <= n < 0x1_0000_0000
  type Bits16 = n: int | 0 <= n < 0x1_0000

  const BIAS16 := 15
  const MAX16: nat := 0x7BFF       // the largest finite half, 65504
  const MIN_NORMAL32: nat := 113 * 0x80_0000   // the bits of 2 to the -14

  function Fp32ToFp16(f32: Bits32): Bits16 {
    var sign := f32 / 0x8000_0000 * 0x8000;
    var exponent := f32 / 0x80_0000 % 256 - 127;
    var mantissa := f32 % 0x80_0000;
    if exponent == 128 then
      if mantissa != 0 then sign else sign + 30 * 1024 + 1023
    else if exponent > 15 then
      sign + 30 * 1024 + 1023
    else if exponent > -15 then
      sign + RoundFields(exponent + BIAS16, mantissa)
    else
      sign
  }

  /** Rounds a mantissa of 23 bits to 10 bits, ties to even, under a half's exponent field. */
  function RoundFields(e: nat, mantissa: nat): (r: nat)
    requires 1 <= e <= 30 && mantissa < 0x80_0000
    ensures r < 31 * 1024
  {
    var roundingBit := mantissa / 4096 % 2;
    var stickyBits := mantissa % 4096;
    var m := mantissa / 8192;
    if roundingBit == 1 && (stickyBits != 0 || m % 2 == 1) then
      if m + 1 > 1023 then
        if e + 1 > 30 then e * 1024 + m
        else (e + 1) * 1024 + (m + 1) % 1024
      else e * 1024 + (m + 1)
    else e * 1024 + m
  }

  function Fp16ToFp32(h: Bits16): Bits32 {
    var t1 := h % 0x8000 * 8192 + 0x3800_0000;
    (if h / 1024 % 32 == 0 then 0 else t1) + h / 0x8000 * 0x8000_0000
  }

  // Values, as multiples of 2 to the -149, the smallest float

  function Pow2(n: nat): nat {
    if n == 0 then 1 else 2 * Pow2(n - 1)
  }

  /** The value of finite magnitude bits of a float. */
  function Mag32(b: nat): nat {
    if b / 0x80_0000 == 0 then b else (0x80_0000 + b % 0x80_0000) * Pow2(b / 0x80_0000 - 1)
  }

  /** The value of finite magnitude bits of a half. */
  function Mag16(x: nat): nat {
    if x / 1024 == 0 then x * Pow2(125) else (1024 + x % 1024) * Pow2(x / 1024 + 124)
  }

  /** Sign and magnitude bits of a float and of a half. */
  predicate Neg32(f: Bits32) {
    f >= 0x8000_0000
  }

  function Bits(f: Bits32): nat {
    if Neg32(f) then f - 0x8000_0000 else f
  }

  predicate Neg16(h: Bits16) {
    h >= 0x8000
  }

  function HBits(h: Bits16): nat {
    if Neg16(h) then h - 0x8000 else h
  }

  predicate IsNaN(f: Bits32) {
    Bits(f) > 0x7F80_0000
  }

  predicate IsFinite(f: Bits32) {
    Bits(f) < 0x7F80_0000
  }

  function Signed(neg: bool, m: int): int {
    if neg then -m else m
  }

  function Value32(f: Bits32): int {
    Signed(Neg32(f), Mag32(Bits(f)))
  }

  function Value16(h: Bits16): int {
    Signed(Neg16(h), Mag16(HBits(h)))
  }

  /** The order of floats that are not NaN. */
  function Rank(f: Bits32): int {
    Signed(Neg32(f), Bits(f))
  }

  function Abs(x: int): nat {
    if x < 0 then -x else x
  }

  // Rounding on bits

  /** Rounding the magnitude bits to a multiple of 8192, ties to even. */
  function RoundBits(b: nat): nat {
    b / 8192 + if b / 4096 % 2 == 1 && (b % 4096 != 0 || b / 8192 % 2 == 1) then 1 else 0
  }

  function Min(a: nat, b: nat): nat {
    if a < b then a else b
  }

  /** The half of given magnitude bits: a carry out of the mantissa goes into the exponent. */
  function HalfBits(b: nat): nat {
    if b < MIN_NORMAL32 || b > 0x7F80_0000 then 0 else Min(MAX16, RoundBits(b - 112 * 0x80_0000))
  }

  lemma FieldsOfBits(b: nat)
    requires MIN_NORMAL32 <= b < 143 * 0x80_0000
    ensures 113 <= b / 0x80_0000 <= 142
    ensures var d := b - 112 * 0x80_0000; var e, m := b / 0x80_0000, b % 0x80_0000;
            && d / 8192 == (e - 112) * 1024 + m / 8192 && d % 8192 == m % 8192
            && d / 4096 % 2 == m / 4096 % 2 && d % 4096 == m % 4096 && d / 8192 % 2 == m / 8192 % 2
  {
    var d := b - 112 * 0x80_0000;
    var e, m := b / 0x80_0000, b % 0x80_0000;
    assert d == (e - 112) * 0x80_0000 + m;
    assert d / 4096 == (e - 112) * 2048 + m / 4096;
  }

  lemma FieldsRound(b: nat)
    requires MIN_NORMAL32 <= b < 143 * 0x80_0000
    ensures RoundFields(b / 0x80_0000 - 112, b % 0x80_0000) == HalfBits(b)
  {
    FieldsOfBits(b);
  }

  lemma FieldsOfFloat(f: Bits32)
    ensures f / 0x80_0000 % 256 == Bits(f) / 0x80_0000 && f % 0x80_0000 == Bits(f) % 0x80_0000
    ensures f / 0x8000_0000 == if Neg32(f) then 1 else 0
  {
    if Neg32(f) {
      assert f == 256 * 0x80_0000 + Bits(f);
      assert f / 0x80_0000 == 256 + Bits(f) / 0x80_0000;
    }
  }

  /** Where the magnitude bits lie decides the branch. */
  lemma ExponentRange(b: nat)
    requires b < 0x8000_0000
    ensures b / 0x80_0000 == 255 && b % 0x80_0000 != 0 <==> b > 0x7F80_0000
    ensures b / 0x80_0000 > 142 <==> b >= 143 * 0x80_0000
    ensures b / 0x80_0000 > 112 <==> b >= MIN_NORMAL32
  {
  }

  lemma LargeRounds(b: nat)
    requires 143 * 0x80_0000 <= b
    ensures RoundBits(b - 112 * 0x80_0000) > MAX16
  {
    assert (b - 112 * 0x80_0000) / 8192 >= 31 * 1024;
  }

  /** The branches of the source compute the sign and the rounded magnitude. */
  lemma StoreIsRounding(f: Bits32)
    ensures Fp32ToFp16(f) == (if Neg32(f) then 0x8000 else 0) + HalfBits(Bits(f))
    ensures Neg16(Fp32ToFp16(f)) == Neg32(f) && HBits(Fp32ToFp16(f)) == HalfBits(Bits(f)) <= MAX16
  {
    var b := Bits(f);
    FieldsOfFloat(f);
    ExponentRange(b);
    if b >= 143 * 0x80_0000 {
      LargeRounds(b);
    } else if b >= MIN_NORMAL32 {
      FieldsRound(b);
    }
  }

  lemma RoundBitsMonotone(a: nat, b: nat)
    requires a <= b
    ensures RoundBits(a) <= RoundBits(b)
  {
    var q := b / 8192;
    if a / 8192 == q {
      RoundBitsAbove(q, a - q * 8192);
      RoundBitsAbove(q, b - q * 8192);
    }
  }

  /** Rounding goes up from the half of a step, and from the half itself only next to an odd number. */
  lemma RoundBitsAbove(q: nat, x: nat)
    requires x < 8192
    ensures RoundBits(q * 8192 + x) == q + if x > 4096 || (x == 4096 && q % 2 == 1) then 1 else 0
  {
    var d := q * 8192 + x;
    var y := if x < 4096 then 0 else 1;
    assert d == (2 * q + y) * 4096 + (x - y * 4096);
    assert d / 8192 == q && d / 4096 == 2 * q + y && d % 4096 == x - y * 4096;
  }

  lemma HalfBitsMonotone(a: nat, b: nat)
    requires a <= b <= 0x7F80_0000
    ensures HalfBits(a) <= HalfBits(b) <= MAX16
  {
    if a >= MIN_NORMAL32 {
      RoundBitsMonotone(a - 112 * 0x80_0000, b - 112 * 0x80_0000);
    }
  }

  /** What comes back for magnitude bits `b`: a multiple of 8192, or zero. */
  function LoadedBits(x: nat): nat {
    if x / 1024 == 0 then 0 else x * 8192 + 112 * 0x80_0000
  }

  lemma LoadIsShift(h: Bits16)
    ensures Fp16ToFp32(h) == LoadedBits(HBits(h)) + if Neg16(h) then 0x8000_0000 else 0
  {
    assert h / 1024 % 32 == HBits(h) / 1024 && h % 0x8000 == HBits(h);
  }

  lemma HalfBitsNormal(b: nat)
    ensures HalfBits(b) == 0 || 1024 <= HalfBits(b) <= MAX16
  {
  }

  /** Loading and storing again gives the same half. */
  lemma HalfBitsStable(x: nat)
    requires x == 0 || 1024 <= x <= MAX16
    ensures HalfBits(LoadedBits(x)) == x
  {
    if x != 0 {
      RoundOfMultiple(x);
      HalfBitsOfParts(LoadedBits(x), x, 0);
    }
  }

  lemma RoundOfMultiple(x: nat)
    ensures RoundBits(x * 8192 + 0) == x
  {
    var d := x * 8192;
    assert d / 8192 == x && d / 4096 % 2 == 0;
  }

  function StoreAndLoad(f: Bits32): Bits32 {
    Fp16ToFp32(Fp32ToFp16(f))
  }

  lemma StoreAndLoadBits(f: Bits32)
    ensures Neg32(StoreAndLoad(f)) == Neg32(f)
    ensures Bits(StoreAndLoad(f)) == LoadedBits(HalfBits(Bits(f))) < 143 * 0x80_0000
  {
    StoreIsRounding(f);
    LoadIsShift(Fp32ToFp16(f));
  }

  /** A second store gives the same half, and a second load the same float, for every float and NaN. */
  lemma StoreAndLoadIsStable(f: Bits32)
    ensures Fp32ToFp16(StoreAndLoad(f)) == Fp32ToFp16(f)
    ensures StoreAndLoad(StoreAndLoad(f)) == StoreAndLoad(f)
  {
    StoreAndLoadBits(f);
    StoreIsRounding(f);
    StoreIsRounding(StoreAndLoad(f));
    HalfBitsNormal(Bits(f));
    HalfBitsStable(HalfBits(Bits(f)));
  }

  lemma LoadedBitsMonotone(x: nat, y: nat)
    requires x <= y
    ensures LoadedBits(x) <= LoadedBits(y)
  {
  }

  /** Storing and loading keeps the order of floats, infinities included. */
  lemma StoreAndLoadIsMonotone(f: Bits32, g: Bits32)
    requires !IsNaN(f) && !IsNaN(g) && Rank(f) <= Rank(g)
    ensures Rank(StoreAndLoad(f)) <= Rank(StoreAndLoad(g))
  {
    StoreAndLoadBits(f);
    StoreAndLoadBits(g);
    var a, b := Bits(f), Bits(g);
    if a <= b {
      HalfBitsMonotone(a, b);
      LoadedBitsMonotone(HalfBits(a), HalfBits(b));
    }
    if b <= a {
      HalfBitsMonotone(b, a);
      LoadedBitsMonotone(HalfBits(b), HalfBits(a));
    }
  }

  // Values

  lemma {:induction false} Pow2Monotone(m: nat, n: nat)
    requires m <= n
    ensures 0 < Pow2(m) <= Pow2(n)
    decreases n
  {
    if m < n {
      Pow2Monotone(m, n - 1);
    } else if n > 0 {
      Pow2Monotone(m - 1, n - 1);
    }
  }

  lemma TimesMonotone(a: nat, b: nat, p: nat)
    requires a <= b
    ensures a * p <= b * p
    ensures a < b && p > 0 ==> a * p < b * p
  {
  }

  lemma Mag32Next(b: nat)
    ensures Mag32(b) < Mag32(b + 1)
  {
    var e := b / 0x80_0000;
    if e > 0 {
      Pow2Monotone(0, e - 1);
      var p := Pow2(e - 1);
      if (b + 1) / 0x80_0000 == e {
        TimesMonotone(0x80_0000 + b % 0x80_0000, 0x80_0000 + (b + 1) % 0x80_0000, p);
      } else {
        assert (b + 1) / 0x80_0000 == e + 1 && (b + 1) % 0x80_0000 == 0 && b % 0x80_0000 == 0x7F_FFFF;
        assert Pow2(e) == 2 * p;
        TimesMonotone(0x80_0000 + 0x7F_FFFF, 0x100_0000, p);
        assert 0x80_0000 * (2 * p) == 0x100_0000 * p;
      }
    } else if b + 1 == 0x80_0000 {
      assert Pow2(0) == 1;
      assert Mag32(b + 1) == 0x80_0000 * Pow2(0);
    }
  }

  lemma {:induction false} Mag32Monotone(a: nat, b: nat)
    requires a < b
    ensures Mag32(a) < Mag32(b)
    decreases b
  {
    Mag32Next(b - 1);
    if a < b - 1 {
      Mag32Monotone(a, b - 1);
    }
  }

  /** The order of the bits is the order of the values. */
  lemma RankIsValueOrder(f: Bits32, g: Bits32)
    requires IsFinite(f) && IsFinite(g)
    ensures Rank(f) <= Rank(g) <==> Value32(f) <= Value32(g)
  {
    var a, b := Bits(f), Bits(g);
    if a < b { Mag32Monotone(a, b); }
    if b < a { Mag32Monotone(b, a); }
    if a > 0 { Mag32Monotone(0, a); }
    if b > 0 { Mag32Monotone(0, b); }
  }

  /** Neighbouring halves from 2 to the -14 on are one unit of their exponent apart. */
  lemma Mag16Step(e: nat, q: nat)
    requires 1 <= e && q <= 1024
    ensures Mag16(e * 1024 + q) == (1024 + q) * Pow2(e + 124)
  {
    var x := e * 1024 + q;
    if q < 1024 {
      assert x / 1024 == e && x % 1024 == q;
    } else {
      assert x / 1024 == e + 1 && x % 1024 == 0;
      assert Pow2(e + 1 + 124) == 2 * Pow2(e + 124);
      assert 1024 * (2 * Pow2(e + 124)) == 2048 * Pow2(e + 124);
    }
  }

  lemma Mag16Next(x: nat)
    ensures Mag16(x) < Mag16(x + 1)
  {
    if x < 1024 {
      Mag16NextSmall(x);
    } else {
      Mag16NextNormal(x / 1024, x % 1024);
    }
  }

  lemma Mag16NextNormal(e: nat, q: nat)
    requires 1 <= e && q < 1024
    ensures Mag16(e * 1024 + q) < Mag16(e * 1024 + q + 1)
  {
    Mag16Step(e, q);
    Mag16Step(e, q + 1);
    Pow2Monotone(0, e + 124);
    TimesMonotone(1024 + q, 1024 + q + 1, Pow2(e + 124));
  }

  lemma Mag16NextSmall(x: nat)
    requires x < 1024
    ensures Mag16(x) < Mag16(x + 1)
  {
    Pow2Monotone(0, 125);
    TimesMonotone(x, x + 1, Pow2(125));
    if x == 1023 {
      Mag16Step(1, 0);
    }
  }

  lemma {:induction false} Mag16Monotone(x: nat, y: nat)
    requires x <= y
    ensures Mag16(x) <= Mag16(y) && (x < y ==> Mag16(x) < Mag16(y))
    decreases y
  {
    if x < y {
      Mag16Next(y - 1);
      Mag16Monotone(x, y - 1);
    }
  }

  /** Loading a normal half keeps its value. */
  lemma LoadedValue(x: nat)
    requires x == 0 || 1024 <= x <= MAX16
    ensures Mag32(LoadedBits(x)) == Mag16(x)
  {
    if x != 0 {
      var e, q := x / 1024, x % 1024;
      var b := LoadedBits(x);
      assert b / 0x80_0000 == e + 112 && b % 0x80_0000 == q * 8192;
      Pow2Add(e + 111, 13);
      assert Pow2(13) == 8192;
      Scale(1024 + q, 8192, Pow2(e + 111));
    }
  }

  lemma {:induction false} Pow2Add(m: nat, n: nat)
    ensures Pow2(m + n) == Pow2(m) * Pow2(n)
  {
    if n > 0 {
      Pow2Add(m, n - 1);
    }
  }

  lemma Scale(a: nat, k: nat, p: nat)
    ensures a * k * p == a * (p * k)
  {
  }

  /** A float between two neighbouring halves: where it lies, in units `p` of its own exponent. */
  lemma Between(b: nat) returns (x: nat, r: nat, p: nat)
    requires MIN_NORMAL32 <= b < 143 * 0x80_0000
    ensures b - 112 * 0x80_0000 == x * 8192 + r && r < 8192
    ensures 1024 <= x <= MAX16 && p > 0
    ensures Mag32(b) == Mag16(x) + r * p
    ensures Mag16(x + 1) == Mag32(b) + (8192 - r) * p
  {
    FieldsOfBits(b);
    var e, m := b / 0x80_0000, b % 0x80_0000;
    p, r, x := Pow2(e - 1), m % 8192, (e - 112) * 1024 + m / 8192;
    UnitOfHalf(e);
    Mag16Step(e - 112, m / 8192);
    Mag16Step(e - 112, m / 8192 + 1);
    assert 0x80_0000 + m == (1024 + m / 8192) * 8192 + r;
    Interpolate(1024 + m / 8192, r, p, Mag32(b));
  }

  /** A unit of a half is 8192 units of a float. */
  lemma UnitOfHalf(e: nat)
    requires e >= 113
    ensures Pow2(e - 1) > 0 && Pow2(e - 112 + 124) == Pow2(e - 1) * 8192
  {
    Pow2Monotone(0, e - 1);
    Pow2Add(e - 1, 13);
    assert Pow2(13) == 8192;
  }

  lemma Interpolate(q: nat, r: nat, p: nat, v: int)
    requires v == (q * 8192 + r) * p && r < 8192
    ensures v == q * (p * 8192) + r * p
    ensures (q + 1) * (p * 8192) == v + (8192 - r) * p
  {
    Scale(q, 8192, p);
    Scale(q + 1, 8192, p);
    Distribute(q * 8192, r, p);
    Distribute(q * 8192 + r, 8192 - r, p);
  }

  lemma Distribute(a: nat, b: nat, p: nat)
    ensures (a + b) * p == a * p + b * p
  {
  }

  /** Of two neighbours around `v` the nearer one is nearer than anything outside them. */
  lemma NearestOfTwo(v: int, lo: int, hi: int, r: nat, p: nat, y: int)
    requires v == lo + r * p && hi == v + (8192 - r) * p && p > 0 && r < 8192 && (y <= lo || y >= hi)
    ensures r < 4096 ==> Nearer(v, lo, y, false)
    ensures r > 4096 ==> Nearer(v, hi, y, false)
    ensures r == 4096 ==> Nearer(v, lo, y, true) && Nearer(v, hi, y, true)
  {
    TimesMonotone(0, r, p);
    TimesMonotone(0, 8192 - r, p);
    if r <= 4096 { TimesMonotone(r, 8192 - r, p); }
    if r >= 4096 { TimesMonotone(8192 - r, r, p); }
  }

  /** `c` is `x` or `x + 1`, whichever is nearer to `r` 8192ths of the way, or the even one. */
  predicate Rounds(x: nat, r: nat, c: nat) {
    && (r < 4096 ==> c == x) && (r > 4096 ==> c == x + 1)
    && (r == 4096 ==> c % 2 == 0 && (c == x || c == x + 1))
  }

  lemma RoundsToNeighbour(x: nat, r: nat)
    requires r < 8192
    ensures Rounds(x, r, RoundBits(x * 8192 + r))
  {
    var d := x * 8192 + r;
    assert d / 8192 == x && d / 4096 == 2 * x + r / 4096 && d % 4096 == r % 4096;
  }

  /** Rounding to one of two neighbouring halves of values `lo` and `hi`, against another of value `other`. */
  lemma RoundedIsNearest(v: int, x: nat, r: nat, p: nat, c: nat, lo: int, hi: int, other: int)
    requires r < 8192 && p > 0 && x <= MAX16 && Rounds(x, r, c)
    requires v == lo + r * p && hi == v + (8192 - r) * p
    requires other <= lo || other >= hi
    requires x == MAX16 ==> other <= lo
    ensures Nearer(v, if Min(MAX16, c) == x then lo else hi, other, Min(MAX16, c) % 2 == 0)
  {
    NearestOfTwo(v, lo, hi, r, p, other);
    if x == MAX16 {
      TimesMonotone(0, r, p);
    }
  }

  /** The same for the values of halves. */
  lemma RoundedHalfIsNearest(v: int, x: nat, r: nat, p: nat, h: nat, y: nat)
    requires x <= MAX16 && r < 8192 && p > 0 && y <= MAX16 && h == Min(MAX16, RoundBits(x * 8192 + r))
    requires v == Mag16(x) + r * p && Mag16(x + 1) == v + (8192 - r) * p
    ensures Nearer(v, Mag16(h), Mag16(y), h % 2 == 0)
  {
    RoundsToNeighbour(x, r);
    if y <= x { Mag16Monotone(y, x); } else { Mag16Monotone(x + 1, y); }
    RoundedIsNearest(v, x, r, p, RoundBits(x * 8192 + r), Mag16(x), Mag16(x + 1), Mag16(y));
  }

  lemma HalfBitsOfParts(b: nat, x: nat, r: nat)
    requires MIN_NORMAL32 <= b < 143 * 0x80_0000 && b - 112 * 0x80_0000 == x * 8192 + r
    ensures HalfBits(b) == Min(MAX16, RoundBits(x * 8192 + r))
  {
  }

  lemma LargestIsNearest(v: int, y: nat)
    requires v > Mag16(MAX16) && y <= MAX16
    ensures Nearer(v, Mag16(MAX16), Mag16(y), false)
  {
    Mag16Monotone(y, MAX16);
  }

  /** Of all finite halves the rounded one is nearest; when another one is as near, the rounded one is even. */
  lemma HalfBitsNearest(b: nat, v: int, h: nat, y: nat)
    requires MIN_NORMAL32 <= b < 0x7F80_0000 && y <= MAX16 && v == Mag32(b) && h == HalfBits(b)
    ensures Nearer(v, Mag16(h), Mag16(y), h % 2 == 0)
  {
    if b < 143 * 0x80_0000 {
      var x, r, p := Between(b);
      HalfBitsOfParts(b, x, r);
      RoundedHalfIsNearest(v, x, r, p, h, y);
    } else {
      Saturates(b);
      LargestIsNearest(v, y);
    }
  }

  /** From 65504 on the largest finite half is stored. */
  lemma Saturates(b: nat)
    requires 143 * 0x80_0000 <= b <= 0x7F80_0000
    ensures HalfBits(b) == MAX16
    ensures b < 0x7F80_0000 ==> Mag32(b) > Mag16(MAX16)
  {
    assert (b - 112 * 0x80_0000) / 8192 >= 31 * 1024;
    if b < 0x7F80_0000 {
      LoadedValue(MAX16);
      assert LoadedBits(MAX16) < 143 * 0x80_0000;
      Mag32Monotone(LoadedBits(MAX16), b);
    }
  }

  /** The half that is stored for `f` is nearest to it among the finite halves, ties to even. */
  ghost predicate IsNearest(f: Bits32, h: Bits16) {
    forall other: bool, y: nat | y <= MAX16 :: Nearer(Value32(f), Value16(h), Signed(other, Mag16(y)), h % 2 == 0)
  }

  ghost predicate Nearer(v: int, x: int, y: int, even: bool) {
    Abs(v - x) <= Abs(v - y) && (Abs(v - x) == Abs(v - y) && y != x ==> even)
  }

  /** The result of storing and loading `f`: below 2 to the -14 and for NaN a signed zero; otherwise the
      value of the nearest finite half, which for infinities and beyond 65504 is that value. */
  ghost predicate IsHalfOf(f: Bits32, r: Bits32) {
    && Neg32(r) == Neg32(f)
    && (Bits(f) < MIN_NORMAL32 || IsNaN(f) ==> Bits(r) == 0)
    && (Bits(f) == 0x7F80_0000 ==> Value32(r) == Signed(Neg32(f), Mag16(MAX16)))
    && (MIN_NORMAL32 <= Bits(f) && IsFinite(f) ==> exists h: Bits16 :: Value32(r) == Value16(h) && IsNearest(f, h))
  }

  lemma SignedNearer(neg: bool, v: int, x: int, other: bool, y: int, even: bool)
    requires v > 0 && x > 0 && y >= 0 && Nearer(v, x, y, even) && Abs(v - x) < v + x
    ensures Nearer(Signed(neg, v), Signed(neg, x), Signed(other, y), even)
  {
  }

  lemma StoredIsNearest(f: Bits32, h: Bits16)
    requires MIN_NORMAL32 <= Bits(f) && IsFinite(f)
    requires Neg16(h) == Neg32(f) && HBits(h) == HalfBits(Bits(f))
    ensures IsNearest(f, h)
  {
    assert h % 2 == HBits(h) % 2;
    forall other: bool, y: nat | y <= MAX16
      ensures Nearer(Value32(f), Value16(h), Signed(other, Mag16(y)), h % 2 == 0) {
      NearestPair(Neg32(f), Bits(f), HBits(h), other, y);
    }
  }

  lemma NearestPair(neg: bool, b: nat, x: nat, other: bool, y: nat)
    requires MIN_NORMAL32 <= b < 0x7F80_0000 && x == HalfBits(b) && y <= MAX16
    ensures Nearer(Signed(neg, Mag32(b)), Signed(neg, Mag16(x)), Signed(other, Mag16(y)), x % 2 == 0)
  {
    NormalIsPositive(b, x);
    HalfBitsNearest(b, Mag32(b), x, y);
    SignedNearer(neg, Mag32(b), Mag16(x), other, Mag16(y), x % 2 == 0);
  }

  lemma NormalIsPositive(b: nat, x: nat)
    requires MIN_NORMAL32 <= b < 0x7F80_0000 && x == HalfBits(b)
    ensures Mag16(x) > 0 && Mag32(b) > 0 && Abs(Mag32(b) - Mag16(x)) < Mag32(b) + Mag16(x)
  {
    Mag32Monotone(0, b);
    HalfBitsNormal(b);
    HalfBitsMonotone(MIN_NORMAL32, b);
    assert HalfBits(MIN_NORMAL32) == 1024;
    Mag16Monotone(0, x);
  }

  lemma StoreAndLoadIsNearest(f: Bits32)
    ensures IsHalfOf(f, StoreAndLoad(f))
  {
    var b := Bits(f);
    StoreAndLoadBits(f);
    StoreIsRounding(f);
    HalfBitsNormal(b);
    LoadedValue(HalfBits(b));
    if b == 0x7F80_0000 {
      Saturates(b);
    } else if MIN_NORMAL32 <= b < 0x7F80_0000 {
      StoredIsNearest(f, Fp32ToFp16(f));
      assert Value32(StoreAndLoad(f)) == Value16(Fp32ToFp16(f));
    }
  }

  // Tensors

  /** The branch of the tensor store for half precision. */
  method StoreTensor(buf: array<Bits32>) returns (data: array<Bits16>)
    ensures fresh(data) && data.Length == buf.Length
    ensures forall i | 0 <= i < buf.Length :: data[i] == Fp32ToFp16(buf[i])
  {
    data := new Bits16[buf.Length];
    for i := 0 to buf.Length
      invariant forall j | 0 <= j < i :: data[j] == Fp32ToFp16(buf[j])
    {
      data[i] := Fp32ToFp16(buf[i]);
    }
  }

  /** The branch of the tensor load for half precision. */
  method LoadTensor(data: array<Bits16>) returns (buf: array<Bits32>)
    ensures fresh(buf) && buf.Length == data.Length
    ensures forall i | 0 <= i < data.Length :: buf[i] == Fp16ToFp32(data[i])
  {
    buf := new Bits32[data.Length];
    for i := 0 to data.Length
      invariant forall j | 0 <= j < i :: buf[j] == Fp16ToFp32(data[j])
    {
      buf[i] := Fp16ToFp32(data[i]);
    }
  }

  /** A buffer of any length, stored and loaded: each element is the nearest half, and doing it again changes
      nothing. */
  method StoreAndLoadTensor(buf: array<Bits32>) returns (out: array<Bits32>)
    ensures fresh(out) && out.Length == buf.Length
    ensures forall i | 0 <= i < buf.Length :: IsHalfOf(buf[i], out[i]) && StoreAndLoad(out[i]) == out[i]
    ensures forall i, j | 0 <= i < buf.Length && 0 <= j < buf.Length && !IsNaN(buf[i]) && !IsNaN(buf[j]) &&
            Rank(buf[i]) <= Rank(buf[j]) ::
              Rank(out[i]) <= Rank(out[j])
  {
    var data := StoreTensor(buf);
    out := LoadTensor(data);
    forall i | 0 <= i < buf.Length ensures IsHalfOf(buf[i], out[i]) && StoreAndLoad(out[i]) == out[i] {
      StoreAndLoadIsNearest(buf[i]);
      StoreAndLoadIsStable(buf[i]);
    }
    forall i, j | 0 <= i < buf.Length && 0 <= j < buf.Length && !IsNaN(buf[i]) && !IsNaN(buf[j]) &&
      Rank(buf[i]) <= Rank(buf[j])
      ensures Rank(out[i]) <= Rank(out[j])
    {
      StoreAndLoadIsMonotone(buf[i], buf[j]);
    }
  }
}
