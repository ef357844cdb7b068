/** Dynamic fixed point: `vnn_Fp32toInt8`, `vnn_Int8toFp32`, their 16-bit twins and the branches of the tensor
    copies that call them, in vnn_utils.cc.

  Floats are exact reals here.  What the code depends on and C leaves undefined is explicit: a shift outside
  `1 << 0` to `1 << 30` has no `Position`, and a rounded value that a 32-bit integer cannot hold is stored as
  nothing.
 */
module FixedPoint {
  import opened Wrappers

  /** The positions whose shift, left or right, a signed 32-bit integer can hold. */
  type Position = f: int | -30 <= f <= 30

  datatype Width = Int8 | Int16 {
    function Max(): int {
      if this.Int8? then 127 else 32767
    }

    function Min(): int {
      if this.Int8? then -128 else -32768
    }

    predicate Holds(code: int) {
      Min() <= code <= Max()
    }

    function Saturate(data: int): int {
      if data > Max() then Max() else if data < Min() then Min() else data
    }
  }

  function Shift(n: nat): (r: real)
    ensures r > 0.0
  {
    if n == 0 then 1.0 else 2.0 * Shift(n - 1)
  }

  /** C's `round`: to the nearest integer, halves away from zero. */
  function Round(x: real): int {
    if x >= 0.0 then (x + 0.5).Floor else -(0.5 - x).Floor
  }

  predicate FitsInt32(data: int) {
    -0x8000_0000 <= data <= 0x7FFF_FFFF
  }

  /** What storing multiplies with. */
  function Gain(pos: Position): (r: real)
    ensures r > 0.0
  {
    if pos > 0 then Shift(pos) else 1.0 / Shift(-pos)
  }

  /** What loading multiplies with: the worth of one unit of a stored code. */
  function Step(pos: Position): (r: real)
    ensures r > 0.0
  {
    if pos > 0 then 1.0 / Shift(pos) else Shift(-pos)
  }

  function Scaled(val: real, pos: Position): real {
    val * Gain(pos)
  }

  function Store(val: real, pos: Position, w: Width): Option<int> {
    var data := Round(Scaled(val, pos));
    if FitsInt32(data) then Some(w.Saturate(data)) else None
  }

  function Load(code: int, pos: Position): real {
    code as real * Step(pos)
  }

  function Dist(x: real, y: real): real {
    if x < y then y - x else x - y
  }

  lemma GainTimesStep(pos: Position)
    ensures Gain(pos) * Step(pos) == 1.0 && Step(pos) * Gain(pos) == 1.0
  {
    Reciprocal(Shift(if pos > 0 then pos else -pos));
  }

  lemma Reciprocal(s: real)
    requires s > 0.0
    ensures s * (1.0 / s) == 1.0 && (1.0 / s) * s == 1.0
  {
  }

  /** Storing divides by the step that loading multiplies with. */
  lemma ScaledIsQuotient(val: real, pos: Position)
    ensures Scaled(val, pos) * Step(pos) == val
  {
    GainTimesStep(pos);
    Unscaled(val, Gain(pos), Step(pos), Scaled(val, pos));
  }

  lemma Unscaled(val: real, gain: real, step: real, scaled: real)
    requires gain * step == 1.0 && scaled == val * gain
    ensures scaled * step == val
  {
    TimesInverse(val, gain, step);
  }

  lemma TimesInverse(x: real, a: real, b: real)
    requires a * b == 1.0
    ensures x * a * b == x
  {
    Associate(x, a, b);
  }

  lemma Associate(x: real, a: real, b: real)
    ensures x * a * b == x * (a * b)
  {
  }

  // Rounding and saturating in units of the step

  /** `c` is as near to `x` as `d` is, and of two as near ones it is the one further from zero. */
  predicate NearerCode(x: real, c: int, d: int) {
    var here, there := Dist(x, c as real), Dist(x, d as real);
    here <= there && (here == there && c != d ==> if x >= 0.0 then c > d else c < d)
  }

  lemma RoundIsNearest(x: real, d: int)
    ensures NearerCode(x, Round(x), d)
    ensures Dist(x, Round(x) as real) <= 0.5
  {
  }

  lemma RoundMonotone(x: real, y: real)
    requires x <= y
    ensures Round(x) <= Round(y)
  {
  }

  /** Of the codes of a width, the saturated rounding is the nearest. */
  lemma SaturatedIsNearest(x: real, w: Width, d: int)
    requires w.Holds(d)
    ensures NearerCode(x, w.Saturate(Round(x)), d)
  {
    RoundIsNearest(x, d);
  }

  // The same in values

  predicate SameOrder(a: real, b: real, x: real, y: real) {
    (a < b <==> x < y) && (a == b <==> x == y)
  }

  lemma TimesKeepsOrder(a: real, b: real, s: real)
    requires s > 0.0
    ensures SameOrder(a, b, a * s, b * s)
  {
    if a < b { assert (b - a) * s > 0.0; }
    if b < a { assert (a - b) * s > 0.0; }
  }

  lemma TimesScalesDist(x: real, y: real, s: real)
    requires s > 0.0
    ensures Dist(x * s, y * s) == Dist(x, y) * s
  {
    TimesKeepsOrder(x, y, s);
  }

  lemma OrderInValue(a: real, b: real, x: real, y: real, s: real)
    requires s > 0.0 && x == a * s && y == b * s
    ensures SameOrder(a, b, x, y)
  {
    TimesKeepsOrder(a, b, s);
  }

  lemma DistInValue(x: real, a: real, v: real, l: real, s: real, near: real, far: real)
    requires s > 0.0 && v == x * s && l == a * s && near == Dist(x, a) && far == Dist(v, l)
    ensures far == near * s
  {
    TimesScalesDist(x, a, s);
  }

  lemma DistOrder(x: real, a: real, b: real, v: real, l: real, m: real, s: real, p: real, q: real, far: real,
                  far': real)
    requires s > 0.0 && v == x * s && l == a * s && m == b * s
    requires p == Dist(x, a) && q == Dist(x, b) && far == Dist(v, l) && far' == Dist(v, m)
    ensures SameOrder(p, q, far, far')
  {
    DistInValue(x, a, v, l, s, p, far);
    DistInValue(x, b, v, m, s, q, far');
    OrderInValue(p, q, far, far', s);
  }

  lemma NearerInValue(x: real, c: int, d: int, v: real, l: real, m: real)
    requires NearerCode(x, c, d)
    requires SameOrder(x, 0.0, v, 0.0) && SameOrder(c as real, d as real, l, m)
    requires SameOrder(Dist(x, c as real), Dist(x, d as real), Dist(v, l), Dist(v, m))
    ensures Nearer(v, l, m)
  {
  }

  lemma LoadKeepsOrder(c: int, d: int, pos: Position)
    ensures SameOrder(c as real, d as real, Load(c, pos), Load(d, pos))
  {
    TimesKeepsOrder(c as real, d as real, Step(pos));
  }

  lemma ScaledKeepsOrder(a: real, b: real, pos: Position)
    ensures SameOrder(Scaled(a, pos), Scaled(b, pos), a, b)
  {
    ScaledIsQuotient(a, pos);
    ScaledIsQuotient(b, pos);
    OrderInValue(Scaled(a, pos), Scaled(b, pos), a, b, Step(pos));
  }

  lemma CodeKeepsOrder(val: real, c: int, pos: Position)
    ensures SameOrder(Scaled(val, pos), c as real, val, Load(c, pos))
  {
    ScaledIsQuotient(val, pos);
    OrderInValue(Scaled(val, pos), c as real, val, Load(c, pos), Step(pos));
  }

  // Properties of storing and loading

  /** Storing is defined exactly when the scaled value is within half a unit of the 32-bit range. */
  lemma StoreIsDefined(val: real, pos: Position, w: Width)
    ensures Store(val, pos, w).Some? <==> -2147483648.5 < Scaled(val, pos) < 2147483647.5
  {
  }

  /** `l` is as near to `v` as `m` is, and of two as near ones it is the one further from zero. */
  predicate Nearer(v: real, l: real, m: real) {
    Dist(v, l) <= Dist(v, m) && (Dist(v, l) == Dist(v, m) && l != m ==> if v >= 0.0 then l > m else l < m)
  }

  /** What comes back is the nearest of all values the format can hold, ties away from zero; this says at once
      how values between two steps are rounded and how values beyond the range saturate. */
  ghost predicate IsNearest(val: real, loaded: real, pos: Position, w: Width) {
    && (exists c: int :: w.Holds(c) && loaded == Load(c, pos))
    && forall d: int | w.Holds(d) :: Nearer(val, loaded, Load(d, pos))
  }

  lemma NearestPair(x: real, c: int, d: int, v: real, l: real, m: real, s: real)
    requires s > 0.0 && v == x * s && l == c as real * s && m == d as real * s
    requires NearerCode(x, c, d)
    ensures Nearer(v, l, m)
  {
    OrderInValue(x, 0.0, v, 0.0, s);
    OrderInValue(c as real, d as real, l, m, s);
    var p, q, far, far' := Dist(x, c as real), Dist(x, d as real), Dist(v, l), Dist(v, m);
    DistOrder(x, c as real, d as real, v, l, m, s, p, q, far, far');
    NearerInValue(x, c, d, v, l, m);
  }

  lemma SaturatedPair(x: real, c: int, d: int, v: real, l: real, m: real, s: real, w: Width)
    requires s > 0.0 && v == x * s && l == c as real * s && m == d as real * s
    requires c == w.Saturate(Round(x)) && w.Holds(d)
    ensures Nearer(v, l, m)
  {
    SaturatedIsNearest(x, w, d);
    NearestPair(x, c, d, v, l, m, s);
  }

  lemma StoredIsNearer(val: real, pos: Position, w: Width, c: int, d: int)
    requires Store(val, pos, w) == Some(c) && w.Holds(d)
    ensures Nearer(val, Load(c, pos), Load(d, pos))
  {
    ScaledIsQuotient(val, pos);
    SaturatedPair(Scaled(val, pos), c, d, val, Load(c, pos), Load(d, pos), Step(pos), w);
  }

  lemma StoredIsNearest(val: real, pos: Position, w: Width, c: int)
    requires Store(val, pos, w) == Some(c)
    ensures w.Holds(c) && IsNearest(val, Load(c, pos), pos, w)
  {
    forall d: int | w.Holds(d) ensures Nearer(val, Load(c, pos), Load(d, pos)) {
      StoredIsNearer(val, pos, w, c, d);
    }
  }

  /** Inside the range of the format the error is at most half a step; beyond it the extreme code is stored. */
  lemma ErrorOrSaturation(val: real, pos: Position, w: Width, c: int)
    requires Store(val, pos, w) == Some(c)
    ensures val > Load(w.Max(), pos) ==> c == w.Max()
    ensures val < Load(w.Min(), pos) ==> c == w.Min()
    ensures Load(w.Min(), pos) <= val <= Load(w.Max(), pos) ==> Dist(val, Load(c, pos)) <= 0.5 * Step(pos)
  {
    var x := Scaled(val, pos);
    CodeKeepsOrder(val, w.Max(), pos);
    CodeKeepsOrder(val, w.Min(), pos);
    SaturatesInUnits(x, c, w);
    if w.Min() as real <= x <= w.Max() as real { HalfInValue(val, x, c, pos); }
  }

  lemma HalfInValue(val: real, x: real, c: int, pos: Position)
    requires x == Scaled(val, pos) && Dist(x, c as real) <= 0.5
    ensures Dist(val, Load(c, pos)) <= 0.5 * Step(pos)
  {
    ScaledIsQuotient(val, pos);
    HalfOfStep(x, c as real, val, Load(c, pos), Step(pos));
  }

  lemma HalfOfStep(x: real, a: real, v: real, l: real, s: real)
    requires s > 0.0 && v == x * s && l == a * s && Dist(x, a) <= 0.5
    ensures Dist(v, l) <= 0.5 * s
  {
    TimesScalesDist(x, a, s);
    TimesKeepsOrder(Dist(x, a), 0.5, s);
  }

  lemma SaturatesInUnits(x: real, c: int, w: Width)
    requires c == w.Saturate(Round(x))
    ensures x > w.Max() as real ==> c == w.Max()
    ensures x < w.Min() as real ==> c == w.Min()
    ensures w.Min() as real <= x <= w.Max() as real ==> Dist(x, c as real) <= 0.5
  {
    RoundIsNearest(x, c);
  }

  lemma ScaledOfLoad(code: int, pos: Position)
    ensures Scaled(Load(code, pos), pos) == code as real
  {
    var x, step, gain, load := code as real, Step(pos), Gain(pos), Load(code, pos);
    GainTimesStep(pos);
    LoadBy(code, pos, x, step);
    Unscaled(x, step, gain, load);
    ScaledBy(load, pos, gain);
  }

  lemma ScaledBy(val: real, pos: Position, gain: real)
    requires gain == Gain(pos)
    ensures Scaled(val, pos) == val * gain
  {
  }

  /** Every code of the width comes back from its own value. */
  lemma StoreOfLoad(code: int, pos: Position, w: Width)
    requires w.Holds(code)
    ensures Store(Load(code, pos), pos, w) == Some(code)
  {
    ScaledOfLoad(code, pos);
    RoundOfInt(code, Scaled(Load(code, pos), pos));
  }

  function Pow2(n: nat): int {
    if n == 0 then 1 else 2 * Pow2(n - 1)
  }

  lemma {:induction false} ShiftIsPow2(n: nat)
    ensures Shift(n) == Pow2(n) as real
  {
    if n > 0 {
      ShiftIsPow2(n - 1);
    }
  }

  /** The position counts binary places: code 2^n at position n is one, and so is code 1 moved n places the other way
      worth 2^n. */
  lemma PositionsAreBinary(n: Position)
    requires n >= 0
    ensures Load(Pow2(n), n) == 1.0 && Load(1, -n) == Pow2(n) as real
  {
    ShiftIsPow2(n);
    Reciprocal(Shift(n));
    LoadBy(Pow2(n), n, Shift(n), 1.0 / Shift(n));
    LoadBy(1, -n, 1.0, Shift(n));
  }

  lemma LoadBy(code: int, pos: Position, x: real, step: real)
    requires x == code as real && step == Step(pos)
    ensures Load(code, pos) == x * step
  {
  }

  lemma RoundOfInt(n: int, x: real)
    requires x == n as real
    ensures Round(x) == n
  {
  }

  lemma StoreMonotone(a: real, b: real, pos: Position, w: Width, c: int, d: int)
    requires a <= b && Store(a, pos, w) == Some(c) && Store(b, pos, w) == Some(d)
    ensures c <= d && Load(c, pos) <= Load(d, pos)
  {
    ScaledKeepsOrder(a, b, pos);
    RoundMonotone(Scaled(a, pos), Scaled(b, pos));
    LoadKeepsOrder(c, d, pos);
  }

  // Tensors

  ghost predicate Storable(vals: seq<real>, pos: Position) {
    forall x | x in vals :: FitsInt32(Round(Scaled(x, pos)))
  }

  /** The dynamic fixed point branches of the tensor store. */
  method StoreTensor(buf: array<real>, pos: Position, w: Width) returns (data: array<int>)
    requires Storable(buf[..], pos)
    ensures fresh(data) && data.Length == buf.Length
    ensures forall i | 0 <= i < buf.Length :: Store(buf[i], pos, w) == Some(data[i])
  {
    data := new int[buf.Length];
    for i := 0 to buf.Length
      invariant forall j | 0 <= j < i :: Store(buf[j], pos, w) == Some(data[j])
    {
      assert buf[i] in buf[..];
      data[i] := w.Saturate(Round(Scaled(buf[i], pos)));
    }
  }

  /** The dynamic fixed point branches of the tensor load. */
  method LoadTensor(data: array<int>, pos: Position) returns (buf: array<real>)
    ensures fresh(buf) && buf.Length == data.Length
    ensures forall i | 0 <= i < data.Length :: buf[i] == Load(data[i], pos)
  {
    buf := new real[data.Length];
    for i := 0 to data.Length
      invariant forall j | 0 <= j < i :: buf[j] == Load(data[j], pos)
    {
      buf[i] := Load(data[i], pos);
    }
  }

  /** A buffer of any length, stored and loaded: each element is the nearest value of the format, the order of
      elements is kept, and what comes back can be stored and loaded again without a change. */
  method StoreAndLoadTensor(buf: array<real>, pos: Position, w: Width) returns (out: array<real>)
    requires Storable(buf[..], pos)
    ensures fresh(out) && out.Length == buf.Length
    ensures forall i | 0 <= i < buf.Length :: IsNearest(buf[i], out[i], pos, w)
    ensures forall i, j | 0 <= i < buf.Length && 0 <= j < buf.Length && buf[i] <= buf[j] :: out[i] <= out[j]
    ensures Storable(out[..], pos)
    ensures forall i | 0 <= i < out.Length ::
              Store(out[i], pos, w).Some? && Load(Store(out[i], pos, w).value, pos) == out[i]
  {
    var data := StoreTensor(buf, pos, w);
    out := LoadTensor(data, pos);
    forall i | 0 <= i < buf.Length
      ensures IsNearest(buf[i], out[i], pos, w) && Store(out[i], pos, w) == Some(data[i])
    {
      StoredIsNearest(buf[i], pos, w, data[i]);
      StoreOfLoad(data[i], pos, w);
    }
    forall i, j | 0 <= i < buf.Length && 0 <= j < buf.Length && buf[i] <= buf[j] ensures out[i] <= out[j] {
      StoreMonotone(buf[i], buf[j], pos, w, data[i], data[j]);
    }
  }
}
