/** Per-dimension scalar quantisation of vectors to one byte per component, over the reals. */
module Sq8 {
  import opened Core
  import opened Slab

  type Code = c: nat | c < 256

  datatype Quantizer = Quantizer(mins: seq<real>, scales: seq<real>)

  ghost predicate WellFormed(q: Quantizer, dim: nat) {
    |q.mins| == |q.scales| == dim && forall j | 0 <= j < dim :: q.scales[j] > 0.0
  }

  /** `f32::round`: to the nearest integer, halves away from zero. */
  function Round(x: real): (r: int)
    ensures x - 0.5 <= r as real <= x + 0.5
  {
    if x >= 0.0 then (x + 0.5).Floor else -((-x + 0.5).Floor)
  }

  /** A half is rounded away from zero, on both sides. */
  lemma HalvesGoAway(n: nat)
    ensures Round(n as real + 0.5) == n + 1 && Round(-(n as real) - 0.5) == -(n as int) - 1
  {
  }

  function EncodeComponent(x: real, mn: real, scale: real): (c: Code)
    requires scale > 0.0
  {
    var r := Round((x - mn) / scale);
    if r < 0 then 0 else if r > 255 then 255 else r
  }

  function DecodeComponent(c: Code, mn: real, scale: real): real {
    mn + c as real * scale
  }

  function Encode(q: Quantizer, v: Vector): (codes: seq<Code>)
    requires WellFormed(q, |v|)
    ensures |codes| == |v|
    ensures forall j | 0 <= j < |v| :: codes[j] == EncodeComponent(v[j], q.mins[j], q.scales[j])
  {
    seq(|v|, j requires 0 <= j < |v| => EncodeComponent(v[j], q.mins[j], q.scales[j]))
  }

  function Decode(q: Quantizer, codes: seq<Code>): (v: Vector)
    requires WellFormed(q, |codes|)
    ensures |v| == |codes|
    ensures forall j | 0 <= j < |v| :: v[j] == DecodeComponent(codes[j], q.mins[j], q.scales[j])
  {
    seq(|codes|, j requires 0 <= j < |codes| => DecodeComponent(codes[j], q.mins[j], q.scales[j]))
  }

  /** `x` moved into the representable range `[mn, mn + 255 * scale]`. */
  function Clamp(x: real, mn: real, scale: real): real {
    if x < mn then mn else if x > mn + 255.0 * scale then mn + 255.0 * scale else x
  }

  lemma Quotient(x: real, scale: real) returns (t: real)
    requires scale > 0.0
    ensures t == x / scale && t * scale == x
    ensures t < 0.0 <==> x < 0.0
    ensures t > 255.0 <==> x > 255.0 * scale
  {
    t := x / scale;
    assert t * scale == x;
    assert (t - 255.0) * scale == x - 255.0 * scale;
    if t < 0.0 { assert t * scale < 0.0; } else { assert t * scale >= 0.0; }
    if t > 255.0 { assert (t - 255.0) * scale > 0.0; } else { assert (255.0 - t) * scale >= 0.0; }
  }

  lemma ProductNonNegative(a: real, b: real)
    requires a >= 0.0 && b >= 0.0
    ensures a * b >= 0.0
  {
  }

  lemma ScaleHalf(c: real, t: real, scale: real)
    requires scale > 0.0 && -0.5 <= c - t <= 0.5
    ensures -(scale / 2.0) <= c * scale - t * scale <= scale / 2.0
  {
    var e := c - t;
    assert c * scale - t * scale == e * scale;
    ProductNonNegative(0.5 - e, scale);
    ProductNonNegative(0.5 + e, scale);
    assert (0.5 - e) * scale == 0.5 * scale - e * scale;
    assert (0.5 + e) * scale == 0.5 * scale + e * scale;
  }

  /** Within the representable range, rounding to the nearest code is off by at most half a step. */
  lemma InRangeError(c: Code, t: real, x: real, mn: real, scale: real)
    requires scale > 0.0 && t * scale == x - mn && -0.5 <= c as real - t <= 0.5
    ensures -(scale / 2.0) <= DecodeComponent(c, mn, scale) - x <= scale / 2.0
  {
    ScaleHalf(c as real, t, scale);
  }

  /** Decoding an encoded component lands within half a step of the clamped original. */
  lemma ComponentError(x: real, mn: real, scale: real)
    requires scale > 0.0
    ensures var d := DecodeComponent(EncodeComponent(x, mn, scale), mn, scale);
            -(scale / 2.0) <= d - Clamp(x, mn, scale) <= scale / 2.0
  {
    var t := Quotient(x - mn, scale);
    var c := EncodeComponent(x, mn, scale);
    if t < 0.0 {
      assert c == 0 && Clamp(x, mn, scale) == mn;
      assert DecodeComponent(c, mn, scale) == mn;
    } else if t > 255.0 {
      assert c == 255 && Clamp(x, mn, scale) == mn + 255.0 * scale;
      assert DecodeComponent(c, mn, scale) == mn + 255.0 * scale;
    } else {
      assert c == Round(t) && Clamp(x, mn, scale) == x;
      InRangeError(c, t, x, mn, scale);
    }
  }

  function Abs(x: real): real {
    if x < 0.0 then -x else x
  }

  /** The code chosen for position `t` of the scale is a nearest one. */
  lemma NearestCode(t: real, c: Code)
    ensures var r := Round(t);
            var chosen := if r < 0 then 0 else if r > 255 then 255 else r;
            Abs(chosen as real - t) <= Abs(c as real - t)
  {
    var r := Round(t);
    if c < r {
      assert c as real <= r as real - 1.0;
    } else if c > r {
      assert c as real >= r as real + 1.0;
    }
  }

  lemma ScaledAbs(a: real, scale: real)
    requires scale > 0.0
    ensures Abs(a * scale) == Abs(a) * scale
  {
    if a < 0.0 {
      ProductNonNegative(-a, scale);
      assert (-a) * scale == -(a * scale);
    } else {
      ProductNonNegative(a, scale);
    }
  }

  lemma ScaledOrder(a: real, b: real, scale: real)
    requires scale > 0.0 && a <= b
    ensures a * scale <= b * scale
  {
    ProductNonNegative(b - a, scale);
    assert (b - a) * scale == b * scale - a * scale;
  }

  lemma CodeError(c: Code, t: real, x: real, mn: real, scale: real)
    requires scale > 0.0 && t * scale == x - mn
    ensures Abs(DecodeComponent(c, mn, scale) - x) == Abs(c as real - t) * scale
  {
    assert (c as real - t) * scale == c as real * scale - t * scale;
    ScaledAbs(c as real - t, scale);
  }

  /** Clamped or not, a component is stored as a nearest of the 256 values its dimension has. */
  lemma StoredIsNearest(x: real, mn: real, scale: real, c: Code)
    requires scale > 0.0
    ensures Abs(DecodeComponent(EncodeComponent(x, mn, scale), mn, scale) - x) <= Abs(DecodeComponent(c, mn, scale) - x)
  {
    hide Abs;
    var t := Quotient(x - mn, scale);
    NearestCode(t, c);
    CodeError(EncodeComponent(x, mn, scale), t, x, mn, scale);
    CodeError(c, t, x, mn, scale);
    ScaledOrder(Abs(EncodeComponent(x, mn, scale) as real - t), Abs(c as real - t), scale);
  }

  /** A code survives decoding and encoding. */
  lemma ComponentRoundTrip(c: Code, mn: real, scale: real)
    requires scale > 0.0
    ensures EncodeComponent(DecodeComponent(c, mn, scale), mn, scale) == c
  {
    var x := DecodeComponent(c, mn, scale);
    assert x - mn == c as real * scale;
    assert (c as real * scale) / scale == c as real;
  }

  /** `decode(encode(v))` is within half a step of `v` clamped, in every dimension. */
  lemma QuantisationError(q: Quantizer, v: Vector)
    requires WellFormed(q, |v|)
    ensures forall j | 0 <= j < |v| ::
              var error := Decode(q, Encode(q, v))[j] - Clamp(v[j], q.mins[j], q.scales[j]);
              -(q.scales[j] / 2.0) <= error <= q.scales[j] / 2.0
  {
    forall j | 0 <= j < |v|
      ensures var error := Decode(q, Encode(q, v))[j] - Clamp(v[j], q.mins[j], q.scales[j]);
              -(q.scales[j] / 2.0) <= error <= q.scales[j] / 2.0
    {
      ComponentError(v[j], q.mins[j], q.scales[j]);
    }
  }

  /** `encode(decode(c)) == c` for every code sequence, so re-encoding a stored vector changes nothing. */
  lemma CodesRoundTrip(q: Quantizer, codes: seq<Code>)
    requires WellFormed(q, |codes|)
    ensures Encode(q, Decode(q, codes)) == codes
  {
    forall j | 0 <= j < |codes| ensures Encode(q, Decode(q, codes))[j] == codes[j] {
      ComponentRoundTrip(codes[j], q.mins[j], q.scales[j]);
    }
  }

  // --- Fitting ------------------------------------------------------------------------

  /** `lo` and `hi` are the least and greatest `j`-th components of the rows. */
  ghost predicate Spans(rows: seq<Vector>, j: nat, lo: real, hi: real)
    requires forall i | 0 <= i < |rows| :: j < |rows[i]|
  {
    && (forall i | 0 <= i < |rows| :: lo <= rows[i][j] <= hi)
    && (exists i | 0 <= i < |rows| :: rows[i][j] == lo)
    && (exists i | 0 <= i < |rows| :: rows[i][j] == hi)
  }

  function StepSize(lo: real, hi: real): (s: real)
    ensures s > 0.0
  {
    if hi - lo > 0.0 then (hi - lo) / 255.0 else 1.0
  }

  ghost predicate FittedIn(q: Quantizer, rows: seq<Vector>, j: nat)
    requires forall i | 0 <= i < |rows| :: j < |rows[i]|
    requires j < |q.mins| == |q.scales|
  {
    exists hi :: Spans(rows, j, q.mins[j], hi) && q.scales[j] == StepSize(q.mins[j], hi)
  }

  /** The quantiser's range in each dimension is exactly the data's. */
  ghost predicate FittedTo(q: Quantizer, rows: seq<Vector>, dim: nat)
    requires forall i | 0 <= i < |rows| :: |rows[i]| == dim
  {
    && WellFormed(q, dim)
    && forall j | 0 <= j < dim :: FittedIn(q, rows, j)
  }

  /** A vector the quantiser was fitted to is encoded without clamping. */
  lemma FittedVectorError(q: Quantizer, rows: seq<Vector>, dim: nat, i: nat)
    requires forall i | 0 <= i < |rows| :: |rows[i]| == dim
    requires FittedTo(q, rows, dim) && i < |rows|
    ensures forall j | 0 <= j < dim ::
              -(q.scales[j] / 2.0) <= Decode(q, Encode(q, rows[i]))[j] - rows[i][j] <= q.scales[j] / 2.0
  {
    QuantisationError(q, rows[i]);
    forall j | 0 <= j < dim ensures Clamp(rows[i][j], q.mins[j], q.scales[j]) == rows[i][j] {
      assert FittedIn(q, rows, j);
      var hi :| Spans(rows, j, q.mins[j], hi) && q.scales[j] == StepSize(q.mins[j], hi);
      assert q.mins[j] <= rows[i][j] <= hi;
    }
  }

  /** One step of a fitted dimension is a 255th of the spread of its data. */
  lemma StepOfSpread(q: Quantizer, rows: seq<Vector>, dim: nat, j: nat) returns (a: nat, b: nat)
    requires (forall i | 0 <= i < |rows| :: |rows[i]| == dim) && FittedTo(q, rows, dim) && j < dim
    ensures a < |rows| && b < |rows|
    ensures rows[a][j] == rows[b][j] || 255.0 * q.scales[j] == rows[a][j] - rows[b][j]
    ensures rows[a][j] == rows[b][j] ==> forall i | 0 <= i < |rows| :: rows[i][j] == q.mins[j]
  {
    assert FittedIn(q, rows, j);
    var hi :| Spans(rows, j, q.mins[j], hi) && q.scales[j] == StepSize(q.mins[j], hi);
    a :| a < |rows| && rows[a][j] == hi;
    b :| b < |rows| && rows[b][j] == q.mins[j];
  }

  /**
   * In terms of the data alone: component `j` of row `i` is read back within a 510th of the spread of that
   * component over the rows, and exactly if there is none.
   */
  ghost predicate ReadsClose(q: Quantizer, rows: seq<Vector>, i: nat, j: nat)
    requires i < |rows| && j < |rows[i]| && WellFormed(q, |rows[i]|)
    requires forall m | 0 <= m < |rows| :: j < |rows[m]|
  {
    exists a, b | 0 <= a < |rows| && 0 <= b < |rows| ::
      510.0 * Abs(Decode(q, Encode(q, rows[i]))[j] - rows[i][j]) <= rows[a][j] - rows[b][j]
  }

  lemma FittedErrorOfData(q: Quantizer, rows: seq<Vector>, dim: nat, i: nat, j: nat)
    requires (forall m | 0 <= m < |rows| :: |rows[m]| == dim) && FittedTo(q, rows, dim) && i < |rows| && j < dim
    ensures ReadsClose(q, rows, i, j)
  {
    FittedVectorError(q, rows, dim, i);
    var a, b := StepOfSpread(q, rows, dim, j);
    if rows[a][j] == rows[b][j] {
      MinimumIsExact(q.mins[j], q.scales[j]);
    }
  }

  /** The least value of a dimension is stored exactly. */
  lemma MinimumIsExact(mn: real, scale: real)
    requires scale > 0.0
    ensures DecodeComponent(EncodeComponent(mn, mn, scale), mn, scale) == mn
  {
    assert mn - mn == 0.0;
    assert EncodeComponent(mn, mn, scale) == 0;
  }

  /** Every component is a finite `f32`. */
  ghost predicate Finite(v: Vector) {
    forall j | 0 <= j < |v| :: -F32_MAX <= v[j] <= F32_MAX
  }

  /** Componentwise minimum (`keep` the smaller) of a running bound and a vector. */
  method Lower(bound: Vector, v: Vector) returns (r: Vector)
    requires |bound| == |v|
    ensures |r| == |v| && forall j | 0 <= j < |v| :: r[j] == if v[j] < bound[j] then v[j] else bound[j]
  {
    r := bound;
    for j := 0 to |v|
      invariant |r| == |v|
      invariant forall i | 0 <= i < |v| :: r[i] == if i < j && v[i] < bound[i] then v[i] else bound[i]
    {
      if v[j] < r[j] { r := r[j := v[j]]; }
    }
  }

  method Raise(bound: Vector, v: Vector) returns (r: Vector)
    requires |bound| == |v|
    ensures |r| == |v| && forall j | 0 <= j < |v| :: r[j] == if v[j] > bound[j] then v[j] else bound[j]
  {
    r := bound;
    for j := 0 to |v|
      invariant |r| == |v|
      invariant forall i | 0 <= i < |v| :: r[i] == if i < j && v[i] > bound[i] then v[i] else bound[i]
    {
      if v[j] > r[j] { r := r[j := v[j]]; }
    }
  }

  ghost predicate AllRowsFinite(rows: seq<Vector>) {
    forall i | 0 <= i < |rows| :: Finite(rows[i])
  }

  /** The running bounds after some rows: untouched before the first, the span of the rows after. */
  ghost predicate Bounds(rows: seq<Vector>, dim: nat, mins: Vector, maxs: Vector)
    requires forall i | 0 <= i < |rows| :: |rows[i]| == dim
  {
    && |mins| == |maxs| == dim
    && forall j | 0 <= j < dim ::
         if rows == [] then mins[j] == F32_MAX && maxs[j] == -F32_MAX else Spans(rows, j, mins[j], maxs[j])
  }

  lemma BoundsStep(rows: seq<Vector>, dim: nat, i: nat, mins: Vector, maxs: Vector, lows: Vector, highs: Vector)
    requires i < |rows| && (forall m | 0 <= m < |rows| :: |rows[m]| == dim) && Finite(rows[i])
    requires Bounds(rows[..i], dim, mins, maxs) && |lows| == |highs| == dim
    requires forall j | 0 <= j < dim :: lows[j] == if rows[i][j] < mins[j] then rows[i][j] else mins[j]
    requires forall j | 0 <= j < dim :: highs[j] == if rows[i][j] > maxs[j] then rows[i][j] else maxs[j]
    ensures Bounds(rows[..i + 1], dim, lows, highs)
  {
    forall j | 0 <= j < dim ensures Spans(rows[..i + 1], j, lows[j], highs[j]) {
      SpanStep(rows, i, j, mins[j], maxs[j]);
    }
  }

  /** Every fitted component reads back within a 510th of its spread over the rows, exactly if there is none. */
  ghost predicate RowsReadClose(q: Quantizer, rows: seq<Vector>, dim: nat)
    requires WellFormed(q, dim) && forall i | 0 <= i < |rows| :: |rows[i]| == dim
  {
    forall i, j | 0 <= i < |rows| && 0 <= j < dim :: ReadsClose(q, rows, i, j)
  }

  lemma FittedReadsClose(q: Quantizer, rows: seq<Vector>, dim: nat)
    requires (forall i | 0 <= i < |rows| :: |rows[i]| == dim) && FittedTo(q, rows, dim)
    ensures WellFormed(q, dim) && RowsReadClose(q, rows, dim)
  {
    hide FittedIn, ReadsClose;
    forall i, j | 0 <= i < |rows| && 0 <= j < dim ensures ReadsClose(q, rows, i, j) {
      FittedErrorOfData(q, rows, dim, i, j);
    }
  }

  /** Fit to `n` rows of a slab. On finite `f32` values the quantiser's range is exactly theirs. */
  method Fit(data: seq<real>, n: nat, dim: nat) returns (q: Quantizer)
    requires |data| == Offset(n, dim) && n > 0
    ensures WellFormed(q, dim)
    ensures AllRowsFinite(Rows(data, dim, n)) ==>
              FittedTo(q, Rows(data, dim, n), dim) && RowsReadClose(q, Rows(data, dim, n), dim)
  {
    hide Spans, Finite, RowsReadClose;
    var rows := Rows(data, dim, n);
    var mins, maxs := seq(dim, _ => F32_MAX), seq(dim, _ => -F32_MAX);
    assert rows[..0] == [];
    for i := 0 to n
      invariant |mins| == |maxs| == dim && (AllRowsFinite(rows) ==> Bounds(rows[..i], dim, mins, maxs))
    {
      var lows := Lower(mins, rows[i]);
      var highs := Raise(maxs, rows[i]);
      if AllRowsFinite(rows) {
        BoundsStep(rows, dim, i, mins, maxs, lows, highs);
      }
      mins, maxs := lows, highs;
    }
    assert rows[..n] == rows;
    q := Quantizer(mins, seq(dim, j requires 0 <= j < dim => StepSize(mins[j], maxs[j])));
    if AllRowsFinite(rows) {
      forall j | 0 <= j < dim ensures FittedIn(q, rows, j) {
        assert Spans(rows, j, q.mins[j], maxs[j]);
      }
      FittedReadsClose(q, rows, dim);
    }
  }

  lemma SpanStep(rows: seq<Vector>, i: nat, j: nat, lo: real, hi: real)
    requires i < |rows| && forall m | 0 <= m < |rows| :: j < |rows[m]|
    requires Finite(rows[i])
    requires if i == 0 then lo == F32_MAX && hi == -F32_MAX else Spans(rows[..i], j, lo, hi)
    ensures var x := rows[i][j];
            Spans(rows[..i + 1], j, if x < lo then x else lo, if x > hi then x else hi)
  {
    var x := rows[i][j];
    var next := rows[..i + 1];
    assert next[i][j] == x;
    if i > 0 {
      var a :| 0 <= a < i && rows[..i][a][j] == lo;
      var b :| 0 <= b < i && rows[..i][b][j] == hi;
      assert next[a][j] == lo && next[b][j] == hi;
      forall m | 0 <= m < |next|
        ensures (if x < lo then x else lo) <= next[m][j] <= (if x > hi then x else hi)
      {
        if m < i { assert rows[..i][m][j] == next[m][j]; }
      }
    }
  }
}
