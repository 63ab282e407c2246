/** Failure-compatible wrappers used by every module of the model. */
module Wrappers {

  datatype Option<+T> = None | Some(value: T)

  datatype Result<+T, +E> = Success(value: T) | Failure(error: E) {
    predicate IsFailure() { Failure? }

    function PropagateFailure<U>(): Result<U, E>
      requires Failure?
    {
      Failure(error)
    }

    function Extract(): T
      requires Success?
    {
      value
    }
  }

  datatype Outcome<+E> = Pass | Fail(error: E)
}

/** The Python exceptions the modelled code can raise, as values. */
module Errors {

  datatype Error =
    | ZeroDivisionError   // `x / 0` or `x // 0` on Python numbers
    | IndexError          // subscript past the end of a list or array
    | ValueError          // numpy/range argument out of domain (negative count, zero step, shape mismatch)
    | KeyError(key: string)
    | RuntimeError        // torch.stack of an empty list, tensor view of the wrong size
}

/** Exact arithmetic helpers: factorials, powers and the numpy grids `linspace` and `range`. */
module Numerics {

  /** k! as a natural number. */
  function FactorialNat(k: nat): (f: nat)
    ensures f >= 1
  {
    if k == 0 then 1 else k * FactorialNat(k - 1)
  }

  /**
   * k! as a real, the value scipy's `factorial` returns. It is a non-recursive name for
   * `FactorialNat`, so products that mention it are compared term by term by the solver.
   */
  function Factorial(k: nat): (f: real)
    ensures f >= 1.0
  {
    FactorialNat(k) as real
  }

  /** `x ** k` by repeated multiplication; `0 ** 0 == 1`, as numpy's `power` gives. */
  function Power(x: real, k: nat): real
  {
    if k == 0 then 1.0 else x * Power(x, k - 1)
  }

  /** `x ** k` under a non-recursive name, for the same reason as `Factorial`. */
  function Pow(x: real, k: nat): real
  {
    Power(x, k)
  }

  /** One more factor: `x ** k == x * x ** (k - 1)`. */
  lemma PowStep(x: real, k: nat)
    requires k >= 1
    ensures Pow(x, k) == x * Pow(x, k - 1)
  {
  }

  lemma {:induction false} PowOfProduct(x: real, y: real, k: nat)
    ensures Pow(x * y, k) == Pow(x, k) * Pow(y, k)
  {
    if k > 0 {
      PowOfProduct(x, y, k - 1);
      var a, b := Pow(x, k - 1), Pow(y, k - 1);
      PowStep(x * y, k);
      PowStep(x, k);
      PowStep(y, k);
      assert (x * y) * (a * b) == (x * a) * (y * b);
    }
  }

  lemma {:induction false} PowOfOne(k: nat)
    ensures Pow(1.0, k) == 1.0
  {
    if k > 0 {
      PowOfOne(k - 1);
      PowStep(1.0, k);
    }
  }

  lemma {:induction false} PowOfZero(k: nat)
    requires k >= 1
    ensures Pow(0.0, k) == 0.0
  {
    PowStep(0.0, k);
  }

  /** A power of the reciprocal undoes the power: `(1/d)^k * d^k == 1`. */
  lemma PowReciprocal(d: real, k: nat)
    requires d != 0.0
    ensures Pow(1.0 / d, k) * Pow(d, k) == 1.0
  {
    var inv := 1.0 / d;
    PowOfProduct(inv, d, k);
    assert inv * d == 1.0;
    PowOfOne(k);
  }

  /**
   * numpy's `linspace(start, stop, n)` with its default `endpoint=True`:
   * `n` samples, the first `start`, the last exactly `stop`, evenly spaced.
   * numpy computes `start + i * step` and then overwrites the last sample with `stop`.
   */
  function Linspace(start: real, stop: real, n: nat): (ts: seq<real>)
    ensures |ts| == n
    ensures n >= 1 ==> ts[0] == start
    ensures n >= 2 ==> ts[n - 1] == stop
    ensures n >= 2 ==> forall i :: 0 <= i < n ==> ts[i] == start + (i as real) * (stop - start) / ((n - 1) as real)
    ensures n >= 2 ==> forall i :: 1 <= i < n ==> ts[i] - ts[i - 1] == (stop - start) / ((n - 1) as real)
  {
    var step := if n >= 2 then (stop - start) / ((n - 1) as real) else 0.0;
    var ts := seq(n, i requires 0 <= i < n => if n >= 2 && i == n - 1 then stop else start + (i as real) * step);
    if n >= 2 then
      assert ((n - 1) as real) * step == stop - start;
      ts
    else
      ts
  }

  /** Python's `range(start, stop, step)` for a positive step. */
  function RangeFrom(start: int, stop: int, step: nat): seq<int>
    requires step > 0
    decreases stop - start
  {
    if start >= stop then [] else [start] + RangeFrom(start + step, stop, step)
  }

  /**
   * The elements of `range(start, stop, step)`: the k-th is `start + k * step`, all lie
   * below `stop`, and the next one would not, so no value of that form below `stop` is missed.
   */
  lemma {:induction false} RangeFromElements(start: int, stop: int, step: nat)
    requires step > 0
    ensures var r := RangeFrom(start, stop, step);
      && (forall k :: 0 <= k < |r| ==> r[k] == start + k * step && r[k] < stop)
      && start + |r| * step >= stop
    decreases stop - start
  {
    var r := RangeFrom(start, stop, step);
    if start < stop {
      var rest := RangeFrom(start + step, stop, step);
      RangeFromElements(start + step, stop, step);
      assert r == [start] + rest;
      forall k | 0 <= k < |r|
        ensures r[k] == start + k * step && r[k] < stop
      {
        if k > 0 {
          NextMultiple(start, step, k);
          assert r[k] == rest[k - 1];
        }
      }
      NextMultiple(start, step, |r|);
    }
  }

  lemma NextMultiple(start: int, step: int, k: int)
    ensures start + step + (k - 1) * step == start + k * step
  {
  }

  /** Every value `start + j * step` below `stop` occurs in `range(start, stop, step)`, at position j. */
  lemma RangeFromComplete(start: int, stop: int, step: nat, j: nat)
    requires step > 0 && start + j * step < stop
    ensures j < |RangeFrom(start, stop, step)| && RangeFrom(start, stop, step)[j] == start + j * step
  {
    var r := RangeFrom(start, stop, step);
    RangeFromElements(start, stop, step);
  }

  // Small facts of real arithmetic, each kept in a context of its own so that the solver's
  // nonlinear reasoning stays cheap.

  lemma CancelReciprocal(a: real, p: real, q: real)
    requires a != 0.0 && p * q == 1.0
    ensures ((1.0 / a) * p) * a * q == 1.0
  {
  }

  lemma ScaleProduct(c: real, f: real, a: real, q: real)
    requires f * a * q == 1.0
    ensures (c * f) * a * q == c
  {
    var x := f * a * q;
    assert (c * f) * a * q == c * x;
  }

  lemma CancelCommon(x: real, y: real, a: real, p: real, t: real)
    requires a != 0.0 && x * a * p == t && y * a == t
    ensures x * p == y
  {
    assert (x * p) * a == y * a;
  }

  lemma Regroup(n: real, c: real, p: real, q: real, pq: real, m: real)
    requires pq == p * q && n * q == m
    ensures n * c * pq == m * c * p
  {
    assert n * c * (p * q) == (n * q) * c * p;
  }

  lemma DropUnitFactor(x: real, y: real, one: real, t: real)
    requires one == 1.0 && x * y * one == t
    ensures x * y == t
  {
  }

  /** `a^2 (c^2 + d^2) = a^2` when `c^2 + d^2 = 1`, written out term by term. */
  lemma UnitProducts(a: real, c: real, d: real)
    requires c * c + d * d == 1.0
    ensures (a * d) * (a * d) + (a * c) * (a * c) == a * a
  {
    var aa := a * a;
    assert (a * d) * (a * d) + (a * c) * (a * c) == aa * (c * c + d * d);
  }

  /** Python's `int(x)` on a float: truncation toward zero. */
  function Truncate(x: real): (n: int)
    ensures x >= 0.0 ==> 0.0 <= n as real <= x < n as real + 1.0
    ensures x < 0.0 ==> n as real - 1.0 < x <= n as real <= 0.0
  {
    if x >= 0.0 then x.Floor else -((-x).Floor)
  }
}

/** Vectors, 4-wide matrices and the trigonometric functions the model is parameterised by. */
module Geometry {

  import opened Numerics

  /** numpy's `np.pi`. */
  const Pi: real := 3.141592653589793

  /**
   * The sine and cosine the code calls. The model does not define them: every
   * statement that needs trigonometry assumes only the Pythagorean identity.
   */
  datatype Trig = Trig(sin: real -> real, cos: real -> real)

  ghost predicate Pythagorean(trig: Trig)
  {
    forall a: real :: trig.sin(a) * trig.sin(a) + trig.cos(a) * trig.cos(a) == 1.0
  }

  datatype Vec3 = Vec3(x: real, y: real, z: real)
  {
    function Plus(v: Vec3): Vec3 { Vec3(x + v.x, y + v.y, z + v.z) }
    function Minus(v: Vec3): Vec3 { Vec3(x - v.x, y - v.y, z - v.z) }
    function Scale(k: real): Vec3 { Vec3(k * x, k * y, k * z) }
  }

  function Dot(u: Vec3, v: Vec3): real
  {
    u.x * v.x + u.y * v.y + u.z * v.z
  }

  function Cross(u: Vec3, v: Vec3): Vec3
  {
    Vec3(u.y * v.z - u.z * v.y, u.z * v.x - u.x * v.z, u.x * v.y - u.y * v.x)
  }

  /** The determinant of the 3x3 matrix whose columns are a, b, c. */
  function Det(a: Vec3, b: Vec3, c: Vec3): real
  {
    Dot(Cross(a, b), c)
  }

  /** Three columns of unit length, pairwise perpendicular. */
  predicate Orthonormal(a: Vec3, b: Vec3, c: Vec3)
  {
    && Dot(a, a) == 1.0 && Dot(b, b) == 1.0 && Dot(c, c) == 1.0
    && Dot(a, b) == 0.0 && Dot(a, c) == 0.0 && Dot(b, c) == 0.0
  }

  /** A matrix as nested lists, row-major, as numpy's `tolist()` and the JSON scene hold it. */
  type Matrix = seq<seq<real>>

  predicate IsMatrix(m: Matrix, rows: nat, cols: nat)
  {
    |m| == rows && forall i :: 0 <= i < |m| ==> |m[i]| == cols
  }

  /** The upper three entries of column j. */
  function Column(m: Matrix, j: nat): Vec3
    requires |m| >= 3 && forall i :: 0 <= i < 3 ==> j < |m[i]|
  {
    Vec3(m[0][j], m[1][j], m[2][j])
  }

  const BottomRow: seq<real> := [0.0, 0.0, 0.0, 1.0]

  /** Row i of `a` times column j of `b`, for a row of length 4. */
  function RowCol(row: seq<real>, b: Matrix, j: nat): real
    requires |row| == 4 && IsMatrix(b, 4, 4) && j < 4
  {
    row[0] * b[0][j] + row[1] * b[1][j] + row[2] * b[2][j] + row[3] * b[3][j]
  }

  /** numpy's `a @ b` for an n x 4 matrix `a` and a 4 x 4 matrix `b`. */
  function MatMul(a: Matrix, b: Matrix): (c: Matrix)
    requires IsMatrix(a, |a|, 4) && IsMatrix(b, 4, 4)
    ensures IsMatrix(c, |a|, 4)
    ensures forall i, j :: 0 <= i < |a| && 0 <= j < 4 ==> c[i][j] == RowCol(a[i], b, j)
  {
    seq(|a|, i requires 0 <= i < |a| => seq(4, j requires 0 <= j < 4 => RowCol(a[i], b, j)))
  }

  /** A product of two matrices whose bottom row is [0,0,0,1] keeps that bottom row. */
  lemma MatMulKeepsBottomRow(a: Matrix, b: Matrix)
    requires IsMatrix(a, 4, 4) && IsMatrix(b, 4, 4)
    requires a[3] == BottomRow && b[3] == BottomRow
    ensures MatMul(a, b)[3] == BottomRow
  {
    var c := MatMul(a, b);
    forall j | 0 <= j < 4 ensures c[3][j] == BottomRow[j] {
      assert c[3][j] == RowCol(a[3], b, j);
    }
  }
}
