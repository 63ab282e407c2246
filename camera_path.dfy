/**
 * The polynomial camera-path generator (`polar_2_extrinsic` of camera_path_generator.py).
 *
 * Each of the spherical parameters r (radius), theta (polar angle) and phi (azimuth) is a
 * truncated Taylor series in time whose k-th coefficient is a derivative expressed over the
 * whole duration. The series are sampled on an inclusive time grid and every sample becomes a
 * 4x4 camera-to-world matrix with columns S, U, B (the spherical tangent/radial frame) and the
 * camera centre C.
 */
module CameraPath {

  import opened Wrappers
  import opened Errors
  import opened Numerics
  import opened Geometry
  import opened SceneDescription

  /**
   * The numpy array `coefs`: `rows[0]`, `rows[1]`, `rows[2]` are the r, theta and phi
   * coefficients, `cols` is `coefs.shape[1]` (the series length l). Rows past the third are
   * never read.
   */
  datatype Coefficients = Coefficients(rows: seq<seq<real>>, cols: nat)

  /** A numpy 2-D array is rectangular: every row has `cols` entries. */
  predicate WellShaped(coefs: Coefficients)
  {
    forall i :: 0 <= i < |coefs.rows| ==> |coefs.rows[i]| == coefs.cols
  }

  /** `r_norm[k] = (1/k!) * (1/duration)^k`: coefficient k is a derivative over the whole duration. */
  function RadiusNorm(k: nat, duration: real): (f: real)
    requires duration != 0.0
    ensures f * Factorial(k) * Pow(duration, k) == 1.0
  {
    var fact := Factorial(k);
    var p := Pow(1.0 / duration, k);
    PowReciprocal(duration, k);
    CancelReciprocal(fact, p, Pow(duration, k));
    (1.0 / fact) * p
  }

  /**
   * `rad_norm[k] = 2*pi * (1/k!) * (1/duration)^k`, overwritten with 1 at k = 0: angular
   * coefficients past the first count whole turns over the duration.
   */
  function AngleNorm(k: nat, duration: real): (f: real)
    requires duration != 0.0
    ensures k == 0 ==> f == 1.0
    ensures k >= 1 ==> f * Factorial(k) * Pow(duration, k) == 2.0 * Pi
  {
    if k == 0 then 1.0
    else
      var fact := Factorial(k);
      var p := Pow(1.0 / duration, k);
      PowReciprocal(duration, k);
      CancelReciprocal(fact, p, Pow(duration, k));
      ScaleProduct(2.0 * Pi, (1.0 / fact) * p, fact, Pow(duration, k));
      2.0 * Pi * (1.0 / fact) * p
  }

  function Norm(k: nat, duration: real, angular: bool): real
    requires duration != 0.0
  {
    if angular then AngleNorm(k, duration) else RadiusNorm(k, duration)
  }

  lemma RadiusNormScale(k: nat, duration: real)
    requires duration != 0.0
    ensures RadiusNorm(k, duration) * Pow(duration, k) == RadiusNorm(k, 1.0)
  {
    PowOfOne(k);
    DropUnitFactor(RadiusNorm(k, 1.0), Factorial(k), Pow(1.0, k), 1.0);
    CancelCommon(RadiusNorm(k, duration), RadiusNorm(k, 1.0), Factorial(k), Pow(duration, k), 1.0);
  }

  lemma AngleNormScale(k: nat, duration: real)
    requires duration != 0.0
    ensures AngleNorm(k, duration) * Pow(duration, k) == AngleNorm(k, 1.0)
  {
    PowOfOne(k);
    if k >= 1 {
      DropUnitFactor(AngleNorm(k, 1.0), Factorial(k), Pow(1.0, k), 2.0 * Pi);
      CancelCommon(AngleNorm(k, duration), AngleNorm(k, 1.0), Factorial(k), Pow(duration, k), 2.0 * Pi);
    }
  }

  /** Scaling time by the duration cancels the duration out of a normalisation factor. */
  lemma NormScale(k: nat, duration: real, angular: bool)
    requires duration != 0.0
    ensures Norm(k, duration, angular) * Pow(duration, k) == Norm(k, 1.0, angular)
  {
    if angular { AngleNormScale(k, duration); } else { RadiusNormScale(k, duration); }
  }

  /**
   * One row sum of lines 22-24: `sum_k norm[k] * c[k] * t^k` over the coefficients of `c`,
   * added from the first coefficient to the last.
   */
  function Taylor(c: seq<real>, duration: real, angular: bool, t: real): real
    requires duration != 0.0
    decreases |c|
  {
    if |c| == 0 then 0.0
    else Taylor(c[..|c| - 1], duration, angular, t) + Term(c, |c| - 1, duration, angular, t)
  }

  /** Term k of a series: `norm[k] * c[k] * t^k`. */
  function Term(c: seq<real>, k: nat, duration: real, angular: bool, t: real): real
    requires k < |c| && duration != 0.0
  {
    Norm(k, duration, angular) * c[k] * Pow(t, k)
  }

  /** At time 0 only the 0th coefficient survives: it is the initial value of the parameter. */
  lemma {:induction false} TaylorAtZero(c: seq<real>, duration: real, angular: bool)
    requires duration != 0.0 && |c| >= 1
    ensures Taylor(c, duration, angular, 0.0) == c[0]
    decreases |c|
  {
    var k := |c| - 1;
    if k == 0 {
      assert c[..0] == [];
    } else {
      assert c[..k][0] == c[0];
      TaylorAtZero(c[..k], duration, angular);
      PowOfZero(k);
    }
  }

  /** A series of length one is the constant `c[0]` at every time. */
  lemma TaylorConstant(c: seq<real>, duration: real, angular: bool, t: real)
    requires duration != 0.0 && |c| == 1
    ensures Taylor(c, duration, angular, t) == c[0]
  {
    assert c[..0] == [];
  }

  /** One term of the series, evaluated at the fraction s of the duration, does not depend on the duration. */
  lemma TermScaleInvariant(c: seq<real>, k: nat, duration: real, angular: bool, s: real)
    requires k < |c| && duration != 0.0
    ensures Term(c, k, duration, angular, s * duration) == Term(c, k, 1.0, angular, s)
  {
    TermFactors(c, k, duration, angular, s * duration);
    TermFactors(c, k, 1.0, angular, s);
    FactorsScale(c[k], k, duration, angular, s);
  }

  /** The factors of `TermScaleInvariant`: the norm absorbs the duration's power. */
  lemma FactorsScale(ck: real, k: nat, duration: real, angular: bool, s: real)
    requires duration != 0.0
    ensures Norm(k, duration, angular) * ck * Pow(s * duration, k) == Norm(k, 1.0, angular) * ck * Pow(s, k)
  {
    PowOfProduct(s, duration, k);
    NormScale(k, duration, angular);
    Regroup(Norm(k, duration, angular), ck, Pow(s, k), Pow(duration, k), Pow(s * duration, k), Norm(k, 1.0, angular));
  }

  lemma TermFactors(c: seq<real>, k: nat, duration: real, angular: bool, t: real)
    requires k < |c| && duration != 0.0
    ensures Term(c, k, duration, angular, t) == Norm(k, duration, angular) * c[k] * Pow(t, k)
  {
  }

  /**
   * The series is invariant under rescaling the duration: at the fraction s of the duration,
   * its value does not depend on the duration.
   */
  lemma {:induction false} TaylorScaleInvariant(c: seq<real>, duration: real, angular: bool, s: real)
    requires duration != 0.0
    ensures Taylor(c, duration, angular, s * duration) == Taylor(c, 1.0, angular, s)
    decreases |c|
  {
    if |c| > 0 {
      var k := |c| - 1;
      TaylorScaleInvariant(c[..k], duration, angular, s);
      TermScaleInvariant(c, k, duration, angular, s);
    }
  }

  /**
   * The spherical frame S = (-sin phi, cos phi, 0), U = (cos theta cos phi, cos theta sin phi, -sin theta),
   * B = (sin theta cos phi, sin theta sin phi, cos theta), in terms of the four sines and cosines.
   */
  lemma SphericalFrame(s: Vec3, u: Vec3, b: Vec3, st: real, ct: real, sp: real, cp: real)
    requires st * st + ct * ct == 1.0 && sp * sp + cp * cp == 1.0
    requires s == Vec3(-sp, cp, 0.0) && u == Vec3(ct * cp, ct * sp, -st) && b == Vec3(st * cp, st * sp, ct)
    ensures Orthonormal(s, u, b)
    ensures Cross(s, u) == b.Scale(-1.0)
    ensures Det(s, u, b) == -1.0
  {
    FrameUnits(st, ct, sp, cp);
    FramePerpendicular(st, ct, sp, cp);
    FrameCross(st, ct, sp, cp);
    assert Det(s, u, b) == -Dot(b, b);
  }

  /** S, U and B have unit length. */
  lemma FrameUnits(st: real, ct: real, sp: real, cp: real)
    requires st * st + ct * ct == 1.0 && sp * sp + cp * cp == 1.0
    ensures Dot(Vec3(-sp, cp, 0.0), Vec3(-sp, cp, 0.0)) == 1.0
    ensures Dot(Vec3(ct * cp, ct * sp, -st), Vec3(ct * cp, ct * sp, -st)) == 1.0
    ensures Dot(Vec3(st * cp, st * sp, ct), Vec3(st * cp, st * sp, ct)) == 1.0
  {
    UnitProducts(ct, sp, cp);
    UnitProducts(st, sp, cp);
  }

  /** S, U and B are pairwise perpendicular. */
  lemma FramePerpendicular(st: real, ct: real, sp: real, cp: real)
    requires sp * sp + cp * cp == 1.0
    ensures Dot(Vec3(-sp, cp, 0.0), Vec3(ct * cp, ct * sp, -st)) == 0.0
    ensures Dot(Vec3(-sp, cp, 0.0), Vec3(st * cp, st * sp, ct)) == 0.0
    ensures Dot(Vec3(ct * cp, ct * sp, -st), Vec3(st * cp, st * sp, ct)) == 0.0
  {
    var k := ct * st;
    assert Dot(Vec3(ct * cp, ct * sp, -st), Vec3(st * cp, st * sp, ct)) == k * (cp * cp + sp * sp) - k;
  }

  /** S x U = -B. */
  lemma FrameCross(st: real, ct: real, sp: real, cp: real)
    requires sp * sp + cp * cp == 1.0
    ensures Cross(Vec3(-sp, cp, 0.0), Vec3(ct * cp, ct * sp, -st)) == Vec3(st * cp, st * sp, ct).Scale(-1.0)
  {
    var w := Cross(Vec3(-sp, cp, 0.0), Vec3(ct * cp, ct * sp, -st));
    assert w.z == -(sp * (ct * sp)) - cp * (ct * cp);
    assert w.z == -ct * (sp * sp + cp * cp);
  }

  /** The 4x4 camera-to-world matrix of lines 33-57 for one sample (r, theta, phi). */
  function CameraMatrix(r: real, theta: real, phi: real, trig: Trig): (m: Matrix)
    ensures IsMatrix(m, 4, 4)
  {
    CameraMatrixOf(r, trig.sin(theta), trig.cos(theta), trig.sin(phi), trig.cos(phi))
  }

  /** The same matrix from the sines and cosines of theta and phi. */
  function CameraMatrixOf(r: real, st: real, ct: real, sp: real, cp: real): (m: Matrix)
    ensures IsMatrix(m, 4, 4)
  {
    [ [-sp, ct * cp, st * cp, r * st * cp],
      [cp, ct * sp, st * sp, r * st * sp],
      [0.0, -st, ct, r * ct],
      [0.0, 0.0, 0.0, 1.0] ]
  }

  /**
   * Every camera matrix is a rigid pose: bottom row [0,0,0,1], translation r times the radial
   * column, and, given sin^2 + cos^2 = 1, orthonormal columns S, U, B with S horizontal.
   * The frame is left-handed: S x U = -B, so the rotation block has determinant -1.
   */
  lemma CameraFrame(r: real, theta: real, phi: real, trig: Trig)
    requires Pythagorean(trig)
    ensures var m := CameraMatrix(r, theta, phi, trig);
      && m[3] == BottomRow
      && Column(m, 3) == Column(m, 2).Scale(r)
      && m[2][0] == 0.0
      && Orthonormal(Column(m, 0), Column(m, 1), Column(m, 2))
      && Cross(Column(m, 0), Column(m, 1)) == Column(m, 2).Scale(-1.0)
      && Det(Column(m, 0), Column(m, 1), Column(m, 2)) == -1.0
  {
    var st, ct := trig.sin(theta), trig.cos(theta);
    var sp, cp := trig.sin(phi), trig.cos(phi);
    assert st * st + ct * ct == 1.0 && sp * sp + cp * cp == 1.0;
    CameraFrameOf(r, st, ct, sp, cp);
  }

  /** `CameraFrame` in terms of the sines and cosines. */
  lemma CameraFrameOf(r: real, st: real, ct: real, sp: real, cp: real)
    requires st * st + ct * ct == 1.0 && sp * sp + cp * cp == 1.0
    ensures var m := CameraMatrixOf(r, st, ct, sp, cp);
      && m[3] == BottomRow
      && Column(m, 3) == Column(m, 2).Scale(r)
      && m[2][0] == 0.0
      && Orthonormal(Column(m, 0), Column(m, 1), Column(m, 2))
      && Cross(Column(m, 0), Column(m, 1)) == Column(m, 2).Scale(-1.0)
      && Det(Column(m, 0), Column(m, 1), Column(m, 2)) == -1.0
  {
    var m := CameraMatrixOf(r, st, ct, sp, cp);
    CameraColumns(r, st, ct, sp, cp);
    SphericalFrame(Column(m, 0), Column(m, 1), Column(m, 2), st, ct, sp, cp);
  }

  /** The four columns of a camera matrix. */
  lemma CameraColumns(r: real, st: real, ct: real, sp: real, cp: real)
    ensures var m := CameraMatrixOf(r, st, ct, sp, cp);
      && m[3] == BottomRow && m[2][0] == 0.0
      && Column(m, 0) == Vec3(-sp, cp, 0.0)
      && Column(m, 1) == Vec3(ct * cp, ct * sp, -st)
      && Column(m, 2) == Vec3(st * cp, st * sp, ct)
      && Column(m, 3) == Column(m, 2).Scale(r)
  {
    Reassociate(r, st, cp);
    Reassociate(r, st, sp);
  }

  lemma Reassociate(r: real, a: real, b: real)
    ensures r * a * b == (a * b) * r
  {
  }

  /** The matrix for the sample at time t (lines 22-24 evaluated at one row of `times`). */
  function FrameAt(coefs: Coefficients, duration: real, t: real, trig: Trig): Matrix
    requires |coefs.rows| >= 3 && duration != 0.0
  {
    CameraMatrix(
      Taylor(coefs.rows[0], duration, false, t),
      Taylor(coefs.rows[1], duration, true, t),
      Taylor(coefs.rows[2], duration, true, t),
      trig)
  }

  /**
   * `polar_2_extrinsic(fps, duration, coefs)`: `fps * duration` camera matrices in time order,
   * sampled at `linspace(0, duration, fps * duration)`. It fails where Python does: `1/duration`
   * with duration 0, `rad_norm[0]` with no coefficient column, a negative sample count, fewer
   * than three coefficient rows.
   */
  function PolarToExtrinsic(fps: int, duration: int, coefs: Coefficients, trig: Trig): (res: Result<seq<Matrix>, Error>)
    requires WellShaped(coefs)
    ensures res.Success? <==> duration != 0 && coefs.cols >= 1 && fps * duration >= 0 && |coefs.rows| >= 3
    ensures duration == 0 ==> res == Failure(ZeroDivisionError)
    ensures duration != 0 && coefs.cols == 0 ==> res == Failure(IndexError)
    ensures duration != 0 && coefs.cols >= 1 && fps * duration < 0 ==> res == Failure(ValueError)
    ensures duration != 0 && coefs.cols >= 1 && fps * duration >= 0 && |coefs.rows| < 3 ==> res == Failure(IndexError)
    ensures res.Success? ==> |res.value| == fps * duration
    ensures res.Success? ==> forall i :: 0 <= i < |res.value| ==> IsMatrix(res.value[i], 4, 4)
  {
    if duration == 0 then Failure(ZeroDivisionError)
    else if coefs.cols == 0 then Failure(IndexError)
    else if fps * duration < 0 then Failure(ValueError)
    else if |coefs.rows| < 3 then Failure(IndexError)
    else
      var n := fps * duration;
      var times := Linspace(0.0, duration as real, n);
      Success(seq(n, i requires 0 <= i < n => FrameAt(coefs, duration as real, times[i], trig)))
  }

  /**
   * Frame i is the camera matrix at the i-th sample of `linspace(0, duration, n)`, and the
   * frames are in time order: for a positive duration each sample comes strictly after the
   * one before it.
   */
  lemma PathFrame(fps: int, duration: int, coefs: Coefficients, trig: Trig, i: int)
    requires WellShaped(coefs) && PolarToExtrinsic(fps, duration, coefs, trig).Success?
    requires 0 <= i < fps * duration
    ensures duration != 0 && |coefs.rows| >= 3
    ensures PolarToExtrinsic(fps, duration, coefs, trig).value[i]
         == FrameAt(coefs, duration as real, Linspace(0.0, duration as real, fps * duration)[i], trig)
    ensures duration > 0 && i + 1 < fps * duration ==>
      Linspace(0.0, duration as real, fps * duration)[i] < Linspace(0.0, duration as real, fps * duration)[i + 1]
  {
    var n := fps * duration;
    if duration > 0 && i + 1 < n {
      var ts := Linspace(0.0, duration as real, n);
      PositiveStep(duration as real, n - 1);
      assert ts[i + 1] - ts[i] == (duration as real - 0.0) / ((n - 1) as real);
    }
  }

  lemma PositiveStep(d: real, m: int)
    requires d > 0.0 && m >= 1
    ensures (d - 0.0) / (m as real) > 0.0
  {
  }

  /**
   * Every matrix of a generated path is a rigid pose whose translation is the radius of its
   * sample times its radial column, with orthonormal rotation columns.
   */
  lemma PathIsRigid(fps: int, duration: int, coefs: Coefficients, trig: Trig)
    requires WellShaped(coefs) && Pythagorean(trig)
    requires PolarToExtrinsic(fps, duration, coefs, trig).Success?
    ensures var path := PolarToExtrinsic(fps, duration, coefs, trig).value;
      forall i :: 0 <= i < |path| ==>
        && path[i][3] == BottomRow
        && Column(path[i], 3) == Column(path[i], 2).Scale(
             Taylor(coefs.rows[0], duration as real, false, Linspace(0.0, duration as real, |path|)[i]))
        && Orthonormal(Column(path[i], 0), Column(path[i], 1), Column(path[i], 2))
  {
    var path := PolarToExtrinsic(fps, duration, coefs, trig).value;
    var d := duration as real;
    var times := Linspace(0.0, d, |path|);
    forall i | 0 <= i < |path|
      ensures path[i][3] == BottomRow
      ensures Column(path[i], 3) == Column(path[i], 2).Scale(Taylor(coefs.rows[0], d, false, times[i]))
      ensures Orthonormal(Column(path[i], 0), Column(path[i], 1), Column(path[i], 2))
    {
      PathFrame(fps, duration, coefs, trig, i);
      CameraFrame(Taylor(coefs.rows[0], d, false, times[i]),
                  Taylor(coefs.rows[1], d, true, times[i]),
                  Taylor(coefs.rows[2], d, true, times[i]), trig);
    }
  }

  /** The first matrix sits at the 0th coefficients: (r, theta, phi) = (coefs[0][0], coefs[1][0], coefs[2][0]). */
  lemma PathStartsAtInitialCoefficients(fps: int, duration: int, coefs: Coefficients, trig: Trig)
    requires WellShaped(coefs) && PolarToExtrinsic(fps, duration, coefs, trig).Success?
    requires fps * duration >= 1
    ensures PolarToExtrinsic(fps, duration, coefs, trig).value[0]
         == CameraMatrix(coefs.rows[0][0], coefs.rows[1][0], coefs.rows[2][0], trig)
  {
    PathFrame(fps, duration, coefs, trig, 0);
    var d := duration as real;
    TaylorAtZero(coefs.rows[0], d, false);
    TaylorAtZero(coefs.rows[1], d, true);
    TaylorAtZero(coefs.rows[2], d, true);
  }

  /**
   * The last matrix is sampled at exactly `duration`, where the pose no longer depends on the
   * duration: it is the series evaluated with duration 1 at time 1.
   */
  lemma PathEndsAtDuration(fps: int, duration: int, coefs: Coefficients, trig: Trig)
    requires WellShaped(coefs) && PolarToExtrinsic(fps, duration, coefs, trig).Success?
    requires fps * duration >= 2
    ensures PolarToExtrinsic(fps, duration, coefs, trig).value[fps * duration - 1]
         == CameraMatrix(Taylor(coefs.rows[0], 1.0, false, 1.0),
                         Taylor(coefs.rows[1], 1.0, true, 1.0),
                         Taylor(coefs.rows[2], 1.0, true, 1.0), trig)
  {
    var n := fps * duration;
    var d := duration as real;
    PathFrame(fps, duration, coefs, trig, n - 1);
    assert Linspace(0.0, d, n)[n - 1] == 1.0 * d;
    TaylorScaleInvariant(coefs.rows[0], d, false, 1.0);
    TaylorScaleInvariant(coefs.rows[1], d, true, 1.0);
    TaylorScaleInvariant(coefs.rows[2], d, true, 1.0);
  }

  /** With one coefficient column the camera never moves: every matrix is the initial one. */
  lemma ConstantPath(fps: int, duration: int, coefs: Coefficients, trig: Trig)
    requires WellShaped(coefs) && coefs.cols == 1
    requires PolarToExtrinsic(fps, duration, coefs, trig).Success?
    ensures var path := PolarToExtrinsic(fps, duration, coefs, trig).value;
      forall i :: 0 <= i < |path| ==>
        path[i] == CameraMatrix(coefs.rows[0][0], coefs.rows[1][0], coefs.rows[2][0], trig)
  {
    var path := PolarToExtrinsic(fps, duration, coefs, trig).value;
    var d := duration as real;
    forall i | 0 <= i < |path|
      ensures path[i] == CameraMatrix(coefs.rows[0][0], coefs.rows[1][0], coefs.rows[2][0], trig)
    {
      PathFrame(fps, duration, coefs, trig, i);
      var t := Linspace(0.0, d, |path|)[i];
      TaylorConstant(coefs.rows[0], d, false, t);
      TaylorConstant(coefs.rows[1], d, true, t);
      TaylorConstant(coefs.rows[2], d, true, t);
    }
  }

  /** The focal entry the generator writes into `intrinsic_matrix`. */
  const RenderFocal: real := 0.6911112070083618

  /**
   * The scene dict of lines 71-78: an 800x800 video, fixed intrinsics and one `frames` entry per
   * matrix, in order, each carrying that matrix as its `extrinsic_matrix` and no `file_path`.
   */
  function RenderScene(matrices: seq<Matrix>): (s: Scene)
    ensures |s.frames| == |matrices|
    ensures forall i :: 0 <= i < |matrices| ==> s.frames[i].extrinsicMatrix == matrices[i] && s.frames[i].filePath.None?
  {
    Scene(800, 800,
          [[RenderFocal, 0.0, 400.0], [0.0, RenderFocal, 400.0], [0.0, 0.0, 1.0]],
          seq(|matrices|, i requires 0 <= i < |matrices| => FrameEntry(matrices[i], None)))
  }
}
