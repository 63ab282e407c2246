/**
 * The first-order camera-path draft (`polar_2_extrinsic` of scripts/extrinsic_matrix_generator.py).
 *
 * The radius and both angles move linearly in time: over the whole duration the radius grows by
 * `r_1` and each angle turns `theta_1` (`phi_1`) whole revolutions. Every frame is a 3x4 matrix that
 * is zero except for its last column, the camera position; frames are taken every `1/fps` seconds
 * starting at 0, accumulated in `t_step`.
 */
module LinearDraft {

  import opened Wrappers
  import opened Errors
  import opened Numerics
  import opened Geometry
  import CameraPath

  /**
   * `coefs[0][0]`, `coefs[0][1]`, `coefs[0][2]`: the (initial value, change over the duration)
   * pairs of r, theta and phi. `coefs[1]`, the rotation block, is never read.
   */
  predicate HasLinearRows(coefs: seq<seq<seq<real>>>)
  {
    |coefs| >= 1 && |coefs[0]| >= 3
  }

  /** Each of the three pairs has its two entries. */
  predicate HasPairs(coefs: seq<seq<seq<real>>>)
    requires HasLinearRows(coefs)
  {
    |coefs[0][0]| >= 2 && |coefs[0][1]| >= 2 && |coefs[0][2]| >= 2
  }

  /** `r(t) = r_c[0] + (r_c[1]/duration) * t`. */
  function Radius(rc: seq<real>, duration: real, t: real): real
    requires |rc| >= 2 && duration != 0.0
  {
    rc[0] + (rc[1] / duration) * t
  }

  /** `theta(t) = theta_c[0] + (2*pi*theta_c[1]/duration) * t`, and the same for phi. */
  function Angle(ac: seq<real>, duration: real, t: real): real
    requires |ac| >= 2 && duration != 0.0
  {
    ac[0] + (2.0 * Pi * ac[1] / duration) * t
  }

  /** A 3x4 matrix of zeros (`np.zeros((3, 4))`). */
  function Zeros(): (m: Matrix)
    ensures IsMatrix(m, 3, 4)
    ensures forall i, j :: 0 <= i < 3 && 0 <= j < 4 ==> m[i][j] == 0.0
  {
    seq(3, i => seq(4, j => 0.0))
  }

  /** The camera position for spherical coordinates (r, theta, phi): lines 31-36. */
  function Position(r: real, theta: real, phi: real, trig: Trig): Vec3
  {
    Vec3(r * trig.sin(theta) * trig.cos(phi), r * trig.sin(theta) * trig.sin(phi), r * trig.cos(theta))
  }

  /** The frame matrix written at one sample: zeros except the last column, which is the position. */
  function DraftMatrix(p: Vec3): (m: Matrix)
    ensures IsMatrix(m, 3, 4)
    ensures forall i, j :: 0 <= i < 3 && 0 <= j < 3 ==> m[i][j] == 0.0
    ensures Column(m, 3) == p
  {
    [ [0.0, 0.0, 0.0, p.x],
      [0.0, 0.0, 0.0, p.y],
      [0.0, 0.0, 0.0, p.z] ]
  }

  /** The frame at time t for the pairs rc, tc, pc. */
  function DraftFrame(rc: seq<real>, tc: seq<real>, pc: seq<real>, duration: real, t: real, trig: Trig): Matrix
    requires |rc| >= 2 && |tc| >= 2 && |pc| >= 2 && duration != 0.0
  {
    DraftMatrix(Position(Radius(rc, duration, t), Angle(tc, duration, t), Angle(pc, duration, t), trig))
  }

  /**
   * What the draft generator returns. The three pairs are taken before the loop (IndexError if
   * `coefs` has no block or the block fewer than three rows); a pair is only read when the first
   * frame is computed, so a short pair fails only when there is a frame to compute. A
   * non-positive `fps * duration` gives no frames. Frame i is taken at time i/fps.
   */
  function DraftPath(fps: int, duration: int, coefs: seq<seq<seq<real>>>, trig: Trig): Result<seq<Matrix>, Error>
  {
    if !HasLinearRows(coefs) then Failure(IndexError)
    else if fps * duration <= 0 then Success([])
    else if !HasPairs(coefs) then Failure(IndexError)
    else
      Success(seq(fps * duration, i requires 0 <= i < fps * duration =>
        DraftFrame(coefs[0][0], coefs[0][1], coefs[0][2], duration as real, (i as real) / (fps as real), trig)))
  }

  /** The sample time after `frame` steps of `1/fps`, with its one-step update. */
  lemma StepTime(frame: nat, fps: real)
    requires fps != 0.0
    ensures (frame as real) / fps + 1.0 / fps == ((frame + 1) as real) / fps
  {
  }

  lemma PositiveCount(fps: int, duration: int)
    requires fps * duration > 0
    ensures fps != 0 && duration != 0
  {
  }

  /** Lines 31-36 of one iteration: a zero 3x4 matrix whose last column is set to (x, y, z). */
  method PlaceCamera(r: real, theta: real, phi: real, trig: Trig) returns (matrix: Matrix)
    ensures matrix == DraftMatrix(Position(r, theta, phi, trig))
  {
    matrix := Zeros();
    matrix := matrix[0 := matrix[0][3 := r * trig.sin(theta) * trig.cos(phi)]];
    matrix := matrix[1 := matrix[1][3 := r * trig.sin(theta) * trig.sin(phi)]];
    matrix := matrix[2 := matrix[2][3 := r * trig.cos(theta)]];
    ghost var expected := DraftMatrix(Position(r, theta, phi, trig));
    forall i | 0 <= i < 3
      ensures matrix[i] == expected[i]
    {
      assert |matrix[i]| == |expected[i]| == 4;
      assert forall j :: 0 <= j < 4 ==> matrix[i][j] == expected[i][j];
    }
  }

  /**
   * The loop of lines 38-50: `t_step` starts at 0 and grows by `1/fps` per frame; each frame is a
   * zero 3x4 matrix whose last column is set to (x, y, z) at `t_step`, appended to `matrices`.
   */
  method PolarToExtrinsic(fps: int, duration: int, coefs: seq<seq<seq<real>>>, trig: Trig)
    returns (res: Result<seq<Matrix>, Error>)
    ensures res == DraftPath(fps, duration, coefs, trig)
  {
    if |coefs| < 1 || |coefs[0]| < 3 {
      return Failure(IndexError);
    }
    var rc, tc, pc := coefs[0][0], coefs[0][1], coefs[0][2];
    var n := fps * duration;
    var matrices: seq<Matrix> := [];
    var tStep: real := 0.0;
    var frame := 0;
    if n > 0 {
      PositiveCount(fps, duration);
    }
    while frame < n
      invariant n > 0 ==> 0 <= frame <= n
      invariant n <= 0 ==> frame == 0 && matrices == []
      invariant |matrices| == frame
      invariant frame > 0 ==> HasPairs(coefs)
      invariant n > 0 ==> fps != 0 && duration != 0 && tStep == (frame as real) / (fps as real)
      invariant frame > 0 ==> forall i :: 0 <= i < frame ==>
        matrices[i] == DraftFrame(rc, tc, pc, duration as real, (i as real) / (fps as real), trig)
    {
      if |rc| < 2 || |tc| < 2 || |pc| < 2 {
        return Failure(IndexError);
      }
      var r := Radius(rc, duration as real, tStep);
      var theta := Angle(tc, duration as real, tStep);
      var phi := Angle(pc, duration as real, tStep);
      var matrix := PlaceCamera(r, theta, phi, trig);
      matrices := matrices + [matrix];
      StepTime(frame, fps as real);
      tStep := tStep + 1.0 / (fps as real);
      frame := frame + 1;
    }
    if n <= 0 {
      return Success([]);
    }
    ghost var spec := DraftPath(fps, duration, coefs, trig);
    assert spec.Success? && |spec.value| == |matrices|;
    assert forall i :: 0 <= i < n ==> spec.value[i] == matrices[i];
    assert spec.value == matrices;
    return Success(matrices);
  }

  /**
   * The draft samples a half-open interval: frame i sits at i/fps, the first at 0 and every one
   * strictly short of `duration` (unlike the polynomial generator, whose grid includes it). With a
   * negative fps and duration the count is still positive and the times run backwards from 0.
   */
  lemma DraftSampleTimes(fps: int, duration: int, coefs: seq<seq<seq<real>>>, trig: Trig, i: int)
    requires DraftPath(fps, duration, coefs, trig).Success?
    requires 0 <= i < |DraftPath(fps, duration, coefs, trig).value|
    ensures fps != 0 && duration != 0 && HasLinearRows(coefs) && HasPairs(coefs)
    ensures DraftPath(fps, duration, coefs, trig).value[i]
         == DraftFrame(coefs[0][0], coefs[0][1], coefs[0][2], duration as real, (i as real) / (fps as real), trig)
    ensures fps > 0 ==> 0.0 <= (i as real) / (fps as real) < duration as real
    ensures fps < 0 ==> duration as real < (i as real) / (fps as real) <= 0.0
  {
    PositiveCount(fps, duration);
    SampleBound(i as real, fps as real, duration as real);
  }

  /** `0 <= i < f * d` places `i / f` in [0, d) for a positive f and in (d, 0] for a negative one. */
  lemma SampleBound(i: real, f: real, d: real)
    requires f != 0.0 && 0.0 <= i < f * d
    ensures f > 0.0 ==> 0.0 <= i / f < d
    ensures f < 0.0 ==> d < i / f <= 0.0
  {
    var t := i / f;
    assert t * f == i;
    if f > 0.0 {
      assert t * f < d * f;
    } else {
      assert t * f < d * f;
    }
  }

  /** The generator fails exactly when a block or row it reads is missing, and otherwise yields `max(0, fps * duration)` frames. */
  lemma DraftPathOutcome(fps: int, duration: int, coefs: seq<seq<seq<real>>>, trig: Trig)
    ensures DraftPath(fps, duration, coefs, trig).Success?
        <==> HasLinearRows(coefs) && (fps * duration <= 0 || HasPairs(coefs))
    ensures DraftPath(fps, duration, coefs, trig).Success? ==>
        |DraftPath(fps, duration, coefs, trig).value| == if fps * duration > 0 then fps * duration else 0
  {
  }

  /** Only the first block of `coefs` is read: the rotation block and any later ones change nothing. */
  lemma DraftIgnoresRotationBlock(fps: int, duration: int, coefs: seq<seq<seq<real>>>, trig: Trig)
    requires |coefs| >= 1
    ensures DraftPath(fps, duration, coefs, trig) == DraftPath(fps, duration, [coefs[0]], trig)
  {
  }

  /** With no change coefficients the camera stands still: every frame is the first. */
  lemma DraftStatic(fps: int, duration: int, coefs: seq<seq<seq<real>>>, trig: Trig)
    requires DraftPath(fps, duration, coefs, trig).Success?
    requires fps * duration > 0 && coefs[0][0][1] == 0.0 && coefs[0][1][1] == 0.0 && coefs[0][2][1] == 0.0
    ensures var path := DraftPath(fps, duration, coefs, trig).value;
      forall i :: 0 <= i < |path| ==> path[i] == path[0]
  {
  }

  /**
   * At the end of the duration the radius has grown by `r_1` and each angle has turned `theta_1`
   * (`phi_1`) whole revolutions, the meaning the coefficients are given.
   */
  lemma DraftEndpoints(rc: seq<real>, ac: seq<real>, duration: real)
    requires |rc| >= 2 && |ac| >= 2 && duration != 0.0
    ensures Radius(rc, duration, 0.0) == rc[0] && Radius(rc, duration, duration) == rc[0] + rc[1]
    ensures Angle(ac, duration, 0.0) == ac[0] && Angle(ac, duration, duration) == ac[0] + 2.0 * Pi * ac[1]
  {
  }

  /** The camera sits at distance |r(t)| from the origin, given sin^2 + cos^2 = 1. */
  lemma PositionDistance(r: real, theta: real, phi: real, trig: Trig)
    requires Pythagorean(trig)
    ensures var p := Position(r, theta, phi, trig); Dot(p, p) == r * r
  {
    var st, ct := trig.sin(theta), trig.cos(theta);
    var sp, cp := trig.sin(phi), trig.cos(phi);
    assert st * st + ct * ct == 1.0;
    assert sp * sp + cp * cp == 1.0;
    var a := r * st;
    UnitProducts(a, sp, cp);
    UnitProducts(r, st, ct);
    assert Position(r, theta, phi, trig) == Vec3(a * cp, a * sp, r * ct);
  }

  /**
   * The draft is the first-order case of the polynomial generator: with series of length two the
   * polynomial generator's r, theta and phi at time t are the draft's, so its camera centre is the
   * draft's position.
   */
  lemma DraftIsFirstOrderSeries(rc: seq<real>, tc: seq<real>, pc: seq<real>, duration: real, t: real, trig: Trig)
    requires |rc| == 2 && |tc| == 2 && |pc| == 2 && duration != 0.0
    ensures CameraPath.Taylor(rc, duration, false, t) == Radius(rc, duration, t)
    ensures CameraPath.Taylor(tc, duration, true, t) == Angle(tc, duration, t)
    ensures CameraPath.Taylor(pc, duration, true, t) == Angle(pc, duration, t)
    ensures Column(CameraPath.CameraMatrix(Radius(rc, duration, t), Angle(tc, duration, t), Angle(pc, duration, t), trig), 3)
         == Column(DraftFrame(rc, tc, pc, duration, t, trig), 3)
  {
    FirstOrderRadius(rc, duration, t);
    FirstOrderAngle(tc, duration, t);
    FirstOrderAngle(pc, duration, t);
  }

  lemma FirstOrderRadius(c: seq<real>, duration: real, t: real)
    requires |c| == 2 && duration != 0.0
    ensures CameraPath.Taylor(c, duration, false, t) == Radius(c, duration, t)
  {
    assert c[..1][..0] == [];
    CameraPath.TaylorConstant(c[..1], duration, false, t);
    PowStep(duration, 1);
    PowStep(t, 1);
    ReciprocalOf(CameraPath.RadiusNorm(1, duration), duration, Factorial(1), Pow(duration, 1), 1.0);
    assert CameraPath.Term(c, 1, duration, false, t) == (c[1] / duration) * t;
  }

  lemma FirstOrderAngle(c: seq<real>, duration: real, t: real)
    requires |c| == 2 && duration != 0.0
    ensures CameraPath.Taylor(c, duration, true, t) == Angle(c, duration, t)
  {
    assert c[..1][..0] == [];
    CameraPath.TaylorConstant(c[..1], duration, true, t);
    PowStep(duration, 1);
    PowStep(t, 1);
    ReciprocalOf(CameraPath.AngleNorm(1, duration), duration, Factorial(1), Pow(duration, 1), 2.0 * Pi);
    assert CameraPath.Term(c, 1, duration, true, t) == (2.0 * Pi * c[1] / duration) * t;
  }

  /** From `f * 1 * d == v` with `d != 0`: `f == v / d`. */
  lemma ReciprocalOf(f: real, d: real, one: real, pd: real, v: real)
    requires d != 0.0 && one == 1.0 && pd == d && f * one * pd == v
    ensures f == v / d
  {
  }
}
