/**
 * Camera poses of the dataset loader (dataLoader/sfm2nerf.py): the `trans_t`, `rot_phi` and
 * `rot_theta` matrices, `pose_spherical`, the 40-pose `render_path` orbit and the
 * Blender-to-OpenCV axis flip applied to every loaded extrinsic matrix.
 */
module SfmPoses {

  import opened Numerics
  import opened Geometry
  import CameraPath

  /** `trans_t(t)`: a translation by t along z. */
  function TransT(t: real): (m: Matrix)
    ensures IsMatrix(m, 4, 4) && m[3] == BottomRow
  {
    [ [1.0, 0.0, 0.0, 0.0],
      [0.0, 1.0, 0.0, 0.0],
      [0.0, 0.0, 1.0, t],
      [0.0, 0.0, 0.0, 1.0] ]
  }

  /** `rot_phi(phi)`: a rotation by phi about x. */
  function RotPhi(phi: real, trig: Trig): (m: Matrix)
    ensures IsMatrix(m, 4, 4) && m[3] == BottomRow
  {
    [ [1.0, 0.0, 0.0, 0.0],
      [0.0, trig.cos(phi), -trig.sin(phi), 0.0],
      [0.0, trig.sin(phi), trig.cos(phi), 0.0],
      [0.0, 0.0, 0.0, 1.0] ]
  }

  /** `rot_theta(th)`: a rotation by th about y. */
  function RotTheta(th: real, trig: Trig): (m: Matrix)
    ensures IsMatrix(m, 4, 4) && m[3] == BottomRow
  {
    [ [trig.cos(th), 0.0, -trig.sin(th), 0.0],
      [0.0, 1.0, 0.0, 0.0],
      [trig.sin(th), 0.0, trig.cos(th), 0.0],
      [0.0, 0.0, 0.0, 1.0] ]
  }

  /** The fixed matrix of line 35: negate x and swap y with z. */
  const AxisSwap: Matrix := [ [-1.0, 0.0, 0.0, 0.0],
                              [0.0, 0.0, 1.0, 0.0],
                              [0.0, 1.0, 0.0, 0.0],
                              [0.0, 0.0, 0.0, 1.0] ]

  /** Degrees to radians as the loader writes it: `x / 180. * np.pi`. */
  function Radians(deg: real): real
  {
    deg / 180.0 * Pi
  }

  /** `pose_spherical(theta, phi, radius)`: the product `AxisSwap @ rot_theta @ rot_phi @ trans_t`, angles in degrees. */
  function PoseSpherical(theta: real, phi: real, radius: real, trig: Trig): (m: Matrix)
    ensures IsMatrix(m, 4, 4)
  {
    var moved := TransT(radius);
    var tilted := MatMul(RotPhi(Radians(phi), trig), moved);
    var turned := MatMul(RotTheta(Radians(theta), trig), tilted);
    MatMul(AxisSwap, turned)
  }

  /**
   * The pose in closed form, from the sines and cosines of the azimuth (st, ct) and elevation
   * (sp, cp): the camera sits at `r * (st cp, ct cp, -sp)` and its third column is that direction.
   */
  function OrbitPose(st: real, ct: real, sp: real, cp: real, r: real): Matrix
  {
    [ [-ct, st * sp, st * cp, st * cp * r],
      [st, ct * sp, ct * cp, ct * cp * r],
      [0.0, cp, -sp, -sp * r],
      [0.0, 0.0, 0.0, 1.0] ]
  }

  /** Two 4x4 matrices with the same entries are equal. */
  lemma SameEntries(a: Matrix, b: Matrix)
    requires IsMatrix(a, 4, 4) && IsMatrix(b, 4, 4)
    requires forall i, j :: 0 <= i < 4 && 0 <= j < 4 ==> a[i][j] == b[i][j]
    ensures a == b
  {
    forall i | 0 <= i < 4 ensures a[i] == b[i] { }
  }

  /** `rot_phi @ trans_t(r)`, from the cosine and sine of phi. */
  lemma TiltedForm(cp: real, sp: real, r: real)
    ensures MatMul([ [1.0, 0.0, 0.0, 0.0], [0.0, cp, -sp, 0.0], [0.0, sp, cp, 0.0], [0.0, 0.0, 0.0, 1.0] ], TransT(r))
         == [ [1.0, 0.0, 0.0, 0.0], [0.0, cp, -sp, -sp * r], [0.0, sp, cp, cp * r], [0.0, 0.0, 0.0, 1.0] ]
  {
    var a: Matrix := [ [1.0, 0.0, 0.0, 0.0], [0.0, cp, -sp, 0.0], [0.0, sp, cp, 0.0], [0.0, 0.0, 0.0, 1.0] ];
    var c: Matrix := [ [1.0, 0.0, 0.0, 0.0], [0.0, cp, -sp, -sp * r], [0.0, sp, cp, cp * r], [0.0, 0.0, 0.0, 1.0] ];
    SameEntries(MatMul(a, TransT(r)), c);
  }

  /** `rot_theta @ (rot_phi @ trans_t(r))`, from the cosines and sines of theta and phi. */
  lemma TurnedForm(ct: real, st: real, cp: real, sp: real, r: real)
    ensures MatMul([ [ct, 0.0, -st, 0.0], [0.0, 1.0, 0.0, 0.0], [st, 0.0, ct, 0.0], [0.0, 0.0, 0.0, 1.0] ],
                   [ [1.0, 0.0, 0.0, 0.0], [0.0, cp, -sp, -sp * r], [0.0, sp, cp, cp * r], [0.0, 0.0, 0.0, 1.0] ])
         == [ [ct, -st * sp, -st * cp, -st * (cp * r)],
              [0.0, cp, -sp, -sp * r],
              [st, ct * sp, ct * cp, ct * (cp * r)],
              [0.0, 0.0, 0.0, 1.0] ]
  {
    var a: Matrix := [ [ct, 0.0, -st, 0.0], [0.0, 1.0, 0.0, 0.0], [st, 0.0, ct, 0.0], [0.0, 0.0, 0.0, 1.0] ];
    var b: Matrix := [ [1.0, 0.0, 0.0, 0.0], [0.0, cp, -sp, -sp * r], [0.0, sp, cp, cp * r], [0.0, 0.0, 0.0, 1.0] ];
    var c: Matrix := [ [ct, -st * sp, -st * cp, -st * (cp * r)],
                       [0.0, cp, -sp, -sp * r],
                       [st, ct * sp, ct * cp, ct * (cp * r)],
                       [0.0, 0.0, 0.0, 1.0] ];
    var m := MatMul(a, b);
    TurnedRow(ct, -st, cp, sp, r);
    TurnedRow(st, ct, cp, sp, r);
    SameEntries(m, c);
  }

  /** A row `[x, 0, z, 0]` times `rot_phi @ trans_t(r)`. */
  lemma TurnedRow(x: real, z: real, cp: real, sp: real, r: real)
    ensures var b: Matrix := [ [1.0, 0.0, 0.0, 0.0], [0.0, cp, -sp, -sp * r], [0.0, sp, cp, cp * r], [0.0, 0.0, 0.0, 1.0] ];
      && RowCol([x, 0.0, z, 0.0], b, 0) == x
      && RowCol([x, 0.0, z, 0.0], b, 1) == z * sp
      && RowCol([x, 0.0, z, 0.0], b, 2) == z * cp
      && RowCol([x, 0.0, z, 0.0], b, 3) == z * (cp * r)
  {
  }

  /** `AxisSwap @ (rot_theta @ rot_phi @ trans_t(r))` is `OrbitPose`. */
  lemma SwappedForm(ct: real, st: real, cp: real, sp: real, r: real)
    ensures MatMul(AxisSwap, [ [ct, -st * sp, -st * cp, -st * (cp * r)],
                               [0.0, cp, -sp, -sp * r],
                               [st, ct * sp, ct * cp, ct * (cp * r)],
                               [0.0, 0.0, 0.0, 1.0] ])
         == OrbitPose(st, ct, sp, cp, r)
  {
    var b: Matrix := [ [ct, -st * sp, -st * cp, -st * (cp * r)],
                       [0.0, cp, -sp, -sp * r],
                       [st, ct * sp, ct * cp, ct * (cp * r)],
                       [0.0, 0.0, 0.0, 1.0] ];
    SameEntries(MatMul(AxisSwap, b), OrbitPose(st, ct, sp, cp, r));
  }

  /** `pose_spherical` multiplied out: the product of the four factors is `OrbitPose`. */
  lemma PoseSphericalClosedForm(theta: real, phi: real, radius: real, trig: Trig)
    ensures var th, ph := Radians(theta), Radians(phi);
      PoseSpherical(theta, phi, radius, trig)
        == OrbitPose(trig.sin(th), trig.cos(th), trig.sin(ph), trig.cos(ph), radius)
  {
    var th, ph := Radians(theta), Radians(phi);
    TiltedForm(trig.cos(ph), trig.sin(ph), radius);
    TurnedForm(trig.cos(th), trig.sin(th), trig.cos(ph), trig.sin(ph), radius);
    SwappedForm(trig.cos(th), trig.sin(th), trig.cos(ph), trig.sin(ph), radius);
  }

  /** The rotation columns of `OrbitPose`, as vectors. */
  lemma OrbitFrame(st: real, ct: real, sp: real, cp: real)
    requires st * st + ct * ct == 1.0 && sp * sp + cp * cp == 1.0
    ensures var a, b, c := Vec3(-ct, st, 0.0), Vec3(st * sp, ct * sp, cp), Vec3(st * cp, ct * cp, -sp);
      Orthonormal(a, b, c) && Cross(a, b) == c && Det(a, b, c) == 1.0
  {
    var a, b, c := Vec3(-ct, st, 0.0), Vec3(st * sp, ct * sp, cp), Vec3(st * cp, ct * cp, -sp);
    UnitProducts(sp, st, ct);
    UnitProducts(cp, st, ct);
    assert Dot(b, b) == sp * sp + cp * cp;
    assert Dot(c, c) == cp * cp + sp * sp;
    var k := sp * cp;
    assert Dot(b, c) == k * (st * st + ct * ct) - k;
    var w := Cross(a, b);
    assert w.z == -sp * (ct * ct + st * st);
    assert w == c;
  }

  /** The closed-form pose is a proper rigid motion whose centre lies `r` along its third column. */
  lemma OrbitPoseRigid(st: real, ct: real, sp: real, cp: real, r: real)
    requires st * st + ct * ct == 1.0 && sp * sp + cp * cp == 1.0
    ensures var m := OrbitPose(st, ct, sp, cp, r);
      && m[3] == BottomRow
      && Column(m, 3) == Column(m, 2).Scale(r)
      && Orthonormal(Column(m, 0), Column(m, 1), Column(m, 2))
      && Det(Column(m, 0), Column(m, 1), Column(m, 2)) == 1.0
  {
    var m := OrbitPose(st, ct, sp, cp, r);
    assert Column(m, 0) == Vec3(-ct, st, 0.0);
    assert Column(m, 1) == Vec3(st * sp, ct * sp, cp);
    assert Column(m, 2) == Vec3(st * cp, ct * cp, -sp);
    OrbitFrame(st, ct, sp, cp);
  }

  /**
   * Every `pose_spherical` matrix is a rigid camera-to-world pose: bottom row [0,0,0,1], rotation
   * columns orthonormal with determinant +1, and the camera centre at distance `radius` from the
   * origin along the third column.
   */
  lemma PoseSphericalRigid(theta: real, phi: real, radius: real, trig: Trig)
    requires Pythagorean(trig)
    ensures var m := PoseSpherical(theta, phi, radius, trig);
      && m[3] == BottomRow
      && Column(m, 3) == Column(m, 2).Scale(radius)
      && Orthonormal(Column(m, 0), Column(m, 1), Column(m, 2))
      && Det(Column(m, 0), Column(m, 1), Column(m, 2)) == 1.0
      && Dot(Column(m, 3), Column(m, 3)) == radius * radius
  {
    var th, ph := Radians(theta), Radians(phi);
    var st, ct, sp, cp := trig.sin(th), trig.cos(th), trig.sin(ph), trig.cos(ph);
    assert st * st + ct * ct == 1.0;
    assert sp * sp + cp * cp == 1.0;
    PoseSphericalClosedForm(theta, phi, radius, trig);
    OrbitPoseRigid(st, ct, sp, cp, radius);
    var m := OrbitPose(st, ct, sp, cp, radius);
    ScaledUnitLength(Column(m, 2), radius);
  }

  lemma ScaledUnitLength(v: Vec3, r: real)
    requires Dot(v, v) == 1.0
    ensures Dot(v.Scale(r), v.Scale(r)) == r * r
  {
    assert Dot(v.Scale(r), v.Scale(r)) == (r * r) * Dot(v, v);
  }

  /** The azimuths of the render orbit: `np.linspace(-180, 180, 41)[:-1]`. */
  function RenderAzimuths(): (az: seq<real>)
    ensures |az| == 40
  {
    Linspace(-180.0, 180.0, 41)[..40]
  }

  /** `render_path`: one `pose_spherical(angle, 25.0, 1)` per azimuth, in order. */
  function RenderPath(trig: Trig): (path: seq<Matrix>)
    ensures |path| == 40
  {
    var az := RenderAzimuths();
    seq(40, k requires 0 <= k < 40 => PoseSpherical(az[k], 25.0, 1.0, trig))
  }

  /** The k-th render pose is at azimuth -180 + 9k: forty evenly spaced stops, the closing 180 left out. */
  lemma RenderPathAzimuths(trig: Trig, k: int)
    requires 0 <= k < 40
    ensures RenderPath(trig)[k] == PoseSpherical(-180.0 + 9.0 * (k as real), 25.0, 1.0, trig)
  {
    var grid := Linspace(-180.0, 180.0, 41);
    assert grid[k] == -180.0 + (k as real) * (180.0 - -180.0) / (40 as real);
  }

  /**
   * The render path is a circle: every pose is rigid, sits at distance 1 from the origin and at
   * the same height, the third translation entry `-sin(25 degrees)`.
   */
  lemma RenderPathOrbit(trig: Trig)
    requires Pythagorean(trig)
    ensures var path := RenderPath(trig);
      forall k :: 0 <= k < 40 ==>
        && path[k][3] == BottomRow
        && Orthonormal(Column(path[k], 0), Column(path[k], 1), Column(path[k], 2))
        && Dot(Column(path[k], 3), Column(path[k], 3)) == 1.0
        && path[k][2][3] == -trig.sin(Radians(25.0))
  {
    var path := RenderPath(trig);
    var az := RenderAzimuths();
    forall k | 0 <= k < 40
      ensures path[k][3] == BottomRow
      ensures Orthonormal(Column(path[k], 0), Column(path[k], 1), Column(path[k], 2))
      ensures Dot(Column(path[k], 3), Column(path[k], 3)) == 1.0
      ensures path[k][2][3] == -trig.sin(Radians(25.0))
    {
      PoseSphericalRigid(az[k], 25.0, 1.0, trig);
      PoseSphericalClosedForm(az[k], 25.0, 1.0, trig);
    }
  }

  /** `blender2opencv`: diag(1, -1, -1, 1). */
  const Blender2OpenCV: Matrix := [ [1.0, 0.0, 0.0, 0.0],
                                    [0.0, -1.0, 0.0, 0.0],
                                    [0.0, 0.0, -1.0, 0.0],
                                    [0.0, 0.0, 0.0, 1.0] ]

  /**
   * `np.array(extrinsic) @ blender2opencv` for an n x 4 extrinsic matrix: columns 0 and 3 are
   * kept, columns 1 and 2 change sign, row by row.
   */
  function ToOpenCV(m: Matrix): (p: Matrix)
    requires IsMatrix(m, |m|, 4)
    ensures IsMatrix(p, |m|, 4)
    ensures forall i :: 0 <= i < |m| ==> p[i] == [m[i][0], -m[i][1], -m[i][2], m[i][3]]
  {
    var p := MatMul(m, Blender2OpenCV);
    assert forall i :: 0 <= i < |m| ==> p[i] == [m[i][0], -m[i][1], -m[i][2], m[i][3]] by {
      forall i | 0 <= i < |m| ensures p[i] == [m[i][0], -m[i][1], -m[i][2], m[i][3]] {
        var row := m[i];
        assert p[i][0] == RowCol(row, Blender2OpenCV, 0) == row[0];
        assert p[i][1] == RowCol(row, Blender2OpenCV, 1) == -row[1];
        assert p[i][2] == RowCol(row, Blender2OpenCV, 2) == -row[2];
        assert p[i][3] == RowCol(row, Blender2OpenCV, 3) == row[3];
      }
    }
    p
  }

  /** The flip is its own inverse: converting twice gives back the original matrix. */
  lemma ToOpenCVInvolution(m: Matrix)
    requires IsMatrix(m, |m|, 4)
    ensures ToOpenCV(ToOpenCV(m)) == m
  {
    var p := ToOpenCV(ToOpenCV(m));
    forall i | 0 <= i < |m| ensures p[i] == m[i] {
      assert |m[i]| == 4;
    }
  }

  /**
   * The flip keeps a rigid pose rigid: bottom row, orthonormal columns and the determinant are
   * unchanged (two columns change sign), and the centre column is untouched.
   */
  lemma ToOpenCVKeepsRigidity(m: Matrix)
    requires IsMatrix(m, 4, 4) && m[3] == BottomRow
    requires Orthonormal(Column(m, 0), Column(m, 1), Column(m, 2))
    ensures var p := ToOpenCV(m);
      && p[3] == BottomRow
      && Column(p, 3) == Column(m, 3)
      && Column(p, 1) == Column(m, 1).Scale(-1.0) && Column(p, 2) == Column(m, 2).Scale(-1.0)
      && Orthonormal(Column(p, 0), Column(p, 1), Column(p, 2))
      && Det(Column(p, 0), Column(p, 1), Column(p, 2)) == Det(Column(m, 0), Column(m, 1), Column(m, 2))
  {
    var p := ToOpenCV(m);
    assert p[0] == [m[0][0], -m[0][1], -m[0][2], m[0][3]];
    assert p[1] == [m[1][0], -m[1][1], -m[1][2], m[1][3]];
    assert p[2] == [m[2][0], -m[2][1], -m[2][2], m[2][3]];
  }

  /**
   * A matrix of the polynomial generator, once flipped to OpenCV axes, looks at the origin: its
   * third column (the OpenCV viewing direction) points from the camera centre to the origin, which
   * lies at depth r along it.
   */
  lemma GeneratedCameraFacesOrigin(r: real, theta: real, phi: real, trig: Trig)
    ensures var p := ToOpenCV(CameraPath.CameraMatrix(r, theta, phi, trig));
      Column(p, 3).Plus(Column(p, 2).Scale(r)) == Vec3(0.0, 0.0, 0.0)
  {
    var m := CameraPath.CameraMatrix(r, theta, phi, trig);
    var p := ToOpenCV(m);
    assert p[0] == [m[0][0], -m[0][1], -m[0][2], m[0][3]];
    assert p[1] == [m[1][0], -m[1][1], -m[1][2], m[1][3]];
    assert p[2] == [m[2][0], -m[2][1], -m[2][2], m[2][3]];
  }
}
