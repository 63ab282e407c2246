/**
 * Scene geometry of the dataset loader (dataLoader/sfm2nerf.py): the split's bounding box with
 * its centre and radius, the world-to-normalised-device map `world2ndc`, the intrinsics read
 * from the scene description, and the choice of frames to load.
 */
module SfmScene {

  import opened Wrappers
  import opened Errors
  import opened Numerics
  import opened Geometry

  /** `scene_bbox`: the min corner and the max corner. */
  datatype Box = Box(lo: Vec3, hi: Vec3)

  /** The bounding box of lines 49-57: ±1.5 for the training split, a flatter box below z = -0.25 otherwise. */
  function SceneBox(split: string): (b: Box)
    ensures split == "train" ==> b.lo == Vec3(-1.5, -1.5, -1.5) && b.hi == Vec3(1.5, 1.5, 1.5)
    ensures split != "train" ==> b.lo == Vec3(-1.5, -1.5, -1.5) && b.hi == Vec3(1.0, 1.0, -0.25)
  {
    if split == "train" then Box(Vec3(-1.5, -1.5, -1.5), Vec3(1.5, 1.5, 1.5))
    else Box(Vec3(-1.5, -1.5, -1.5), Vec3(1.0, 1.0, -0.25))
  }

  /** `near_far`, the same for every split. */
  const NearFar: seq<real> := [0.1, 100.0]

  /** `center = mean(scene_bbox, axis=0)`: the per-axis mean of the two corners. */
  function BoxCenter(b: Box): (c: Vec3)
    ensures c.Minus(b.lo) == b.hi.Minus(c)
  {
    Vec3((b.lo.x + b.hi.x) / 2.0, (b.lo.y + b.hi.y) / 2.0, (b.lo.z + b.hi.z) / 2.0)
  }

  /** `radius = scene_bbox[1] - center`: half the extent of the box on each axis. */
  function BoxRadius(b: Box): (r: Vec3)
    ensures r.Scale(2.0) == b.hi.Minus(b.lo)
  {
    b.hi.Minus(BoxCenter(b))
  }

  predicate NonZero(v: Vec3)
  {
    v.x != 0.0 && v.y != 0.0 && v.z != 0.0
  }

  /** Both boxes the loader uses are centred and sized as follows; neither is flat on any axis. */
  lemma SceneBoxGeometry(split: string)
    ensures split == "train" ==>
      BoxCenter(SceneBox(split)) == Vec3(0.0, 0.0, 0.0) && BoxRadius(SceneBox(split)) == Vec3(1.5, 1.5, 1.5)
    ensures split != "train" ==>
      BoxCenter(SceneBox(split)) == Vec3(-0.25, -0.25, -0.875) && BoxRadius(SceneBox(split)) == Vec3(1.25, 1.25, 0.625)
    ensures NonZero(BoxRadius(SceneBox(split)))
  {
  }

  /** `world2ndc`: `(p - center) / radius`, axis by axis. */
  function World2Ndc(p: Vec3, center: Vec3, radius: Vec3): Vec3
    requires NonZero(radius)
  {
    Vec3((p.x - center.x) / radius.x, (p.y - center.y) / radius.y, (p.z - center.z) / radius.z)
  }

  /** The inverse map, `n * radius + center`. */
  function NdcToWorld(n: Vec3, center: Vec3, radius: Vec3): Vec3
  {
    Vec3(n.x * radius.x + center.x, n.y * radius.y + center.y, n.z * radius.z + center.z)
  }

  /** `world2ndc` and its inverse undo each other, in both orders, whenever no radius component is 0. */
  lemma World2NdcInverse(p: Vec3, n: Vec3, center: Vec3, radius: Vec3)
    requires NonZero(radius)
    ensures NdcToWorld(World2Ndc(p, center, radius), center, radius) == p
    ensures World2Ndc(NdcToWorld(n, center, radius), center, radius) == n
  {
    DivideBack(p.x - center.x, radius.x);
    DivideBack(p.y - center.y, radius.y);
    DivideBack(p.z - center.z, radius.z);
  }

  lemma DivideBack(a: real, r: real)
    requires r != 0.0
    ensures (a / r) * r == a
  {
  }

  /** `world2ndc` on a batch of points, point by point; `NdcToWorld` takes every result back. */
  function World2NdcAll(points: seq<Vec3>, center: Vec3, radius: Vec3): (ns: seq<Vec3>)
    requires NonZero(radius)
    ensures |ns| == |points|
    ensures forall k :: 0 <= k < |points| ==> NdcToWorld(ns[k], center, radius) == points[k]
  {
    var ns := seq(|points|, k requires 0 <= k < |points| => World2Ndc(points[k], center, radius));
    assert forall k :: 0 <= k < |points| ==> NdcToWorld(ns[k], center, radius) == points[k] by {
      forall k | 0 <= k < |points| ensures NdcToWorld(ns[k], center, radius) == points[k] {
        World2NdcInverse(points[k], ns[k], center, radius);
      }
    }
    ns
  }

  /** The box maps onto the cube [-1, 1]^3: the max corner to (1,1,1), the min corner to (-1,-1,-1), the centre to 0. */
  lemma World2NdcCorners(b: Box)
    requires NonZero(BoxRadius(b))
    ensures World2Ndc(b.hi, BoxCenter(b), BoxRadius(b)) == Vec3(1.0, 1.0, 1.0)
    ensures World2Ndc(b.lo, BoxCenter(b), BoxRadius(b)) == Vec3(-1.0, -1.0, -1.0)
    ensures World2Ndc(BoxCenter(b), BoxCenter(b), BoxRadius(b)) == Vec3(0.0, 0.0, 0.0)
  {
    AxisCorners(b.lo.x, b.hi.x);
    AxisCorners(b.lo.y, b.hi.y);
    AxisCorners(b.lo.z, b.hi.z);
  }

  /** One axis of `World2NdcCorners`. */
  lemma AxisCorners(lo: real, hi: real)
    requires hi - (lo + hi) / 2.0 != 0.0
    ensures var c := (lo + hi) / 2.0; var r := hi - c;
      (hi - c) / r == 1.0 && (lo - c) / r == -1.0 && (c - c) / r == 0.0
  {
    var c := (lo + hi) / 2.0;
    var r := hi - c;
    assert lo - c == -r;
  }

  /** The camera intrinsics the loader keeps: `focal_x`, `focal_y`, `cx`, `cy`. */
  datatype Intrinsics = Intrinsics(focalX: real, focalY: real, cx: real, cy: real)

  /**
   * Lines 85-87: the focal lengths from entries [0][0] and [1][1] and the principal point from
   * [0][2] and [1][2] of `intrinsic_matrix`; a missing entry is an IndexError.
   */
  function ReadIntrinsics(m: Matrix): (r: Result<Intrinsics, Error>)
    ensures r.Success? <==> |m| >= 2 && |m[0]| >= 3 && |m[1]| >= 3
    ensures r.Failure? ==> r.error == IndexError
  {
    if |m| < 2 || |m[0]| < 1 || |m[1]| < 2 || |m[0]| < 3 || |m[1]| < 3 then Failure(IndexError)
    else Success(Intrinsics(m[0][0], m[1][1], m[0][2], m[1][2]))
  }

  /** Line 93: the 3x3 pinhole matrix `[[fx, 0, cx], [0, fy, cy], [0, 0, 1]]`. */
  function IntrinsicMatrix(i: Intrinsics): (m: Matrix)
    ensures IsMatrix(m, 3, 3)
  {
    [[i.focalX, 0.0, i.cx], [0.0, i.focalY, i.cy], [0.0, 0.0, 1.0]]
  }

  /** A matrix of the pinhole shape the rebuild produces. */
  predicate PinholeShaped(m: Matrix)
  {
    IsMatrix(m, 3, 3) && m[0][1] == 0.0 && m[1][0] == 0.0 && m[2] == [0.0, 0.0, 1.0]
  }

  /** Rebuilding and reading back gives the same intrinsics. */
  lemma IntrinsicsRoundTrip(i: Intrinsics)
    ensures ReadIntrinsics(IntrinsicMatrix(i)) == Success(i)
  {
  }

  /** Reading and rebuilding gives back the matrix exactly when it has the pinhole shape. */
  lemma IntrinsicMatrixRoundTrip(m: Matrix)
    requires ReadIntrinsics(m).Success?
    ensures IntrinsicMatrix(ReadIntrinsics(m).value) == m <==> PinholeShaped(m)
  {
    if PinholeShaped(m) {
      var r := IntrinsicMatrix(ReadIntrinsics(m).value);
      assert r[0] == m[0] && r[1] == m[1] && r[2] == m[2];
    }
  }

  /**
   * Lines 105-106: with `N_vis < 0` every frame; otherwise every `(len(frames) // N_vis)`-th
   * frame from 0. `N_vis == 0` divides by zero; a step of 0 (more requested frames than exist)
   * is refused by `range`.
   */
  function FrameIndices(nVis: int, count: nat): (r: Result<seq<int>, Error>)
    ensures r.Success? <==> nVis < 0 || 0 < nVis <= count
    ensures nVis == 0 ==> r == Failure(ZeroDivisionError)
    ensures nVis > count ==> r == Failure(ValueError)
  {
    if nVis < 0 then Success(RangeFrom(0, count, 1))
    else if nVis == 0 then Failure(ZeroDivisionError)
    else
      var interval := count / nVis;
      if interval == 0 then Failure(ValueError)
      else Success(RangeFrom(0, count, interval))
  }

  /** The step between chosen frames. */
  function EvalInterval(nVis: int, count: nat): nat
    requires nVis < 0 || 0 < nVis <= count
  {
    if nVis < 0 then 1 else count / nVis
  }

  /**
   * The chosen frames are exactly the multiples of the interval below the frame count, in
   * ascending order: the k-th is k times the interval, and every such multiple is chosen.
   */
  lemma FrameIndicesAreMultiples(nVis: int, count: nat)
    requires FrameIndices(nVis, count).Success?
    ensures var idxs, step := FrameIndices(nVis, count).value, EvalInterval(nVis, count);
      && step >= 1
      && (forall k :: 0 <= k < |idxs| ==> idxs[k] == k * step && 0 <= idxs[k] < count)
      && (forall j: nat :: j * step < count ==> j < |idxs|)
  {
    var step := EvalInterval(nVis, count);
    RangeFromElements(0, count, step);
    forall j: nat | j * step < count ensures j < |FrameIndices(nVis, count).value| {
      RangeFromComplete(0, count, step, j);
    }
  }

  /** With `N_vis < 0` every frame is loaded, in order. */
  lemma AllFramesWhenNegative(nVis: int, count: nat)
    requires nVis < 0
    ensures FrameIndices(nVis, count) == Success(seq(count, k => k))
  {
    var idxs := FrameIndices(nVis, count).value;
    FrameIndicesAreMultiples(nVis, count);
    if count > 0 {
      var last: nat := count - 1;
      assert last * 1 < count;
    }
    if |idxs| > 0 {
      assert idxs[|idxs| - 1] == (|idxs| - 1) * 1;
    }
    assert |idxs| == count;
    forall k | 0 <= k < count ensures idxs[k] == k {
      assert idxs[k] == k * 1;
    }
    assert idxs == seq(count, k => k);
  }

  /** A positive `N_vis` is a lower bound on the frames loaded, not an exact count. */
  lemma AtLeastNVisFrames(nVis: int, count: nat)
    requires 0 < nVis <= count
    ensures |FrameIndices(nVis, count).value| >= nVis
  {
    var step := count / nVis;
    FrameIndicesAreMultiples(nVis, count);
    assert (nVis - 1) * step < count by {
      assert nVis * step <= count;
    }
  }
}
