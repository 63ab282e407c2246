/**
 * The `Sfm2Nerf` dataset of dataLoader/sfm2nerf.py as an object: the constructor's fields, the
 * `read_meta` loop that fills the buffers frame by frame, the projection check, `world2ndc`,
 * `__len__` and `__getitem__`.
 */
module SfmDataset {

  import opened Wrappers
  import opened Errors
  import opened Geometry
  import opened SceneDescription
  import opened SfmPoses
  import opened SfmScene
  import opened SfmBuffers
  import opened SfmFrames
  import opened CameraPath

  /** `all_rays[idx]`: one ray row of the flat buffer, or one frame's block of the stacked one. */
  datatype RaySample = OneRay(ray: Ray) | RayBlock(rays: seq<Ray>)

  /** `all_rgbs[idx]`: one colour row, one frame's colour block, or one frame's h x w grid. */
  datatype RgbSample = OneColor(color: Color) | ColorBlock(colors: seq<Color>) | ColorGrid(grid: seq<seq<Color>>)

  /** The dict `__getitem__` returns: `rays`, and `rgbs` except for the `render` split. */
  datatype Sample = Sample(rays: RaySample, rgbs: Option<RgbSample>)

  /** Python subscripting of a sequence of length n: `-n <= idx < n`, negative indices from the end. */
  function PyIndex(idx: int, n: nat): (r: Option<nat>)
    ensures r.Some? <==> -(n as int) <= idx < n
    ensures r.Some? ==> r.value < n && (r.value as int - idx == 0 || r.value as int - idx == n)
  {
    if 0 <= idx < n then Some(idx)
    else if -(n as int) <= idx < 0 then Some(idx + n)
    else None
  }

  /** `len(all_rays)`: rows of the flat buffer or blocks of the stacked one. */
  function RayCount(s: RayStore): nat
  {
    match s
    case RaysPerFrame(blocks) => |blocks|
    case RaysFlat(rows) => |rows|
  }

  /** `len(all_rgbs)`. */
  function RgbCount(s: RgbStore): nat
  {
    match s
    case RgbList(blocks) => |blocks|
    case RgbFlat(rows) => |rows|
    case RgbGrids(grids) => |grids|
  }

  /** `all_rays[idx]`, an IndexError out of range. */
  function RayAt(s: RayStore, idx: int): (r: Result<RaySample, Error>)
    ensures r.Success? <==> PyIndex(idx, RayCount(s)).Some?
    ensures r.Failure? ==> r.error == IndexError
    ensures r.Success? && s.RaysFlat? ==> r.value == OneRay(s.rows[PyIndex(idx, RayCount(s)).value])
    ensures r.Success? && s.RaysPerFrame? ==> r.value == RayBlock(s.blocks[PyIndex(idx, RayCount(s)).value])
  {
    match PyIndex(idx, RayCount(s))
    case None => Failure(IndexError)
    case Some(k) =>
      match s
      case RaysPerFrame(blocks) => Success(RayBlock(blocks[k]))
      case RaysFlat(rows) => Success(OneRay(rows[k]))
  }

  /** `all_rgbs[idx]`, an IndexError out of range. */
  function RgbAt(s: RgbStore, idx: int): (r: Result<RgbSample, Error>)
    ensures r.Success? <==> PyIndex(idx, RgbCount(s)).Some?
    ensures r.Failure? ==> r.error == IndexError
    ensures r.Success? && s.RgbFlat? ==> r.value == OneColor(s.rows[PyIndex(idx, RgbCount(s)).value])
    ensures r.Success? && s.RgbGrids? ==> r.value == ColorGrid(s.grids[PyIndex(idx, RgbCount(s)).value])
  {
    match PyIndex(idx, RgbCount(s))
    case None => Failure(IndexError)
    case Some(k) =>
      match s
      case RgbList(blocks) => Success(ColorBlock(blocks[k]))
      case RgbFlat(rows) => Success(OneColor(rows[k]))
      case RgbGrids(grids) => Success(ColorGrid(grids[k]))
  }

  /** Every pose is a 4x4 matrix, which `torch.inverse` in `define_proj_mat` (line 150) needs. */
  predicate SquarePoses(poses: seq<Matrix>)
  {
    forall k :: 0 <= k < |poses| ==> IsMatrix(poses[k], 4, 4)
  }

  /**
   * The constructor after its arguments are stored (lines 41-61): the scene file of the split is
   * read, then `LoadSpec`.
   */
  function InitSpec(o: Options, read: SceneReader, trig: Trig, cast: RayCaster, load: ImageLoader): (r: Result<MetaState, Error>)
    ensures r.Success? ==> LoadedState(o, r.value) && SquarePoses(r.value.poses)
    ensures r.Success? <==>
      && read(MetaPath(o.rootDir, o.split)).Success?
      && ReadMetaSpec(o, read(MetaPath(o.rootDir, o.split)).value, trig, cast, load).Success?
      && SquarePoses(ReadMetaSpec(o, read(MetaPath(o.rootDir, o.split)).value, trig, cast, load).value.poses)
  {
    var meta :- read(MetaPath(o.rootDir, o.split));
    LoadSpec(o, meta, trig, cast, load)
  }

  /** `read_meta` on the parsed scene, then `define_proj_mat`, which needs square poses. */
  function LoadSpec(o: Options, meta: Scene, trig: Trig, cast: RayCaster, load: ImageLoader): (r: Result<MetaState, Error>)
    ensures r.Success? ==> LoadedState(o, r.value) && SquarePoses(r.value.poses)
    ensures r.Success? <==>
      ReadMetaSpec(o, meta, trig, cast, load).Success? && SquarePoses(ReadMetaSpec(o, meta, trig, cast, load).value.poses)
  {
    var st :- ReadMetaSpec(o, meta, trig, cast, load);
    ReadMetaLoaded(o, meta, trig, cast, load);
    if !SquarePoses(st.poses) then Failure(RuntimeError) else Success(st)
  }

  class Sfm2Nerf {
    const rootDir: string
    const split: string
    const downsample: real
    const isStack: bool
    const nVis: int

    var sceneBbox: Box
    var nearFar: seq<real>
    var whiteBg: bool
    var center: Vec3
    var radius: Vec3

    var imgWh: (int, int)
    var intrinsics: Intrinsics
    var renderPath: seq<Matrix>
    var poses: seq<Matrix>
    var imagePaths: seq<string>
    var allRays: RayStore
    var allRgbs: RgbStore
    var allMasks: seq<seq<bool>>

    /** The constructor arguments as one record. */
    function Args(): Options
    {
      Options(rootDir, split, downsample, isStack, nVis)
    }

    /** The fields `read_meta` sets, as one record. */
    function State(): MetaState
      reads this
    {
      MetaState(imgWh, intrinsics, renderPath, poses, imagePaths, allRays, allRgbs)
    }

    /** The split's box and near/far bounds, and the mask list no code fills. */
    predicate Valid()
      reads this
    {
      sceneBbox == SceneBox(split) && nearFar == NearFar && allMasks == []
    }

    /** A fully constructed dataset: loaded buffers, square poses, the box's centre and radius. */
    predicate Ready()
      reads this
    {
      && Valid()
      && LoadedState(Args(), State())
      && SquarePoses(poses)
      && whiteBg
      && center == BoxCenter(sceneBbox)
      && radius == BoxRadius(sceneBbox)
    }

    /** Lines 41-59: the arguments, the bounding box and `near_far` of the split; empty buffers. */
    constructor (rootDir: string, split: string, downsample: real, isStack: bool, nVis: int)
      ensures Args() == Options(rootDir, split, downsample, isStack, nVis)
      ensures Valid()
      ensures poses == [] && imagePaths == [] && allRays == RaysPerFrame([]) && allRgbs == RgbList([])
    {
      this.nVis := nVis;
      this.rootDir := rootDir;
      this.split := split;
      this.isStack := isStack;
      this.downsample := downsample;
      sceneBbox := SceneBox(split);
      nearFar := NearFar;
      whiteBg := false;
      center := Vec3(0.0, 0.0, 0.0);
      radius := Vec3(0.0, 0.0, 0.0);
      imgWh := (0, 0);
      intrinsics := Intrinsics(0.0, 0.0, 0.0, 0.0);
      renderPath := [];
      poses := [];
      imagePaths := [];
      allRays := RaysPerFrame([]);
      allRgbs := RgbList([]);
      allMasks := [];
    }

    /**
     * `read_meta` (lines 75-142) on the parsed scene: image size, intrinsics, render orbit, the
     * frame loop appending to `poses`, `image_paths` and the ray and colour lists, then the stack
     * or concatenation. The outcome and the new fields are those of `ReadMetaSpec`.
     */
    method ReadMeta(meta: Scene, trig: Trig, cast: RayCaster, load: ImageLoader) returns (out: Outcome<Error>)
      modifies this`imgWh, this`intrinsics, this`renderPath, this`poses, this`imagePaths,
               this`allRays, this`allRgbs, this`allMasks
      ensures var spec := ReadMetaSpec(Args(), meta, trig, cast, load);
        && (out.Pass? <==> spec.Success?)
        && (out.Fail? ==> spec.Failure? && out.error == spec.error)
        && (out.Pass? ==> State() == spec.value && allMasks == [])
    {
      var size := ImageSize(meta, downsample);
      if size.Failure? {
        return Fail(size.error);
      }
      var w, h := size.value.0, size.value.1;
      imgWh := (w, h);
      var intr := ReadIntrinsics(meta.intrinsicMatrix);
      if intr.Failure? {
        return Fail(intr.error);
      }
      intrinsics := intr.value;
      renderPath := RenderPath(trig);
      imagePaths := [];
      poses := [];
      allMasks := [];
      var chosen := FrameIndices(nVis, |meta.frames|);
      if chosen.Failure? {
        return Fail(chosen.error);
      }
      var idxs := chosen.value;
      var loaded, rayBlocks, rgbBlocks := LoadChosenFrames(meta.frames, idxs, w, h, cast, load);
      if loaded.Fail? {
        return loaded;
      }
      out := StackBuffers(w, h, rayBlocks, rgbBlocks);
    }

    /**
     * The loop of lines 107-129 over the chosen frames: each iteration appends the flipped pose
     * to `poses`, outside `render` the image path to `image_paths` and the image's RGB rows to
     * the colour list, and the frame's rays to the ray list; the first failing frame raises.
     */
    method LoadChosenFrames(frames: seq<FrameEntry>, idxs: seq<int>, w: int, h: int, cast: RayCaster, load: ImageLoader)
      returns (out: Outcome<Error>, rayBlocks: seq<seq<Ray>>, rgbBlocks: seq<seq<Color>>)
      requires poses == [] && imagePaths == []
      modifies this`poses, this`imagePaths
      ensures var spec := LoadFrames(Args(), w, h, intrinsics, frames, idxs, cast, load);
        && (out.Pass? <==> spec.Success?)
        && (out.Fail? ==> spec.Failure? && out.error == spec.error)
        && (out.Pass? ==> spec.value == Loaded(poses, imagePaths, rayBlocks, rgbBlocks))
    {
      rayBlocks, rgbBlocks := [], [];
      var k := 0;
      while k < |idxs|
        invariant 0 <= k <= |idxs|
        invariant LoadFrames(Args(), w, h, intrinsics, frames, idxs[..k], cast, load)
               == Success(Loaded(poses, imagePaths, rayBlocks, rgbBlocks))
      {
        ghost var prev := Loaded(poses, imagePaths, rayBlocks, rgbBlocks);
        var frame := LoadFrameAt(frames, idxs[k], w, h, cast, load);
        if frame.Failure? {
          LoadFramesFailsAt(Args(), w, h, intrinsics, frames, idxs, cast, load, k);
          return Fail(frame.error), rayBlocks, rgbBlocks;
        }
        var data := frame.value;
        poses := poses + [data.pose];
        if split != "render" {
          imagePaths := imagePaths + [data.imagePath.value];
          rgbBlocks := rgbBlocks + [data.rgb.value];
        }
        rayBlocks := rayBlocks + [data.rays];
        LoadFramesSnoc(Args(), w, h, intrinsics, frames, idxs, cast, load, k, prev, data);
        assert Loaded(poses, imagePaths, rayBlocks, rgbBlocks) == Extend(prev, data);
        k := k + 1;
      }
      assert idxs[..|idxs|] == idxs;
      return Pass, rayBlocks, rgbBlocks;
    }

    /**
     * The body of the loop for frame i (lines 108-128): the flipped pose, outside `render` the
     * image at `file_path` and its RGB rows, and the rays of the pose.
     */
    method LoadFrameAt(frames: seq<FrameEntry>, i: int, w: int, h: int, cast: RayCaster, load: ImageLoader)
      returns (r: Result<FrameData, Error>)
      ensures r == LoadFrame(Args(), w, h, intrinsics, frames, i, cast, load)
    {
      if !(0 <= i < |frames|) {
        return Failure(IndexError);
      }
      var frame := frames[i];
      if !ValidExtrinsic(frame.extrinsicMatrix) {
        return Failure(ValueError);
      }
      var c2w := ToOpenCV(frame.extrinsicMatrix);
      var imagePath: Option<string> := None;
      var rgb: Option<seq<Color>> := None;
      if split != "render" {
        if frame.filePath.None? {
          return Failure(KeyError("file_path"));
        }
        var path := JoinPath(rootDir, frame.filePath.value);
        var img := load(path, ResizeTarget(downsample, w, h));
        if !ImageFits(img, w, h) {
          return Failure(RuntimeError);
        }
        imagePath, rgb := Some(path), Some(ImageRgb(img));
      }
      return Success(FrameData(c2w, imagePath, cast(w, h, intrinsics, c2w), rgb));
    }

    /**
     * Lines 132-142: stack the poses, then concatenate (or, with `is_stack`, stack) the ray blocks
     * and, outside `render`, the colour blocks, reshaping stacked colours to h x w grids.
     */
    method StackBuffers(w: int, h: int, rayBlocks: seq<seq<Ray>>, rgbBlocks: seq<seq<Color>>) returns (out: Outcome<Error>)
      requires imgWh == (w, h)
      modifies this`allRays, this`allRgbs
      ensures var spec := Assemble(Args(), w, h, intrinsics, renderPath, Loaded(poses, imagePaths, rayBlocks, rgbBlocks));
        && (out.Pass? <==> spec.Success?)
        && (out.Fail? ==> spec.Failure? && out.error == spec.error)
        && (out.Pass? ==> State() == spec.value)
    {
      if |poses| == 0 || !SameRowCount(poses) {
        return Fail(RuntimeError);
      }
      if !isStack {
        allRays := RaysFlat(Concat(rayBlocks));
        if split != "render" {
          allRgbs := RgbFlat(Concat(rgbBlocks));
        } else {
          allRgbs := RgbList(rgbBlocks);
        }
      } else {
        if |rayBlocks| == 0 || !Uniform(rayBlocks, |rayBlocks[0]|) {
          return Fail(RuntimeError);
        }
        allRays := RaysPerFrame(rayBlocks);
        if split != "render" {
          if |rgbBlocks| == 0 || w <= 0 || h <= 0 || !Uniform(rgbBlocks, h * w) {
            return Fail(RuntimeError);
          }
          allRgbs := RgbGrids(Grids(rgbBlocks, h, w));
        } else {
          allRgbs := RgbList(rgbBlocks);
        }
      }
      return Pass;
    }

    /** `define_proj_mat` (line 150): `torch.inverse` of the stacked poses needs them square. */
    method DefineProjMat() returns (out: Outcome<Error>)
      ensures out.Pass? <==> SquarePoses(poses)
      ensures out.Fail? ==> out.error == RuntimeError
    {
      if SquarePoses(poses) {
        return Pass;
      }
      return Fail(RuntimeError);
    }

    /** Lines 63-68: white background, and the box's centre and radius. */
    method SetBounds()
      modifies this`whiteBg, this`center, this`radius
      ensures whiteBg && center == BoxCenter(sceneBbox) && radius == BoxRadius(sceneBbox)
    {
      whiteBg := true;
      center := BoxCenter(sceneBbox);
      radius := BoxRadius(sceneBbox);
    }

    /**
     * `Sfm2Nerf(datadir, split, downsample, is_stack, N_vis)`: the constructor, the scene file of
     * the split, `read_meta`, `define_proj_mat` and the bounds; the first failure is raised.
     */
    static method Open(rootDir: string, split: string, downsample: real, isStack: bool, nVis: int,
                       read: SceneReader, trig: Trig, cast: RayCaster, load: ImageLoader)
      returns (r: Result<Sfm2Nerf, Error>)
      ensures var spec := InitSpec(Options(rootDir, split, downsample, isStack, nVis), read, trig, cast, load);
        && (r.Success? <==> spec.Success?)
        && (r.Failure? ==> r.error == spec.error)
        && (r.Success? ==> fresh(r.value) && r.value.Ready() && r.value.State() == spec.value
                           && r.value.Args() == Options(rootDir, split, downsample, isStack, nVis))
    {
      var ds := new Sfm2Nerf(rootDir, split, downsample, isStack, nVis);
      var meta := read(MetaPath(rootDir, split));
      if meta.Failure? {
        return Failure(meta.error);
      }
      var loaded := ds.Load(meta.value, trig, cast, load);
      if loaded.Fail? {
        return Failure(loaded.error);
      }
      return Success(ds);
    }

    /** The rest of the constructor on the parsed scene: `read_meta`, `define_proj_mat` and the bounds. */
    method Load(meta: Scene, trig: Trig, cast: RayCaster, load: ImageLoader) returns (out: Outcome<Error>)
      requires Valid()
      modifies this`imgWh, this`intrinsics, this`renderPath, this`poses, this`imagePaths,
               this`allRays, this`allRgbs, this`allMasks, this`whiteBg, this`center, this`radius
      ensures var spec := LoadSpec(Args(), meta, trig, cast, load);
        && (out.Pass? <==> spec.Success?)
        && (out.Fail? ==> out.error == spec.error)
        && (out.Pass? ==> Ready() && State() == spec.value)
    {
      ghost var spec := ReadMetaSpec(Args(), meta, trig, cast, load);
      var loaded := ReadMeta(meta, trig, cast, load);
      if loaded.Fail? {
        return Fail(loaded.error);
      }
      ReadMetaLoaded(Args(), meta, trig, cast, load);
      ghost var st := State();
      assert st == spec.value && LoadedState(Args(), st) && Valid();
      var proj := DefineProjMat();
      if proj.Fail? {
        assert !SquarePoses(st.poses);
        return Fail(proj.error);
      }
      SetBounds();
      assert State() == st && Valid() && SquarePoses(poses);
      return Pass;
    }

    /** `world2ndc` (lines 152-154) on a list of points; the box's inverse map takes each result back. */
    function World2NdcPoints(points: seq<Vec3>): (ns: seq<Vec3>)
      reads this
      requires Valid() && radius == BoxRadius(sceneBbox)
      ensures |ns| == |points|
      ensures forall k :: 0 <= k < |points| ==> NdcToWorld(ns[k], center, radius) == points[k]
    {
      SceneBoxGeometry(split);
      World2NdcAll(points, center, radius)
    }

    /**
     * `__len__` (lines 156-157): `len(all_rgbs)`, which is 0 for `render`, one per frame when
     * stacked and one per pixel of every frame when flattened.
     */
    function Len(): (n: nat)
      reads this
      ensures Ready() && split == "render" ==> n == 0
      ensures Ready() && split != "render" && isStack ==> n == |poses|
      ensures Ready() && split != "render" && !isStack ==> n == |poses| * (imgWh.0 * imgWh.1)
    {
      RgbCount(allRgbs)
    }

    /**
     * `__getitem__` (lines 159-175): rays and colours for `train`, rays alone for `render`; any
     * other split also indexes `all_masks`, which stays empty, so it always raises IndexError.
     */
    function GetItem(idx: int): (r: Result<Sample, Error>)
      reads this
      ensures r.Failure? ==> r.error == IndexError
      ensures split == "train" ==>
        && (r.Success? <==> PyIndex(idx, RayCount(allRays)).Some? && PyIndex(idx, RgbCount(allRgbs)).Some?)
        && (r.Success? ==> r.value == Sample(RayAt(allRays, idx).value, Some(RgbAt(allRgbs, idx).value)))
      ensures split == "render" ==>
        && (r.Success? <==> PyIndex(idx, RayCount(allRays)).Some?)
        && (r.Success? ==> r.value == Sample(RayAt(allRays, idx).value, None))
      ensures split != "train" && split != "render" && allMasks == [] ==> r == Failure(IndexError)
    {
      if split == "train" then
        var rays :- RayAt(allRays, idx);
        var rgbs :- RgbAt(allRgbs, idx);
        Success(Sample(rays, Some(rgbs)))
      else if split == "render" then
        var rays :- RayAt(allRays, idx);
        Success(Sample(rays, None))
      else
        var img :- RgbAt(allRgbs, idx);
        var rays :- RayAt(allRays, idx);
        if PyIndex(idx, |allMasks|).None? then Failure(IndexError)
        else Success(Sample(rays, Some(img)))
    }
  }

  /**
   * Without `is_stack`, item `f*w*h + p` of a loaded training set is pixel p of frame f: the ray
   * the caster gives for the frame's pose and the colour of the frame's image.
   */
  lemma TrainFlatItem(ds: Sfm2Nerf, meta: Scene, trig: Trig, cast: RayCaster, load: ImageLoader, f: int, p: int)
    requires ds.split == "train" && !ds.isStack
    requires ReadMetaSpec(ds.Args(), meta, trig, cast, load) == Success(ds.State())
    requires CastsFullFrames(cast, ds.imgWh.0, ds.imgWh.1)
    requires 0 <= f < |ds.poses| && 0 <= p < ds.imgWh.0 * ds.imgWh.1
    ensures var w, h := ds.imgWh.0, ds.imgWh.1;
      && |ds.imagePaths| == |ds.poses|
      && |ImageRgb(load(ds.imagePaths[f], ResizeTarget(ds.downsample, w, h)))| == w * h
      && ds.GetItem(f * (w * h) + p)
         == Success(Sample(OneRay(cast(w, h, ds.intrinsics, ds.poses[f])[p]),
                           Some(OneColor(ImageRgb(load(ds.imagePaths[f], ResizeTarget(ds.downsample, w, h)))[p]))))
  {
    var w, h := ds.imgWh.0, ds.imgWh.1;
    var n := w * h;
    FlatBuffersHoldFrames(ds.Args(), meta, trig, cast, load);
    var rays := FrameRays(cast, w, h, ds.intrinsics, ds.poses);
    var images := FrameImages(load, ds.imagePaths, ResizeTarget(ds.downsample, w, h));
    assert Uniform(rays, n);
    assert ds.allRays == RaysFlat(Concat(rays)) && ds.allRgbs == RgbFlat(Concat(images));
    FlatPixel(rays, images, n, f, p);
    var i := f * n + p;
    var ray, color := rays[f][p], images[f][p];
    assert RayAt(ds.allRays, i) == Success(OneRay(ray));
    assert RgbAt(ds.allRgbs, i) == Success(OneColor(color));
    assert ds.GetItem(i) == Success(Sample(OneRay(ray), Some(OneColor(color))));
  }

  /** Row `f*n + p` of both flat buffers, read through Python indexing. */
  lemma FlatPixel(rays: seq<seq<Ray>>, images: seq<seq<Color>>, n: nat, f: nat, p: nat)
    requires Uniform(rays, n) && Uniform(images, n) && f < |rays| && f < |images| && p < n
    ensures RayAt(RaysFlat(Concat(rays)), f * n + p) == Success(OneRay(rays[f][p]))
    ensures RgbAt(RgbFlat(Concat(images)), f * n + p) == Success(OneColor(images[f][p]))
  {
    var i := f * n + p;
    ConcatRow(rays, n, f, p);
    ConcatRow(images, n, f, p);
    InRangeRow(Concat(rays), Concat(images), i);
  }

  /** A non-negative index below the length picks that row. */
  lemma InRangeRow(rows: seq<Ray>, colors: seq<Color>, i: int)
    requires 0 <= i < |rows| && i < |colors|
    ensures RayAt(RaysFlat(rows), i) == Success(OneRay(rows[i]))
    ensures RgbAt(RgbFlat(colors), i) == Success(OneColor(colors[i]))
  {
  }

  /**
   * With `is_stack`, item f of a loaded training set is frame f whole: the block of rays of its
   * pose and an h x w grid that, read row by row, is the frame's image.
   */
  lemma TrainStackedItem(ds: Sfm2Nerf, meta: Scene, trig: Trig, cast: RayCaster, load: ImageLoader, f: int)
    requires ds.split == "train" && ds.isStack
    requires ReadMetaSpec(ds.Args(), meta, trig, cast, load) == Success(ds.State())
    requires 0 <= f < |ds.poses|
    ensures var w, h := ds.imgWh.0, ds.imgWh.1;
      var item := ds.GetItem(f);
      && |ds.imagePaths| == |ds.poses|
      && item.Success? && item.value.rays == RayBlock(cast(w, h, ds.intrinsics, ds.poses[f]))
      && item.value.rgbs.Some? && item.value.rgbs.value.ColorGrid?
      && |item.value.rgbs.value.grid| == h && Uniform(item.value.rgbs.value.grid, w)
      && Concat(item.value.rgbs.value.grid) == ImageRgb(load(ds.imagePaths[f], ResizeTarget(ds.downsample, w, h)))
  {
    StackedBuffersHoldFrames(ds.Args(), meta, trig, cast, load);
    assert PyIndex(f, RayCount(ds.allRays)) == Some(f);
    assert PyIndex(f, RgbCount(ds.allRgbs)) == Some(f);
    assert Flatten(ds.allRgbs.grids)[f] == Concat(ds.allRgbs.grids[f]);
  }

  /**
   * The scene `camera_path_generator.py` writes loads under the `render` split at its own size:
   * 800x800 pixels, its fixed intrinsics and one pose per generated matrix, flipped to OpenCV.
   */
  lemma GeneratedSceneRenders(o: Options, ms: seq<Matrix>, trig: Trig, cast: RayCaster, load: ImageLoader)
    requires o.split == "render" && o.downsample == 1.0 && o.nVis < 0
    requires |ms| >= 1 && forall k :: 0 <= k < |ms| ==> IsMatrix(ms[k], 4, 4)
    requires o.isStack ==> CastsFullFrames(cast, 800, 800)
    ensures var r := ReadMetaSpec(o, RenderScene(ms), trig, cast, load);
      && r.Success?
      && r.value.imgWh == (800, 800)
      && r.value.intrinsics == Intrinsics(RenderFocal, RenderFocal, 400.0, 400.0)
      && r.value.imagePaths == [] && r.value.allRgbs == RgbList([])
      && |r.value.poses| == |ms|
      && forall k :: 0 <= k < |ms| ==> ValidExtrinsic(ms[k]) && r.value.poses[k] == ToOpenCV(ms[k])
  {
    var s := RenderScene(ms);
    var intr := Intrinsics(RenderFocal, RenderFocal, 400.0, 400.0);
    assert ImageSize(s, o.downsample) == Success((800, 800));
    assert ReadIntrinsics(s.intrinsicMatrix) == Success(intr);
    AllFramesWhenNegative(o.nVis, |ms|);
    var idxs := seq(|ms|, k => k);
    forall k | 0 <= k < |idxs| ensures LoadFrame(o, 800, 800, intr, s.frames, idxs[k], cast, load).Success? {
      assert ValidExtrinsic(s.frames[k].extrinsicMatrix);
    }
    LoadFramesSucceeds(o, 800, 800, intr, s.frames, idxs, cast, load);
    LoadFramesPoses(o, 800, 800, intr, s.frames, idxs, cast, load);
    LoadFramesImages(o, 800, 800, intr, s.frames, idxs, cast, load);
    var l := LoadFrames(o, 800, 800, intr, s.frames, idxs, cast, load).value;
    assert SameRowCount(l.poses);
    assert o.isStack ==> Uniform(l.rayBlocks, |l.rayBlocks[0]|);
    assert Assemble(o, 800, 800, intr, RenderPath(trig), l).Success?;
  }

  /**
   * The generated scene has no `file_path` entries, so every split but `render` fails on its
   * first frame with a KeyError.
   */
  lemma GeneratedSceneNeedsRenderSplit(o: Options, ms: seq<Matrix>, trig: Trig, cast: RayCaster, load: ImageLoader)
    requires o.split != "render" && o.downsample != 0.0 && o.nVis < 0
    requires |ms| >= 1 && IsMatrix(ms[0], 4, 4)
    ensures ReadMetaSpec(o, RenderScene(ms), trig, cast, load) == Failure(KeyError("file_path"))
  {
    var s := RenderScene(ms);
    var wh := ImageSize(s, o.downsample).value;
    var intr := ReadIntrinsics(s.intrinsicMatrix).value;
    AllFramesWhenNegative(o.nVis, |ms|);
    var idxs := seq(|ms|, k => k);
    assert LoadFrame(o, wh.0, wh.1, intr, s.frames, idxs[0], cast, load) == Failure(KeyError("file_path"));
    LoadFramesFirstError(o, wh.0, wh.1, intr, s.frames, idxs, cast, load, 0);
  }

  /**
   * End to end: whenever `polar_2_extrinsic` yields at least one matrix, its scene loads under
   * `render` with one pose per generated matrix.
   */
  lemma GeneratedPathRenders(fps: int, duration: int, coefs: Coefficients, o: Options,
                             trig: Trig, cast: RayCaster, load: ImageLoader)
    requires WellShaped(coefs) && PolarToExtrinsic(fps, duration, coefs, trig).Success?
    requires fps * duration >= 1
    requires o.split == "render" && o.downsample == 1.0 && o.nVis < 0
    requires o.isStack ==> CastsFullFrames(cast, 800, 800)
    ensures var ms := PolarToExtrinsic(fps, duration, coefs, trig).value;
      var r := ReadMetaSpec(o, RenderScene(ms), trig, cast, load);
      && r.Success? && |r.value.poses| == fps * duration
      && forall k :: 0 <= k < |ms| ==> ValidExtrinsic(ms[k]) && r.value.poses[k] == ToOpenCV(ms[k])
  {
    GeneratedSceneRenders(o, PolarToExtrinsic(fps, duration, coefs, trig).value, trig, cast, load);
  }
}
