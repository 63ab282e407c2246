/**
 * The per-frame loading of `read_meta` (dataLoader/sfm2nerf.py, lines 75-142) as functions of
 * the scene description: the image size, the choice and loading of frames, and the final
 * stacking or concatenation of the buffers. The class in `SfmDataset` runs the same steps as a
 * loop over object fields and is proved against these functions.
 *
 * Reading the scene file, opening and resizing images and casting rays call code outside the
 * model; they are the parameters `SceneReader`, `ImageLoader` and `RayCaster`.
 */
module SfmFrames {

  import opened Wrappers
  import opened Errors
  import opened Numerics
  import opened Geometry
  import opened SceneDescription
  import opened SfmPoses
  import opened SfmScene
  import opened SfmBuffers

  /** `open` + `json.load` of a scene file: the scene, or the error those calls raise. */
  type SceneReader = string -> Result<Scene, Error>

  /**
   * `Image.open`, the optional `resize` to (w, h), `ToTensor` and the `view`/`permute` of lines
   * 117-122: the pixel rows of the image at a path.
   */
  type ImageLoader = (string, Option<(int, int)>) -> Image

  /**
   * `get_ray_directions` for an h x w image with the given intrinsics, normalised, followed by
   * `get_rays` for a camera-to-world pose: one ray per pixel, in pixel order.
   */
  type RayCaster = (int, int, Intrinsics, Matrix) -> seq<Ray>

  /** The constructor arguments: `datadir`, `split`, `downsample`, `is_stack`, `N_vis`. */
  datatype Options = Options(rootDir: string, split: string, downsample: real, isStack: bool, nVis: int)

  /**
   * `os.path.join(root, p)` for two components: an absolute `p` replaces the root, otherwise a
   * separator is inserted unless the root is empty or already ends with one.
   */
  function JoinPath(root: string, p: string): (r: string)
    ensures |p| > 0 && p[0] == '/' ==> r == p
    ensures !(|p| > 0 && p[0] == '/') ==> |r| >= |root| + |p| && r[..|root|] == root && r[|r| - |p|..] == p
    ensures !(|p| > 0 && p[0] == '/') ==> |r| <= |root| + |p| + 1
    ensures !(|p| > 0 && p[0] == '/') && |root| > 0 ==> r[|r| - |p| - 1] == '/'
    ensures !(|p| > 0 && p[0] == '/') && (|root| == 0 || root[|root| - 1] == '/') ==> |r| == |root| + |p|
    ensures !(|p| > 0 && p[0] == '/') && |root| > 0 && root[|root| - 1] != '/' ==> |r| == |root| + |p| + 1
  {
    if |p| > 0 && p[0] == '/' then p
    else if |root| == 0 || root[|root| - 1] == '/' then root + p
    else root + "/" + p
  }

  /** Line 77: the scene file of a split, `transforms_<split>.json` under the root directory. */
  function MetaPath(rootDir: string, split: string): string
  {
    JoinPath(rootDir, "transforms_" + split + ".json")
  }

  /**
   * Line 81: `int(vid_width / downsample)` and `int(vid_height / downsample)`, truncated toward
   * zero; a zero `downsample` divides by zero. Without downsampling the video size is kept.
   */
  function ImageSize(meta: Scene, downsample: real): (r: Result<(int, int), Error>)
    ensures r.Failure? <==> downsample == 0.0
    ensures r.Failure? ==> r.error == ZeroDivisionError
    ensures r.Success? ==>
      r.value == (Truncate(meta.vidWidth as real / downsample), Truncate(meta.vidHeight as real / downsample))
    ensures downsample == 1.0 ==> r == Success((meta.vidWidth, meta.vidHeight))
  {
    if downsample == 0.0 then Failure(ZeroDivisionError)
    else
      var w := meta.vidWidth as real / downsample;
      var h := meta.vidHeight as real / downsample;
      assert downsample == 1.0 ==> Truncate(w) == meta.vidWidth && Truncate(h) == meta.vidHeight by {
        if downsample == 1.0 {
          TruncateWhole(meta.vidWidth);
          TruncateWhole(meta.vidHeight);
        }
      }
      Success((Truncate(w), Truncate(h)))
  }

  lemma TruncateWhole(n: int)
    ensures Truncate(n as real / 1.0) == n
  {
    assert n as real / 1.0 == n as real;
  }

  /** `np.array(extrinsic) @ blender2opencv` is defined for a non-empty matrix of 4-entry rows. */
  predicate ValidExtrinsic(m: Matrix)
  {
    |m| >= 1 && IsMatrix(m, |m|, 4)
  }

  /** An image the `view(-1, w*h)` of line 122 turns into exactly w*h pixel rows. */
  predicate ImageFits(img: Image, w: int, h: int)
  {
    w > 0 && h > 0 && PixelCount(img) == w * h
  }

  /** Line 119: the image is resized to `img_wh` only when downsampling. */
  function ResizeTarget(downsample: real, w: int, h: int): Option<(int, int)>
  {
    if downsample != 1.0 then Some((w, h)) else None
  }

  /** What one loop iteration appends: the pose, the image path and colours (not for `render`), the rays. */
  datatype FrameData = FrameData(pose: Matrix, imagePath: Option<string>, rays: seq<Ray>, rgb: Option<seq<Color>>)

  /**
   * One iteration of the loop of lines 107-129 for frame i: the flipped pose; outside the
   * `render` split the image at `file_path` (a missing key is a KeyError, an image of the wrong
   * size a RuntimeError) with its RGB rows; the rays of the pose.
   */
  function LoadFrame(o: Options, w: int, h: int, intr: Intrinsics, frames: seq<FrameEntry>, i: int,
                     cast: RayCaster, load: ImageLoader): (r: Result<FrameData, Error>)
    ensures r.Success? <==>
      && 0 <= i < |frames|
      && ValidExtrinsic(frames[i].extrinsicMatrix)
      && (o.split != "render" ==>
            (frames[i].filePath.Some?
             && ImageFits(load(JoinPath(o.rootDir, frames[i].filePath.value), ResizeTarget(o.downsample, w, h)), w, h)))
    ensures !(0 <= i < |frames|) ==> r == Failure(IndexError)
    ensures 0 <= i < |frames| && !ValidExtrinsic(frames[i].extrinsicMatrix) ==> r == Failure(ValueError)
    ensures 0 <= i < |frames| && ValidExtrinsic(frames[i].extrinsicMatrix) && o.split != "render" && frames[i].filePath.None?
      ==> r == Failure(KeyError("file_path"))
    ensures r.Success? ==>
      && r.value.pose == ToOpenCV(frames[i].extrinsicMatrix)
      && r.value.rays == cast(w, h, intr, r.value.pose)
      && (o.split == "render" <==> r.value.rgb.None?)
      && (o.split == "render" <==> r.value.imagePath.None?)
      && (r.value.imagePath.Some? ==> r.value.imagePath.value == JoinPath(o.rootDir, frames[i].filePath.value))
      && (r.value.rgb.Some? ==>
            (|r.value.rgb.value| == w * h
             && r.value.rgb.value == ImageRgb(load(r.value.imagePath.value, ResizeTarget(o.downsample, w, h)))))
  {
    if !(0 <= i < |frames|) then Failure(IndexError)
    else
      var frame := frames[i];
      if !ValidExtrinsic(frame.extrinsicMatrix) then Failure(ValueError)
      else
        var pose := ToOpenCV(frame.extrinsicMatrix);
        if o.split == "render" then Success(FrameData(pose, None, cast(w, h, intr, pose), None))
        else if frame.filePath.None? then Failure(KeyError("file_path"))
        else
          var path := JoinPath(o.rootDir, frame.filePath.value);
          var img := load(path, ResizeTarget(o.downsample, w, h));
          if !ImageFits(img, w, h) then Failure(RuntimeError)
          else Success(FrameData(pose, Some(path), cast(w, h, intr, pose), Some(ImageRgb(img))))
  }

  /** The four lists the loop fills: `poses`, `image_paths`, `all_rays`, `all_rgbs`. */
  datatype Loaded = Loaded(poses: seq<Matrix>, imagePaths: seq<string>, rayBlocks: seq<seq<Ray>>, rgbBlocks: seq<seq<Color>>)

  function OptionList<T>(x: Option<T>): seq<T>
  {
    if x.Some? then [x.value] else []
  }

  /** The lists after one more iteration. */
  function Extend(l: Loaded, f: FrameData): Loaded
  {
    Loaded(l.poses + [f.pose], l.imagePaths + OptionList(f.imagePath),
           l.rayBlocks + [f.rays], l.rgbBlocks + OptionList(f.rgb))
  }

  /** The loop over `idxs`, frame by frame in order; the first frame that fails ends it. */
  function LoadFrames(o: Options, w: int, h: int, intr: Intrinsics, frames: seq<FrameEntry>, idxs: seq<int>,
                      cast: RayCaster, load: ImageLoader): Result<Loaded, Error>
    decreases |idxs|
  {
    if |idxs| == 0 then Success(Loaded([], [], [], []))
    else
      var acc :- LoadFrames(o, w, h, intr, frames, idxs[..|idxs| - 1], cast, load);
      var f :- LoadFrame(o, w, h, intr, frames, idxs[|idxs| - 1], cast, load);
      Success(Extend(acc, f))
  }

  /** A successful load of n + 1 frames is a successful load of the first n followed by one more frame. */
  lemma LoadFramesStep(o: Options, w: int, h: int, intr: Intrinsics, frames: seq<FrameEntry>,
                       idxs: seq<int>, cast: RayCaster, load: ImageLoader)
    requires |idxs| > 0 && LoadFrames(o, w, h, intr, frames, idxs, cast, load).Success?
    ensures LoadFrames(o, w, h, intr, frames, idxs[..|idxs| - 1], cast, load).Success?
    ensures LoadFrame(o, w, h, intr, frames, idxs[|idxs| - 1], cast, load).Success?
    ensures LoadFrames(o, w, h, intr, frames, idxs, cast, load).value
         == Extend(LoadFrames(o, w, h, intr, frames, idxs[..|idxs| - 1], cast, load).value,
                   LoadFrame(o, w, h, intr, frames, idxs[|idxs| - 1], cast, load).value)
  {
  }

  /** One more iteration of the loop: the first k + 1 frames load when the first k do and frame k does. */
  lemma LoadFramesSnoc(o: Options, w: int, h: int, intr: Intrinsics, frames: seq<FrameEntry>,
                       idxs: seq<int>, cast: RayCaster, load: ImageLoader, k: nat, acc: Loaded, f: FrameData)
    requires k < |idxs|
    requires LoadFrames(o, w, h, intr, frames, idxs[..k], cast, load) == Success(acc)
    requires LoadFrame(o, w, h, intr, frames, idxs[k], cast, load) == Success(f)
    ensures LoadFrames(o, w, h, intr, frames, idxs[..k + 1], cast, load) == Success(Extend(acc, f))
  {
    assert idxs[..k + 1][..k] == idxs[..k] && idxs[..k + 1][k] == idxs[k];
  }

  /**
   * The loop loads the chosen frames in order: the k-th pose is the flipped extrinsic matrix of
   * frame `idxs[k]` and the k-th ray block the rays of that pose.
   */
  lemma {:induction false} LoadFramesPoses(o: Options, w: int, h: int, intr: Intrinsics, frames: seq<FrameEntry>,
                                           idxs: seq<int>, cast: RayCaster, load: ImageLoader)
    requires LoadFrames(o, w, h, intr, frames, idxs, cast, load).Success?
    ensures var l := LoadFrames(o, w, h, intr, frames, idxs, cast, load).value;
      && |l.poses| == |idxs| && |l.rayBlocks| == |idxs|
      && forall k :: 0 <= k < |idxs| ==>
           && 0 <= idxs[k] < |frames|
           && ValidExtrinsic(frames[idxs[k]].extrinsicMatrix)
           && l.poses[k] == ToOpenCV(frames[idxs[k]].extrinsicMatrix)
           && l.rayBlocks[k] == cast(w, h, intr, l.poses[k])
    decreases |idxs|
  {
    if |idxs| > 0 {
      var n := |idxs| - 1;
      LoadFramesStep(o, w, h, intr, frames, idxs, cast, load);
      LoadFramesPoses(o, w, h, intr, frames, idxs[..n], cast, load);
      var prev := LoadFrames(o, w, h, intr, frames, idxs[..n], cast, load).value;
      var l := LoadFrames(o, w, h, intr, frames, idxs, cast, load).value;
      var f := LoadFrame(o, w, h, intr, frames, idxs[n], cast, load).value;
      forall k | 0 <= k <= n
        ensures 0 <= idxs[k] < |frames| && ValidExtrinsic(frames[idxs[k]].extrinsicMatrix)
        ensures l.poses[k] == ToOpenCV(frames[idxs[k]].extrinsicMatrix)
        ensures l.rayBlocks[k] == cast(w, h, intr, l.poses[k])
      {
        if k < n {
          assert idxs[k] == idxs[..n][k];
          assert l.poses[k] == prev.poses[k] && l.rayBlocks[k] == prev.rayBlocks[k];
        } else {
          assert l.poses[k] == f.pose && l.rayBlocks[k] == f.rays;
        }
      }
    }
  }

  /**
   * Outside the `render` split the k-th image path and the k-th colour block (w*h rows) come from
   * frame `idxs[k]`; under `render` both lists stay empty.
   */
  lemma {:induction false} LoadFramesImages(o: Options, w: int, h: int, intr: Intrinsics, frames: seq<FrameEntry>,
                                            idxs: seq<int>, cast: RayCaster, load: ImageLoader)
    requires LoadFrames(o, w, h, intr, frames, idxs, cast, load).Success?
    ensures var l := LoadFrames(o, w, h, intr, frames, idxs, cast, load).value;
      && (o.split == "render" ==> l.imagePaths == [] && l.rgbBlocks == [])
      && (o.split != "render" ==>
            && |l.imagePaths| == |idxs| && |l.rgbBlocks| == |idxs|
            && (|idxs| > 0 ==> w > 0 && h > 0 && Uniform(l.rgbBlocks, w * h))
            && forall k :: 0 <= k < |idxs| ==>
                 && 0 <= idxs[k] < |frames|
                 && frames[idxs[k]].filePath.Some?
                 && l.imagePaths[k] == JoinPath(o.rootDir, frames[idxs[k]].filePath.value)
                 && l.rgbBlocks[k] == ImageRgb(load(l.imagePaths[k], ResizeTarget(o.downsample, w, h))))
    decreases |idxs|
  {
    if |idxs| > 0 {
      var n := |idxs| - 1;
      LoadFramesStep(o, w, h, intr, frames, idxs, cast, load);
      LoadFramesImages(o, w, h, intr, frames, idxs[..n], cast, load);
      var prev := LoadFrames(o, w, h, intr, frames, idxs[..n], cast, load).value;
      var l := LoadFrames(o, w, h, intr, frames, idxs, cast, load).value;
      var f := LoadFrame(o, w, h, intr, frames, idxs[n], cast, load).value;
      if o.split != "render" {
        assert l.imagePaths == prev.imagePaths + [f.imagePath.value];
        assert l.rgbBlocks == prev.rgbBlocks + [f.rgb.value];
        forall k | 0 <= k <= n
          ensures 0 <= idxs[k] < |frames| && frames[idxs[k]].filePath.Some?
          ensures l.imagePaths[k] == JoinPath(o.rootDir, frames[idxs[k]].filePath.value)
          ensures |l.rgbBlocks[k]| == w * h
          ensures l.rgbBlocks[k] == ImageRgb(load(l.imagePaths[k], ResizeTarget(o.downsample, w, h)))
        {
          if k < n {
            assert idxs[k] == idxs[..n][k];
          } else {
            assert l.imagePaths[k] == f.imagePath.value && l.rgbBlocks[k] == f.rgb.value;
          }
        }
      } else {
        assert l.imagePaths == prev.imagePaths && l.rgbBlocks == prev.rgbBlocks;
      }
    }
  }

  /** The loop completes exactly when every chosen frame loads. */
  lemma {:induction false} LoadFramesSucceeds(o: Options, w: int, h: int, intr: Intrinsics, frames: seq<FrameEntry>,
                                              idxs: seq<int>, cast: RayCaster, load: ImageLoader)
    ensures LoadFrames(o, w, h, intr, frames, idxs, cast, load).Success?
        <==> forall k :: 0 <= k < |idxs| ==> LoadFrame(o, w, h, intr, frames, idxs[k], cast, load).Success?
    decreases |idxs|
  {
    if |idxs| > 0 {
      var n := |idxs| - 1;
      LoadFramesSucceeds(o, w, h, intr, frames, idxs[..n], cast, load);
      assert forall k :: 0 <= k < n ==> idxs[..n][k] == idxs[k];
    }
  }

  /** A failing loop raises the error of the first frame that fails to load. */
  lemma {:induction false} LoadFramesFirstError(o: Options, w: int, h: int, intr: Intrinsics, frames: seq<FrameEntry>,
                                                idxs: seq<int>, cast: RayCaster, load: ImageLoader, k: int)
    requires 0 <= k < |idxs|
    requires forall j :: 0 <= j < k ==> LoadFrame(o, w, h, intr, frames, idxs[j], cast, load).Success?
    requires LoadFrame(o, w, h, intr, frames, idxs[k], cast, load).Failure?
    ensures LoadFrames(o, w, h, intr, frames, idxs, cast, load)
         == Failure(LoadFrame(o, w, h, intr, frames, idxs[k], cast, load).error)
    decreases |idxs|
  {
    var n := |idxs| - 1;
    assert forall j :: 0 <= j < n ==> idxs[..n][j] == idxs[j];
    if k == n {
      LoadFramesSucceeds(o, w, h, intr, frames, idxs[..n], cast, load);
    } else {
      LoadFramesFirstError(o, w, h, intr, frames, idxs[..n], cast, load, k);
    }
  }

  /** The same, when the first k frames are known to load together. */
  lemma LoadFramesFailsAt(o: Options, w: int, h: int, intr: Intrinsics, frames: seq<FrameEntry>,
                          idxs: seq<int>, cast: RayCaster, load: ImageLoader, k: nat)
    requires k < |idxs|
    requires LoadFrames(o, w, h, intr, frames, idxs[..k], cast, load).Success?
    requires LoadFrame(o, w, h, intr, frames, idxs[k], cast, load).Failure?
    ensures LoadFrames(o, w, h, intr, frames, idxs, cast, load)
         == Failure(LoadFrame(o, w, h, intr, frames, idxs[k], cast, load).error)
  {
    LoadFramesSucceeds(o, w, h, intr, frames, idxs[..k], cast, load);
    assert forall j :: 0 <= j < k ==> idxs[..k][j] == idxs[j];
    LoadFramesFirstError(o, w, h, intr, frames, idxs, cast, load, k);
  }

  /** `all_rays` after line 134 (`RaysFlat`) or line 140 (`RaysPerFrame`). */
  datatype RayStore = RaysPerFrame(blocks: seq<seq<Ray>>) | RaysFlat(rows: seq<Ray>)

  /**
   * `all_rgbs`: the list of per-frame blocks the loop builds (left as it is for `render`),
   * their concatenation (line 136) or their stack reshaped to h x w grids (line 142).
   */
  datatype RgbStore = RgbList(blocks: seq<seq<Color>>) | RgbFlat(rows: seq<Color>) | RgbGrids(grids: seq<seq<seq<Color>>>)

  /** The fields `read_meta` sets. */
  datatype MetaState = MetaState(
    imgWh: (int, int),
    intrinsics: Intrinsics,
    renderPath: seq<Matrix>,
    poses: seq<Matrix>,
    imagePaths: seq<string>,
    allRays: RayStore,
    allRgbs: RgbStore)

  /** Matrices `torch.stack` accepts together: all with the same number of rows. */
  predicate SameRowCount(ms: seq<Matrix>)
  {
    forall k :: 0 <= k < |ms| ==> |ms[k]| == |ms[0]|
  }

  /** Each colour block reshaped to an h x w grid. */
  function Grids(blocks: seq<seq<Color>>, h: nat, w: nat): (gs: seq<seq<seq<Color>>>)
    requires Uniform(blocks, h * w)
    ensures |gs| == |blocks|
    ensures forall k :: 0 <= k < |blocks| ==> |gs[k]| == h && Uniform(gs[k], w) && Concat(gs[k]) == blocks[k]
  {
    seq(|blocks|, k requires 0 <= k < |blocks| => Grid(blocks[k], h, w))
  }

  /**
   * Lines 132-142: the poses are stacked (an empty list or poses of different sizes are a
   * RuntimeError); without `is_stack` the ray blocks, and outside `render` the colour blocks, are
   * concatenated; with it they are stacked, which needs blocks of one size, and the colours are
   * reshaped to h x w grids.
   */
  function Assemble(o: Options, w: int, h: int, intr: Intrinsics, renderPath: seq<Matrix>, l: Loaded): (r: Result<MetaState, Error>)
    ensures r.Failure? ==> r.error == RuntimeError
    ensures |l.poses| == 0 ==> r.Failure?
    ensures r.Success? ==>
      && r.value.imgWh == (w, h) && r.value.intrinsics == intr && r.value.renderPath == renderPath
      && r.value.poses == l.poses && r.value.imagePaths == l.imagePaths
    ensures r.Success? && !o.isStack ==> r.value.allRays == RaysFlat(Concat(l.rayBlocks))
    ensures r.Success? && o.isStack ==> r.value.allRays == RaysPerFrame(l.rayBlocks)
    ensures r.Success? && o.split == "render" ==> r.value.allRgbs == RgbList(l.rgbBlocks)
    ensures r.Success? && o.split != "render" && !o.isStack ==> r.value.allRgbs == RgbFlat(Concat(l.rgbBlocks))
    ensures r.Success? && o.split != "render" && o.isStack ==>
      && w > 0 && h > 0 && r.value.allRgbs.RgbGrids? && |r.value.allRgbs.grids| == |l.rgbBlocks|
      && forall k :: 0 <= k < |l.rgbBlocks| ==>
           |r.value.allRgbs.grids[k]| == h && Uniform(r.value.allRgbs.grids[k], w) && Concat(r.value.allRgbs.grids[k]) == l.rgbBlocks[k]
  {
    if |l.poses| == 0 || !SameRowCount(l.poses) then Failure(RuntimeError)
    else if !o.isStack then
      var rgbs := if o.split != "render" then RgbFlat(Concat(l.rgbBlocks)) else RgbList(l.rgbBlocks);
      Success(MetaState((w, h), intr, renderPath, l.poses, l.imagePaths, RaysFlat(Concat(l.rayBlocks)), rgbs))
    else if |l.rayBlocks| == 0 || !Uniform(l.rayBlocks, |l.rayBlocks[0]|) then Failure(RuntimeError)
    else if o.split == "render" then
      Success(MetaState((w, h), intr, renderPath, l.poses, l.imagePaths, RaysPerFrame(l.rayBlocks), RgbList(l.rgbBlocks)))
    else if |l.rgbBlocks| == 0 || w <= 0 || h <= 0 || !Uniform(l.rgbBlocks, h * w) then Failure(RuntimeError)
    else
      Success(MetaState((w, h), intr, renderPath, l.poses, l.imagePaths, RaysPerFrame(l.rayBlocks),
                        RgbGrids(Grids(l.rgbBlocks, h, w))))
  }

  /**
   * `read_meta` on a scene description, step by step: the image size (line 81), the intrinsics
   * (lines 85-87), the render orbit (line 95), the frame choice (lines 105-106), the loop and the
   * final assembly. The first step that fails decides the error.
   */
  function ReadMetaSpec(o: Options, meta: Scene, trig: Trig, cast: RayCaster, load: ImageLoader): (r: Result<MetaState, Error>)
    ensures o.downsample == 0.0 ==> r == Failure(ZeroDivisionError)
    ensures o.downsample != 0.0 && ReadIntrinsics(meta.intrinsicMatrix).Failure? ==> r == Failure(IndexError)
    ensures o.downsample != 0.0 && ReadIntrinsics(meta.intrinsicMatrix).Success? ==>
      && (o.nVis == 0 ==> r == Failure(ZeroDivisionError))
      && (o.nVis > |meta.frames| ==> r == Failure(ValueError))
      && (o.nVis < 0 && |meta.frames| == 0 ==> r == Failure(RuntimeError))
    ensures r.Success? ==>
      && ImageSize(meta, o.downsample) == Success(r.value.imgWh)
      && ReadIntrinsics(meta.intrinsicMatrix) == Success(r.value.intrinsics)
      && r.value.renderPath == RenderPath(trig)
      && FrameIndices(o.nVis, |meta.frames|).Success?
      && |r.value.poses| == |FrameIndices(o.nVis, |meta.frames|).value| >= 1
  {
    var wh :- ImageSize(meta, o.downsample);
    var intr :- ReadIntrinsics(meta.intrinsicMatrix);
    var idxs :- FrameIndices(o.nVis, |meta.frames|);
    var l :- LoadFrames(o, wh.0, wh.1, intr, meta.frames, idxs, cast, load);
    LoadFramesPoses(o, wh.0, wh.1, intr, meta.frames, idxs, cast, load);
    assert o.nVis < 0 && |meta.frames| == 0 ==> |idxs| == 0 by {
      if o.nVis < 0 && |meta.frames| == 0 {
        AllFramesWhenNegative(o.nVis, 0);
      }
    }
    Assemble(o, wh.0, wh.1, intr, RenderPath(trig), l)
  }

  /**
   * What a completed `read_meta` leaves behind: at least one pose; one image path and one h x w
   * colour block per pose outside `render` (concatenated to `|poses| * w * h` rows, or kept as
   * one grid per pose), nothing for `render`; one ray block per pose when stacked.
   */
  predicate LoadedState(o: Options, st: MetaState)
  {
    && |st.poses| >= 1
    && (o.split == "render" ==> st.allRgbs == RgbList([]) && st.imagePaths == [])
    && (o.split != "render" ==>
          && |st.imagePaths| == |st.poses| && st.imgWh.0 > 0 && st.imgWh.1 > 0
          && (o.isStack ==> st.allRgbs.RgbGrids? && |st.allRgbs.grids| == |st.poses|)
          && (!o.isStack ==> st.allRgbs.RgbFlat? && |st.allRgbs.rows| == |st.poses| * (st.imgWh.0 * st.imgWh.1)))
    && (o.isStack ==> st.allRays.RaysPerFrame? && |st.allRays.blocks| == |st.poses|)
    && (!o.isStack ==> st.allRays.RaysFlat?)
  }

  /** Every successful `read_meta` leaves the buffers in the shape `LoadedState` describes. */
  lemma ReadMetaLoaded(o: Options, meta: Scene, trig: Trig, cast: RayCaster, load: ImageLoader)
    requires ReadMetaSpec(o, meta, trig, cast, load).Success?
    ensures LoadedState(o, ReadMetaSpec(o, meta, trig, cast, load).value)
  {
    var st := ReadMetaSpec(o, meta, trig, cast, load).value;
    var wh := ImageSize(meta, o.downsample).value;
    var intr := ReadIntrinsics(meta.intrinsicMatrix).value;
    var idxs := FrameIndices(o.nVis, |meta.frames|).value;
    var l := LoadFrames(o, wh.0, wh.1, intr, meta.frames, idxs, cast, load).value;
    assert Assemble(o, wh.0, wh.1, intr, RenderPath(trig), l) == Success(st);
    LoadFramesPoses(o, wh.0, wh.1, intr, meta.frames, idxs, cast, load);
    LoadFramesImages(o, wh.0, wh.1, intr, meta.frames, idxs, cast, load);
    if o.split != "render" && !o.isStack {
      ConcatUniform(l.rgbBlocks, wh.0 * wh.1);
    }
  }

  /**
   * The two layouts hold the same data: the flat ray buffer is the stacked ray blocks one after
   * the other (so, by `ConcatUniform`, with m rays per frame row `f*m + p` is row p of block f),
   * and reading each stacked colour grid row by row, frame after frame, gives the flat colour
   * buffer.
   */
  lemma LayoutsAgree(o: Options, w: int, h: int, intr: Intrinsics, renderPath: seq<Matrix>, l: Loaded)
    requires Assemble(o.(isStack := false), w, h, intr, renderPath, l).Success?
    requires Assemble(o.(isStack := true), w, h, intr, renderPath, l).Success?
    ensures var flat := Assemble(o.(isStack := false), w, h, intr, renderPath, l).value;
      var stacked := Assemble(o.(isStack := true), w, h, intr, renderPath, l).value;
      && stacked.allRays.RaysPerFrame?
      && flat.allRays == RaysFlat(Concat(stacked.allRays.blocks))
      && (o.split == "render" ==> flat.allRgbs == stacked.allRgbs)
      && (o.split != "render" ==>
            && stacked.allRgbs.RgbGrids?
            && flat.allRgbs == RgbFlat(Concat(Flatten(stacked.allRgbs.grids))))
  {
    var stacked := Assemble(o.(isStack := true), w, h, intr, renderPath, l).value;
    if o.split != "render" {
      assert Flatten(stacked.allRgbs.grids) == l.rgbBlocks;
    }
  }

  /** Each grid read row by row. */
  function Flatten<T>(grids: seq<seq<seq<T>>>): (blocks: seq<seq<T>>)
    ensures |blocks| == |grids| && forall k :: 0 <= k < |grids| ==> blocks[k] == Concat(grids[k])
  {
    seq(|grids|, k requires 0 <= k < |grids| => Concat(grids[k]))
  }

  /** A ray caster that gives one ray per pixel of a w x h image, whatever the pose. */
  ghost predicate CastsFullFrames(cast: RayCaster, w: int, h: int)
  {
    forall intr: Intrinsics, pose: Matrix :: |cast(w, h, intr, pose)| == w * h
  }

  /** The steps of a successful `read_meta`, each named. */
  lemma ReadMetaParts(o: Options, meta: Scene, trig: Trig, cast: RayCaster, load: ImageLoader)
    returns (wh: (int, int), intr: Intrinsics, idxs: seq<int>, l: Loaded)
    requires ReadMetaSpec(o, meta, trig, cast, load).Success?
    ensures ImageSize(meta, o.downsample) == Success(wh)
    ensures ReadIntrinsics(meta.intrinsicMatrix) == Success(intr)
    ensures FrameIndices(o.nVis, |meta.frames|) == Success(idxs)
    ensures LoadFrames(o, wh.0, wh.1, intr, meta.frames, idxs, cast, load) == Success(l)
    ensures Assemble(o, wh.0, wh.1, intr, RenderPath(trig), l) == ReadMetaSpec(o, meta, trig, cast, load)
  {
    wh := ImageSize(meta, o.downsample).value;
    intr := ReadIntrinsics(meta.intrinsicMatrix).value;
    idxs := FrameIndices(o.nVis, |meta.frames|).value;
    l := LoadFrames(o, wh.0, wh.1, intr, meta.frames, idxs, cast, load).value;
  }

  /**
   * The k-th pose `read_meta` keeps is the flipped extrinsic matrix of the k-th chosen frame and,
   * outside `render`, the k-th image path is that frame's `file_path` under the root directory.
   */
  lemma ReadMetaFrames(o: Options, meta: Scene, trig: Trig, cast: RayCaster, load: ImageLoader)
    requires ReadMetaSpec(o, meta, trig, cast, load).Success?
    ensures var st := ReadMetaSpec(o, meta, trig, cast, load).value;
      var idxs := FrameIndices(o.nVis, |meta.frames|).value;
      && (o.split != "render" ==> |st.imagePaths| == |st.poses|)
      && forall f :: 0 <= f < |st.poses| ==>
        && 0 <= idxs[f] < |meta.frames|
        && ValidExtrinsic(meta.frames[idxs[f]].extrinsicMatrix)
        && st.poses[f] == ToOpenCV(meta.frames[idxs[f]].extrinsicMatrix)
        && (o.split != "render" ==>
              && meta.frames[idxs[f]].filePath.Some?
              && st.imagePaths[f] == JoinPath(o.rootDir, meta.frames[idxs[f]].filePath.value))
  {
    var wh, intr, idxs, l := ReadMetaParts(o, meta, trig, cast, load);
    LoadFramesPoses(o, wh.0, wh.1, intr, meta.frames, idxs, cast, load);
    LoadFramesImages(o, wh.0, wh.1, intr, meta.frames, idxs, cast, load);
  }

  /** The rays of each pose, in order. */
  function FrameRays(cast: RayCaster, w: int, h: int, intr: Intrinsics, poses: seq<Matrix>): (blocks: seq<seq<Ray>>)
    ensures |blocks| == |poses| && forall f :: 0 <= f < |poses| ==> blocks[f] == cast(w, h, intr, poses[f])
  {
    seq(|poses|, f requires 0 <= f < |poses| => cast(w, h, intr, poses[f]))
  }

  /** The RGB rows of the image at each path, in order. */
  function FrameImages(load: ImageLoader, paths: seq<string>, size: Option<(int, int)>): (blocks: seq<seq<Color>>)
    ensures |blocks| == |paths| && forall f :: 0 <= f < |paths| ==> blocks[f] == ImageRgb(load(paths[f], size))
  {
    seq(|paths|, f requires 0 <= f < |paths| => ImageRgb(load(paths[f], size)))
  }

  /**
   * Without `is_stack`, outside `render`: the flat ray buffer is the rays of every kept pose and
   * the flat colour buffer the rows of every kept image, one frame after the other, with w*h
   * colour rows per frame (so, by `ConcatUniform`, row `f*w*h + p` is pixel p of frame f).
   */
  lemma FlatBuffersHoldFrames(o: Options, meta: Scene, trig: Trig, cast: RayCaster, load: ImageLoader)
    requires !o.isStack && o.split != "render"
    requires ReadMetaSpec(o, meta, trig, cast, load).Success?
    ensures var st := ReadMetaSpec(o, meta, trig, cast, load).value;
      var w, h := st.imgWh.0, st.imgWh.1;
      && w > 0 && h > 0
      && st.allRays == RaysFlat(Concat(FrameRays(cast, w, h, st.intrinsics, st.poses)))
      && st.allRgbs == RgbFlat(Concat(FrameImages(load, st.imagePaths, ResizeTarget(o.downsample, w, h))))
      && |st.imagePaths| == |st.poses|
      && Uniform(FrameImages(load, st.imagePaths, ResizeTarget(o.downsample, w, h)), w * h)
  {
    var wh, intr, idxs, l := ReadMetaParts(o, meta, trig, cast, load);
    LoadFramesPoses(o, wh.0, wh.1, intr, meta.frames, idxs, cast, load);
    LoadFramesImages(o, wh.0, wh.1, intr, meta.frames, idxs, cast, load);
    assert l.rayBlocks == FrameRays(cast, wh.0, wh.1, intr, l.poses);
    assert l.rgbBlocks == FrameImages(load, l.imagePaths, ResizeTarget(o.downsample, wh.0, wh.1));
  }

  /**
   * With `is_stack`, outside `render`: block f of the rays is the rays of pose f, and grid f of
   * the colours is an h x w grid that, read row by row, is the rows of image f.
   */
  lemma StackedBuffersHoldFrames(o: Options, meta: Scene, trig: Trig, cast: RayCaster, load: ImageLoader)
    requires o.isStack && o.split != "render"
    requires ReadMetaSpec(o, meta, trig, cast, load).Success?
    ensures var st := ReadMetaSpec(o, meta, trig, cast, load).value;
      var w, h := st.imgWh.0, st.imgWh.1;
      && w > 0 && h > 0
      && st.allRays == RaysPerFrame(FrameRays(cast, w, h, st.intrinsics, st.poses))
      && st.allRgbs.RgbGrids? && |st.imagePaths| == |st.poses|
      && Flatten(st.allRgbs.grids) == FrameImages(load, st.imagePaths, ResizeTarget(o.downsample, w, h))
      && forall f :: 0 <= f < |st.allRgbs.grids| ==> |st.allRgbs.grids[f]| == h && Uniform(st.allRgbs.grids[f], w)
  {
    var wh, intr, idxs, l := ReadMetaParts(o, meta, trig, cast, load);
    LoadFramesPoses(o, wh.0, wh.1, intr, meta.frames, idxs, cast, load);
    LoadFramesImages(o, wh.0, wh.1, intr, meta.frames, idxs, cast, load);
    assert l.rayBlocks == FrameRays(cast, wh.0, wh.1, intr, l.poses);
    assert l.rgbBlocks == FrameImages(load, l.imagePaths, ResizeTarget(o.downsample, wh.0, wh.1));
    var st := ReadMetaSpec(o, meta, trig, cast, load).value;
    assert Flatten(st.allRgbs.grids) == l.rgbBlocks;
  }
}
