# Camera paths and the Sfm2Nerf dataset, modelled in Dafny

This project models the geometric core of a NeRF/TensoRF rendering service:

* **The polynomial camera-path generator** (`polar_2_extrinsic` in `camera_path_generator.py`).
  - The radius r, polar angle θ and azimuth φ are each a truncated Taylor series in time.
  - Coefficient k is normalised by `1/(k!·duration^k)`. Angular coefficients after the first are also scaled by 2π.
  - The series are sampled on `linspace(0, duration, fps·duration)`.
  - Each sample becomes a 4×4 camera-to-world matrix with columns S, U, B (the spherical frame) and the centre `C = r·B`.
  - The generated matrices are packed into the `transforms_render.json` scene record.
* **The first-order draft generator** (`polar_2_extrinsic` in `scripts/extrinsic_matrix_generator.py`).
  - r, θ and φ move linearly in time.
  - A loop advances the accumulator `t_step` by `1/fps` per frame.
  - Each frame is appended as a 3×4 matrix that is zero except for its translation column.
  - It is modelled as a method with a `while` loop proved against a specification function.
* **The `Sfm2Nerf` dataset loader** (`dataLoader/sfm2nerf.py`). The pure helpers are:
  - `trans_t`, `rot_phi`, `rot_theta` and `pose_spherical`;
  - the 40-pose `render_path` orbit;
  - the Blender→OpenCV flip;
  - the split's bounding box with its centre and radius, and `world2ndc`;
  - intrinsics read from the scene and rebuilt;
  - the `N_vis` frame subsampling;
  - the RGBA→RGB white-background blend;
  - the flattened (`torch.cat`) and stacked (`torch.stack`) buffer layouts.

  The dataset object is the class `Sfm2Nerf`:
  - its constructor stores the arguments and the split's box;
  - `ReadMeta` runs the frame loop, appending to `poses` and `image_paths` and to the ray and colour lists, then stacks or concatenates them;
  - `Open` is the whole Python constructor (`__init__`);
  - `Len` and `GetItem` are `__len__` and `__getitem__`.

  Each method is proved against a specification function (`LoadFrames`, `Assemble`, `ReadMetaSpec`, `LoadSpec`). Lemmas about those functions state what the buffers hold.

Conventions of the model:
* Numbers are `real`.
* `sin` and `cos` are the two fields of a `Trig` parameter. The only thing assumed about them is `sin² + cos² = 1` (`Geometry.Pythagorean`), and only by the lemmas that need it.
* Python exceptions are values of `Errors.Error`, returned in a `Result` or an `Outcome`.
* Python's `int()` is truncation toward zero (`Numerics.Truncate`).
* `range` and `linspace` are `Numerics.RangeFrom` and `Numerics.Linspace`.
* Reading the JSON scene, loading images and casting rays call code outside the model. They are the function parameters `SceneReader`, `ImageLoader` and `RayCaster` (module `SfmFrames`).

Two facts about the generator are stated as lemmas rather than as defects:
* Its frame is left-handed: S × U = −B, so the rotation block has determinant −1 (`CameraPath.CameraFrame`). `pose_spherical` gives determinant +1 (`SfmPoses.PoseSphericalRigid`).
* Its scene has no `file_path` entries. It therefore loads only under the `render` split (`SfmDataset.GeneratedSceneRenders`); every other split raises `KeyError` (`SfmDataset.GeneratedSceneNeedsRenderSplit`).

Sampling differs between the two generators:
* `polar_2_extrinsic` in `camera_path_generator.py` samples `linspace(0, duration, n)`, so its last sample is exactly `duration` (`CameraPath.PathEndsAtDuration`).
* Only the draft samples the half-open interval `[0, duration)` (`LinearDraft.DraftSampleTimes`).

Files:
- `base.dfy` holds the modules `Wrappers`, `Errors`, `Numerics` and `Geometry`.
- `scene.dfy` holds `SceneDescription`.
- `camera_path.dfy` holds `CameraPath`.
- `linear_draft.dfy` holds `LinearDraft`.
- `sfm_poses.dfy`, `sfm_scene.dfy`, `sfm_buffers.dfy` and `sfm_frames.dfy` hold `SfmPoses`, `SfmScene`, `SfmBuffers` and `SfmFrames`.
- `sfm_dataset.dfy` holds `SfmDataset`, which contains the class.

## Model

| member | source | states |
|---|---|---|
| `Numerics.Linspace` | camera_path_generator.py:19 | n samples; the first is `start`, the last exactly `stop`; sample i is `start + i·(stop−start)/(n−1)`; consecutive samples differ by the same step |
| `Numerics.RangeFromElements` | dataLoader/sfm2nerf.py:106 | the k-th element of `range(start, stop, step)` is `start + k·step`; all elements lie below `stop`, and one more step would reach `stop` |
| `Numerics.RangeFromComplete` | dataLoader/sfm2nerf.py:106 | every `start + j·step` below `stop` occurs in the range, at position j |
| `Numerics.Truncate` | dataLoader/sfm2nerf.py:81 | `int(x)` rounds toward zero: the result lies within 1 of x, on the side closer to 0 |
| `Numerics.PowOfProduct` | camera_path_generator.py:15-20 | `(x·y)^k = x^k·y^k`, which lets the duration's power cancel against the time's power |
| `Numerics.PowReciprocal` | camera_path_generator.py:15-16 | `(1/d)^k · d^k = 1` for d ≠ 0 |
| `Geometry.MatMul` | dataLoader/sfm2nerf.py:33-35 | `a @ b` has a's row count and four columns; entry (i, j) is row i of a times column j of b |
| `Geometry.MatMulKeepsBottomRow` | dataLoader/sfm2nerf.py:31-36 | multiplying two matrices whose bottom row is `[0,0,0,1]` keeps that bottom row |
| `CameraPath.RadiusNorm` | camera_path_generator.py:15 | `r_norm[k]·k!·duration^k = 1`: radius coefficient k is a k-th derivative over the whole duration |
| `CameraPath.AngleNorm` | camera_path_generator.py:16-17 | `rad_norm[0] = 1`; for k ≥ 1, `rad_norm[k]·k!·duration^k = 2π`, so angular coefficients count whole turns |
| `CameraPath.NormScale` | camera_path_generator.py:15-17 | `norm[k]·duration^k` does not depend on the duration; it equals the norm for duration 1 |
| `CameraPath.TaylorAtZero` | camera_path_generator.py:14-24 | at time 0 the series equals its 0th coefficient |
| `CameraPath.TaylorConstant` | camera_path_generator.py:14-24 | with one coefficient column the series is the constant `c[0]` at every time |
| `CameraPath.TaylorScaleInvariant` | camera_path_generator.py:15-24 | the series at the fraction s of the duration equals the series for duration 1 at time s |
| `CameraPath.SphericalFrame` | camera_path_generator.py:33-46 | given sin²+cos²=1, S, U and B are orthonormal; S × U = −B; the determinant is −1 |
| `CameraPath.CameraMatrix` | camera_path_generator.py:31-59 | one sample's camera matrix is 4×4 |
| `CameraPath.CameraFrame` | camera_path_generator.py:33-57 | bottom row `[0,0,0,1]`; column 3 = r·column 2; S has z-component 0; given sin²+cos²=1, columns 0-2 are orthonormal with S × U = −B and determinant −1 |
| `CameraPath.PolarToExtrinsic` | camera_path_generator.py:8-61 | fails exactly in these cases, checked in this order: duration 0 (ZeroDivisionError), no coefficient column (IndexError), a negative sample count (ValueError), fewer than three coefficient rows (IndexError); otherwise returns exactly `fps·duration` matrices, each 4×4 |
| `CameraPath.PathFrame` | camera_path_generator.py:19-59 | matrix i is the camera matrix at the i-th sample of `linspace(0, duration, n)`; for a positive duration each sample is strictly later than the one before, so the frames are in time order |
| `CameraPath.PathIsRigid` | camera_path_generator.py:33-59 | every generated matrix has bottom row `[0,0,0,1]` and translation = r(tᵢ)·column 2; given sin²+cos²=1, its rotation columns are orthonormal |
| `CameraPath.PathStartsAtInitialCoefficients` | camera_path_generator.py:14-24 | the first matrix sits at `(coefs[0][0], coefs[1][0], coefs[2][0])` |
| `CameraPath.PathEndsAtDuration` | camera_path_generator.py:19-24 | the last matrix is sampled at exactly `duration`; there the pose is the series for duration 1 at time 1 |
| `CameraPath.ConstantPath` | camera_path_generator.py:14-24 | with a single coefficient column every matrix is the initial one |
| `CameraPath.RenderScene` | camera_path_generator.py:71-78 | one `frames` entry per matrix, in order; each carries that matrix as `extrinsic_matrix` and has no `file_path` |
| `LinearDraft.Zeros` | scripts/extrinsic_matrix_generator.py:42 | a 3×4 matrix of zeros |
| `LinearDraft.DraftMatrix` | scripts/extrinsic_matrix_generator.py:42-45 | a 3×4 matrix whose columns 0-2 are zero and whose column 3 is the position |
| `LinearDraft.PlaceCamera` | scripts/extrinsic_matrix_generator.py:34-45 | filling the zero matrix entry by entry gives the draft matrix of `(r sinθ cosφ, r sinθ sinφ, r cosθ)` |
| `LinearDraft.PolarToExtrinsic` | scripts/extrinsic_matrix_generator.py:23-50 | the `t_step` loop returns exactly `DraftPath`; its invariant keeps `t_step = frame/fps` and each appended matrix as the draft frame at that time |
| `LinearDraft.DraftSampleTimes` | scripts/extrinsic_matrix_generator.py:39-48 | frame i is the draft frame at `t = i/fps`; for fps > 0 every sample lies in `[0, duration)`, so `duration` is never reached; for fps < 0 the times run backwards from 0 |
| `LinearDraft.DraftPathOutcome` | scripts/extrinsic_matrix_generator.py:23-50 | fails exactly when the first block or one of the three pairs it reads is missing; otherwise yields `max(0, fps·duration)` frames |
| `LinearDraft.DraftIgnoresRotationBlock` | scripts/extrinsic_matrix_generator.py:23-25 | only `coefs[0]` is read; dropping the rotation block changes nothing |
| `LinearDraft.DraftStatic` | scripts/extrinsic_matrix_generator.py:27-29 | with `r1 = θ1 = φ1 = 0`, every frame equals the first |
| `LinearDraft.DraftEndpoints` | scripts/extrinsic_matrix_generator.py:14-29 | r, θ and φ start at their 0th coefficient; after the duration, r has grown by `r1` and each angle has turned `θ1` (`φ1`) whole revolutions |
| `LinearDraft.PositionDistance` | scripts/extrinsic_matrix_generator.py:31-36 | given sin²+cos²=1, the camera position lies at squared distance r² from the origin |
| `LinearDraft.DraftIsFirstOrderSeries` | scripts/extrinsic_matrix_generator.py:27-36 | with series of length two the polynomial generator's r, θ and φ equal the draft's, and its camera centre is the draft's position |
| `SfmPoses.TransT` | dataLoader/sfm2nerf.py:12-16 | a 4×4 matrix with bottom row `[0,0,0,1]` |
| `SfmPoses.RotPhi` | dataLoader/sfm2nerf.py:18-22 | a 4×4 matrix with bottom row `[0,0,0,1]` |
| `SfmPoses.RotTheta` | dataLoader/sfm2nerf.py:24-28 | a 4×4 matrix with bottom row `[0,0,0,1]` |
| `SfmPoses.PoseSpherical` | dataLoader/sfm2nerf.py:31-36 | the product of the axis swap, `rot_theta`, `rot_phi` and `trans_t` is a 4×4 matrix |
| `SfmPoses.TiltedForm` | dataLoader/sfm2nerf.py:33 | `rot_phi @ trans_t(r)` multiplied out |
| `SfmPoses.TurnedForm` | dataLoader/sfm2nerf.py:34 | `rot_theta @ (rot_phi @ trans_t(r))` multiplied out |
| `SfmPoses.SwappedForm` | dataLoader/sfm2nerf.py:35 | the fixed axis swap applied to that product gives the closed-form orbit pose |
| `SfmPoses.PoseSphericalClosedForm` | dataLoader/sfm2nerf.py:31-36 | `pose_spherical(θ, φ, r)` equals the closed form, with the camera at `r·(sinθ cosφ, cosθ cosφ, −sinφ)` for θ, φ in radians |
| `SfmPoses.OrbitFrame` | dataLoader/sfm2nerf.py:31-36 | the closed form's rotation columns are orthonormal and right-handed: a × b = c, determinant +1 |
| `SfmPoses.OrbitPoseRigid` | dataLoader/sfm2nerf.py:31-36 | the closed form has bottom row `[0,0,0,1]`, centre r·column 2, and orthonormal columns with determinant +1 |
| `SfmPoses.PoseSphericalRigid` | dataLoader/sfm2nerf.py:31-36 | given sin²+cos²=1, every `pose_spherical` matrix has bottom row `[0,0,0,1]`, orthonormal columns with determinant +1, and its centre at squared distance radius² from the origin, along column 2 |
| `SfmPoses.RenderAzimuths` | dataLoader/sfm2nerf.py:95 | `linspace(-180, 180, 41)[:-1]` has 40 azimuths |
| `SfmPoses.RenderPath` | dataLoader/sfm2nerf.py:95 | `render_path` holds 40 poses |
| `SfmPoses.RenderPathAzimuths` | dataLoader/sfm2nerf.py:95 | pose k is `pose_spherical(−180 + 9k, 25, 1)`: forty evenly spaced stops, with the closing 180 left out |
| `SfmPoses.RenderPathOrbit` | dataLoader/sfm2nerf.py:95 | given sin²+cos²=1, every render pose is rigid, lies at distance 1 from the origin, and sits at the same height `−sin(25°)` |
| `SfmPoses.ToOpenCV` | dataLoader/sfm2nerf.py:110 | `extrinsic @ blender2opencv` keeps columns 0 and 3 and negates columns 1 and 2, row by row |
| `SfmPoses.ToOpenCVInvolution` | dataLoader/sfm2nerf.py:59 | flipping twice gives back the original matrix |
| `SfmPoses.ToOpenCVKeepsRigidity` | dataLoader/sfm2nerf.py:110 | the flip keeps the bottom row, the translation column, orthonormality and the determinant of a rigid pose |
| `SfmPoses.GeneratedCameraFacesOrigin` | camera_path_generator.py:43-51 | after the flip, a generator matrix looks at the origin: centre + r·(viewing direction) = 0 |
| `SfmScene.SceneBox` | dataLoader/sfm2nerf.py:49-57 | `train` uses the ±1.5 box; every other split uses the box from (−1.5,−1.5,−1.5) to (1, 1, −0.25) |
| `SfmScene.BoxCenter` | dataLoader/sfm2nerf.py:67 | the centre is equidistant from the two corners on every axis |
| `SfmScene.BoxRadius` | dataLoader/sfm2nerf.py:68 | twice the radius is the box's extent: `radius = max − center` is half of `max − min` |
| `SfmScene.SceneBoxGeometry` | dataLoader/sfm2nerf.py:49-68 | the concrete centre and radius of both boxes; no radius component is 0 |
| `SfmScene.World2NdcInverse` | dataLoader/sfm2nerf.py:152-154 | when no radius component is 0, `world2ndc` and `n·radius + center` undo each other in both orders |
| `SfmScene.World2NdcAll` | dataLoader/sfm2nerf.py:152-154 | `world2ndc` on a batch of points gives one result per point, and the inverse map takes each result back |
| `SfmScene.World2NdcCorners` | dataLoader/sfm2nerf.py:67-68 | the max corner maps to (1,1,1), the min corner to (−1,−1,−1) and the centre to 0 |
| `SfmScene.ReadIntrinsics` | dataLoader/sfm2nerf.py:85-87 | succeeds exactly when entries [0][0], [1][1], [0][2] and [1][2] exist; otherwise raises IndexError |
| `SfmScene.IntrinsicMatrix` | dataLoader/sfm2nerf.py:93 | the rebuilt intrinsics matrix is 3×3 |
| `SfmScene.IntrinsicsRoundTrip` | dataLoader/sfm2nerf.py:85-93 | reading the rebuilt matrix gives back `fx, fy, cx, cy` |
| `SfmScene.IntrinsicMatrixRoundTrip` | dataLoader/sfm2nerf.py:85-93 | rebuilding from what was read gives back the input exactly when it has the pinhole shape `[[fx,0,cx],[0,fy,cy],[0,0,1]]` |
| `SfmScene.FrameIndices` | dataLoader/sfm2nerf.py:105-106 | succeeds exactly when `N_vis < 0` or `0 < N_vis ≤ len(frames)`; `N_vis = 0` raises ZeroDivisionError; `N_vis > len(frames)` raises ValueError (zero step) |
| `SfmScene.FrameIndicesAreMultiples` | dataLoader/sfm2nerf.py:105-106 | the interval is at least 1; the chosen indices are exactly the multiples of the interval below `len(frames)`, ascending |
| `SfmScene.AllFramesWhenNegative` | dataLoader/sfm2nerf.py:105-106 | with `N_vis < 0` every frame is chosen, in order |
| `SfmScene.AtLeastNVisFrames` | dataLoader/sfm2nerf.py:105-106 | a positive `N_vis` is a lower bound on the number of frames chosen |
| `SfmBuffers.BlendMixesWithWhite` | dataLoader/sfm2nerf.py:123-124 | the blend is `a·rgb + (1−a)·white`; `a = 1` keeps the colour; `a = 0` gives white |
| `SfmBuffers.BlendStaysInRange` | dataLoader/sfm2nerf.py:123-124 | channels and alpha in [0,1] give blended channels in [0,1], never darker than the input |
| `SfmBuffers.ImageRgb` | dataLoader/sfm2nerf.py:122-124 | one colour row per pixel; an RGB image is kept; an RGBA image is blended pixel by pixel |
| `SfmBuffers.ConcatUniform` | dataLoader/sfm2nerf.py:133-136 | concatenating blocks of m rows gives `frames·m` rows, and row `f·m + p` is row p of block f |
| `SfmBuffers.ConcatRow` | dataLoader/sfm2nerf.py:133-136 | one row of the concatenation, with its index in range |
| `SfmBuffers.Grid` | dataLoader/sfm2nerf.py:142 | `reshape(h, w)` gives h rows of w pixels that, read in order, give back the block |
| `SfmFrames.JoinPath` | dataLoader/sfm2nerf.py:115 | `os.path.join`: an absolute second part replaces the root; otherwise the root, then exactly one separator when the root is non-empty and does not already end with one (none otherwise), then the part |
| `SfmFrames.ImageSize` | dataLoader/sfm2nerf.py:81 | fails exactly when `downsample = 0` (ZeroDivisionError); otherwise the size is `(int(vid_width/downsample), int(vid_height/downsample))`, each truncated toward zero; `downsample = 1` keeps the video size |
| `SfmFrames.LoadFrame` | dataLoader/sfm2nerf.py:109-129 | one iteration succeeds exactly when the index is in range, the extrinsic matrix is valid and, outside `render`, `file_path` exists and the image fits; it names each error; on success the pose is the flipped matrix, the rays are the pose's, the path joins the root, and the colours are the image's w·h rows |
| `SfmFrames.LoadFramesSnoc` | dataLoader/sfm2nerf.py:107-129 | when the first k frames and frame k load, the first k+1 load, extended by frame k |
| `SfmFrames.LoadFramesPoses` | dataLoader/sfm2nerf.py:107-112 | after the loop, pose k is the flipped extrinsic matrix of frame `idxs[k]` and ray block k holds that pose's rays |
| `SfmFrames.LoadFramesImages` | dataLoader/sfm2nerf.py:114-125 | outside `render`, path k is frame `idxs[k]`'s `file_path` under the root and colour block k is that image's w·h rows; under `render` both lists stay empty |
| `SfmFrames.LoadFramesSucceeds` | dataLoader/sfm2nerf.py:107-129 | the loop completes exactly when every chosen frame loads |
| `SfmFrames.LoadFramesFirstError` | dataLoader/sfm2nerf.py:107-129 | a failing loop raises the error of the first frame that fails |
| `SfmFrames.LoadFramesFailsAt` | dataLoader/sfm2nerf.py:107-129 | when the first k frames load and frame k fails, the loop raises frame k's error |
| `SfmFrames.Grids` | dataLoader/sfm2nerf.py:142 | each colour block becomes an h×w grid that reads back as the block |
| `SfmFrames.Assemble` | dataLoader/sfm2nerf.py:132-142 | stacking poses fails on an empty list; every failure is RuntimeError; on success, poses and paths are kept; rays and colours are concatenated without `is_stack`, or stacked (colours as h×w grids) with it; `render` colours stay a list |
| `SfmFrames.ReadMetaSpec` | dataLoader/sfm2nerf.py:75-142 | `downsample = 0` raises ZeroDivisionError; missing intrinsics raise IndexError; `N_vis = 0` raises ZeroDivisionError; `N_vis > len(frames)` raises ValueError; no frames raise RuntimeError; on success the size, intrinsics, render path and ≥ 1 pose per chosen frame come from their steps |
| `SfmFrames.ReadMetaLoaded` | dataLoader/sfm2nerf.py:97-142 | a completed `read_meta` leaves at least one pose; outside `render`, one path and w·h colour rows per pose (flat) or one grid per pose (stacked); under `render`, no colours; with `is_stack`, one ray block per pose |
| `SfmFrames.LayoutsAgree` | dataLoader/sfm2nerf.py:133-142 | the flat buffers are the stacked buffers' blocks (grids read row by row) concatenated in frame order |
| `SfmFrames.ReadMetaFrames` | dataLoader/sfm2nerf.py:105-116 | kept pose k is the flipped extrinsic matrix of the k-th chosen frame; outside `render`, path k is that frame's `file_path` under the root |
| `SfmFrames.FlatBuffersHoldFrames` | dataLoader/sfm2nerf.py:128-136 | without `is_stack`, the flat ray and colour buffers are the rays of every kept pose and the rows of every kept image, frame after frame, with w·h rows per image |
| `SfmFrames.StackedBuffersHoldFrames` | dataLoader/sfm2nerf.py:128-142 | with `is_stack`, ray block f is pose f's rays, and colour grid f is h×w and reads back as image f |
| `SfmDataset.PyIndex` | dataLoader/sfm2nerf.py:162-165 | a Python subscript is in range exactly when `−n ≤ idx < n`; a negative index counts from the end |
| `SfmDataset.RayAt` | dataLoader/sfm2nerf.py:162 | `all_rays[idx]` fails with IndexError exactly out of range; otherwise it is the row (flat) or the block (stacked) |
| `SfmDataset.RgbAt` | dataLoader/sfm2nerf.py:163 | `all_rgbs[idx]` fails with IndexError exactly out of range; otherwise it is the row (flat) or the grid (stacked) |
| `SfmDataset.LoadSpec` | dataLoader/sfm2nerf.py:60-61 | `read_meta` then `define_proj_mat` succeed exactly when `read_meta` does and all poses are 4×4; the result is a loaded state |
| `SfmDataset.InitSpec` | dataLoader/sfm2nerf.py:39-69 | the constructor succeeds exactly when the scene file reads, `read_meta` succeeds and the poses are square; the result is a loaded state |
| `SfmDataset.Sfm2Nerf.constructor` | dataLoader/sfm2nerf.py:39-59 | stores the arguments, the split's box and `near_far`; starts with empty buffers |
| `SfmDataset.Sfm2Nerf.ReadMeta` | dataLoader/sfm2nerf.py:75-142 | passes exactly when `ReadMetaSpec` succeeds and then sets the fields to its result; otherwise raises its error |
| `SfmDataset.Sfm2Nerf.LoadChosenFrames` | dataLoader/sfm2nerf.py:107-129 | the loop's appended lists equal `LoadFrames`; on failure it returns the first failing frame's error |
| `SfmDataset.Sfm2Nerf.LoadFrameAt` | dataLoader/sfm2nerf.py:108-129 | one iteration's body computes exactly `LoadFrame` |
| `SfmDataset.Sfm2Nerf.StackBuffers` | dataLoader/sfm2nerf.py:132-142 | the stack/concatenate step passes exactly when `Assemble` succeeds and leaves its result in the fields |
| `SfmDataset.Sfm2Nerf.DefineProjMat` | dataLoader/sfm2nerf.py:149-150 | `torch.inverse` of the poses succeeds exactly when every pose is 4×4; otherwise RuntimeError |
| `SfmDataset.Sfm2Nerf.SetBounds` | dataLoader/sfm2nerf.py:63-68 | white background on; centre and radius of the split's box |
| `SfmDataset.Sfm2Nerf.Open` | dataLoader/sfm2nerf.py:39-69 | the constructor succeeds exactly when `InitSpec` does; the new dataset is then ready and holds its state |
| `SfmDataset.Sfm2Nerf.Load` | dataLoader/sfm2nerf.py:60-68 | `read_meta`, `define_proj_mat` and the bounds pass exactly when `LoadSpec` succeeds, leaving a ready dataset |
| `SfmDataset.Sfm2Nerf.World2NdcPoints` | dataLoader/sfm2nerf.py:152-154 | one normalised point per input; the box's inverse map takes each back |
| `SfmDataset.Sfm2Nerf.Len` | dataLoader/sfm2nerf.py:156-157 | 0 for `render`; one per frame when stacked; `frames·w·h` when flattened |
| `SfmDataset.Sfm2Nerf.GetItem` | dataLoader/sfm2nerf.py:159-175 | for `train`, rays and colours, succeeding exactly when both indices are in range; for `render`, rays alone; any other split raises IndexError while `all_masks` is empty; every failure is IndexError |
| `SfmDataset.TrainFlatItem` | dataLoader/sfm2nerf.py:159-163 | without `is_stack`, training item `f·w·h + p` is pixel p of frame f: that pose's ray and that image's colour |
| `SfmDataset.TrainStackedItem` | dataLoader/sfm2nerf.py:159-163 | with `is_stack`, training item f is frame f whole: its pose's ray block and an h×w grid that reads back as its image |
| `SfmDataset.GeneratedSceneRenders` | camera_path_generator.py:71-78 | the generated scene loads under `render` at 800×800 with its fixed intrinsics and one flipped pose per generated matrix |
| `SfmDataset.GeneratedSceneNeedsRenderSplit` | dataLoader/sfm2nerf.py:114-115 | the generated scene has no `file_path`, so every other split raises `KeyError('file_path')` |
| `SfmDataset.GeneratedPathRenders` | camera_path_generator.py:68-78 | end to end: a non-empty generated path loads under `render` with `fps·duration` poses, each the flipped generated matrix |

## Left out

- Flask routes, the RabbitMQ consumer and processes (`main.py`, `fileServer.py`) are not part of this model: they are network I/O and concurrency.
- Plotting is not modelled: `plot.py`, `CameraPoseVisualizer`, the plotting half of `camera_path_generator.py`, and `tqdm`'s progress bar.
- File and JSON I/O are parameters.
  - Writing `transforms_render.json` is not modelled; `RenderScene` is the record that would be written.
  - Reading the scene is the `SceneReader` parameter.
  - Missing JSON keys other than `file_path` cannot arise, because the scene is a typed record.
- `ImageLoader` parameter: stands for opening an image, the LANCZOS resize, `ToTensor` and the `view`/`permute` (lines 117-122). Any image that does not come out as w·h pixel rows is treated as one `RuntimeError`. The errors of opening the file (a missing file raises FileNotFoundError) and of resizing (PIL's error for a non-positive target size) are not raised separately: the loader always returns an image, and only the size check can fail. The model's images hold only RGB or RGBA pixel rows, so it cannot represent an image with another channel count (a grayscale image) or an unresized image whose C·W·H is a multiple of w·h; `view(-1, w*h)` in line 122 accepts those, and line 123 then keeps the rows unblended, whereas the model raises `RuntimeError` for the second kind and has no value for the first.
- `RayCaster` parameter: stands for `get_ray_directions`, the `torch.norm` normalisation and `get_rays` (lines 91-92, 128). Their source (`ray_utils`) is not part of this model.
- `SfmFrames.CastsFullFrames`: the lemmas that index single rays assume that the caster gives one ray per pixel.
- `read_depth`/`read_pfm` are not modelled; no modelled code path calls them.
- `self.directions`, `self.meta`, `self.transform`, `self.proj_mat` and `all_depth` are not kept as fields.
- `SfmDataset.Sfm2Nerf.DefineProjMat`: models only the shape condition of `torch.inverse`. A singular pose and the value of `proj_mat` are not modelled.
- `SfmDataset.Sfm2Nerf.World2NdcPoints`: requires the constructor's box and radius. In Python, `world2ndc` is only reachable after `__init__` has set them.
- Floating point is not modelled. All arithmetic is exact over `real`, which covers:
  - float32 tensors;
  - the rounding of `linspace`;
  - `t_step`'s accumulated `1/fps` (exact `frame/fps` in the model);
  - the real trigonometry, which is reduced to `sin² + cos² = 1`.
- `CameraPath.PolarToExtrinsic`: `fps` and `duration` are integers, as the defaults and the call sites pass them. Non-integer arguments are not modelled.
- `LinearDraft.PolarToExtrinsic`: the returned `np.array` of 3×4 matrices is a sequence of matrices.
- The `print` of the down-sampling factor (line 45) and the repeated assignment of `downsample` (line 69) are not modelled; neither changes state.
- `near_far` is the constant `[0.1, 100.0]`. It is set but never read by the modelled code.
