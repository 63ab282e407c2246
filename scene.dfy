/**
 * The JSON scene description exchanged between the path generator and the dataset loader
 * (`transforms_<split>.json`), as an in-memory record.
 */
module SceneDescription {

  import opened Wrappers
  import opened Geometry

  /** One entry of `frames`: its `extrinsic_matrix` and, for captured frames, its `file_path`. */
  datatype FrameEntry = FrameEntry(extrinsicMatrix: Matrix, filePath: Option<string>)

  datatype Scene = Scene(
    vidWidth: int,
    vidHeight: int,
    intrinsicMatrix: Matrix,
    frames: seq<FrameEntry>)
}
