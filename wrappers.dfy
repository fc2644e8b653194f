/** Failure-compatible result types shared by every module of the model. */
module Wrappers {

  /** An optional value: Go's "absent" (empty string, nil slice, missing file). */
  datatype Option<+T> = None | Some(value: T)

  /** The value of a Go call that returns `(T, error)`. */
  datatype Result<+T, +E> = Ok(value: T) | Err(error: E)
}

/** Raw file contents and the entries a directory walk visits. */
module Files {
  import opened Wrappers

  /** Go's `byte`. */
  newtype byte = b: int | 0 <= b < 256

  /**
   * One path visited by `filepath.Walk`/`filepath.WalkDir`: whether the walk
   * reported an access error for it, whether it is a directory, and what
   * `os.ReadFile` gives for it (None when the read fails).
   */
  datatype WalkEntry = WalkEntry(path: string, accessError: bool, isDir: bool, contents: Option<seq<byte>>)
}
