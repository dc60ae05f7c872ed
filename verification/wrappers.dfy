/** Optional values and results with an error, used for the builder's error paths. */
module Wrappers {

  datatype Option<+T> = None | Some(value: T)

  datatype Result<+R, +E> = Success(value: R) | Failure(error: E)
}

/** Errors that end a run of the sprite builder. */
module Errors {

  datatype Error =
    | MissingFilesProperty             // the spec has no "files" entry
    | NoValidSourceFiles               // no entry selected any source image
    | SourceMissing(filePath: string)  // a selected source image is not on disk
}
