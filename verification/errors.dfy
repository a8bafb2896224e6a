/** The crate's error kinds as far as the image core raises or forwards them,
    and the `Result` every step of the core returns. */
module Errors {
  import opened Formats

  datatype Error =
    /** The format has no size rule or no decoder. */
    | UnsupportedImageFormat(format: ImageFormat)
    /** The pixel bytes do not fit the image geometry. */
    | InvalidImageData
    /** The frame's byte range `[start, end)` runs past the buffer of length
        `len`; the source panics on the slice instead of returning an error. */
    | SliceOutOfRange(start: nat, end: nat, len: nat)
    /** An error raised by a collaborator outside this model (offset
        computation), carried through unchanged. */
    | Other(tag: nat)

  datatype Result<T> = Ok(value: T) | Err(error: Error) {
    predicate IsFailure() {
      Err?
    }

    function PropagateFailure<U>(): (r: Result<U>)
      requires Err?
      ensures r.Err? && r.error == error
    {
      Err(error)
    }

    function Extract(): T
      requires Ok?
    {
      value
    }
  }
}
