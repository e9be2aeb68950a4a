/** The ways a run of the video pipeline can end: with a value, or with the
    Python exception that would have escaped `process_video`. */
module Outcomes {

  /** The exceptions the modelled code can raise. */
  datatype Error =
    | IndexError         // a token list shorter than the fixed index read from it
    | ZeroDivisionError  // `frame_id % interval` with a zero interval
    | TypeError          // `str + int` in the debug image name

  datatype Option<+T> = None | Some(value: T)

  datatype Result<+T> = Success(value: T) | Failure(error: Error)
}
