/** The error values both FFmpeg service variants throw, and the result type
    that stands for "returns a value or throws an AudioError". */
module Outcomes {

  /** The only code the mixing engine uses. */
  datatype ErrorCode = MixingFailed

  /** An AudioError: a machine-readable code, a developer message and a
      message meant for the user. */
  datatype AudioError = AudioError(code: ErrorCode, message: string, userMessage: string)

  datatype Result<+T> = Ok(value: T) | Err(error: AudioError)

  /** A value that may be `null` or `undefined` in the source. */
  datatype Option<+T> = None | Some(value: T)

  /** One report handed to `onProgress` (`MixingProgress`): the ratio, the
      elapsed time and the total duration, both in milliseconds. */
  datatype Progress = Progress(ratio: real, time: real, duration: real)

  /** The error both variants throw for a missing or empty track list. */
  const NoTracks: AudioError :=
    AudioError(MixingFailed, "No tracks provided for mixing", "Please select at least one track to mix")

  /** The wrapper the catch blocks put around any other failure. */
  function MixFailure(cause: string): (e: AudioError)
    ensures e.code == MixingFailed
    ensures e.message == "Failed to mix audio: " + cause
  {
    AudioError(MixingFailed, "Failed to mix audio: " + cause, "Audio mixing encountered an error")
  }
}
