/** Failure values shared by every component of the video server. */
module Errors {

  datatype Option<+T> = None | Some(value: T)

  /** The error kinds the core can report. Each constructor names the place in the
      source that raises it; the four video-service errors carry the strings of
      the source's VideoError constants. */
  datatype Error =
    // video_service.go: VideoError constants
    | ResolutionInvalid        // "resolution_invalid"
    | ResolutionNotFound       // "resolution_not_found"
    | VideoNotReady            // "video_not_ready"
    // GetMetadata
    | ProbeFailed              // ffprobe could not be run or exited non-zero
    | ProbeOutputUnexpected    // fewer than three output lines
    | WidthParse               // line 0 is not an integer
    | HeightParse              // line 1 is not an integer
    // ListAvailableCodecs / SelectH264Encoder
    | CodecListFailed          // `ffmpeg -codecs` failed
    | EncoderListFailed        // `ffmpeg -encoders` failed
    | H264Unavailable          // no known H.264 encoder in the listing
    // ProcessVideo
    | OutputDirFailed                          // os.MkdirAll failed
    | EncodeFailed(resolution: string)         // ffmpeg failed to start or exited non-zero
    | SegmentStatFailed(path: string)          // os.Stat failed with something other than not-exist
    | SegmentReadFailed(path: string)          // os.ReadFile failed
    | SegmentStoreFailed(path: string, storage: nat) // a backend refused the segment
    // FileStorage
    | SignFailed(key: string)                  // SignedURL failed
    // Database
    | NoRecord(id: string)                     // no stored video under this id
    | SaveFailed(id: string)                   // the write transaction failed
    | ZeroPageSize                             // GetVideos divides by a zero page size
    | PageOutOfRange                           // GetVideos slices outside the collected videos

  datatype Result<+T> = Ok(value: T) | Err(error: Error)

  datatype Outcome = Pass | Fail(error: Error)
}
