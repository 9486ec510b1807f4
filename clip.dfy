/**
 * The arithmetic of `makeClip` (index.js:97-107): the clip starts at the
 * span's start and lasts `end - start` seconds.
 */
module Clip {

  import opened TextSplit
  import opened ExcerptLocator

  /** The parameters `makeClip` hands to the clip-cutting job. */
  datatype ClipRequest = ClipRequest(videoUrl: string, startTime: real, duration: real)

  /** `setStartTime(timestamps.start).setDuration(timestamps.end - timestamps.start)`. */
  function MakeClipRequest(videoUrl: string, timestamps: Span): (req: ClipRequest)
    ensures req.videoUrl == videoUrl && req.startTime == timestamps.start
    ensures req.startTime + req.duration == timestamps.end
  {
    ClipRequest(videoUrl, timestamps.start, timestamps.end - timestamps.start)
  }

  /** Transcript timing as produced: each token ends no earlier than it starts, starts never go back. */
  ghost predicate WellTimed(tokens: seq<Token>)
  {
    && (forall k | 0 <= k < |tokens| :: tokens[k].start <= tokens[k].end)
    && (forall k, l | 0 <= k <= l < |tokens| :: tokens[k].start <= tokens[l].start)
  }

  /** On a well-timed transcript, a located excerpt gives a clip of non-negative duration. */
  lemma LocatedClipHasNonNegativeDuration(videoUrl: string, clipText: string, tokens: seq<Token>)
    requires WellTimed(tokens)
    requires Locate(SplitOnSpace(clipText), tokens).Some?
    ensures MakeClipRequest(videoUrl, Locate(SplitOnSpace(clipText), tokens).value).duration >= 0.0
  {
  }
}
