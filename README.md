# Highlight-clip pipeline core, modelled in Dafny

The program turns a video into a short highlight clip: it extracts the audio
with a remote transcoding job, transcribes it, asks a language model for an
interesting exact quote, finds the quote's time bounds in the word-level
transcript, and submits a second job that cuts the clip. This project models
the two pieces of real logic in `index.js` and the clip arithmetic:

- **Excerpt locator** (`matchTimestampByText`, module `ExcerptLocator`): the
  excerpt is split on single spaces (module `TextSplit`, JavaScript's
  `split(' ')`), then the transcript tokens are scanned once, left to right,
  with a match cursor `i` and a recorded `clipStart`. The first time the scan
  completes the word list, the span
  `{start: clipStart / 1000, end: end / 1000}` is returned; otherwise `null`
  (`None`). The reset quirk is kept: on a mismatch the cursor goes back to 0
  and the current token is not compared with the first word again.
  `MatchTimestampByText` is the loop itself; `Locate` (built on `Cursor`, the
  cursor after a prefix of the tokens, and `FirstCompletion`) is the
  specification it is proved against, and `MatchEndsAt` is an independent
  definition of a contiguous exact match.
- **Job poller** (`pollStreampotJob`, module `JobPoller`): the statuses that
  successive `checkStatus` calls return are given as a finite sequence. The
  loop stops on the first `"completed"` (the job is returned) or `"failed"`
  (an error is thrown); any other label keeps it polling. When the sequence
  runs out the result is `Waiting`. The reference definition is the state
  machine `Step`/`Run` over waiting, completed and failed.
- **Clip request** (`makeClip`, module `Clip`): the clip starts at the span's
  start and lasts `end - start`.

Times in the transcript are integer milliseconds; spans are seconds computed
as exact real division by 1000.

The model follows the code: the excerpt is split on the single space
character only (not on any whitespace), so consecutive spaces give empty
words; the span is always divided by 1000; and `pollStreampotJob` returns the
completed job, its callers taking the URL from it.

## Model

| member | source | states |
|---|---|---|
| TextSplit.SplitOnSpace | index.js:21 | the split has exactly one more piece than the excerpt has spaces, so the word list is never empty, and no piece contains a space |
| TextSplit.JoinSplit | index.js:21 | joining the pieces of a split with single spaces gives back the excerpt |
| TextSplit.SplitJoin | index.js:21 | splitting a space-joined, non-empty list of space-free words gives back that list |
| ExcerptLocator.Cursor | index.js:22-34 | after the scan has read the first n tokens the cursor is at most the number of words and at most n |
| ExcerptLocator.CursorSuffixMatches | index.js:25-34 | the loop invariant: the last `cursor` tokens read have exactly the texts of the first `cursor` words, in order |
| ExcerptLocator.FirstCompletionFrom | index.js:24-30 | the index found is a token on which the scan completes the word list and no earlier token does; no index means no token completes it |
| ExcerptLocator.MatchTimestampByText | index.js:20-37 | the loop returns exactly `Locate` of the split excerpt; an empty transcript gives `null`; a returned span comes from a contiguous exact match ending at some token j, and is that match's first token start and token j's end, divided by 1000 |
| ExcerptLocator.LocateIsSound | index.js:21-30 | for every word list and transcript, a returned span is the span of a contiguous, in-order, exact match |
| ExcerptLocator.CursorFollowsMatch | index.js:25-27 | from a cursor at 0, the tokens of a match advance the cursor one word per token |
| ExcerptLocator.MatchFromIdleCursorIsFound | index.js:24-34 | a match that begins while the cursor is at 0 is never missed: a span is returned, completed on the match's last token or earlier |
| ExcerptLocator.MatchAfterUnrelatedTokenIsFound | index.js:24-34 | a match that starts the transcript, or follows a token that is none of the excerpt's words, is never missed: a span is returned, completed on the match's last token or earlier |
| ExcerptLocator.SingleWordFoundIffPresent | index.js:24-30 | a one-word excerpt yields a span exactly when some token has that text |
| ExcerptLocator.SingleWordSpansFirstOccurrence | index.js:24-30 | for a one-word excerpt the span is the first matching token's own start and end |
| ExcerptLocator.EarliestOccurrence | index.js:24-25 | a token with the given text has a first occurrence at or before it |
| ExcerptLocator.ResetSkipsRestartingToken | index.js:31-34 | the reset quirk: words `a b` against texts `a a b` give `null` although the last two tokens match |
| ExcerptLocator.AbandonedPartialMatchRecovers | index.js:24-34 | words `a b` against `a x a b` abandon the first partial match and return the third token's start and the fourth token's end |
| ExcerptLocator.HelloWorldExample | index.js:24-30 | the words `hello world` against `hi hello world` return the last two tokens' span, `{start: 0.002, end: 0.006}` |
| ExcerptLocator.ExcerptTextRecoversAfterAbandonedMatch | index.js:20-37 | the loop on the excerpt string `"a b"` against `a x a b` returns `{start: 0.004, end: 0.007}` |
| JobPoller.TerminalStateIsFinal | index.js:47-50 | completed and failed are final: no later status changes them |
| JobPoller.RunConcat | index.js:45-53 | polling over two stretches of statuses is polling over their concatenation |
| JobPoller.FirstTerminalFrom | index.js:45-51 | the index found holds the first `completed` or `failed` status; none means every status is non-terminal |
| JobPoller.RunAgreesWithFirstTerminal | index.js:45-53 | the state machine ends completed or failed according to the first terminal status, and is still waiting when there is none |
| JobPoller.RunFromWaiting | index.js:45-53 | the same agreement for the statuses from any position on |
| JobPoller.NoEffectAfterTerminal | index.js:47-50 | statuses after a terminal one never change the outcome |
| JobPoller.PollStreampotJob | index.js:44-54 | with the first terminal status at k, exactly k+1 checks are made and the result is completed or failed by that status; every earlier status was non-terminal; with none, every status is read and the job is still waiting; the result equals the state machine's |
| JobPoller.QueuedRunningCompletedExample | index.js:45-53 | `queued, running, completed` ends completed on the third status |
| Clip.MakeClipRequest | index.js:97-102 | the clip request keeps the video, starts at the span's start and ends exactly at the span's end |
| Clip.LocatedClipHasNonNegativeDuration | index.js:99-100 | on a transcript whose tokens end no earlier than they start and whose starts never go back, a located span gives a clip of non-negative duration |

## Left out

- Constructing the transcoding and transcription clients, submitting jobs (`streampot.input(...).run()`), `checkStatus`, `transcribe` and the language-model task: network calls into libraries; `checkStatus` is replaced by a given sequence of statuses.
- The delay between polls (`setTimeout`, default 5000 ms) and the asynchronous, unbounded `while (true)`: timing and concurrency; the model polls a finite sequence and reports `Waiting` when it runs out.
- `JSON.parse(response).clip` in `getHighlightText`: a thin wrapper over the language model's reply and the JSON library; a missing or non-string `clip` is not modelled.
- Reading `output_url[0].publicUrl` from a completed job in `extractAudio` and `makeClip`: plain field access on a foreign result, which assumes a non-empty artifact list.
- The `main` entry point, configuration loading and console output, including passing a `null` locator result on to `makeClip`.
- Floating-point rounding of `/ 1000` and of the duration `timestamps.end - timestamps.start`: spans and durations are exact reals, so `Clip.MakeClipRequest` ending exactly at the span's end holds over the reals, not necessarily in double precision.
