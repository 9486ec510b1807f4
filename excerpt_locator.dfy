/**
 * The excerpt locator `matchTimestampByText` (index.js:20-37): it maps an
 * excerpt back onto the word-level transcript by a single left-to-right scan
 * with a match cursor, returning the time span of the first run of tokens
 * that completes the excerpt, or `null`.
 *
 * Token times are integer milliseconds; the returned span is in seconds,
 * computed exactly as `ms / 1000` over the reals.
 */
module ExcerptLocator {

  import opened Wrappers
  import opened TextSplit

  /** One transcript word: `{start, end, text}` with times in milliseconds. */
  datatype Token = Token(start: int, end: int, text: string)

  /** The `{start, end}` object the locator returns, in seconds. */
  datatype Span = Span(start: real, end: real)

  /** Milliseconds to seconds, `ms / 1000` (index.js:28-29). */
  function Seconds(ms: int): real
  {
    ms as real / 1000.0
  }

  // ---------------------------------------------------------------------
  // Reference definition, independent of the scan

  /** The `|words|` tokens ending at index `j` have exactly the texts `words`, in order. */
  ghost predicate MatchEndsAt(words: seq<string>, tokens: seq<Token>, j: int)
  {
    && |words| <= j + 1 <= |tokens|
    && forall m | 0 <= m < |words| :: tokens[j + 1 - |words| + m].text == words[m]
  }

  // ---------------------------------------------------------------------
  // The scan, one token at a time

  /**
   * The match cursor `i` after the scan has consumed `tokens[..n]` (as long as
   * no match completed earlier). A token equal to the word under the cursor
   * advances it; any other token resets it to 0 WITHOUT being compared with the
   * first word again (index.js:25-34).
   */
  function Cursor(words: seq<string>, tokens: seq<Token>, n: nat): (c: nat)
    requires n <= |tokens|
    ensures c <= |words| && c <= n
  {
    if n == 0 then 0
    else
      var prev := Cursor(words, tokens, n - 1);
      if prev < |words| && tokens[n - 1].text == words[prev] then prev + 1 else 0
  }

  /**
   * The loop's key invariant: the last `Cursor(n)` tokens scanned have exactly
   * the texts of the first `Cursor(n)` words.
   */
  lemma {:induction false} CursorSuffixMatches(words: seq<string>, tokens: seq<Token>, n: nat)
    requires n <= |tokens|
    ensures forall m | 0 <= m < Cursor(words, tokens, n) ::
      tokens[n - Cursor(words, tokens, n) + m].text == words[m]
  {
    if n > 0 {
      CursorSuffixMatches(words, tokens, n - 1);
    }
  }

  /** The scan completes the whole word list on token `j` (index.js:27). */
  predicate Completes(words: seq<string>, tokens: seq<Token>, j: nat)
    requires j < |tokens|
  {
    Cursor(words, tokens, j + 1) == |words|
  }

  /** The first token, at index `from` or later, on which the scan completes a match. */
  function FirstCompletionFrom(words: seq<string>, tokens: seq<Token>, from: nat): (r: Option<nat>)
    requires from <= |tokens|
    ensures r.Some? ==> from <= r.value < |tokens| && Completes(words, tokens, r.value)
    ensures r.Some? ==> forall j | from <= j < r.value :: !Completes(words, tokens, j)
    ensures r.None? ==> forall j | from <= j < |tokens| :: !Completes(words, tokens, j)
    decreases |tokens| - from
  {
    if from == |tokens| then None
    else if Completes(words, tokens, from) then Some(from)
    else FirstCompletionFrom(words, tokens, from + 1)
  }

  function FirstCompletion(words: seq<string>, tokens: seq<Token>): Option<nat>
  {
    FirstCompletionFrom(words, tokens, 0)
  }

  /** The span of the `|words|` tokens ending at `j`: first start, last end, in seconds. */
  function SpanEndingAt(words: seq<string>, tokens: seq<Token>, j: nat): Span
    requires 1 <= |words| <= j + 1 <= |tokens|
  {
    Span(Seconds(tokens[j + 1 - |words|].start), Seconds(tokens[j].end))
  }

  /**
   * What `matchTimestampByText` returns for the word list `words`; the list
   * comes from a split, which is never empty.
   */
  function Locate(words: seq<string>, tokens: seq<Token>): Option<Span>
    requires |words| >= 1
  {
    match FirstCompletion(words, tokens)
    case None => None
    case Some(j) => Some(SpanEndingAt(words, tokens, j))
  }

  // ---------------------------------------------------------------------
  // The source's loop

  /** `matchTimestampByText(clipText, allTimestamps)`. */
  method MatchTimestampByText(clipText: string, allTimestamps: seq<Token>) returns (r: Option<Span>)
    ensures r == Locate(SplitOnSpace(clipText), allTimestamps)
    ensures allTimestamps == [] ==> r == None
    ensures r.Some? ==> exists j :: MatchEndsAt(SplitOnSpace(clipText), allTimestamps, j) &&
                                   r.value == SpanEndingAt(SplitOnSpace(clipText), allTimestamps, j)
  {
    var words := SplitOnSpace(clipText);
    LocateIsSound(words, allTimestamps);
    var i := 0;
    var clipStart: Option<int> := None;
    for n := 0 to |allTimestamps|
      invariant i == Cursor(words, allTimestamps, n) && i < |words|
      invariant clipStart == if i == 0 then None else Some(allTimestamps[n - i].start)
      invariant FirstCompletion(words, allTimestamps) == FirstCompletionFrom(words, allTimestamps, n)
    {
      var token := allTimestamps[n];
      CursorStep(words, allTimestamps, n);
      if token.text == words[i] {
        if i == 0 {
          clipStart := Some(token.start);
        }
        i := i + 1;
        if i == |words| {
          assert FirstCompletionFrom(words, allTimestamps, n) == Some(n);
          return Some(Span(Seconds(clipStart.value), Seconds(token.end)));
        }
      } else {
        i := 0;
        clipStart := None;
      }
      assert !Completes(words, allTimestamps, n);
    }
    return None;
  }

  /** One step of the scan: the cursor advances on the word under it and resets otherwise. */
  lemma CursorStep(words: seq<string>, tokens: seq<Token>, n: nat)
    requires n < |tokens| && Cursor(words, tokens, n) < |words|
    ensures Cursor(words, tokens, n + 1) ==
      if tokens[n].text == words[Cursor(words, tokens, n)] then Cursor(words, tokens, n) + 1 else 0
  {
  }

  // ---------------------------------------------------------------------
  // Properties of the scan

  /** A returned span always comes from a contiguous, in-order, exact match. */
  lemma LocateIsSound(words: seq<string>, tokens: seq<Token>)
    requires |words| >= 1
    ensures Locate(words, tokens).Some? ==>
      exists j :: MatchEndsAt(words, tokens, j) && Locate(words, tokens).value == SpanEndingAt(words, tokens, j)
  {
    if FirstCompletion(words, tokens).Some? {
      var j := FirstCompletion(words, tokens).value;
      CursorSuffixMatches(words, tokens, j + 1);
      assert MatchEndsAt(words, tokens, j);
    }
  }

  /** Once the cursor is at 0, a match starting there drives it up word by word. */
  lemma {:induction false} CursorFollowsMatch(words: seq<string>, tokens: seq<Token>, n: nat, m: nat)
    requires m <= |words| && n + |words| <= |tokens|
    requires Cursor(words, tokens, n) == 0
    requires forall p | 0 <= p < |words| :: tokens[n + p].text == words[p]
    ensures Cursor(words, tokens, n + m) == m
  {
    if m > 0 {
      CursorFollowsMatch(words, tokens, n, m - 1);
      assert tokens[n + m - 1].text == words[m - 1];
    }
  }

  /**
   * Partial completeness: a match that begins while the cursor is at 0 is
   * never missed. The scan returns this match or one completed earlier.
   */
  lemma MatchFromIdleCursorIsFound(words: seq<string>, tokens: seq<Token>, n: nat)
    requires |words| >= 1 && n + |words| <= |tokens|
    requires MatchEndsAt(words, tokens, n + |words| - 1)
    requires Cursor(words, tokens, n) == 0
    ensures FirstCompletion(words, tokens).Some?
    ensures FirstCompletion(words, tokens).value <= n + |words| - 1
    ensures Locate(words, tokens).Some?
  {
    forall p | 0 <= p < |words| ensures tokens[n + p].text == words[p] {
      assert tokens[n + |words| - 1 + 1 - |words| + p] == tokens[n + p];
    }
    CursorFollowsMatch(words, tokens, n, |words|);
    assert Completes(words, tokens, n + |words| - 1);
  }

  /**
   * The cursor is at 0 at the start of the transcript and after a token that
   * is none of the excerpt's words, so a match starting there is never missed.
   */
  lemma MatchAfterUnrelatedTokenIsFound(words: seq<string>, tokens: seq<Token>, n: nat)
    requires |words| >= 1 && n + |words| <= |tokens|
    requires MatchEndsAt(words, tokens, n + |words| - 1)
    requires n == 0 || tokens[n - 1].text !in words
    ensures FirstCompletion(words, tokens).Some?
    ensures FirstCompletion(words, tokens).value <= n + |words| - 1
    ensures Locate(words, tokens).Some?
  {
    if n > 0 {
      var prev := Cursor(words, tokens, n - 1);
      assert prev < |words| ==> tokens[n - 1].text != words[prev];
    }
    MatchFromIdleCursorIsFound(words, tokens, n);
  }

  /** A one-word excerpt is found exactly when some token has that text. */
  lemma SingleWordFoundIffPresent(w: string, tokens: seq<Token>)
    ensures Locate([w], tokens).Some? <==> exists j | 0 <= j < |tokens| :: tokens[j].text == w
  {
    if exists j | 0 <= j < |tokens| :: tokens[j].text == w {
      var j :| 0 <= j < |tokens| && tokens[j].text == w;
      var first := EarliestOccurrence(w, tokens, j);
      SingleWordSpansFirstOccurrence(w, tokens, first);
    }
    if Locate([w], tokens).Some? {
      var f := FirstCompletion([w], tokens).value;
      CursorSuffixMatches([w], tokens, f + 1);
      assert Cursor([w], tokens, f + 1) == 1;
      assert tokens[f].text == w;
    }
  }

  /** For a one-word excerpt the span is the first token with that text, its own start and end. */
  lemma SingleWordSpansFirstOccurrence(w: string, tokens: seq<Token>, j: nat)
    requires j < |tokens| && tokens[j].text == w
    requires forall p | 0 <= p < j :: tokens[p].text != w
    ensures Locate([w], tokens) == Some(Span(Seconds(tokens[j].start), Seconds(tokens[j].end)))
  {
    if j > 0 {
      assert tokens[j - 1].text != w;
    }
    MatchAfterUnrelatedTokenIsFound([w], tokens, j);
    var f := FirstCompletion([w], tokens).value;
    CursorSuffixMatches([w], tokens, f + 1);
    assert Cursor([w], tokens, f + 1) == 1;
    assert tokens[f].text == w;
  }

  /** Some token at or before `j` is the first one with text `w`. */
  lemma {:induction false} EarliestOccurrence(w: string, tokens: seq<Token>, j: nat) returns (first: nat)
    requires j < |tokens| && tokens[j].text == w
    ensures first <= j && tokens[first].text == w
    ensures forall p | 0 <= p < first :: tokens[p].text != w
  {
    first := j;
    if exists p | 0 <= p < j :: tokens[p].text == w {
      var p :| 0 <= p < j && tokens[p].text == w;
      first := EarliestOccurrence(w, tokens, p);
    }
  }

  /**
   * The reset quirk: after a mismatch the current token is not compared with
   * the first word again, so `["a", "b"]` against the texts `a a b` yields no
   * span although the last two tokens match (index.js:31-34).
   */
  lemma ResetSkipsRestartingToken()
    ensures var tokens := [Token(0, 1, "a"), Token(2, 3, "a"), Token(4, 5, "b")];
      MatchEndsAt(["a", "b"], tokens, 2) && Locate(["a", "b"], tokens) == None
  {
  }

  /**
   * Recovery after an abandoned partial match: `["a", "b"]` against `a x a b`
   * drops the match begun at the first token and returns the third token's
   * start and the fourth token's end.
   */
  lemma AbandonedPartialMatchRecovers()
    ensures Locate(["a", "b"], [Token(0, 1, "a"), Token(2, 3, "x"), Token(4, 5, "a"), Token(6, 7, "b")])
         == Some(Span(0.004, 0.007))
  {
  }

  /** The words `hello world` against `hi hello world` span the last two tokens. */
  lemma HelloWorldExample()
    ensures Locate(["hello", "world"], [Token(0, 1, "hi"), Token(2, 3, "hello"), Token(4, 6, "world")])
         == Some(Span(0.002, 0.006))
  {
  }

  /**
   * The excerpt string `"a b"` against `a x a b`, through the loop itself:
   * the split gives the two words and the span is the third token's start to
   * the fourth token's end.
   */
  method ExcerptTextRecoversAfterAbandonedMatch() returns (r: Option<Span>)
    ensures r == Some(Span(0.004, 0.007))
  {
    SplitJoin(["a", "b"]);
    assert JoinWithSpace(["a", "b"]) == "a b";
    AbandonedPartialMatchRecovers();
    r := MatchTimestampByText("a b", [Token(0, 1, "a"), Token(2, 3, "x"), Token(4, 5, "a"), Token(6, 7, "b")]);
  }
}
