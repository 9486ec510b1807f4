/**
 * JavaScript's `String.prototype.split(' ')` on a single-space separator,
 * as the excerpt locator uses it (index.js:21): every space separates two
 * pieces, so consecutive, leading or trailing spaces produce empty pieces,
 * and the empty string splits into one empty piece.
 */
module TextSplit {

  /** Number of space characters in `s`. */
  function SpaceCount(s: string): nat
  {
    if s == [] then 0 else (if s[0] == ' ' then 1 else 0) + SpaceCount(s[1..])
  }

  /** `s.split(' ')`. */
  function SplitOnSpace(s: string): (pieces: seq<string>)
    ensures |pieces| == 1 + SpaceCount(s)
    ensures forall k | 0 <= k < |pieces| :: ' ' !in pieces[k]
  {
    if s == [] then [""]
    else if s[0] == ' ' then [""] + SplitOnSpace(s[1..])
    else
      var rest := SplitOnSpace(s[1..]);
      [[s[0]] + rest[0]] + rest[1..]
  }

  /** `pieces.join(' ')`, the inverse of the split. */
  function JoinWithSpace(pieces: seq<string>): string
    requires |pieces| >= 1
  {
    if |pieces| == 1 then pieces[0] else pieces[0] + " " + JoinWithSpace(pieces[1..])
  }

  /** Joining the pieces of a split with single spaces gives back the text. */
  lemma {:induction false} JoinSplit(s: string)
    ensures JoinWithSpace(SplitOnSpace(s)) == s
  {
    if s == [] {
    } else if s[0] == ' ' {
      JoinSplit(s[1..]);
      assert s == [' '] + s[1..];
    } else {
      var rest := SplitOnSpace(s[1..]);
      JoinSplit(s[1..]);
      if |rest| == 1 {
        assert s == [s[0]] + rest[0];
      } else {
        assert JoinWithSpace(rest) == rest[0] + " " + JoinWithSpace(rest[1..]);
        var pieces := SplitOnSpace(s);
        assert pieces[1..] == rest[1..];
        assert s == [s[0]] + rest[0] + " " + JoinWithSpace(rest[1..]);
      }
    }
  }

  /** Splitting a space-joined list of space-free words gives back the words. */
  lemma {:induction false} SplitJoin(pieces: seq<string>)
    requires |pieces| >= 1
    requires forall k | 0 <= k < |pieces| :: ' ' !in pieces[k]
    ensures SplitOnSpace(JoinWithSpace(pieces)) == pieces
  {
    if |pieces| == 1 {
      SplitWord(pieces[0], []);
      assert pieces[0] + [] == pieces[0];
    } else {
      SplitJoin(pieces[1..]);
      var tail := JoinWithSpace(pieces[1..]);
      SplitWord(pieces[0], " " + tail);
      assert (" " + tail)[1..] == tail;
      assert JoinWithSpace(pieces) == pieces[0] + (" " + tail);
      assert [pieces[0]] + pieces[1..] == pieces;
    }
  }

  /** A space-free prefix `w` glues onto the first piece of what follows it. */
  lemma {:induction false} SplitWord(w: string, after: string)
    requires ' ' !in w
    requires after == [] || after[0] == ' '
    ensures SplitOnSpace(w + after) ==
      (if after == [] then [w] else [w] + SplitOnSpace(after[1..]))
  {
    if w == [] {
      assert w + after == after;
    } else {
      SplitWord(w[1..], after);
      assert (w + after)[1..] == w[1..] + after;
      assert [w[0]] + w[1..] == w;
    }
  }
}
