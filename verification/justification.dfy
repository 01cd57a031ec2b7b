/** Inter-word justification of the public-relations announcement: the slack
    left on a line is shared out evenly between the gaps of its words. */
module Justification {

  /** Sum of the widths of the words, each measured alone. */
  function TotalWidth(words: seq<string>, measure: string -> real): real
    decreases |words|
  {
    if |words| == 0 then 0.0 else measure(words[0]) + TotalWidth(words[1..], measure)
  }

  lemma {:induction false} TotalWidthAppend(words: seq<string>, w: string, measure: string -> real)
    ensures TotalWidth(words + [w], measure) == TotalWidth(words, measure) + measure(w)
    decreases |words|
  {
    if |words| > 0 {
      assert (words + [w])[1..] == words[1..] + [w];
      TotalWidthAppend(words[1..], w, measure);
    }
  }

  /** The gap put between neighbouring words so that a line of `n >= 2` words
      fills `available`; a one-word line gets no gap (the source's division by
      zero there is never used). */
  function Gap(words: seq<string>, text: string, available: real, measure: string -> real): real
  {
    if |words| >= 2 then (available - measure(text)) / ((|words| - 1) as real) else 0.0
  }

  /** The x of every word as the drawing loop advances it: each word starts
      where the previous one started, plus that word's width, plus the gap. */
  function WordPositions(words: seq<string>, x: real, gap: real, measure: string -> real): (xs: seq<real>)
    ensures |xs| == |words|
    ensures |words| > 0 ==> xs[0] == x
    decreases |words|
  {
    if |words| == 0 then [] else [x] + WordPositions(words[1..], x + measure(words[0]) + gap, gap, measure)
  }

  /** Word `k` starts after the widths of the `k` words before it and `k` gaps. */
  lemma {:induction false} WordPositionsClosedForm(words: seq<string>, x: real, gap: real,
                                                   measure: string -> real)
    ensures forall k :: 0 <= k < |words| ==>
              WordPositions(words, x, gap, measure)[k]
              == x + TotalWidth(words[..k], measure) + (k as real) * gap
    decreases |words|
  {
    if |words| > 0 {
      var x' := x + measure(words[0]) + gap;
      var xs := WordPositions(words, x, gap, measure);
      var tail := WordPositions(words[1..], x', gap, measure);
      WordPositionsClosedForm(words[1..], x', gap, measure);
      forall k | 0 < k < |words|
        ensures xs[k] == x + TotalWidth(words[..k], measure) + (k as real) * gap
      {
        assert xs[k] == tail[k - 1];
        assert words[..k][1..] == words[1..][..k - 1];
        assert TotalWidth(words[..k], measure) == measure(words[0]) + TotalWidth(words[1..][..k - 1], measure);
      }
    }
  }

  /** When the width of the line's text is the sum of its words' widths, the
      last word of a justified line of two or more words ends exactly at
      `x + available`. */
  lemma JustifiedLineFills(words: seq<string>, text: string, x: real, available: real,
                           measure: string -> real)
    requires |words| >= 2
    requires measure(text) == TotalWidth(words, measure)
    ensures var xs := WordPositions(words, x, Gap(words, text, available, measure), measure);
            xs[|words| - 1] + measure(words[|words| - 1]) == x + available
  {
    var n := |words|;
    var gap := Gap(words, text, available, measure);
    WordPositionsClosedForm(words, x, gap, measure);
    assert words == words[..n - 1] + [words[n - 1]];
    TotalWidthAppend(words[..n - 1], words[n - 1], measure);
    assert ((n - 1) as real) * gap == available - measure(text);
  }

  function Width20(s: string): real
  {
    20.0 * (|s| as real)
  }

  /** Three words 20 units wide on a 100-unit line are drawn at 0, 40 and 80. */
  lemma ExampleThreeWords()
    ensures WordPositions(["a", "b", "c"], 0.0, Gap(["a", "b", "c"], "abc", 100.0, Width20), Width20)
            == [0.0, 40.0, 80.0]
  {
    assert Gap(["a", "b", "c"], "abc", 100.0, Width20) == 20.0;
  }
}
