/** Paragraph splitting of the internal memorandum:
    `text.split(/\n\s*\n/).filter(p => p.trim())`.

    The regular expression matches leftmost first, and its greedy `\s*` backs
    off to the last line break it can end on; so a match starts at a line
    break that is followed by white space holding another line break, and ends
    just after the last line break of that white-space run. */
module Paragraphs {
  import opened Strings

  /** Position of the last `c` in `s`, if any. */
  function LastIndexOfChar(s: string, c: char): (r: Option<nat>)
    ensures r.None? ==> forall i :: 0 <= i < |s| ==> s[i] != c
    ensures r.Some? ==> (r.value < |s| && s[r.value] == c
                         && forall i :: r.value < i < |s| ==> s[i] != c)
    decreases |s|
  {
    if |s| == 0 then None
    else if s[|s| - 1] == c then Some(|s| - 1)
    else LastIndexOfChar(s[..|s| - 1], c)
  }

  /** What one match of `/\n\s*\n/` can be: two or more characters of white
      space that begin and end with a line break. */
  predicate IsSeparator(t: string)
  {
    |t| >= 2 && t[0] == '\n' && t[|t| - 1] == '\n' && IsBlank(t)
  }

  /** Line breaks at `j` and at `m` with nothing but white space in between:
      exactly what the pattern needs to match from `j`. */
  predicate BlankGap(s: string, j: int, m: int)
  {
    && 0 <= j < m < |s| && s[j] == '\n' && s[m] == '\n'
    && forall t :: j < t < m ==> IsJsSpace(s[t])
  }

  predicate NoBlankGap(s: string)
  {
    forall j, m :: 0 <= j < m < |s| ==> !BlankGap(s, j, m)
  }

  /** No line break at or after `e` is reachable over white space alone: a
      match ending at `e` took in the whole run of line breaks. */
  predicate EndsRun(s: string, e: nat)
  {
    forall m :: e <= m < |s| && s[m] == '\n' ==> exists t :: e <= t < m && !IsJsSpace(s[t])
  }

  /** Where a match starting at `i` ends, if one starts there. */
  function MatchEnd(s: string, i: nat): (r: Option<nat>)
    requires i < |s|
    ensures r.Some? ==> i + 2 <= r.value <= |s| && IsSeparator(s[i..r.value])
    ensures r.Some? ==> EndsRun(s, r.value)
  {
    if s[i] != '\n' then None
    else
      var k := RunLength(s[i + 1..], IsJsSpace);
      match LastIndexOfChar(s[i + 1..i + 1 + k], '\n')
      case None => None
      case Some(j) =>
        var t := s[i..i + 2 + j];
        assert forall u :: 1 <= u < |t| ==> t[u] == s[i + 1..][u - 1];
        MatchIsGreedy(s, i, k, j);
        Some(i + 2 + j)
  }

  /** The greedy `\s*`: past the last line break of the white-space run after
      `s[i]`, no further line break is reachable over white space. */
  lemma MatchIsGreedy(s: string, i: nat, k: nat, j: nat)
    requires i < |s| && k == RunLength(s[i + 1..], IsJsSpace)
    requires LastIndexOfChar(s[i + 1..i + 1 + k], '\n') == Some(j)
    ensures EndsRun(s, i + 2 + j)
  {
    var run := s[i + 1..i + 1 + k];
    forall u | i + 1 + j < u < i + 1 + k
      ensures s[u] != '\n'
    {
      assert run[u - i - 1] == s[u];
    }
    forall m | i + 2 + j <= m < |s| && s[m] == '\n'
      ensures exists t :: i + 2 + j <= t < m && !IsJsSpace(s[t])
    {
      var t := i + 1 + k;
      assert s[i + 1..][k] == s[t];
      assert i + 2 + j <= t < m && !IsJsSpace(s[t]);
    }
  }

  /** A match starts at every line break that has a blank gap after it. */
  lemma GapStartsMatch(s: string, j: nat, m: nat)
    requires BlankGap(s, j, m)
    ensures MatchEnd(s, j).Some?
  {
    var rest := s[j + 1..];
    var k := RunLength(rest, IsJsSpace);
    forall t | 0 <= t <= m - j - 1
      ensures IsJsSpace(rest[t])
    {
      assert rest[t] == s[j + 1 + t];
    }
    assert k > m - j - 1;
    assert s[j + 1..j + 1 + k][m - j - 1] == '\n';
  }

  /** The leftmost match at or after `from`, as (start, end). */
  function FirstMatch(s: string, from: nat): (r: Option<(nat, nat)>)
    ensures r.None? ==> forall j :: from <= j < |s| ==> MatchEnd(s, j).None?
    ensures r.Some? ==>
              && from <= r.value.0 < |s|
              && MatchEnd(s, r.value.0) == Some(r.value.1)
              && forall j :: from <= j < r.value.0 ==> MatchEnd(s, j).None?
    decreases |s| - from
  {
    if from >= |s| then None
    else match MatchEnd(s, from)
      case Some(e) => Some((from, e))
      case None => FirstMatch(s, from + 1)
  }

  /** `split(/\n\s*\n/)`: the pieces between matches, at least one. */
  function Split(s: string): (r: seq<string>)
    ensures |r| >= 1
    decreases |s|
  {
    match FirstMatch(s, 0)
    case None => [s]
    case Some((i, e)) => [s[..i]] + Split(s[e..])
  }

  /** The matched separators, in order. */
  function Separators(s: string): (r: seq<string>)
    decreases |s|
  {
    match FirstMatch(s, 0)
    case None => []
    case Some((i, e)) => [s[i..e]] + Separators(s[e..])
  }

  /** The pieces with the separators put back between them. */
  function Weave(pieces: seq<string>, seps: seq<string>): string
    requires |pieces| == |seps| + 1
    decreases |seps|
  {
    if |seps| == 0 then pieces[0] else pieces[0] + seps[0] + Weave(pieces[1..], seps[1..])
  }

  lemma {:induction false} SeparatorCount(s: string)
    ensures |Separators(s)| == |Split(s)| - 1
    decreases |s|
  {
    match FirstMatch(s, 0)
    case None =>
    case Some((i, e)) =>
      SeparatorCount(s[e..]);
  }

  /** Every separator is a real match of the pattern. */
  lemma {:induction false} SeparatorsMatch(s: string)
    ensures forall k :: 0 <= k < |Separators(s)| ==> IsSeparator(Separators(s)[k])
    decreases |s|
  {
    match FirstMatch(s, 0)
    case None =>
    case Some((i, e)) =>
      SeparatorsMatch(s[e..]);
      var seps := Separators(s);
      assert seps == [s[i..e]] + Separators(s[e..]);
      forall k | 1 <= k < |seps|
        ensures IsSeparator(seps[k])
      {
        assert seps[k] == Separators(s[e..])[k - 1];
      }
  }

  /** Putting the separators back between the pieces gives the text back. */
  lemma {:induction false} SplitWeave(s: string)
    ensures |Separators(s)| == |Split(s)| - 1
    ensures Weave(Split(s), Separators(s)) == s
    decreases |s|
  {
    SeparatorCount(s);
    match FirstMatch(s, 0)
    case None =>
    case Some((i, e)) =>
      var piece, gap, rest := SplitFirst(s, i, e);
      SplitWeave(rest);
      WeaveCons(piece, gap, Split(rest), Separators(rest));
  }

  /** Weaving a first piece and a first separator in front. */
  lemma {:induction false} WeaveCons(piece: string, gap: string, pieces: seq<string>, seps: seq<string>)
    requires |pieces| == |seps| + 1
    ensures Weave([piece] + pieces, [gap] + seps) == piece + gap + Weave(pieces, seps)
  {
    assert ([piece] + pieces)[1..] == pieces;
    assert ([gap] + seps)[1..] == seps;
  }

  /** A blank gap inside the part before the first match would have started an
      earlier match. */
  lemma PrefixHasNoGap(s: string, i: nat)
    requires i <= |s|
    requires forall j :: 0 <= j < i && j < |s| ==> MatchEnd(s, j).None?
    ensures NoBlankGap(s[..i])
  {
    forall j, m | BlankGap(s[..i], j, m)
      ensures false
    {
      assert BlankGap(s, j, m);
      GapStartsMatch(s, j, m);
    }
  }

  /** No piece still holds a match: the split leaves no paragraph break
      inside a paragraph. */
  lemma {:induction false} SplitPiecesHaveNoGap(s: string)
    ensures forall k :: 0 <= k < |Split(s)| ==> NoBlankGap(Split(s)[k])
    decreases |s|
  {
    match FirstMatch(s, 0)
    case None =>
      PrefixHasNoGap(s, |s|);
      assert s[..|s|] == s;
    case Some((i, e)) =>
      PrefixHasNoGap(s, i);
      SplitPiecesHaveNoGap(s[e..]);
      assert Split(s)[1..] == Split(s[e..]);
  }

  /** `split(/\n\s*\n/).filter(p => p.trim())`: the pieces that are not all
      white space, in order. */
  function ParagraphsOf(text: string): (r: seq<string>)
    ensures forall k :: 0 <= k < |r| ==> Trim(r[k]) != []
    ensures RemoveIf(Concat(r), IsJsSpace) == RemoveIf(text, IsJsSpace)
  {
    SplitKeepsVisible(text);
    DropBlankKeepsVisible(Split(text));
    RemoveIf(Split(text), IsBlank)
  }

  /** Cutting at the matches loses only white space: glued together, the
      pieces have every visible character of the text, in order. */
  lemma {:induction false} SplitKeepsVisible(s: string)
    ensures RemoveIf(Concat(Split(s)), IsJsSpace) == RemoveIf(s, IsJsSpace)
    decreases |s|
  {
    match FirstMatch(s, 0)
    case None =>
      ConcatCons(s, []);
      assert [s] + [] == [s];
    case Some((i, e)) =>
      var piece, gap, rest := SplitFirst(s, i, e);
      SplitKeepsVisible(rest);
      ConcatCons(piece, Split(rest));
      VisibleAcross(piece, gap, rest, Concat(Split(rest)));
  }

  /** Where the first match is, the text is the first piece, the blank
      separator and the rest, and the split goes on in the rest. */
  lemma SplitFirst(s: string, i: nat, e: nat) returns (piece: string, gap: string, rest: string)
    requires FirstMatch(s, 0) == Some((i, e))
    ensures s == piece + gap + rest && IsBlank(gap) && |rest| < |s|
    ensures Split(s) == [piece] + Split(rest)
    ensures Separators(s) == [gap] + Separators(rest)
  {
    piece, gap, rest := s[..i], s[i..e], s[e..];
    assert IsSeparator(gap);
    assert s == piece + gap + rest;
  }

  /** Blank text between two parts adds nothing visible. */
  lemma {:induction false} VisibleAcross(a: string, gap: string, rest: string, c: string)
    requires IsBlank(gap) && RemoveIf(c, IsJsSpace) == RemoveIf(rest, IsJsSpace)
    ensures RemoveIf(a + c, IsJsSpace) == RemoveIf(a + gap + rest, IsJsSpace)
  {
    RemoveIfAll(gap, IsJsSpace);
    RemoveIfAcross(a, gap, rest, c, IsJsSpace);
  }

  /** Dropping the blank pieces loses only white space. */
  lemma {:induction false} DropBlankKeepsVisible(ps: seq<string>)
    ensures RemoveIf(Concat(RemoveIf(ps, IsBlank)), IsJsSpace) == RemoveIf(Concat(ps), IsJsSpace)
    decreases |ps|
  {
    if |ps| > 0 {
      DropBlankKeepsVisible(ps[1..]);
      assert ps == [ps[0]] + ps[1..];
      ConcatCons(ps[0], ps[1..]);
      RemoveIfAppend(ps[0], Concat(ps[1..]), IsJsSpace);
      var kept := RemoveIf(ps[1..], IsBlank);
      if IsBlank(ps[0]) {
        RemoveIfAll(ps[0], IsJsSpace);
        assert RemoveIf(ps, IsBlank) == kept;
      } else {
        assert RemoveIf(ps, IsBlank) == [ps[0]] + kept;
        ConcatCons(ps[0], kept);
        RemoveIfAppend(ps[0], Concat(kept), IsJsSpace);
      }
    }
  }

  /** Text with no paragraph break and some visible character is one
      paragraph, kept as it is. */
  lemma SingleParagraph(text: string)
    requires NoBlankGap(text) && !IsBlank(text)
    ensures ParagraphsOf(text) == [text]
  {
    var m := FirstMatch(text, 0);
    if m.Some? {
      MatchIsGap(text, m.value.0);
      assert false;
    }
    assert RemoveIf([text], IsBlank) == [text] + RemoveIf([text][1..], IsBlank);
  }

  /** Every match runs from one line break to another over white space. */
  lemma MatchIsGap(s: string, i: nat)
    requires i < |s| && MatchEnd(s, i).Some?
    ensures BlankGap(s, i, MatchEnd(s, i).value - 1)
  {
    var e := MatchEnd(s, i).value;
    var t := s[i..e];
    assert forall u :: i < u < e - 1 ==> t[u - i] == s[u];
  }

  lemma ExampleTwoParagraphs()
    ensures ParagraphsOf("a\n \nb") == ["a", "b"]
  {
    ExampleSplit();
    assert !IsBlank("a") && !IsBlank("b");
    KeepBoth("a", "b");
  }

  /** A gap of three line breaks is one separator: the greedy match takes all
      of them, so the second paragraph starts at its first visible character. */
  lemma ExampleLongGap()
    ensures ParagraphsOf("a\n\n\nb") == ["a", "b"]
  {
    ExampleLongSplit();
    assert !IsBlank("a") && !IsBlank("b");
    KeepBoth("a", "b");
  }

  lemma ExampleLongSplit()
    ensures Split("a\n\n\nb") == ["a", "b"]
  {
    var s := "a\n\n\nb";
    ExampleLongMatch();
    assert s[4..] == "b";
    assert MatchEnd("b", 0).None?;
    assert FirstMatch("b", 0).None?;
    assert Split("b") == ["b"];
    assert s[..1] == "a";
    assert Split(s) == ["a"] + ["b"];
  }

  /** The match from the first line break ends after the third, not the
      second: ending at 3 would leave a line break reachable over white space. */
  lemma ExampleLongMatch()
    ensures FirstMatch("a\n\n\nb", 0) == Some((1, 4))
  {
    var s := "a\n\n\nb";
    assert MatchEnd(s, 0).None?;
    GapStartsMatch(s, 1, 3);
    assert s[1..5] == "\n\n\nb";
    assert MatchEnd(s, 1) == Some(4);
  }

  /** The filter keeps two pieces that are not blank. */
  lemma KeepBoth(x: string, y: string)
    requires !IsBlank(x) && !IsBlank(y)
    ensures RemoveIf([x, y], IsBlank) == [x, y]
  {
    assert [x, y][1..] == [y];
  }

  /** The split of the example: one match, from the first line break to the
      second. */
  lemma ExampleSplit()
    ensures Split("a\n \nb") == ["a", "b"]
  {
    var s := "a\n \nb";
    ExampleMatch();
    assert s[4..] == "b";
    assert MatchEnd("b", 0).None?;
    assert FirstMatch("b", 0).None?;
    assert Split("b") == ["b"];
    assert s[..1] == "a";
    assert Split(s) == ["a"] + ["b"];
  }

  lemma ExampleMatch()
    ensures FirstMatch("a\n \nb", 0) == Some((1, 4))
  {
    var s := "a\n \nb";
    assert MatchEnd(s, 0).None?;
    assert s[2..] == " \nb";
    assert MatchEnd(s, 1) == Some(4);
  }

}
