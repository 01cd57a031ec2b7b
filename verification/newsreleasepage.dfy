/** The preview of the news-release page: the closing formula is moved onto a
    line of its own, the content is cut into lines at line breaks, and the
    closing line is right-aligned while every other line is justified with an
    indent. */
module NewsReleasePage {
  import opened Strings
  import opened Layout

  /** The closing formula of a news release. */
  const Keyword: string := "จึงแถลงมาเพื่อทราบโดยทั่วกัน"

  const Break: string := "\n"

  /** A piece of text with no line break in it. */
  predicate NoBreak(s: string)
  {
    Lacks(s, '\n')
  }

  lemma KeywordShape()
    ensures NoBreak(Keyword) && IsTrimmed(Keyword) && |Keyword| > 0
  {
  }

  /** Content that has `kw` right after a line break is kept; otherwise a line
      break goes in front of the first occurrence of `kw`, if there is one.
      Deleting the inserted break gives the content back, and afterwards `kw`
      always follows a line break. */
  function BreakBefore(content: string, kw: string): (r: string)
    ensures Contains(content, Break + kw) ==> r == content
    ensures !Contains(content, kw) ==> r == content
    ensures Contains(content, kw) ==> Contains(r, Break + kw)
    ensures r != content ==>
              var i := IndexOf(content, kw).value;
              && !Contains(content, Break + kw)
              && |r| == |content| + 1 && r[i] == '\n'
              && r[..i] + r[i + 1..] == content
  {
    if Contains(content, Break + kw) then content
    else match IndexOf(content, kw)
      case None => content
      case Some(i) =>
        InsertBreak(content, kw, i);
        content[..i] + Break + content[i..]
  }

  /** A break put in front of an occurrence of `kw` is followed by `kw`, and
      taking it out again gives the text back. */
  lemma InsertBreak(content: string, kw: string, i: nat)
    requires OccursAt(content, kw, i)
    ensures var r := content[..i] + Break + content[i..];
            && OccursAt(r, Break + kw, i)
            && |r| == |content| + 1 && r[i] == '\n'
            && r[..i] + r[i + 1..] == content
  {
    var r := content[..i] + Break + content[i..];
    assert r[..i] == content[..i] && r[i] == '\n' && r[i + 1..] == content[i..];
    forall t | 0 <= t < 1 + |kw|
      ensures r[i + t] == (Break + kw)[t]
    {
      if t > 0 {
        assert r[i + t] == content[i..][t - 1] == content[i..i + |kw|][t - 1];
      }
    }
    assert r[i..i + 1 + |kw|] == Break + kw;
  }

  /** Inserting the break twice is inserting it once. */
  lemma BreakBeforeIdempotent(content: string, kw: string)
    ensures BreakBefore(BreakBefore(content, kw), kw) == BreakBefore(content, kw)
  {
  }

  /** `contentLines`: nothing without content; otherwise the content, with a
      break put in front of the closing formula, cut at every line break: no
      line holds a break, and joining the lines with breaks gives that content
      back. */
  function ContentLines(content: string): (r: seq<string>)
    ensures content == "" ==> r == []
    ensures content != "" ==> Join(r, Break) == BreakBefore(content, Keyword)
    ensures forall k :: 0 <= k < |r| ==> NoBreak(r[k])
  {
    if content == "" then []
    else
      var text := BreakBefore(content, Keyword);
      SplitOnJoin(text, '\n');
      SplitOnLacks(text, '\n');
      SplitOn(text, '\n')
  }

  /** How a line of the preview is set. */
  datatype Style = RightAligned | Justified(indent: real)

  /** The closing formula, give or take white space, is right-aligned with no
      indent; every other line is justified with a 2.5 cm first-line indent. */
  function LineStyle(line: string): (r: Style)
    ensures r == RightAligned <==> Trim(line) == Keyword
    ensures r != RightAligned ==> r == Justified(Cm(2.5))
  {
    if Trim(line) == Keyword then RightAligned else Justified(Cm(2.5))
  }

  /** Past the first break, the lines of the cut are those of what follows
      the break, one place later. */
  lemma LaterLine(s: string, c: char, i: nat, k: nat)
    requires IndexOfChar(s, c) == Some(i)
    requires k < |SplitOn(s[i + 1..], c)|
    ensures k + 1 < |SplitOn(s, c)| && SplitOn(s, c)[k + 1] == SplitOn(s[i + 1..], c)[k]
  {
  }

  /** Text that starts with a break-free `kw` has a first line that starts
      with it too. */
  lemma FirstLineStartsWith(b: string, kw: string)
    requires StartsWith(b, kw) && NoBreak(kw)
    ensures StartsWith(SplitOn(b, '\n')[0], kw)
  {
    match IndexOfChar(b, '\n')
    case None =>
    case Some(i) =>
      assert forall j :: 0 <= j < |kw| ==> b[j] == kw[j];
      assert i >= |kw|;
      assert b[..i][..|kw|] == b[..|kw|];
  }

  /** A break-free `kw` right after a line break starts a line of the cut. */
  lemma {:induction false} LineAfterBreak(s: string, j: nat, kw: string)
    requires j < |s| && s[j] == '\n' && StartsWith(s[j + 1..], kw) && NoBreak(kw)
    ensures exists k :: 0 <= k < |SplitOn(s, '\n')| && StartsWith(SplitOn(s, '\n')[k], kw)
    decreases |s|
  {
    var i := IndexOfChar(s, '\n').value;
    var rest := s[i + 1..];
    var k: nat;
    if i == j {
      FirstLineStartsWith(rest, kw);
      k := 0;
    } else {
      assert rest[j - i - 1] == '\n' && rest[j - i..] == s[j + 1..] by {
        assert i < j;
      }
      LineAfterBreak(rest, j - i - 1, kw);
      k :| 0 <= k < |SplitOn(rest, '\n')| && StartsWith(SplitOn(rest, '\n')[k], kw);
    }
    LaterLine(s, '\n', i, k);
  }

  /** Where a break followed by `kw` occurs, `kw` starts right after the break. */
  lemma BreakThen(r: string, kw: string, j: nat)
    requires OccursAt(r, Break + kw, j)
    ensures j < |r| && r[j] == '\n' && StartsWith(r[j + 1..], kw)
  {
    assert r[j..j + 1 + |kw|] == Break + kw;
    assert r[j + 1..][..|kw|] == r[j..j + 1 + |kw|][1..];
  }

  /** Wherever a break-free `kw` appears in the content, some line of the
      content, cut after the break is put in front of `kw`, starts with it. */
  lemma BreakStartsALine(content: string, kw: string)
    requires Contains(content, kw) && NoBreak(kw)
    ensures var lines := SplitOn(BreakBefore(content, kw), '\n');
            exists k :: 0 <= k < |lines| && StartsWith(lines[k], kw)
  {
    var r := BreakBefore(content, kw);
    var j := IndexOf(r, Break + kw).value;
    BreakThen(r, kw, j);
    LineAfterBreak(r, j, kw);
  }

  /** Wherever the closing formula appears in the content, some line of the
      preview starts with it. */
  lemma KeywordStartsALine(content: string)
    requires Contains(content, Keyword)
    ensures exists k :: 0 <= k < |ContentLines(content)| && StartsWith(ContentLines(content)[k], Keyword)
  {
    KeywordShape();
    assert content != "";
    BreakStartsALine(content, Keyword);
    assert ContentLines(content) == SplitOn(BreakBefore(content, Keyword), '\n');
  }
}
