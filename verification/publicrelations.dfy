/** The public-relations announcement (`ThaiDocument` of Publicrelationsbook.js):
    a centred title block, word-segmented content whose lines are justified
    word by word except the last, and a signature block. */
module PublicRelations {
  import opened Strings
  import opened Layout
  import opened LineBreaking
  import opened Justification

  const Top: real := Cm(1.5)
  const MarginLeft: real := Cm(3.0)
  const MarginRight: real := Cm(2.0)
  const TextWidth: real := PageWidth - MarginLeft - MarginRight
  const FirstLineIndent: real := Cm(2.5)
  const LineHeight: real := 20.0
  const Dots: string := ".................................................."

  // ---------------------------------------------------------------------------
  // Emblem and header
  // ---------------------------------------------------------------------------

  /** `addGaruda`: the 2.7 by 3 cm emblem centred at the top margin when the
      image loads; nothing otherwise. The y it reports is overwritten by
      `addHeaderInfo` straight away. */
  function GarudaDraws(loaded: bool): seq<Draw>
  {
    if loaded then [Image((PageWidth - Cm(2.7)) / 2.0, Top, Cm(2.7), Cm(3.0))] else []
  }

  /** `addHeaderInfo` draws nothing and hands on this fixed y. */
  const HeaderY: real := Top + Cm(3.0) + 8.0

  // ---------------------------------------------------------------------------
  // Document information
  // ---------------------------------------------------------------------------

  /** The short rule under the title block: 4 cm long, starting 4/2.1 cm left
      of the page centre. */
  function TitleRule(y: real): Draw
  {
    var x := PageWidth / 2.0 - Cm(4.0) / 2.1;
    Rule(x, y, x + Cm(4.0), y)
  }

  /** `addDocumentInfo`: the title (the document number, or the default
      heading), the subject and, only when given, the issue number, all centred
      on the page, then a horizontal rule. The returned y depends only on
      whether the issue number is given. */
  function AddDocumentInfo(f: Fields, startY: real): (r: Emitted)
    ensures var to := Field(f, "to");
            && |r.draws| == 3 + Present(to)
            && r.y == startY + 102.0 + 20.0 * (Present(to) as real)
    ensures forall i :: 0 <= i < |r.draws| - 1 ==>
              r.draws[i].Text? && r.draws[i].x == PageWidth / 2.0 && r.draws[i].align == AlignCenter
    ensures r.draws[0].text == Or(Field(f, "documentNumber"), "แถลงการณ์กองทัพบก")
    ensures r.draws[0].y == startY + 20.0
    ensures r.draws[1].text == "เรื่อง " + Or(Field(f, "subject"), Dots)
    ensures r.draws[1].y == startY + 42.0
    ensures Field(f, "to") != "" ==> r.draws[2].text == "(ฉบับที่ " + Field(f, "to") + ")"
    ensures Field(f, "to") != "" ==> r.draws[2].y == startY + 62.0
    ensures var rule := r.draws[|r.draws| - 1];
            && rule.Rule? && rule.y1 == rule.y2 == r.y - 34.0
            && rule.x1 == PageWidth / 2.0 - Cm(4.0) / 2.1
            && rule.x2 - rule.x1 == Cm(4.0)
    ensures Stacked(r, startY)
  {
    var x := PageWidth / 2.0;
    var to := Field(f, "to");
    var title := Text(Or(Field(f, "documentNumber"), "แถลงการณ์กองทัพบก"), x, startY + 20.0, AlignCenter);
    var y := startY + LineHeight * 1.6;
    var subject := Text("เรื่อง " + Or(Field(f, "subject"), Dots), x, y + 10.0, AlignCenter);
    var y := y + LineHeight;
    var issue := if to != "" then [Text("(ฉบับที่ " + to + ")", x, y + 10.0, AlignCenter)] else [];
    var y := y + LineHeight * (|issue| as real);
    Emitted([title, subject] + issue + [TitleRule(y + 16.0)], y + 40.0 + 10.0)
  }

  // ---------------------------------------------------------------------------
  // Content: greedy lines of word segments, justified but for the last
  // ---------------------------------------------------------------------------

  /** The x a line starts at: the first line is indented. */
  function LineX(l: Line): real
  {
    if l.isFirstLine then MarginLeft + FirstLineIndent else MarginLeft
  }

  /** The gap between the words of a justified line: the width the line is
      short of its allowed width, shared out between its word boundaries. */
  function LineGap(l: Line, measure: string -> real): real
  {
    Gap(l.words, l.text, Allowed(TextWidth, FirstLineIndent, l.isFirstLine), measure)
  }

  /** One left-aligned text per word, at the given x positions. */
  function WordDraws(words: seq<string>, xs: seq<real>, y: real): (r: seq<Draw>)
    requires |xs| == |words|
    ensures |r| == |words|
    ensures forall k :: 0 <= k < |r| ==> r[k] == Text(words[k], xs[k], y, AlignLeft)
  {
    seq(|words|, k requires 0 <= k < |words| => Text(words[k], xs[k], y, AlignLeft))
  }

  /** The draws of one line: the last line of the paragraph is one text at the
      line's x; any other line draws its words one by one, each after the
      previous word's width and the line's gap. */
  function LineDraws(l: Line, y: real, last: bool, measure: string -> real): (r: seq<Draw>)
    ensures forall k :: 0 <= k < |r| ==> r[k].Text? && r[k].y == y && r[k].align == AlignLeft
  {
    if last then [Text(l.text, LineX(l), y, AlignLeft)]
    else WordDraws(l.words, WordPositions(l.words, LineX(l), LineGap(l, measure), measure), y)
  }

  /** The drawing loop: line `i` at `y + 20 i`; the cursor ends one line below
      the last line. */
  function Rows(lines: seq<Line>, y: real, measure: string -> real): (r: Emitted)
    ensures r.y == y + 20.0 * (|lines| as real)
    ensures forall k :: 0 <= k < |r.draws| ==>
              r.draws[k].Text? && r.draws[k].align == AlignLeft
              && y <= r.draws[k].y <= y + 20.0 * ((|lines| - 1) as real)
    ensures TopDown(r.draws)
    decreases |lines|
  {
    if |lines| == 0 then Emitted([], y)
    else
      var here := LineDraws(lines[0], y, |lines| == 1, measure);
      var rest := Rows(lines[1..], y + LineHeight, measure);
      TopDownAppend(here, rest.draws);
      Emitted(here + rest.draws, rest.y)
  }

  /** The draws of each line of the content set from `y`: line `i` at
      `y + 20 i`, the last one as one unstretched text, every other one
      justified word by word. */
  function LineRows(lines: seq<Line>, y: real, measure: string -> real): (r: seq<seq<Draw>>)
    ensures |r| == |lines|
  {
    seq(|lines|, i requires 0 <= i < |lines| =>
      LineDraws(lines[i], y + LineHeight * (i as real), i == |lines| - 1, measure))
  }

  /** The rows of a paragraph are its first line's draws followed by the rows
      of the remaining lines, set one line lower. */
  lemma {:induction false} LineRowsCons(lines: seq<Line>, y: real, measure: string -> real)
    requires |lines| > 0
    ensures LineRows(lines, y, measure)
            == [LineDraws(lines[0], y, |lines| == 1, measure)] + LineRows(lines[1..], y + LineHeight, measure)
  {
    var a, b := LineRows(lines, y, measure), LineRows(lines[1..], y + LineHeight, measure);
    forall i | 1 <= i < |a|
      ensures a[i] == b[i - 1]
    {
      var rest := lines[1..];
      var y1, y2 := y + LineHeight * (i as real), (y + LineHeight) + LineHeight * ((i - 1) as real);
      assert rest[i - 1] == lines[i] && y1 == y2;
    }
    assert a[0] == LineDraws(lines[0], y, |lines| == 1, measure);
  }

  /** The drawing loop draws line after line, each as `LineRows` has it. */
  lemma {:induction false} RowsAreLineRows(lines: seq<Line>, y: real, measure: string -> real)
    ensures Rows(lines, y, measure).draws == Concat(LineRows(lines, y, measure))
    decreases |lines|
  {
    if |lines| > 0 {
      LineRowsCons(lines, y, measure);
      RowsAreLineRows(lines[1..], y + LineHeight, measure);
      ConcatCons(LineDraws(lines[0], y, |lines| == 1, measure), LineRows(lines[1..], y + LineHeight, measure));
    }
  }

  /** The draws of a line put its text on the page: the whole text for the
      last line, the words, which make up the text, for the others. */
  lemma LineDrawsKeepText(l: Line, y: real, last: bool, measure: string -> real)
    requires WellFormed(l, "")
    ensures Concat(DrawnTexts(LineDraws(l, y, last, measure))) == l.text
  {
    var r := LineDraws(l, y, last, measure);
    if last {
      var none: seq<string> := [];
      assert DrawnTexts(r) == [l.text] + none;
      ConcatCons(l.text, none);
    } else {
      assert DrawnTexts(r) == l.words;
    }
  }

  lemma DrawnTextsAppend(a: seq<Draw>, b: seq<Draw>)
    ensures DrawnTexts(a + b) == DrawnTexts(a) + DrawnTexts(b)
  {
  }

  /** Glued together, the texts the rows draw are the lines' texts glued
      together. */
  lemma {:induction false} RowsKeepText(lines: seq<Line>, y: real, measure: string -> real)
    requires forall i :: 0 <= i < |lines| ==> WellFormed(lines[i], "")
    ensures Concat(DrawnTexts(Rows(lines, y, measure).draws)) == Concat(Texts(lines))
    decreases |lines|
  {
    if |lines| > 0 {
      var here := LineDraws(lines[0], y, |lines| == 1, measure);
      var rest := Rows(lines[1..], y + LineHeight, measure);
      LineDrawsKeepText(lines[0], y, |lines| == 1, measure);
      RowsKeepText(lines[1..], y + LineHeight, measure);
      TextsStep(here, rest.draws, lines[0].text, Texts(lines[1..]));
      assert Texts(lines) == [lines[0].text] + Texts(lines[1..]);
    }
  }

  /** Draws that spell `t` followed by draws that spell the texts `ts` spell
      `t` followed by those texts. */
  lemma TextsStep(here: seq<Draw>, rest: seq<Draw>, t: string, ts: seq<string>)
    requires Concat(DrawnTexts(here)) == t && Concat(DrawnTexts(rest)) == Concat(ts)
    ensures Concat(DrawnTexts(here + rest)) == Concat([t] + ts)
  {
    DrawnTextsAppend(here, rest);
    ConcatAppend(DrawnTexts(here), DrawnTexts(rest));
    ConcatCons(t, ts);
  }

  /** The lines of `addContent`: the segments broken greedily, joined by
      nothing, the first line 2.5 cm narrower. */
  function ContentLines(segments: seq<string>, measure: string -> real): seq<Line>
    requires AllNonEmpty(segments)
  {
    BreakLines(segments, "", TextWidth, FirstLineIndent, measure)
  }

  /** `addContent`, with the word segmentation of the content given as
      `segments` (the pieces, none empty, that glue back to the content).
      Empty content draws nothing and moves the cursor 4 points. Otherwise the
      lines are drawn 20 points apart from 4 points below `startY`, every
      draw a left-aligned text; together they put exactly the content on the
      page, in order; and the cursor ends 5 points below the line after the
      last. */
  function AddContent(content: string, segments: seq<string>, startY: real, measure: string -> real): (r: Emitted)
    requires AllNonEmpty(segments) && Concat(segments) == content
    ensures content == "" ==> r == Emitted([], startY + 4.0)
    ensures content != "" ==>
              r.y == startY + 4.0 + 20.0 * (|ContentLines(segments, measure)| as real) + 5.0
    ensures forall k :: 0 <= k < |r.draws| ==> r.draws[k].Text? && r.draws[k].align == AlignLeft
    ensures Concat(DrawnTexts(r.draws)) == content
    ensures Stacked(r, startY)
  {
    if content == "" then
      var none: seq<string> := [];
      assert DrawnTexts([]) == none;
      Emitted([], startY + 4.0)
    else
      var lines := ContentLines(segments, measure);
      var rows := Rows(lines, startY + 4.0, measure);
      RowsKeepText(lines, startY + 4.0, measure);
      LinesJoinBack(lines, segments, "");
      Emitted(rows.draws, rows.y + 5.0)
  }

  /** The first line starts at the indent, 4 points below `startY`. */
  lemma AddContentFirstLine(content: string, segments: seq<string>, startY: real, measure: string -> real)
    requires AllNonEmpty(segments) && Concat(segments) == content && content != ""
    ensures var r := AddContent(content, segments, startY, measure);
            |r.draws| > 0 && r.draws[0].x == MarginLeft + FirstLineIndent && r.draws[0].y == startY + 4.0
  {
    var lines := ContentLines(segments, measure);
    assert |segments| > 0;
    var l := lines[0];
    assert Rows(lines, startY + 4.0, measure).draws[..|LineDraws(l, startY + 4.0, |lines| == 1, measure)|]
           == LineDraws(l, startY + 4.0, |lines| == 1, measure);
  }

  /** `addContent` draws the lines of the content in order, line `i` at
      `startY + 4 + 20 i`, the last one whole and every other one justified. */
  lemma AddContentDrawsRows(content: string, segments: seq<string>, startY: real, measure: string -> real)
    requires AllNonEmpty(segments) && Concat(segments) == content && content != ""
    ensures AddContent(content, segments, startY, measure).draws
            == Concat(LineRows(ContentLines(segments, measure), startY + 4.0, measure))
  {
    RowsAreLineRows(ContentLines(segments, measure), startY + 4.0, measure);
  }

  /** The last row is the last line drawn whole at its x. */
  lemma LineRowsLast(lines: seq<Line>, y: real, measure: string -> real)
    requires |lines| > 0
    ensures var n := |lines| - 1;
            LineRows(lines, y, measure)[n]
            == [Text(lines[n].text, LineX(lines[n]), y + LineHeight * (n as real), AlignLeft)]
  {
  }

  /** The last line of the content is drawn whole and unstretched at its x,
      `20 (n - 1)` points below the first. */
  lemma AddContentLastLine(content: string, segments: seq<string>, startY: real, measure: string -> real)
    requires AllNonEmpty(segments) && Concat(segments) == content && content != ""
    ensures var lines := ContentLines(segments, measure);
            var r := AddContent(content, segments, startY, measure);
            var last := lines[|lines| - 1];
            && |lines| > 0 && |r.draws| > 0
            && r.draws[|r.draws| - 1]
               == Text(last.text, LineX(last), startY + 4.0 + LineHeight * ((|lines| - 1) as real), AlignLeft)
  {
    assert |segments| > 0;
    AddContentDrawsRows(content, segments, startY, measure);
    RowsEndWithLastLine(ContentLines(segments, measure), startY + 4.0, measure);
  }

  /** The rows end with the last line drawn whole at its x on its row. */
  lemma RowsEndWithLastLine(lines: seq<Line>, y: real, measure: string -> real)
    requires |lines| > 0
    ensures var c, n := Concat(LineRows(lines, y, measure)), |lines| - 1;
            |c| > 0 && c[|c| - 1] == Text(lines[n].text, LineX(lines[n]), y + LineHeight * (n as real), AlignLeft)
  {
    var n := |lines| - 1;
    LineRowsLast(lines, y, measure);
    ConcatLastSingle(LineRows(lines, y, measure), Text(lines[n].text, LineX(lines[n]), y + LineHeight * (n as real), AlignLeft));
  }

  /** Every line of the content but the last is justified: its words are
      drawn one by one from its x, each after the previous word's width and
      the line's gap, on the line's row. */
  lemma AddContentJustifiedLine(segments: seq<string>, startY: real, measure: string -> real, i: nat)
    requires AllNonEmpty(segments)
    requires i < |ContentLines(segments, measure)| - 1
    ensures var l := ContentLines(segments, measure)[i];
            LineRows(ContentLines(segments, measure), startY + 4.0, measure)[i]
            == WordDraws(l.words, WordPositions(l.words, LineX(l), LineGap(l, measure), measure),
                         startY + 4.0 + LineHeight * (i as real))
  {
  }

  /** On a justified line the gap is never negative: a line of two or more
      words fits its allowed width, so the words never overlap. */
  lemma JustifiedGapNonNegative(segments: seq<string>, i: nat, measure: string -> real)
    requires AllNonEmpty(segments)
    requires i < |ContentLines(segments, measure)|
    ensures LineGap(ContentLines(segments, measure)[i], measure) >= 0.0
  {
  }

  /** When the width of a text is the sum of its words' widths, every
      justified line of two or more words ends exactly at the right margin. */
  lemma JustifiedLineEndsAtMargin(l: Line, y: real, measure: string -> real)
    requires |l.words| >= 2
    requires measure(l.text) == TotalWidth(l.words, measure)
    ensures var r := LineDraws(l, y, false, measure);
            r[|r| - 1].x + measure(l.words[|l.words| - 1]) == PageWidth - MarginRight
  {
    JustifiedLineFills(l.words, l.text, LineX(l), Allowed(TextWidth, FirstLineIndent, l.isFirstLine), measure);
  }

  // ---------------------------------------------------------------------------
  // Signature
  // ---------------------------------------------------------------------------

  const SignatureX: real := PageWidth / 2.0 + Cm(0.8)
  const DateX: real := SignatureX - Cm(0.9)

  /** `addSignature`: the enclosure (left-aligned at the date column) or the
      default issuer (centred on the signature column), 30 points lower the
      date or its placeholder at the date column, 20 points lower the
      reference or its placeholder at the left margin; the cursor ends 110
      points below `startY`. */
  function AddSignature(f: Fields, startY: real): (r: Emitted)
    ensures |r.draws| == 3 && r.y == startY + 110.0
    ensures forall i :: 0 <= i < 3 ==> r.draws[i].Text?
    ensures r.draws[0].y == startY + 20.0 && r.draws[1].y == startY + 50.0 && r.draws[2].y == startY + 70.0
    ensures Field(f, "attachment") != "" ==>
              r.draws[0] == Text(Field(f, "attachment"), DateX, startY + 20.0, AlignLeft)
    ensures Field(f, "attachment") == "" ==>
              r.draws[0] == Text("กองทัพบก", SignatureX, startY + 20.0, AlignCenter)
    ensures r.draws[1] == Text(Or(Field(f, "date"), "วัน เดือน ปี"), DateX, startY + 50.0, AlignLeft)
    ensures r.draws[2] == Text(Or(Field(f, "reference"), "ส่วนราชการเจ้าของเรื่อง"), MarginLeft, startY + 70.0, AlignLeft)
    ensures Stacked(r, startY)
  {
    var attachment := Field(f, "attachment");
    var y := startY + 20.0;
    var issuer := if attachment != "" then Text(attachment, DateX, y, AlignLeft)
                  else Text("กองทัพบก", SignatureX, y, AlignCenter);
    var y := y + 30.0;
    var date := Text(Or(Field(f, "date"), "วัน เดือน ปี"), DateX, y, AlignLeft);
    var y := y + LineHeight;
    var reference := Text(Or(Field(f, "reference"), "ส่วนราชการเจ้าของเรื่อง"), MarginLeft, y, AlignLeft);
    var y := y + LineHeight;
    Emitted([issuer, date, reference], y + 20.0)
  }

  // ---------------------------------------------------------------------------
  // The whole document
  // ---------------------------------------------------------------------------

  /** The blocks `generate` draws after the emblem, each starting where the
      previous one ended, from the fixed y `addHeaderInfo` hands on; the draws
      run top-down and open with the title block. */
  function Body(f: Fields, segments: seq<string>, measure: string -> real): (r: Emitted)
    requires AllNonEmpty(segments) && Concat(segments) == Field(f, "content")
    ensures var info := AddDocumentInfo(f, HeaderY);
            |r.draws| >= |info.draws| && r.draws[..|info.draws|] == info.draws
    ensures Stacked(r, HeaderY)
  {
    var info := AddDocumentInfo(f, HeaderY);
    var content := AddContent(Field(f, "content"), segments, info.y, measure);
    var signature := AddSignature(f, content.y);
    StackedThen(content, signature, info.y);
    StackedThen(info, Then(content, signature), HeaderY);
    Then(info, Then(content, signature))
  }

  /** `generate`: the emblem, when it loads, then the body, which starts at a
      fixed y whether or not the emblem loaded. */
  function Generate(f: Fields, segments: seq<string>, garudaLoaded: bool, measure: string -> real): (r: seq<Draw>)
    requires AllNonEmpty(segments) && Concat(segments) == Field(f, "content")
    ensures garudaLoaded ==> |r| > 0 && r[0].Image? && r[1..] == Body(f, segments, measure).draws
    ensures !garudaLoaded ==> r == Body(f, segments, measure).draws
  {
    GarudaDraws(garudaLoaded) + Body(f, segments, measure).draws
  }
}
