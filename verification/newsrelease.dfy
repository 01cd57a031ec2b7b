/** The news release (`ThaiDocument` of Newsreleasebook.js): emblem, a centred
    three-line heading, word-wrapped content with a paragraph gap above and
    below, a signature whose first character is centred, and an optional
    contact block. */
module NewsRelease {
  import opened Strings
  import opened Layout
  import opened LineBreaking
  import opened Whitespace

  const Top: real := Cm(4.5)
  const MarginLeft: real := Cm(3.0)
  const MarginRight: real := Cm(2.0)
  const TextWidth: real := PageWidth - MarginLeft - MarginRight
  const FirstLineIndent: real := Cm(2.5)
  const LineHeight: real := 26.0
  const ParagraphSpacing: real := 31.2  // 1.2 lines of 26 points

  /** The heading and the signature are centred between two inner margins,
      3 cm inside the left margin and 2 cm inside the right one. */
  const InnerLeft: real := MarginLeft + Cm(3.0)
  const InnerRight: real := PageWidth - MarginRight - Cm(2.0)
  const InnerWidth: real := InnerRight - InnerLeft
  const CenterX: real := InnerLeft + InnerWidth / 2.0

  // ---------------------------------------------------------------------------
  // Tokens: `match(/[฀-๿]+|\S+/g) || []`
  // ---------------------------------------------------------------------------

  predicate IsVisible(c: char)
  {
    !IsJsSpace(c)
  }

  /** The regular expression's matches, left to right: at a Thai character the
      whole run of Thai characters; at any other visible character the whole
      run of visible characters (Thai ones included); white space is skipped. */
  function Tokens(s: string): (r: seq<string>)
    ensures AllNonEmpty(r)
    ensures forall k, i :: 0 <= k < |r| && 0 <= i < |r[k]| ==> IsVisible(r[k][i])
    ensures forall k :: 0 <= k < |r| && IsThai(r[k][0]) ==> AllThai(r[k])
    decreases |s|
  {
    if |s| == 0 then []
    else if IsJsSpace(s[0]) then Tokens(s[1..])
    else
      var n := if IsThai(s[0]) then RunLength(s, IsThai) else RunLength(s, IsVisible);
      [s[..n]] + Tokens(s[n..])
  }

  predicate AllThai(s: string)
  {
    forall i :: 0 <= i < |s| ==> IsThai(s[i])
  }

  /** The tokens hold every visible character of `s`, in order, and nothing else. */
  lemma {:induction false} TokensKeepVisible(s: string)
    ensures Concat(Tokens(s)) == RemoveIf(s, IsJsSpace)
    decreases |s|
  {
    if |s| > 0 {
      if IsJsSpace(s[0]) {
        TokensKeepVisible(s[1..]);
      } else {
        var n := if IsThai(s[0]) then RunLength(s, IsThai) else RunLength(s, IsVisible);
        assert s == s[..n] + s[n..];
        RemoveIfAppend(s[..n], s[n..], IsJsSpace);
        RemoveIfNone(s[..n], IsJsSpace);
        TokensKeepVisible(s[n..]);
        ConcatCons(s[..n], Tokens(s[n..]));
      }
    }
  }

  /** No Thai character is followed directly by a visible non-Thai one. Where
      one is, the regular expression ends the Thai token there, and the drawn
      line puts a space in between. */
  predicate NoThaiSeam(s: string)
  {
    forall i :: 0 <= i < |s| - 1 ==> NoSeamAt(s, i)
  }

  predicate NoSeamAt(s: string, i: nat)
    requires i < |s| - 1
  {
    IsThai(s[i]) && IsVisible(s[i + 1]) ==> IsThai(s[i + 1])
  }

  predicate Clean(s: string)
  {
    IsTrimmed(s) && SingleSpaced(s) && NoThaiSeam(s)
  }

  /** Length of the first match at the start of `s`. */
  function FirstMatch(s: string): (n: nat)
    requires |s| > 0 && IsVisible(s[0])
    ensures 0 < n <= |s|
  {
    if IsThai(s[0]) then RunLength(s, IsThai) else RunLength(s, IsVisible)
  }

  /** In clean text the first match ends at a space or at the end, and what
      follows the space is clean again. */
  lemma FirstMatchEndsAtSpace(s: string)
    requires |s| > 0 && Clean(s)
    ensures var n := FirstMatch(s);
            n < |s| ==> s[n] == ' ' && n + 1 < |s| && Clean(s[n + 1..])
  {
    var n := FirstMatch(s);
    if n < |s| {
      if IsThai(s[0]) {
        assert IsThai(s[n - 1]) && !IsThai(s[n]);
        assert NoSeamAt(s, n - 1);
      }
      assert s[n] == ' ';
      var rest := s[n + 1..];
      assert forall i :: 0 <= i < |rest| ==> rest[i] == s[n + 1 + i];
      forall i | 0 <= i < |rest| - 1
        ensures NoSeamAt(rest, i)
      {
        assert NoSeamAt(s, n + 1 + i);
      }
    }
  }

  lemma TokensStep(s: string)
    requires |s| > 0 && IsVisible(s[0])
    ensures Tokens(s) == [s[..FirstMatch(s)]] + Tokens(s[FirstMatch(s)..])
  {
  }

  /** On clean text the tokens joined by single spaces give the text back. */
  lemma {:induction false} TokensJoinBack(s: string)
    requires Clean(s)
    ensures Join(Tokens(s), " ") == s
    decreases |s|
  {
    if |s| > 0 {
      var n := FirstMatch(s);
      var tok := s[..n];
      TokensStep(s);
      FirstMatchEndsAtSpace(s);
      if n < |s| {
        var rest := s[n + 1..];
        TokensJoinBack(rest);
        assert Tokens(s[n..]) == Tokens(rest) by {
          assert s[n..][1..] == rest;
        }
        var ts := Tokens(rest);
        assert |ts| > 0;
        JoinCons(tok, ts, " ");
        SplitAround(s, n);
      } else {
        assert Tokens(s[n..]) == [];
      }
    }
  }

  /** Joining visible tokens with spaces and dropping the spaces again gives
      the tokens glued together. */
  lemma {:induction false} JoinSpacesVisible(tokens: seq<string>)
    requires forall k, i :: 0 <= k < |tokens| && 0 <= i < |tokens[k]| ==> IsVisible(tokens[k][i])
    ensures RemoveIf(Join(tokens, " "), IsJsSpace) == Concat(tokens)
    decreases |tokens|
  {
    if |tokens| == 1 {
      RemoveIfNone(tokens[0], IsJsSpace);
    } else if |tokens| > 1 {
      var rest := tokens[1..];
      JoinSpacesVisible(rest);
      JoinAppend([tokens[0]], rest, " ");
      assert [tokens[0]] + rest == tokens;
      RemoveIfAppend(tokens[0] + " ", Join(rest, " "), IsJsSpace);
      RemoveIfAppend(tokens[0], " ", IsJsSpace);
      RemoveIfNone(tokens[0], IsJsSpace);
      ConcatCons(tokens[0], rest);
    }
  }

  /** `พ.ศ.` is split after its first character: the Thai run ends at the full
      stop, and the rest is one run of visible characters. */
  lemma ExampleThaiSeam()
    ensures Tokens("พ.ศ.") == ["พ", ".ศ."]
    ensures Join(Tokens("พ.ศ."), " ") == "พ .ศ."
  {
    var s := "พ.ศ.";
    assert IsThai(s[0]) && !IsThai(s[1]) && IsVisible(s[1]);
    assert RunLength(s, IsThai) == 1;
    TokensStep(s);
    var t := s[1..];
    assert IsVisible(t[0]) && !IsThai(t[0]) && IsVisible(t[1]) && IsVisible(t[2]);
    assert RunLength(t, IsVisible) == 3;
    TokensStep(t);
    assert t[3..] == [];
    assert Tokens(t[3..]) == [];
    assert s[..1] == "พ" && t[..3] == ".ศ.";
  }

  // ---------------------------------------------------------------------------
  // Emblem and heading
  // ---------------------------------------------------------------------------

  /** `addGaruda`: the 3 cm emblem centred at the top margin when the image
      loads, and the y the heading starts from, which `generate` uses. */
  function GarudaDraws(loaded: bool): seq<Draw>
  {
    if loaded then [Image((PageWidth - Cm(3.0)) / 2.0, Top, Cm(3.0), Cm(3.0))] else []
  }

  function GarudaY(loaded: bool): (y: real)
    ensures y == Top + 10.0 + (if loaded then Cm(3.0) else 0.0)
  {
    if loaded then Top + Cm(3.0) + 10.0 else Top + 10.0
  }

  /** A line centred between the inner margins at `y`. */
  function Centred(text: string, y: real, measure: string -> real): (d: Draw)
    ensures d.Text? && d.text == text && d.y == y && d.align == AlignLeft
    ensures d.x + measure(text) / 2.0 == CenterX
  {
    Text(text, InnerLeft + (InnerWidth - measure(text)) / 2.0, y, AlignLeft)
  }

  /** The third heading line: the release number when there is one, otherwise
      a dotted blank followed by the bracketed issuing office, if known. */
  function NumberLine(f: Fields): (t: string)
    ensures Field(f, "documentNumber") != "" ==> t == "ฉบับที่ " + Field(f, "documentNumber")
    ensures Field(f, "documentNumber") == "" ==>
              t == "ฉบับที่ .................. "
                   + (if Field(f, "department") != "" then "(" + Field(f, "department") + ")" else "")
  {
    var number := Field(f, "documentNumber");
    var office := Field(f, "department");
    if number != "" then "ฉบับที่ " + number
    else "ฉบับที่ .................. " + (if office != "" then "(" + office + ")" else "")
  }

  /** `addHeaderInfo`: office, subject and number, each centred between the
      inner margins, 20 points apart starting 4.5 points below `startY` (the
      source's comment speaks of 4.5 cm, the code adds 4.5 points). */
  function AddHeaderInfo(f: Fields, startY: real, measure: string -> real): (r: Emitted)
    ensures |r.draws| == 3 && r.y == startY + 4.5 + 60.0
    ensures forall i :: 0 <= i < 3 ==>
              && r.draws[i].Text?
              && r.draws[i].align == AlignLeft
              && r.draws[i].y == startY + 4.5 + 20.0 * (i as real)
              && r.draws[i].x + measure(r.draws[i].text) / 2.0 == CenterX
    ensures r.draws[0].text == Or(Field(f, "department"), "ชื่อส่วนราชการที่ออกข่าว")
    ensures r.draws[1].text == "เรื่อง  " + Or(Field(f, "subject"), ".............................")
    ensures r.draws[2].text == NumberLine(f)
    ensures Stacked(r, startY)
  {
    var y := startY + 4.5;
    var office := Centred(Or(Field(f, "department"), "ชื่อส่วนราชการที่ออกข่าว"), y, measure);
    var subject := Centred("เรื่อง  " + Or(Field(f, "subject"), "............................."), y + 20.0, measure);
    var number := Centred(NumberLine(f), y + 40.0, measure);
    Emitted([office, subject, number], y + 60.0)
  }

  // ---------------------------------------------------------------------------
  // Content
  // ---------------------------------------------------------------------------

  /** `lines` are the greedy word-level break of `content`: they hold its
      tokens in order; with the spaces dropped they hold every visible
      character of the content once, in order; on clean text without a Thai
      seam, joined by spaces they give the cleaned-up content back; only the
      first is marked first; a line of two or more tokens fits its width, the
      first 2.5 cm narrower; and every line but the last would overflow with
      the next line's first token added. */
  predicate WordBreakOf(lines: seq<Line>, content: string, measure: string -> real)
  {
    && Flatten(lines) == Tokens(Normalize(content))
    && RemoveIf(Join(Texts(lines), " "), IsJsSpace) == RemoveIf(content, IsJsSpace)
    && (NoThaiSeam(Normalize(content)) ==> Join(Texts(lines), " ") == Normalize(content))
    && (forall i :: 0 <= i < |lines| ==> WellFormed(lines[i], " "))
    && (forall i :: 0 <= i < |lines| ==> (lines[i].isFirstLine <==> i == 0))
    && (forall i :: 0 <= i < |lines| ==> Fits(lines[i], TextWidth, FirstLineIndent, measure))
    && (forall i :: 0 <= i < |lines| - 1 ==>
          Full(lines[i], lines[i + 1], " ", TextWidth, FirstLineIndent, measure))
  }

  function ContentLines(content: string, measure: string -> real): (lines: seq<Line>)
    ensures WordBreakOf(lines, content, measure)
    ensures forall i :: 0 <= i < |lines| ==> (lines[i].isFirstLine <==> i == 0)
  {
    WordBreak(content, measure);
    BreakLines(Tokens(Normalize(content)), " ", TextWidth, FirstLineIndent, measure)
  }

  lemma WordBreak(content: string, measure: string -> real)
    ensures WordBreakOf(BreakLines(Tokens(Normalize(content)), " ", TextWidth, FirstLineIndent, measure),
                        content, measure)
  {
    var n := Normalize(content);
    var tokens := Tokens(n);
    var lines := BreakLines(tokens, " ", TextWidth, FirstLineIndent, measure);
    LinesJoinBack(lines, tokens, " ");
    JoinSpacesVisible(tokens);
    TokensKeepVisible(n);
    if NoThaiSeam(n) {
      TokensJoinBack(n);
    }
  }

  /** The drawing loop: line `i` at `y + 26 i`, the first-line-flagged one
      indented; after the last line the cursor moves by the paragraph gap
      rather than by a line. */
  function Rows(lines: seq<Line>, y: real): (r: Emitted)
    ensures |r.draws| == |lines|
    ensures r.y == if |lines| == 0 then y
                   else y + 26.0 * ((|lines| - 1) as real) + ParagraphSpacing
    ensures forall i :: 0 <= i < |lines| ==> r.draws[i] == Text(
              lines[i].text,
              if lines[i].isFirstLine then MarginLeft + FirstLineIndent else MarginLeft,
              y + 26.0 * (i as real), AlignLeft)
    decreases |lines|
  {
    if |lines| == 0 then Emitted([], y)
    else
      var x := if lines[0].isFirstLine then MarginLeft + FirstLineIndent else MarginLeft;
      var here := Text(lines[0].text, x, y, AlignLeft);
      if |lines| == 1 then Emitted([here], y + ParagraphSpacing)
      else
        var rest := Rows(lines[1..], y + LineHeight);
        Emitted([here] + rest.draws, rest.y)
  }

  lemma RowsStacked(lines: seq<Line>, y: real)
    ensures Stacked(Rows(lines, y), y)
  {
    var r := Rows(lines, y);
    assert forall i :: 0 <= i < |lines| ==> r.draws[i].Text? && r.draws[i].y == y + 26.0 * (i as real);
  }

  /** `addContent`: empty content draws nothing and keeps y. Otherwise a
      paragraph gap comes first, line `i` is drawn at `startY + 31.2 + 26 i`,
      only the first indented, and after the last line come another paragraph
      gap and 10 points. Content that is only white space draws nothing but
      still moves the cursor by one gap and 10 points. */
  function AddContent(content: string, startY: real, measure: string -> real): (r: Emitted)
    ensures content == "" ==> r == Emitted([], startY)
    ensures content != "" ==>
              var lines := ContentLines(content, measure);
              && |r.draws| == |lines|
              && r.y == startY + ParagraphSpacing + 10.0
                        + (if |lines| == 0 then 0.0
                           else 26.0 * ((|lines| - 1) as real) + ParagraphSpacing)
              && forall i :: 0 <= i < |lines| ==> r.draws[i] == Text(
                   lines[i].text,
                   if i == 0 then MarginLeft + FirstLineIndent else MarginLeft,
                   startY + ParagraphSpacing + 26.0 * (i as real), AlignLeft)
    ensures Stacked(r, startY)
  {
    if content == "" then Emitted([], startY)
    else
      var lines := ContentLines(content, measure);
      ParagraphFirstLine(lines, startY);
      ParagraphStacked(lines, startY);
      Paragraph(lines, startY)
  }

  /** The rows of a paragraph, with only the first line indented. */
  lemma ParagraphFirstLine(lines: seq<Line>, startY: real)
    requires forall i :: 0 <= i < |lines| ==> (lines[i].isFirstLine <==> i == 0)
    ensures var r := Paragraph(lines, startY);
            && |r.draws| == |lines|
            && r.y == startY + ParagraphSpacing + 10.0
                      + (if |lines| == 0 then 0.0
                         else 26.0 * ((|lines| - 1) as real) + ParagraphSpacing)
            && forall i :: 0 <= i < |lines| ==> r.draws[i] == Text(
                 lines[i].text,
                 if i == 0 then MarginLeft + FirstLineIndent else MarginLeft,
                 startY + ParagraphSpacing + 26.0 * (i as real), AlignLeft)
  {
  }

  /** The rows of a paragraph between two paragraph gaps, and 10 points. */
  function Paragraph(lines: seq<Line>, startY: real): Emitted
  {
    var rows := Rows(lines, startY + ParagraphSpacing);
    Emitted(rows.draws, rows.y + 10.0)
  }

  lemma ParagraphStacked(lines: seq<Line>, startY: real)
    ensures Stacked(Paragraph(lines, startY), startY)
  {
    RowsStacked(lines, startY + ParagraphSpacing);
  }

  // ---------------------------------------------------------------------------
  // Signature and contact block
  // ---------------------------------------------------------------------------

  /** `addSignature`: the issuing office is drawn as its first character,
      centred on the inner centre line, and the rest of the text starting
      right where that character ends; 24 points lower the date is centred
      under the middle of the two pieces together. The next y is 48 points
      below `startY`. */
  function AddSignature(f: Fields, startY: real, measure: string -> real): (r: Emitted)
    ensures |r.draws| == 3 && r.y == startY + 48.0
    ensures forall i :: 0 <= i < 3 ==> r.draws[i].Text? && r.draws[i].align == AlignLeft
    ensures r.draws[0].y == r.draws[1].y == startY + 4.0 && r.draws[2].y == startY + 28.0
    ensures |r.draws[0].text| == 1
    ensures r.draws[0].text + r.draws[1].text == Or(Field(f, "signature"), "ส่วนราชการที่ออกข่าว")
    ensures r.draws[0].x + measure(r.draws[0].text) / 2.0 == CenterX
    ensures r.draws[1].x == r.draws[0].x + measure(r.draws[0].text)
    ensures r.draws[2].text == Or(Field(f, "date"), "วัน เดือน ปี")
    ensures r.draws[2].x + measure(r.draws[2].text) / 2.0
            == r.draws[0].x + (measure(r.draws[0].text) + measure(r.draws[1].text)) / 2.0
    ensures Stacked(r, startY)
  {
    var y := startY + 4.0;
    var full := Or(Field(f, "signature"), "ส่วนราชการที่ออกข่าว");
    var first, rest := full[..1], full[1..];
    var firstX := CenterX - measure(first) / 2.0;
    var date := Or(Field(f, "date"), "วัน เดือน ปี");
    var dateX := firstX + (measure(first) + measure(rest)) / 2.0 - measure(date) / 2.0;
    assert first + rest == full;
    Emitted([Text(first, firstX, y, AlignLeft), Text(rest, firstX + measure(first), y, AlignLeft),
             Text(date, dateX, y + 24.0, AlignLeft)], y + 24.0 + 20.0)
  }

  /** Whether any contact field is filled in. */
  predicate HasContact(f: Fields)
  {
    || Field(f, "contactPerson") != "" || Field(f, "contactPosition") != ""
    || Field(f, "contactDepartment") != "" || Field(f, "contactTel") != ""
    || Field(f, "contactFax") != ""
  }

  /** `addContactInfo`: nothing unless some contact field is filled in. Then,
      after 20 points, the contact person (behind a space, 1 cm inside the
      margin) and the contact office (at the inner left margin), each only
      when given, 20 points apart. Position, telephone and fax open the block
      but are never drawn. */
  function AddContactInfo(f: Fields, startY: real): (r: Emitted)
    ensures !HasContact(f) ==> r == Emitted([], startY)
    ensures HasContact(f) ==>
              var person := Field(f, "contactPerson");
              var office := Field(f, "contactDepartment");
              && |r.draws| == Present(person) + Present(office)
              && r.y == startY + 20.0 + 20.0 * (|r.draws| as real)
              && (person != "" ==> r.draws[0] == Text(" " + person, MarginLeft + Cm(1.0), startY + 20.0, AlignLeft))
              && (office != "" ==> r.draws[|r.draws| - 1] == Text(
                    "หน่วยงาน: " + office, InnerLeft, r.y - 20.0, AlignLeft))
    ensures Stacked(r, startY)
  {
    if !HasContact(f) then Emitted([], startY)
    else
      var person := Field(f, "contactPerson");
      var office := Field(f, "contactDepartment");
      var y := startY + 20.0;
      var a := if person != "" then [Text(" " + person, MarginLeft + Cm(1.0), y, AlignLeft)] else [];
      var y := y + 20.0 * (|a| as real);
      var b := if office != "" then [Text("หน่วยงาน: " + office, InnerLeft, y, AlignLeft)] else [];
      Emitted(a + b, y + 20.0 * (|b| as real))
  }

  // ---------------------------------------------------------------------------
  // The whole document
  // ---------------------------------------------------------------------------

  /** Heading, content, signature and contact block, each starting where the
      previous one ended, from `startY` on; the draws run top-down. */
  function Body(f: Fields, startY: real, measure: string -> real): (r: Emitted)
    ensures |r.draws| >= 3 && r.draws[..3] == AddHeaderInfo(f, startY, measure).draws
    ensures Stacked(r, startY)
  {
    var header := AddHeaderInfo(f, startY, measure);
    var content := AddContent(Field(f, "content"), header.y, measure);
    var signature := AddSignature(f, content.y, measure);
    StackedThen(signature, AddContactInfo(f, signature.y), content.y);
    StackedThen(content, Closing(f, content.y, measure), header.y);
    StackedThen(header, FromContent(f, header.y, measure), startY);
    Blocks(f, startY, measure)
  }

  /** The four blocks chained, without further promises. */
  function Blocks(f: Fields, startY: real, measure: string -> real): Emitted
  {
    var header := AddHeaderInfo(f, startY, measure);
    Then(header, FromContent(f, header.y, measure))
  }

  /** Content, signature and contact block from `startY` on. */
  function FromContent(f: Fields, startY: real, measure: string -> real): Emitted
  {
    var content := AddContent(Field(f, "content"), startY, measure);
    Then(content, Closing(f, content.y, measure))
  }

  /** Signature and contact block from `startY` on. */
  function Closing(f: Fields, startY: real, measure: string -> real): Emitted
  {
    var signature := AddSignature(f, startY, measure);
    Then(signature, AddContactInfo(f, signature.y))
  }

  /** `generate`: the emblem, when it loads, then the body from the y the
      emblem hands on. */
  function Generate(f: Fields, garudaLoaded: bool, measure: string -> real): (r: seq<Draw>)
    ensures garudaLoaded ==> |r| > 0 && r[0].Image? && r[1..] == Body(f, GarudaY(true), measure).draws
    ensures !garudaLoaded ==> r == Body(f, GarudaY(false), measure).draws
  {
    GarudaDraws(garudaLoaded) + Body(f, GarudaY(garudaLoaded), measure).draws
  }

  // ---------------------------------------------------------------------------
  // Moving the start moves everything
  // ---------------------------------------------------------------------------

  lemma {:induction false} RowsShift(lines: seq<Line>, y: real, dy: real)
    ensures Rows(lines, y + dy) == Shift(Rows(lines, y), dy)
    decreases |lines|
  {
    var r := Rows(lines, y);
    var a, b := Rows(lines, y + dy), Shift(r, dy);
    assert |a.draws| == |b.draws| == |lines|;
    forall i | 0 <= i < |lines|
      ensures a.draws[i] == b.draws[i]
    {
      var x := if lines[i].isFirstLine then MarginLeft + FirstLineIndent else MarginLeft;
      assert r.draws[i] == Text(lines[i].text, x, y + 26.0 * (i as real), AlignLeft);
      assert b.draws[i] == ShiftDraw(r.draws[i], dy);
      assert a.draws[i] == Text(lines[i].text, x, (y + dy) + 26.0 * (i as real), AlignLeft);
    }
    assert a.y == b.y;
  }

  lemma AddContentShift(content: string, y: real, y': real, dy: real, measure: string -> real)
    requires y' == y + dy
    ensures AddContent(content, y', measure) == Shift(AddContent(content, y, measure), dy)
  {
    if content != "" {
      AddContentIsParagraph(content, y, measure);
      AddContentIsParagraph(content, y', measure);
      ParagraphShift(ContentLines(content, measure), y, y', dy);
    }
  }

  /** Non-empty content is drawn as one paragraph of its broken lines. */
  lemma AddContentIsParagraph(content: string, y: real, measure: string -> real)
    requires content != ""
    ensures AddContent(content, y, measure) == Paragraph(ContentLines(content, measure), y)
  {
  }

  lemma ParagraphShift(lines: seq<Line>, y: real, y': real, dy: real)
    requires y' == y + dy
    ensures Paragraph(lines, y') == Shift(Paragraph(lines, y), dy)
  {
    var top := y + ParagraphSpacing;
    assert y' + ParagraphSpacing == top + dy;
    RowsShift(lines, top, dy);
    ShiftGap(Rows(lines, top), dy, 10.0);
  }

  /** Moving a block and then leaving a gap below it is leaving the gap and
      then moving. */
  lemma ShiftGap(e: Emitted, dy: real, gap: real)
    ensures Emitted(Shift(e, dy).draws, Shift(e, dy).y + gap) == Shift(Emitted(e.draws, e.y + gap), dy)
  {
  }

  lemma HeaderShift(f: Fields, y: real, y': real, dy: real, measure: string -> real)
    requires y' == y + dy
    ensures AddHeaderInfo(f, y', measure) == Shift(AddHeaderInfo(f, y, measure), dy)
  {
    var a, b := AddHeaderInfo(f, y', measure), Shift(AddHeaderInfo(f, y, measure), dy);
    assert a.draws == b.draws;
  }

  lemma SignatureShift(f: Fields, y: real, y': real, dy: real, measure: string -> real)
    requires y' == y + dy
    ensures AddSignature(f, y', measure) == Shift(AddSignature(f, y, measure), dy)
  {
    var a, b := AddSignature(f, y', measure), Shift(AddSignature(f, y, measure), dy);
    assert a.draws == b.draws;
  }

  lemma ContactShift(f: Fields, y: real, y': real, dy: real)
    requires y' == y + dy
    ensures AddContactInfo(f, y') == Shift(AddContactInfo(f, y), dy)
  {
    var a, b := AddContactInfo(f, y'), Shift(AddContactInfo(f, y), dy);
    assert a.draws == b.draws;
  }

  lemma ClosingShift(f: Fields, y: real, y': real, dy: real, measure: string -> real)
    requires y' == y + dy
    ensures Closing(f, y', measure) == Shift(Closing(f, y, measure), dy)
  {
    var s, s' := AddSignature(f, y, measure), AddSignature(f, y', measure);
    SignatureShift(f, y, y', dy, measure);
    ContactShift(f, s.y, s'.y, dy);
    ShiftedThen(s, AddContactInfo(f, s.y), s', AddContactInfo(f, s'.y), dy);
  }

  lemma FromContentShift(f: Fields, y: real, y': real, dy: real, measure: string -> real)
    requires y' == y + dy
    ensures FromContent(f, y', measure) == Shift(FromContent(f, y, measure), dy)
  {
    var content := Field(f, "content");
    var c, c' := AddContent(content, y, measure), AddContent(content, y', measure);
    AddContentShift(content, y, y', dy, measure);
    ClosingShift(f, c.y, c'.y, dy, measure);
    ShiftedThen(c, Closing(f, c.y, measure), c', Closing(f, c'.y, measure), dy);
  }

  /** The body started `dy` points lower is the same body moved down by `dy`. */
  lemma BlocksShift(f: Fields, y: real, dy: real, measure: string -> real)
    ensures Blocks(f, y + dy, measure) == Shift(Blocks(f, y, measure), dy)
  {
    var h, h' := AddHeaderInfo(f, y, measure), AddHeaderInfo(f, y + dy, measure);
    HeaderShift(f, y, y + dy, dy, measure);
    assert h' == Shift(h, dy);
    FromContentShift(f, h.y, h'.y, dy, measure);
    ShiftedThen(h, FromContent(f, h.y, measure), h', FromContent(f, h'.y, measure), dy);
  }

  /** A loaded emblem pushes the whole rest of the release down by exactly its
      3 cm height. */
  lemma GarudaPushesDown(f: Fields, measure: string -> real)
    ensures Generate(f, true, measure)[1..] == ShiftAll(Generate(f, false, measure), Cm(3.0))
  {
    BlocksShift(f, GarudaY(false), Cm(3.0), measure);
    assert GarudaY(true) == GarudaY(false) + Cm(3.0);
    assert Body(f, GarudaY(true), measure) == Blocks(f, GarudaY(true), measure);
    assert Body(f, GarudaY(false), measure) == Blocks(f, GarudaY(false), measure);
  }
}
