/** The external memorandum (`ThaiDocument` of ExternalDocs.js): header,
    document information, character-level wrapped content, signature and
    contact block, each a function from the form and a start y to the draw
    instructions and the next y. */
module ExternalDocs {
  import opened Strings
  import opened Layout
  import opened LineBreaking
  import opened Whitespace

  const Top: real := Cm(2.5)
  const MarginLeft: real := Cm(3.0)
  const MarginRight: real := Cm(2.0)
  const TextWidth: real := PageWidth - MarginLeft - MarginRight
  const FirstLineIndent: real := Cm(2.5)
  const LineHeight: real := 20.0
  const Blank: string := "_________"

  // ---------------------------------------------------------------------------
  // Emblem and header
  // ---------------------------------------------------------------------------

  /** `addGaruda`: the 3 cm emblem centred at the top margin when the image
      loads; nothing otherwise. */
  function GarudaDraws(loaded: bool): seq<Draw>
  {
    if loaded then [Image((PageWidth - Cm(3.0)) / 2.0, Top, Cm(3.0), Cm(3.0))] else []
  }

  /** The height `addGaruda` reports; `generate` overwrites it straight away. */
  function GarudaAdvance(loaded: bool): real
  {
    if loaded then Cm(3.0) + 8.0 else 8.0
  }

  const HeaderY: real := Top + Cm(3.0) + 8.0

  /** `addHeaderInfo`: the document number at the left margin and the issuing
      office right-aligned at the right margin, on one baseline 40 points above
      the returned y; missing values print as placeholders. */
  function AddHeaderInfo(f: Fields): (r: Emitted)
    ensures |r.draws| == 2 && r.draws[0].Text? && r.draws[1].Text?
    ensures r.draws[0].y == r.draws[1].y == HeaderY == r.y - 40.0
    ensures Stacked(r, HeaderY)
    ensures r.draws[0].x == MarginLeft && r.draws[0].align == AlignLeft
    ensures r.draws[1].x == PageWidth - MarginRight && r.draws[1].align == AlignRight
    ensures r.draws[0].text == "ที่ " + Or(Field(f, "documentNumber"), Blank)
    ensures Field(f, "documentNumber") == "" ==> r.draws[0].text == "ที่ _________"
    ensures Field(f, "department") == "" ==> r.draws[1].text == "ส่วนราชการ"
    ensures Field(f, "department") != "" ==> r.draws[1].text == Field(f, "department")
  {
    var number := Text("ที่ " + Or(Field(f, "documentNumber"), Blank), MarginLeft, HeaderY, AlignLeft);
    var office := Text(Or(Field(f, "department"), "ส่วนราชการ"), PageWidth - MarginRight, HeaderY, AlignRight);
    Emitted([number, office], HeaderY + 40.0)
  }

  // ---------------------------------------------------------------------------
  // Document information
  // ---------------------------------------------------------------------------

  /** Appends a left-margin line at the current y and moves down one line. */
  function Row(e: Emitted, text: string, x: real): Emitted
  {
    Emitted(e.draws + [Text(text, x, e.y, AlignLeft)], e.y + LineHeight)
  }

  /** Left-aligned rows 20 points apart from `startY`, the first from the page
      centre and the rest from the left margin; the cursor ends one row below
      the last. */
  function InfoRows(texts: seq<string>, startY: real): (r: Emitted)
    ensures |r.draws| == |texts| && r.y == startY + 20.0 * (|texts| as real)
    ensures forall i :: 0 <= i < |texts| ==>
              r.draws[i] == Text(texts[i], if i == 0 then PageWidth / 2.0 else MarginLeft,
                                 startY + 20.0 * (i as real), AlignLeft)
    ensures TopDown(r.draws)
  {
    Emitted(seq(|texts|, i requires 0 <= i < |texts| =>
                  Text(texts[i], if i == 0 then PageWidth / 2.0 else MarginLeft,
                       startY + 20.0 * (i as real), AlignLeft)),
            startY + 20.0 * (|texts| as real))
  }

  /** `addDocumentInfo`: date (from the page centre), subject and addressee
      always, reference and enclosure only when given, each on its own row 20
      points below the previous; the returned y is 10 points below the last
      row, so it depends only on which optional fields are present. */
  function AddDocumentInfo(f: Fields, startY: real): (r: Emitted)
    ensures var n := 3 + Present(Field(f, "reference")) + Present(Field(f, "attachment"));
            |r.draws| == n && r.y == startY + 20.0 * (n as real) + 10.0
    ensures forall i :: 0 <= i < |r.draws| ==>
              r.draws[i].Text? && r.draws[i].y == startY + 20.0 * (i as real) && r.draws[i].align == AlignLeft
    ensures Stacked(r, startY)
    ensures r.draws[0].x == PageWidth / 2.0
    ensures forall i :: 1 <= i < |r.draws| ==> r.draws[i].x == MarginLeft
    ensures r.draws[0].text == Or(Field(f, "date"), "วันที่ _________")
    ensures r.draws[1].text == "เรื่อง " + Or(Field(f, "subject"), Blank)
    ensures r.draws[2].text == "เรียน " + Or(Field(f, "to"), Blank)
    ensures var a := Field(f, "reference");
            a != "" ==> r.draws[3].text == "อ้างถึง " + a
    ensures var a := Field(f, "attachment");
            a != "" ==> r.draws[|r.draws| - 1].text == "สิ่งที่ส่งมาด้วย " + a
  {
    var reference := Field(f, "reference");
    var attachment := Field(f, "attachment");
    var texts := [Or(Field(f, "date"), "วันที่ _________"),
                  "เรื่อง " + Or(Field(f, "subject"), Blank),
                  "เรียน " + Or(Field(f, "to"), Blank)]
                 + (if reference != "" then ["อ้างถึง " + reference] else [])
                 + (if attachment != "" then ["สิ่งที่ส่งมาด้วย " + attachment] else []);
    var e := InfoRows(texts, startY);
    Emitted(e.draws, e.y + 10.0)
  }

  // ---------------------------------------------------------------------------
  // Content
  // ---------------------------------------------------------------------------

  /** `lines` are a greedy character-level break of `text`: concatenated in
      order they give `text` back, so no character is lost, doubled or moved;
      only the first is marked first; a line of two or more characters fits its
      width, the first line being 2.5 cm narrower; and every line but the last
      would overflow with the next line's first character added. */
  predicate CharacterBreakOf(lines: seq<Line>, text: string, measure: string -> real)
  {
    && Concat(Texts(lines)) == text
    && (|lines| == 0 <==> text == [])
    && (forall i :: 0 <= i < |lines| ==> (lines[i].isFirstLine <==> i == 0))
    && (forall i :: 0 <= i < |lines| ==> |lines[i].text| == |lines[i].words| >= 1)
    && (forall i :: 0 <= i < |lines| && |lines[i].text| >= 2 ==>
          measure(lines[i].text) <= Allowed(TextWidth, FirstLineIndent, i == 0))
    && (forall i :: 0 <= i < |lines| - 1 ==>
          measure(lines[i].text + [lines[i + 1].text[0]])
          > Allowed(TextWidth, FirstLineIndent, i == 0))
  }

  /** The lines of `addContent`, applied to the normalised content: the text
      cut into characters and broken greedily. */
  function BreakCharacters(text: string, measure: string -> real): (lines: seq<Line>)
    ensures CharacterBreakOf(lines, text, measure)
    ensures forall i :: 0 <= i < |lines| ==> (lines[i].isFirstLine <==> i == 0)
  {
    CharacterBreak(text, measure);
    BreakLines(Chars(text), "", TextWidth, FirstLineIndent, measure)
  }

  lemma CharacterBreak(n: string, measure: string -> real)
    ensures CharacterBreakOf(BreakLines(Chars(n), "", TextWidth, FirstLineIndent, measure), n, measure)
  {
    var tokens := Chars(n);
    var lines := BreakLines(tokens, "", TextWidth, FirstLineIndent, measure);
    LinesJoinBack(lines, tokens, "");
    ConcatChars(n);
    CharacterLines(lines, n);
  }

  /** Lines built from the characters of `text`: each line's text has one
      character per token, and a line extended by the next line's first token
      is its text extended by that character. */
  lemma CharacterLines(lines: seq<Line>, text: string)
    requires Flatten(lines) == Chars(text)
    requires forall i :: 0 <= i < |lines| ==> WellFormed(lines[i], "")
    ensures forall i :: 0 <= i < |lines| ==> |lines[i].text| == |lines[i].words|
    ensures forall i :: 0 <= i < |lines| - 1 ==> ExtendsByCharacter(lines[i], lines[i + 1])
  {
    FlattenSingles(lines, Chars(text));
    forall i | 0 <= i < |lines|
      ensures |lines[i].text| == |lines[i].words|
      ensures lines[i].text[0] == lines[i].words[0][0]
    {
      var w := lines[i].words;
      ConcatSinglesLength(w);
      ConcatCons(w[0], w[1..]);
      assert w == [w[0]] + w[1..];
    }
    forall i | 0 <= i < |lines| - 1
      ensures ExtendsByCharacter(lines[i], lines[i + 1])
    {
      var w0 := lines[i + 1].words[0];
      var none: seq<string> := [];
      ConcatAppend(lines[i].words, [w0]);
      ConcatCons(w0, none);
      assert [w0] == [w0] + none;
      assert w0 == [lines[i + 1].text[0]];
    }
  }

  /** Adding the next line's first token to this line's tokens adds its first
      character to this line's text. */
  predicate ExtendsByCharacter(l: Line, next: Line)
  {
    && |next.words| > 0 && |next.text| > 0
    && Join(l.words + [next.words[0]], "") == l.text + [next.text[0]]
  }

  lemma {:induction false} FlattenSingles(lines: seq<Line>, tokens: seq<string>)
    requires Flatten(lines) == tokens && AllSingle(tokens)
    ensures forall i :: 0 <= i < |lines| ==> AllSingle(lines[i].words)
    decreases |lines|
  {
    if |lines| > 0 {
      var w := lines[0].words;
      var rest := Flatten(lines[1..]);
      assert tokens == w + rest;
      assert forall k :: 0 <= k < |w| ==> w[k] == tokens[k];
      assert forall k :: 0 <= k < |rest| ==> rest[k] == tokens[|w| + k];
      FlattenSingles(lines[1..], rest);
    }
  }

  /** Draws the lines top-down, 20 points apart, the first-line-flagged one
      indented. */
  function DrawRows(lines: seq<Line>, y: real): (r: Emitted)
    ensures |r.draws| == |lines| && r.y == y + 20.0 * (|lines| as real)
    ensures forall i :: 0 <= i < |lines| ==> r.draws[i] == Text(
              lines[i].text,
              if lines[i].isFirstLine then MarginLeft + FirstLineIndent else MarginLeft,
              y + 20.0 * (i as real), AlignLeft)
    decreases |lines|
  {
    if |lines| == 0 then Emitted([], y)
    else
      var x := if lines[0].isFirstLine then MarginLeft + FirstLineIndent else MarginLeft;
      var rest := DrawRows(lines[1..], y + LineHeight);
      Emitted([Text(lines[0].text, x, y, AlignLeft)] + rest.draws, rest.y)
  }

  /** `addContent`: empty content draws nothing and keeps y; otherwise line
      `i` is drawn at `startY + 20 i`, the first at the indented x and the
      rest at the margin, and the next y is 10 points below the last row. */
  function AddContent(content: string, startY: real, measure: string -> real): (r: Emitted)
    ensures content == "" ==> r == Emitted([], startY)
    ensures Stacked(r, startY)
    ensures content != "" ==>
              var lines := BreakCharacters(Normalize(content), measure);
              && |r.draws| == |lines|
              && r.y == startY + 20.0 * (|lines| as real) + 10.0
              && forall i :: 0 <= i < |lines| ==> r.draws[i] == Text(
                   lines[i].text,
                   if i == 0 then MarginLeft + FirstLineIndent else MarginLeft,
                   startY + 20.0 * (i as real), AlignLeft)
  {
    if content == "" then Emitted([], startY)
    else
      CharactersDrawn(Normalize(content), startY, measure);
      Paragraph(BreakCharacters(Normalize(content), measure), startY)
  }

  /** The paragraph of a text broken into characters: only its first line is
      indented. */
  lemma CharactersDrawn(text: string, startY: real, measure: string -> real)
    ensures var lines := BreakCharacters(text, measure);
            var r := Paragraph(lines, startY);
            && Stacked(r, startY)
            && |r.draws| == |lines|
            && r.y == startY + 20.0 * (|lines| as real) + 10.0
            && forall i :: 0 <= i < |lines| ==> r.draws[i] == Text(
                 lines[i].text,
                 if i == 0 then MarginLeft + FirstLineIndent else MarginLeft,
                 startY + 20.0 * (i as real), AlignLeft)
  {
    ParagraphFirstLine(BreakCharacters(text, measure), startY);
  }

  /** When only the first line is marked first, only it is indented. */
  lemma ParagraphFirstLine(lines: seq<Line>, startY: real)
    requires forall i :: 0 <= i < |lines| ==> (lines[i].isFirstLine <==> i == 0)
    ensures var r := Paragraph(lines, startY);
            && Stacked(r, startY)
            && |r.draws| == |lines|
            && r.y == startY + 20.0 * (|lines| as real) + 10.0
            && forall i :: 0 <= i < |lines| ==> r.draws[i] == Text(
                 lines[i].text,
                 if i == 0 then MarginLeft + FirstLineIndent else MarginLeft,
                 startY + 20.0 * (i as real), AlignLeft)
  {
    var r := Paragraph(lines, startY);
    forall i | 0 <= i < |lines|
      ensures r.draws[i] == Text(lines[i].text, if i == 0 then MarginLeft + FirstLineIndent else MarginLeft,
                                 startY + 20.0 * (i as real), AlignLeft)
    {
      assert lines[i].isFirstLine <==> i == 0;
    }
  }

  /** The drawn rows of a paragraph followed by the 10-point paragraph gap. */
  function Paragraph(lines: seq<Line>, startY: real): (r: Emitted)
    ensures |r.draws| == |lines| && r.y == startY + 20.0 * (|lines| as real) + 10.0
    ensures forall i :: 0 <= i < |lines| ==> r.draws[i] == Text(
              lines[i].text,
              if lines[i].isFirstLine then MarginLeft + FirstLineIndent else MarginLeft,
              startY + 20.0 * (i as real), AlignLeft)
    ensures Stacked(r, startY)
  {
    var rows := DrawRows(lines, startY);
    assert forall i :: 0 <= i < |lines| ==> rows.draws[i].Text? && rows.draws[i].y == startY + 20.0 * (i as real);
    Emitted(rows.draws, rows.y + 10.0)
  }

  // ---------------------------------------------------------------------------
  // Signature and contact block
  // ---------------------------------------------------------------------------

  /** `addSignature`: the closing, the bracketed name and the position, centred
      on the page, at 20, 60 and 80 points below `startY`; the next y is 100
      points below `startY`. */
  function AddSignature(f: Fields, startY: real): (r: Emitted)
    ensures |r.draws| == 3 && r.y == startY + 100.0
    ensures Stacked(r, startY)
    ensures forall i :: 0 <= i < 3 ==>
              r.draws[i].Text? && r.draws[i].x == PageWidth / 2.0 && r.draws[i].align == AlignCenter
    ensures r.draws[0].y == startY + 20.0 && r.draws[1].y == startY + 60.0 && r.draws[2].y == startY + 80.0
    ensures r.draws[0].text == "ขอแสดงความนับถือ"
    ensures r.draws[1].text == "(" + Or(Field(f, "signature"), Blank) + ")"
    ensures r.draws[2].text == Or(Field(f, "position"), "ตำแหน่ง")
  {
    var x := PageWidth / 2.0;
    var y := startY + 20.0;
    var closing := Text("ขอแสดงความนับถือ", x, y, AlignCenter);
    var y := y + 40.0;
    var name := Text("(" + Or(Field(f, "signature"), Blank) + ")", x, y, AlignCenter);
    var y := y + 20.0;
    var position := Text(Or(Field(f, "position"), "ตำแหน่ง"), x, y, AlignCenter);
    Emitted([closing, name, position], y + 20.0)
  }

  /** `addContactInfo`: office, telephone and fax at the left margin, 20 points
      apart from 20 points below `startY`; it hands back no y. */
  function AddContactInfo(f: Fields, startY: real): (r: seq<Draw>)
    ensures |r| == 3 && Stacked(Emitted(r, startY + 60.0), startY)
    ensures forall i :: 0 <= i < 3 ==>
              r[i].Text? && r[i].x == MarginLeft && r[i].y == startY + 20.0 * ((i + 1) as real)
              && r[i].align == AlignLeft
    ensures r[0].text == Or(Field(f, "department"), "หน่วยงาน")
    ensures r[1].text == "โทร. " + Or(Field(f, "tel"), Blank)
    ensures r[2].text == "โทรสาร " + Or(Field(f, "fax"), Blank)
  {
    var e := Emitted([], startY + 20.0);
    var e := Row(e, Or(Field(f, "department"), "หน่วยงาน"), MarginLeft);
    var e := Row(e, "โทร. " + Or(Field(f, "tel"), Blank), MarginLeft);
    var e := Row(e, "โทรสาร " + Or(Field(f, "fax"), Blank), MarginLeft);
    e.draws
  }

  // ---------------------------------------------------------------------------
  // The whole document
  // ---------------------------------------------------------------------------

  /** The blocks `generate` draws after the emblem, in order, each starting
      where the previous one ended. The draws run top-down: no block runs back
      up over the one before it. */
  function Body(f: Fields, measure: string -> real): (r: Emitted)
    ensures |r.draws| >= 2 && r.draws[..2] == AddHeaderInfo(f).draws
    ensures Stacked(r, HeaderY)
  {
    var header := AddHeaderInfo(f);
    var info := AddDocumentInfo(f, header.y);
    var content := AddContent(Field(f, "content"), info.y, measure);
    var signature := AddSignature(f, content.y);
    var contact := Emitted(AddContactInfo(f, signature.y), signature.y + 60.0);
    StackedThen(signature, contact, content.y);
    StackedChain(header, info, content, Then(signature, contact), HeaderY);
    Then(Then(Then(header, info), content), Then(signature, contact))
  }

  /** `generate`: the emblem, when it loads, then the body. The header starts
      at a fixed y, so the emblem changes nothing but itself. */
  function Generate(f: Fields, garudaLoaded: bool, measure: string -> real): (r: seq<Draw>)
    ensures garudaLoaded ==> |r| > 0 && r[0].Image? && r[1..] == Body(f, measure).draws
    ensures !garudaLoaded ==> r == Body(f, measure).draws
  {
    GarudaDraws(garudaLoaded) + Body(f, measure).draws
  }
}
