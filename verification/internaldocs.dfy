/** The internal memorandum (`ThaiInternalDocument` of InternalDocs.js):
    header and subject rows with Thai digits, three content sections split
    into paragraphs and paginated line by line, and a signature block. */
module InternalDocs {
  import opened Strings
  import opened Layout
  import opened Numerals
  import opened Paragraphs

  const Top: real := Cm(1.5)
  const MarginBottom: real := Cm(2.0)
  const MarginLeft: real := Cm(3.0)
  const MarginRight: real := Cm(2.0)
  const FirstLineIndent: real := Cm(2.5)
  const Blank: string := "______"

  /** The lowest baseline allowed: the page height less the bottom margin. */
  const BottomLimit: real := PageHeight - MarginBottom

  /** The memorandum's line step, `cmToPt(0.8)` = 22.6768 points; `n` steps
      down the page. */
  function Steps(n: nat): real
  {
    22.6768 * (n as real)
  }

  // ---------------------------------------------------------------------------
  // Emblem
  // ---------------------------------------------------------------------------

  /** `addGaruda`: when the image loads, the 2 cm emblem at the top-left margin
      and the title "บันทึกข้อความ" centred on the page (`titleWidth` is its
      width at the 32-point title size); nothing when it fails. */
  function GarudaDraws(loaded: bool, titleWidth: real): (r: seq<Draw>)
    ensures !loaded ==> r == []
    ensures loaded ==> |r| == 2 && r[0] == Image(MarginLeft, Top, Cm(2.0), Cm(2.0))
    ensures loaded ==> r[1] == Text("บันทึกข้อความ", PageWidth / 2.0 - titleWidth / 2.0, Top + Cm(2.0) / 1.4, AlignLeft)
  {
    if loaded then [Image(MarginLeft, Top, Cm(2.0), Cm(2.0)),
                    Text("บันทึกข้อความ", (PageWidth - titleWidth) / 2.0, Top + Cm(2.0) / 1.4, AlignLeft)]
    else []
  }

  /** The y `addGaruda` hands on: below the emblem and the title when the
      image loads, a fixed distance below the top margin when it fails. */
  function GarudaY(loaded: bool): (r: real)
    ensures forall w, d :: d in GarudaDraws(loaded, w) ==> YOf(d) < r
    ensures Top < r
    ensures loaded ==> r == Top + Cm(2.0) + 20.0
    ensures !loaded ==> r == Top + Cm(1.5) + 40.0
  {
    if loaded then Top + Cm(2.0) + 20.0 else Top + Cm(1.5) + 40.0
  }

  // ---------------------------------------------------------------------------
  // Header, subject and reference
  // ---------------------------------------------------------------------------

  /** Appends a left-margin line at the current y and moves down one step. */
  function Row(e: Emitted, text: string): Emitted
  {
    Emitted(e.draws + [Text(text, MarginLeft, e.y, AlignLeft)], e.y + Cm(0.8))
  }

  /** `addHeader`: the department and, one step lower, the document number
      at the left margin, both with their ASCII digits turned into Thai
      digits, and the date, not converted, centred on the number's line; the
      cursor ends two steps below `startY`. */
  function AddHeader(f: Fields, startY: real, measure: string -> real): (r: Emitted)
    ensures |r.draws| == 3 && r.y == startY + Steps(2)
    ensures forall i :: 0 <= i < 3 ==> r.draws[i].Text? && r.draws[i].align == AlignLeft
    ensures r.draws[0].y == startY && r.draws[1].y == r.draws[2].y == startY + Steps(1)
    ensures r.draws[0].x == r.draws[1].x == MarginLeft
    ensures var d := Field(f, "department");
            r.draws[0].text == "ส่วนราชการ " + (if d == "" then Blank else ToThaiDigits(d))
    ensures var n := Field(f, "documentNumber");
            r.draws[1].text == "ที่ " + (if n == "" then Blank else ToThaiDigits(n))
    ensures r.draws[2].text == "วันที่ " + Or(Field(f, "date"), Blank)
    ensures r.draws[2].x + measure(r.draws[2].text) / 2.0 == PageWidth / 2.0
    ensures Stacked(r, startY)
  {
    var e := Row(Emitted([], startY), "ส่วนราชการ " + NumeralField(Field(f, "department"), Blank));
    var number := Text("ที่ " + NumeralField(Field(f, "documentNumber"), Blank), MarginLeft, e.y, AlignLeft);
    var dateText := "วันที่ " + Or(Field(f, "date"), Blank);
    var date := Text(dateText, (PageWidth - measure(dateText)) / 2.0, e.y, AlignLeft);
    Emitted(e.draws + [number, date], e.y + Cm(0.8))
  }

  /** Left-margin lines one step apart from `startY`, the cursor one step below
      the last. */
  function Rows(texts: seq<string>, startY: real): (r: Emitted)
    ensures |r.draws| == |texts| && r.y == startY + Steps(|texts|)
    ensures forall i :: 0 <= i < |texts| ==> r.draws[i] == Text(texts[i], MarginLeft, startY + Steps(i), AlignLeft)
    ensures Stacked(r, startY)
  {
    var r := Emitted(seq(|texts|, i requires 0 <= i < |texts| => Text(texts[i], MarginLeft, startY + Steps(i), AlignLeft)),
                     startY + Steps(|texts|));
    assert forall i, j :: 0 <= i < j < |texts| ==> YOf(r.draws[i]) <= YOf(r.draws[j]);
    r
  }

  /** The row for an optional field: there when the field is given, with its
      digits converted. */
  function OptionalRow(caption: string, value: string): seq<string>
  {
    if value != "" then [caption + NumeralField(value, "")] else []
  }

  /** `addSubjectAndReference`: subject and addressee always, reference and
      enclosure only when given, one step apart, every value with Thai digits;
      the cursor moves one step per row drawn. */
  function AddSubjectAndReference(f: Fields, startY: real): (r: Emitted)
    ensures var n := 2 + Present(Field(f, "reference")) + Present(Field(f, "attachment"));
            |r.draws| == n && r.y == startY + Steps(n)
    ensures forall i :: 0 <= i < |r.draws| ==>
              r.draws[i].Text? && r.draws[i] == Text(r.draws[i].text, MarginLeft, startY + Steps(i), AlignLeft)
    ensures var s := Field(f, "subject");
            r.draws[0].text == "เรื่อง " + (if s == "" then Blank else ToThaiDigits(s))
    ensures var t := Field(f, "to");
            r.draws[1].text == "เรียน " + (if t == "" then Blank else ToThaiDigits(t))
    ensures var a := Field(f, "reference");
            a != "" ==> r.draws[2].text == "อ้างถึง " + ToThaiDigits(a)
    ensures var a := Field(f, "attachment");
            a != "" ==> r.draws[|r.draws| - 1].text == "สิ่งที่ส่งมาด้วย " + ToThaiDigits(a)
    ensures Stacked(r, startY)
  {
    var texts := ["เรื่อง " + NumeralField(Field(f, "subject"), Blank),
                  "เรียน " + NumeralField(Field(f, "to"), Blank)]
                 + OptionalRow("อ้างถึง ", Field(f, "reference"))
                 + OptionalRow("สิ่งที่ส่งมาด้วย ", Field(f, "attachment"));
    Rows(texts, startY)
  }

  // ---------------------------------------------------------------------------
  // Content: sections, paragraphs, lines and page breaks
  // ---------------------------------------------------------------------------

  /** A line of text as it ends up on a page: its string and its x. */
  datatype Placed = Placed(text: string, x: real)

  /** The texts of a sequence of draws, with their x, in order; page breaks
      and other draws are skipped. */
  function PlacedTexts(ds: seq<Draw>): seq<Placed>
    decreases |ds|
  {
    if |ds| == 0 then []
    else
      var d := ds[|ds| - 1];
      PlacedTexts(ds[..|ds| - 1]) + (if d.Text? then [Placed(d.text, d.x)] else [])
  }

  function PageBreaks(ds: seq<Draw>): nat
    decreases |ds|
  {
    if |ds| == 0 then 0
    else PageBreaks(ds[..|ds| - 1]) + (if ds[|ds| - 1].NewPage? then 1 else 0)
  }

  /** Every text sits at least one step above the bottom limit. */
  predicate OnPage(ds: seq<Draw>)
  {
    forall i :: 0 <= i < |ds| && ds[i].Text? ==> ds[i].y + Cm(0.8) <= BottomLimit
  }

  lemma AppendOne(ds: seq<Draw>, d: Draw)
    ensures PlacedTexts(ds + [d]) == PlacedTexts(ds) + (if d.Text? then [Placed(d.text, d.x)] else [])
    ensures PageBreaks(ds + [d]) == PageBreaks(ds) + (if d.NewPage? then 1 else 0)
  {
    assert (ds + [d])[..|ds|] == ds;
  }

  /** Appending keeps what was drawn before, in front. */
  lemma AppendTail(ds: seq<Draw>, tail: seq<Draw>)
    requires |tail| > 0
    ensures var c := ds + tail;
            && |c| > |ds| && c[..|ds|] == ds
            && c[|ds|] == tail[0] && c[|c| - 1] == tail[|tail| - 1]
  {
  }


  /** One line of the drawing loop: when a line at the cursor would reach
      below the bottom limit, a new page is started and the line goes to the
      top margin; otherwise it goes at the cursor. The cursor then moves one
      step below the line, never past the bottom limit. */
  function PlaceLine(e: Emitted, text: string, x: real): (r: Emitted)
    ensures PlacedTexts(r.draws) == PlacedTexts(e.draws) + [Placed(text, x)]
    ensures OnPage(e.draws) ==> OnPage(r.draws)
    ensures Paged(e.draws) ==> Paged(r.draws)
    ensures e.y + Cm(0.8) <= BottomLimit ==> PageBreaks(r.draws) == PageBreaks(e.draws) && r.y == e.y + Steps(1)
    ensures e.y + Cm(0.8) > BottomLimit ==> PageBreaks(r.draws) == PageBreaks(e.draws) + 1 && r.y == Top + Steps(1)
    ensures r.y <= BottomLimit
    ensures |r.draws| > |e.draws| && r.draws[..|e.draws|] == e.draws
    ensures r.draws[|r.draws| - 1] == Text(text, x, r.y - Steps(1), AlignLeft)
    ensures e.y + Cm(0.8) > BottomLimit ==> r.draws[|e.draws|] == NewPage
  {
    if e.y + Cm(0.8) > BottomLimit then
      var line := Text(text, x, Top, AlignLeft);
      AppendPage(e.draws, line);
      Emitted(e.draws + [NewPage, line], Top + Cm(0.8))
    else
      var line := Text(text, x, e.y, AlignLeft);
      AppendLine(e.draws, line);
      Emitted(e.draws + [line], e.y + Cm(0.8))
  }

  /** A line at the top of a new page, after what was drawn before. */
  lemma AppendPage(ds: seq<Draw>, line: Draw)
    requires line.Text? && line.y == Top
    ensures var c := ds + [NewPage, line];
            && PlacedTexts(c) == PlacedTexts(ds) + [Placed(line.text, line.x)]
            && PageBreaks(c) == PageBreaks(ds) + 1
            && (OnPage(ds) ==> OnPage(c))
            && (Paged(ds) ==> Paged(c))
            && |c| > |ds| && c[..|ds|] == ds && c[|ds|] == NewPage && c[|c| - 1] == line
  {
    AppendOne(ds, NewPage);
    AppendOne(ds + [NewPage], line);
    assert ds + [NewPage] + [line] == ds + [NewPage, line];
    AppendTail(ds, [NewPage, line]);
    assert Top + Cm(0.8) <= BottomLimit;
    OnPageAppend(ds, [NewPage, line]);
    PagedAppend(ds, [NewPage, line]);
  }

  /** A line at the cursor, after what was drawn before. */
  lemma AppendLine(ds: seq<Draw>, line: Draw)
    requires line.Text? && line.y + Cm(0.8) <= BottomLimit
    ensures var c := ds + [line];
            && PlacedTexts(c) == PlacedTexts(ds) + [Placed(line.text, line.x)]
            && PageBreaks(c) == PageBreaks(ds)
            && (OnPage(ds) ==> OnPage(c))
            && (Paged(ds) ==> Paged(c))
            && |c| > |ds| && c[..|ds|] == ds && c[|c| - 1] == line
  {
    AppendOne(ds, line);
    AppendTail(ds, [line]);
    OnPageAppend(ds, [line]);
    PagedAppend(ds, [line]);
  }

  lemma OnPageAppend(ds: seq<Draw>, tail: seq<Draw>)
    requires OnPage(tail)
    ensures OnPage(ds) ==> OnPage(ds + tail)
  {
    if OnPage(ds) {
      var c := ds + tail;
      forall i | 0 <= i < |c| && c[i].Text?
        ensures c[i].y + Cm(0.8) <= BottomLimit
      {
        if i >= |ds| {
          assert c[i] == tail[i - |ds|];
        }
      }
    }
  }

  lemma PagedAppend(ds: seq<Draw>, tail: seq<Draw>)
    requires Paged(tail)
    ensures Paged(ds) ==> Paged(ds + tail)
  {
    if Paged(ds) {
      var c := ds + tail;
      forall i | 0 <= i < |c|
        ensures c[i].Text? || c[i].NewPage?
      {
        if i >= |ds| {
          assert c[i] == tail[i - |ds|];
        }
      }
    }
  }

  /** Down the page line after line: a text that follows a text is at least
      one step lower, and a page break is followed by a text at the top
      margin. */
  predicate Flowing(ds: seq<Draw>)
  {
    forall i :: 0 <= i < |ds| - 1 ==>
      && (ds[i].Text? && ds[i + 1].Text? ==> ds[i].y + Steps(1) <= ds[i + 1].y)
      && (ds[i].NewPage? ==> ds[i + 1].Text? && ds[i + 1].y == Top)
  }

  /** The cursor is at least one step below the last text drawn, and nothing
      but a text is drawn last. */
  predicate Below(e: Emitted)
  {
    |e.draws| > 0 ==> e.draws[|e.draws| - 1].Text? && e.draws[|e.draws| - 1].y + Steps(1) <= e.y
  }

  /** The draws flow, and the cursor is below the last of them. */
  predicate FlowsFrom(e: Emitted)
  {
    Flowing(e.draws) && Below(e)
  }

  /** One line keeps the flow going: it goes a step or more below the last
      text, or to the top of a new page. */
  lemma LineFlows(e: Emitted, text: string, x: real)
    requires FlowsFrom(e)
    ensures var r := PlaceLine(e, text, x);
            FlowsFrom(r)
  {
    assert Cm(0.8) == Steps(1);
    if e.y + Cm(0.8) > BottomLimit {
      var tail := [NewPage, Text(text, x, Top, AlignLeft)];
      FlowsOnto(e, tail, Top + Cm(0.8));
      assert PlaceLine(e, text, x) == Emitted(e.draws + tail, Top + Cm(0.8));
    } else {
      var tail := [Text(text, x, e.y, AlignLeft)];
      FlowsOnto(e, tail, e.y + Cm(0.8));
      assert PlaceLine(e, text, x) == Emitted(e.draws + tail, e.y + Cm(0.8));
    }
  }

  /** Flowing draws that start no higher than the cursor, and end with a text
      a step or more above the new cursor, keep the flow going. */
  lemma FlowsOnto(e: Emitted, tail: seq<Draw>, y: real)
    requires FlowsFrom(e) && Flowing(tail) && |tail| > 0
    requires tail[0].Text? ==> e.y <= tail[0].y
    requires tail[|tail| - 1].Text? && tail[|tail| - 1].y + Steps(1) <= y
    ensures FlowsFrom(Emitted(e.draws + tail, y))
  {
    FlowingAppend(e.draws, tail);
  }

  /** Two flowing runs of draws flow on together when the seam does: the
      first run ends with a text and the second does not start with a text
      less than a step below it. */
  lemma FlowingAppend(ds: seq<Draw>, tail: seq<Draw>)
    requires Flowing(ds) && Flowing(tail) && |tail| > 0
    requires |ds| > 0 ==> ds[|ds| - 1].Text?
    requires |ds| > 0 && tail[0].Text? ==> ds[|ds| - 1].y + Steps(1) <= tail[0].y
    ensures Flowing(ds + tail)
    ensures (ds + tail)[|ds + tail| - 1] == tail[|tail| - 1]
  {
    var c := ds + tail;
    forall i | 0 <= i < |c| - 1
      ensures && (c[i].Text? && c[i + 1].Text? ==> c[i].y + Steps(1) <= c[i + 1].y)
              && (c[i].NewPage? ==> c[i + 1].Text? && c[i + 1].y == Top)
    {
      if i < |ds| - 1 {
        assert c[i] == ds[i] && c[i + 1] == ds[i + 1];
      } else if i == |ds| - 1 {
        assert c[i] == ds[i] && c[i + 1] == tail[0];
      } else {
        assert c[i] == tail[i - |ds|] && c[i + 1] == tail[i - |ds| + 1];
      }
    }
  }

  /** Only lines of text and page breaks. */
  predicate Paged(ds: seq<Draw>)
  {
    forall i :: 0 <= i < |ds| ==> ds[i].Text? || ds[i].NewPage?
  }

  /** Where a paragraph's lines belong: the first one indented when `first`,
      every other one at the margin. */
  function Lay(lines: seq<string>, first: bool): (r: seq<Placed>)
    ensures |r| == |lines|
  {
    seq(|lines|, k requires 0 <= k < |lines| =>
      Placed(lines[k], if first && k == 0 then MarginLeft + FirstLineIndent else MarginLeft))
  }

  /** The lines of one paragraph; `first` says whether `lines[0]` opens it. */
  function PlaceLines(e: Emitted, lines: seq<string>, first: bool): Emitted
    decreases |lines|
  {
    if |lines| == 0 then e
    else
      var x := if first then MarginLeft + FirstLineIndent else MarginLeft;
      PlaceLines(PlaceLine(e, lines[0], x), lines[1..], false)
  }

  /** Lines in all the paragraphs together. */
  function LineCount(paras: seq<seq<string>>): nat
    decreases |paras|
  {
    if |paras| == 0 then 0 else |paras[0]| + LineCount(paras[1..])
  }

  /** Steps a run of paragraphs takes: its lines and one blank line between
      each two. */
  function ParagraphsHeight(paras: seq<seq<string>>): nat
  {
    if |paras| == 0 then 0 else LineCount(paras) + |paras| - 1
  }

  /** Every paragraph laid out in turn. */
  function LaidParagraphs(paras: seq<seq<string>>): seq<Placed>
    decreases |paras|
  {
    if |paras| == 0 then [] else Lay(paras[0], true) + LaidParagraphs(paras[1..])
  }

  /** The paragraphs of one section, already wrapped into lines, a blank line
      between each two. */
  function PlaceParagraphs(e: Emitted, paras: seq<seq<string>>): Emitted
    decreases |paras|
  {
    if |paras| == 0 then e
    else
      var p := PlaceLines(e, paras[0], true);
      if |paras| == 1 then p else PlaceParagraphs(Emitted(p.draws, p.y + Cm(0.8)), paras[1..])
  }

  /** Steps the sections take: their paragraphs and two blank lines between
      each two sections. */
  function SectionsHeight(sections: seq<seq<seq<string>>>): nat
    decreases |sections|
  {
    if |sections| == 0 then 0
    else if |sections| == 1 then ParagraphsHeight(sections[0])
    else ParagraphsHeight(sections[0]) + 2 + SectionsHeight(sections[1..])
  }

  function LaidSections(sections: seq<seq<seq<string>>>): seq<Placed>
    decreases |sections|
  {
    if |sections| == 0 then [] else LaidParagraphs(sections[0]) + LaidSections(sections[1..])
  }

  /** The sections in turn, two blank lines between each two. */
  function PlaceSections(e: Emitted, sections: seq<seq<seq<string>>>): Emitted
    decreases |sections|
  {
    if |sections| == 0 then e
    else
      var s := PlaceParagraphs(e, sections[0]);
      if |sections| == 1 then s else PlaceSections(Emitted(s.draws, s.y + Cm(1.6)), sections[1..])
  }

  /** A paragraph's lines are drawn in order where `Lay` puts them. */
  lemma {:induction false} LinesPlaced(e: Emitted, lines: seq<string>, first: bool)
    ensures var r := PlaceLines(e, lines, first);
            PlacedTexts(r.draws) == PlacedTexts(e.draws) + Lay(lines, first)
    decreases |lines|
  {
    if |lines| > 0 {
      var x := if first then MarginLeft + FirstLineIndent else MarginLeft;
      LinesPlaced(PlaceLine(e, lines[0], x), lines[1..], false);
      LayStep(lines, first);
    }
  }

  /** Every line lands on a page above the bottom limit, and only lines and
      page breaks are drawn. */
  lemma {:induction false} LinesStayOnPage(e: Emitted, lines: seq<string>, first: bool)
    ensures var r := PlaceLines(e, lines, first);
            && (OnPage(e.draws) ==> OnPage(r.draws))
            && (Paged(e.draws) ==> Paged(r.draws))
    decreases |lines|
  {
    if |lines| > 0 {
      var x := if first then MarginLeft + FirstLineIndent else MarginLeft;
      LinesStayOnPage(PlaceLine(e, lines[0], x), lines[1..], false);
    }
  }

  lemma LayStep(lines: seq<string>, first: bool)
    requires |lines| > 0
    ensures Lay(lines, first)
            == [Placed(lines[0], if first then MarginLeft + FirstLineIndent else MarginLeft)] + Lay(lines[1..], false)
  {
    assert forall k :: 1 <= k < |lines| ==> Lay(lines, first)[k] == Lay(lines[1..], false)[k - 1];
  }

  /** Without a page break a paragraph takes one step per line; and there is
      no page break when those steps fit above the bottom limit. */
  lemma {:induction false} LinesHeight(e: Emitted, lines: seq<string>, first: bool)
    ensures var r := PlaceLines(e, lines, first);
            && PageBreaks(r.draws) >= PageBreaks(e.draws)
            && (PageBreaks(r.draws) == PageBreaks(e.draws) ==> r.y == e.y + Steps(|lines|))
            && (e.y + Steps(|lines|) <= BottomLimit ==> PageBreaks(r.draws) == PageBreaks(e.draws))
    decreases |lines|
  {
    if |lines| > 0 {
      var x := if first then MarginLeft + FirstLineIndent else MarginLeft;
      LinesHeight(PlaceLine(e, lines[0], x), lines[1..], false);
    }
  }

  lemma {:induction false} ParagraphsPlaced(e: Emitted, paras: seq<seq<string>>)
    ensures var r := PlaceParagraphs(e, paras);
            PlacedTexts(r.draws) == PlacedTexts(e.draws) + LaidParagraphs(paras)
    decreases |paras|
  {
    if |paras| > 0 {
      var p := PlaceLines(e, paras[0], true);
      LinesPlaced(e, paras[0], true);
      if |paras| > 1 {
        ParagraphsPlaced(Emitted(p.draws, p.y + Cm(0.8)), paras[1..]);
      }
    }
  }

  lemma {:induction false} ParagraphsStayOnPage(e: Emitted, paras: seq<seq<string>>)
    ensures var r := PlaceParagraphs(e, paras);
            && (OnPage(e.draws) ==> OnPage(r.draws))
            && (Paged(e.draws) ==> Paged(r.draws))
    decreases |paras|
  {
    if |paras| > 0 {
      var p := PlaceLines(e, paras[0], true);
      LinesStayOnPage(e, paras[0], true);
      if |paras| > 1 {
        ParagraphsStayOnPage(Emitted(p.draws, p.y + Cm(0.8)), paras[1..]);
      }
    }
  }

  lemma {:induction false} ParagraphsHeightOf(e: Emitted, paras: seq<seq<string>>)
    ensures var r := PlaceParagraphs(e, paras);
            && PageBreaks(r.draws) >= PageBreaks(e.draws)
            && (PageBreaks(r.draws) == PageBreaks(e.draws) ==> r.y == e.y + Steps(ParagraphsHeight(paras)))
            && (e.y + Steps(ParagraphsHeight(paras)) <= BottomLimit ==> PageBreaks(r.draws) == PageBreaks(e.draws))
    decreases |paras|
  {
    if |paras| > 0 {
      var p := PlaceLines(e, paras[0], true);
      LinesHeight(e, paras[0], true);
      if |paras| == 1 {
        assert LineCount(paras[1..]) == 0;
      } else {
        assert ParagraphsHeight(paras) == |paras[0]| + 1 + ParagraphsHeight(paras[1..]);
        ParagraphsHeightOf(Emitted(p.draws, p.y + Cm(0.8)), paras[1..]);
      }
    }
  }

  lemma {:induction false} SectionsPlaced(e: Emitted, sections: seq<seq<seq<string>>>)
    ensures var r := PlaceSections(e, sections);
            PlacedTexts(r.draws) == PlacedTexts(e.draws) + LaidSections(sections)
    decreases |sections|
  {
    if |sections| > 0 {
      var s := PlaceParagraphs(e, sections[0]);
      ParagraphsPlaced(e, sections[0]);
      if |sections| > 1 {
        SectionsPlaced(Emitted(s.draws, s.y + Cm(1.6)), sections[1..]);
      }
    }
  }

  lemma {:induction false} SectionsStayOnPage(e: Emitted, sections: seq<seq<seq<string>>>)
    ensures var r := PlaceSections(e, sections);
            && (OnPage(e.draws) ==> OnPage(r.draws))
            && (Paged(e.draws) ==> Paged(r.draws))
    decreases |sections|
  {
    if |sections| > 0 {
      var s := PlaceParagraphs(e, sections[0]);
      ParagraphsStayOnPage(e, sections[0]);
      if |sections| > 1 {
        SectionsStayOnPage(Emitted(s.draws, s.y + Cm(1.6)), sections[1..]);
      }
    }
  }

  /** Later lines only add draws: what was drawn before stays as it was. */
  lemma {:induction false} LinesExtend(e: Emitted, lines: seq<string>, first: bool)
    ensures var r := PlaceLines(e, lines, first);
            |r.draws| >= |e.draws| && r.draws[..|e.draws|] == e.draws
    decreases |lines|
  {
    if |lines| > 0 {
      var x := if first then MarginLeft + FirstLineIndent else MarginLeft;
      var l := PlaceLine(e, lines[0], x);
      LinesExtend(l, lines[1..], false);
      var r := PlaceLines(l, lines[1..], false);
      assert r.draws[..|e.draws|] == r.draws[..|l.draws|][..|e.draws|];
    }
  }

  lemma {:induction false} ParagraphsExtend(e: Emitted, paras: seq<seq<string>>)
    ensures var r := PlaceParagraphs(e, paras);
            |r.draws| >= |e.draws| && r.draws[..|e.draws|] == e.draws
    decreases |paras|
  {
    if |paras| > 0 {
      var p := PlaceLines(e, paras[0], true);
      LinesExtend(e, paras[0], true);
      if |paras| > 1 {
        ParagraphsExtend(Emitted(p.draws, p.y + Cm(0.8)), paras[1..]);
        var r := PlaceParagraphs(Emitted(p.draws, p.y + Cm(0.8)), paras[1..]);
        assert r.draws[..|e.draws|] == r.draws[..|p.draws|][..|e.draws|];
      }
    }
  }

  lemma {:induction false} SectionsExtend(e: Emitted, sections: seq<seq<seq<string>>>)
    ensures var r := PlaceSections(e, sections);
            |r.draws| >= |e.draws| && r.draws[..|e.draws|] == e.draws
    decreases |sections|
  {
    if |sections| > 0 {
      var s := PlaceParagraphs(e, sections[0]);
      ParagraphsExtend(e, sections[0]);
      if |sections| > 1 {
        SectionsExtend(Emitted(s.draws, s.y + Cm(1.6)), sections[1..]);
        var r := PlaceSections(Emitted(s.draws, s.y + Cm(1.6)), sections[1..]);
        assert r.draws[..|e.draws|] == r.draws[..|s.draws|][..|e.draws|];
      }
    }
  }

  /** The lines of a paragraph keep the flow going. */
  lemma {:induction false} LinesFlow(e: Emitted, lines: seq<string>, first: bool)
    requires FlowsFrom(e)
    ensures var r := PlaceLines(e, lines, first);
            FlowsFrom(r)
    decreases |lines|
  {
    if |lines| > 0 {
      var x := if first then MarginLeft + FirstLineIndent else MarginLeft;
      var l := PlaceLine(e, lines[0], x);
      LineFlows(e, lines[0], x);
      LinesFlow(l, lines[1..], false);
    }
  }

  /** Moving the cursor further down keeps it below the last text. */
  lemma Gap(e: Emitted, dy: real)
    requires FlowsFrom(e) && dy >= 0.0
    ensures FlowsFrom(Emitted(e.draws, e.y + dy))
  {
  }

  /** Paragraphs, with a blank line between each two, keep the flow going. */
  lemma {:induction false} ParagraphsFlow(e: Emitted, paras: seq<seq<string>>)
    requires FlowsFrom(e)
    ensures var r := PlaceParagraphs(e, paras);
            FlowsFrom(r)
    decreases |paras|
  {
    if |paras| > 0 {
      var p := PlaceLines(e, paras[0], true);
      LinesFlow(e, paras[0], true);
      if |paras| > 1 {
        Gap(p, Cm(0.8));
        ParagraphsFlow(Emitted(p.draws, p.y + Cm(0.8)), paras[1..]);
      }
    }
  }

  /** Sections, with two blank lines between each two, keep the flow going. */
  lemma {:induction false} SectionsFlow(e: Emitted, sections: seq<seq<seq<string>>>)
    requires FlowsFrom(e)
    ensures var r := PlaceSections(e, sections);
            FlowsFrom(r)
    decreases |sections|
  {
    if |sections| > 0 {
      var s := PlaceParagraphs(e, sections[0]);
      ParagraphsFlow(e, sections[0]);
      if |sections| > 1 {
        Gap(s, Cm(1.6));
        SectionsFlow(Emitted(s.draws, s.y + Cm(1.6)), sections[1..]);
      }
    }
  }

  lemma {:induction false} SectionsHeightOf(e: Emitted, sections: seq<seq<seq<string>>>)
    ensures var r := PlaceSections(e, sections);
            && PageBreaks(r.draws) >= PageBreaks(e.draws)
            && (PageBreaks(r.draws) == PageBreaks(e.draws) ==> r.y == e.y + Steps(SectionsHeight(sections)))
            && (e.y + Steps(SectionsHeight(sections)) <= BottomLimit ==> PageBreaks(r.draws) == PageBreaks(e.draws))
    decreases |sections|
  {
    if |sections| > 0 {
      var s := PlaceParagraphs(e, sections[0]);
      ParagraphsHeightOf(e, sections[0]);
      if |sections| > 1 {
        assert Cm(1.6) == Steps(2);
        SectionsHeightOf(Emitted(s.draws, s.y + Cm(1.6)), sections[1..]);
      }
    }
  }

  /** The three sections of the body: reason, purpose and conclusion, each
      with its digits turned into Thai digits, or the blank when empty. */
  function Sections(f: Fields): seq<string>
  {
    [NumeralField(Field(f, "reason"), Blank),
     NumeralField(Field(f, "purpose"), Blank),
     NumeralField(Field(f, "conclusion"), Blank)]
  }

  /** Each section cut into paragraphs and each paragraph wrapped into lines
      by `wrap`, jsPDF's `splitTextToSize` at the text width. */
  function SectionLines(texts: seq<string>, wrap: string -> seq<string>): (r: seq<seq<seq<string>>>)
    ensures |r| == |texts|
  {
    seq(|texts|, i requires 0 <= i < |texts| => WrapAll(ParagraphsOf(texts[i]), wrap))
  }

  function WrapAll(paras: seq<string>, wrap: string -> seq<string>): (r: seq<seq<string>>)
    ensures |r| == |paras|
  {
    seq(|paras|, k requires 0 <= k < |paras| => wrap(paras[k]))
  }

  /** Where the content ends when it fits on the page it starts on: one step
      below `startY`, then the height of the sections. */
  function ContentEnd(lines: seq<seq<seq<string>>>, startY: real): real
  {
    startY + Steps(1 + SectionsHeight(lines))
  }

  /** The drawing loop of `addContent` over sections already cut into
      paragraphs and lines: the body starts one step below `startY`; every
      line lands on a page above the bottom limit, each paragraph's first line
      indented; without a page break the cursor ends one step per line, per
      gap between paragraphs and two per gap between sections below where it
      started, and no page break is started when all of that fits above the
      limit. */
  function PlaceContent(lines: seq<seq<seq<string>>>, startY: real): (r: Emitted)
    ensures OnPage(r.draws) && Paged(r.draws) && Flowing(r.draws)
    ensures PlacedTexts(r.draws) == LaidSections(lines)
    ensures PageBreaks(r.draws) == 0 ==> r.y == ContentEnd(lines, startY)
    ensures ContentEnd(lines, startY) <= BottomLimit ==> PageBreaks(r.draws) == 0
  {
    SectionsFromTop(lines, startY);
    PlaceSections(Emitted([], startY + Cm(0.8)), lines)
  }

  /** The sections placed from an empty page, one step below `startY`. */
  lemma SectionsFromTop(lines: seq<seq<seq<string>>>, startY: real)
    ensures var r := PlaceSections(Emitted([], startY + Cm(0.8)), lines);
            && OnPage(r.draws) && Paged(r.draws) && Flowing(r.draws)
            && PlacedTexts(r.draws) == LaidSections(lines)
            && (PageBreaks(r.draws) == 0 ==> r.y == ContentEnd(lines, startY))
            && (ContentEnd(lines, startY) <= BottomLimit ==> PageBreaks(r.draws) == 0)
  {
    var none: seq<Draw> := [];
    assert PlacedTexts(none) == [] && PageBreaks(none) == 0;
    SectionsFlow(Emitted(none, startY + Cm(0.8)), lines);
    SectionsPlaced(Emitted(none, startY + Cm(0.8)), lines);
    SectionsStayOnPage(Emitted(none, startY + Cm(0.8)), lines);
    SectionsHeightOf(Emitted(none, startY + Cm(0.8)), lines);
  }

  /** The content starts one step below `startY`: when the first section's
      first paragraph has a line and two steps fit above the bottom limit,
      that line is the first thing drawn, indented, one step below `startY`. */
  lemma PlaceContentFirstLine(lines: seq<seq<seq<string>>>, startY: real)
    requires |lines| > 0 && |lines[0]| > 0 && |lines[0][0]| > 0
    requires startY + Steps(2) <= BottomLimit
    ensures var r := PlaceContent(lines, startY);
            |r.draws| > 0
            && r.draws[0] == Text(lines[0][0][0], MarginLeft + FirstLineIndent, startY + Cm(0.8), AlignLeft)
  {
    var e := Emitted([], startY + Cm(0.8));
    assert e.y + Cm(0.8) <= BottomLimit;
    LinesFirst(e, lines[0][0]);
    ParagraphsFirst(e, lines[0]);
    SectionsFirst(e, lines);
    assert PlaceContent(lines, startY) == PlaceSections(e, lines);
  }

  /** The first line of a paragraph drawn on an empty page, where it fits, is
      the first draw: indented, at the cursor. */
  lemma LinesFirst(e: Emitted, lines: seq<string>)
    requires e.draws == [] && |lines| > 0 && e.y + Cm(0.8) <= BottomLimit
    ensures var r := PlaceLines(e, lines, true);
            |r.draws| > 0 && r.draws[0] == Text(lines[0], MarginLeft + FirstLineIndent, e.y, AlignLeft)
  {
    var l := PlaceLine(e, lines[0], MarginLeft + FirstLineIndent);
    LinesExtend(l, lines[1..], false);
    PrefixFirst(l.draws, PlaceLines(l, lines[1..], false).draws);
  }

  /** The first draw of a section is the first draw of its first paragraph. */
  lemma ParagraphsFirst(e: Emitted, paras: seq<seq<string>>)
    requires |paras| > 0
    ensures var p := PlaceLines(e, paras[0], true);
            var q := PlaceParagraphs(e, paras);
            |p.draws| > 0 ==> |q.draws| > 0 && q.draws[0] == p.draws[0]
  {
    var p := PlaceLines(e, paras[0], true);
    if |paras| > 1 && |p.draws| > 0 {
      ParagraphsExtend(Emitted(p.draws, p.y + Cm(0.8)), paras[1..]);
      PrefixFirst(p.draws, PlaceParagraphs(e, paras).draws);
    }
  }

  /** The first draw of the content is the first draw of its first section. */
  lemma SectionsFirst(e: Emitted, sections: seq<seq<seq<string>>>)
    requires |sections| > 0
    ensures var q := PlaceParagraphs(e, sections[0]);
            var r := PlaceSections(e, sections);
            |q.draws| > 0 ==> |r.draws| > 0 && r.draws[0] == q.draws[0]
  {
    var q := PlaceParagraphs(e, sections[0]);
    if |sections| > 1 && |q.draws| > 0 {
      SectionsExtend(Emitted(q.draws, q.y + Cm(1.6)), sections[1..]);
      PrefixFirst(q.draws, PlaceSections(e, sections).draws);
    }
  }

  /** A non-empty prefix fixes the first element. */
  lemma PrefixFirst(a: seq<Draw>, b: seq<Draw>)
    requires |a| > 0 && |b| >= |a| && b[..|a|] == a
    ensures |b| > 0 && b[0] == a[0]
  {
    assert b[0] == b[..|a|][0];
  }


  /** `addContent`: reason, purpose and conclusion laid out by the drawing
      loop. */
  function AddContent(f: Fields, startY: real, wrap: string -> seq<string>): (r: Emitted)
    ensures OnPage(r.draws) && Paged(r.draws) && Flowing(r.draws)
    ensures PlacedTexts(r.draws) == LaidSections(SectionLines(Sections(f), wrap))
    ensures PageBreaks(r.draws) == 0 ==> r.y == ContentEnd(SectionLines(Sections(f), wrap), startY)
    ensures ContentEnd(SectionLines(Sections(f), wrap), startY) <= BottomLimit ==> PageBreaks(r.draws) == 0
  {
    PlaceContent(SectionLines(Sections(f), wrap), startY)
  }

  // ---------------------------------------------------------------------------
  // Signature and the whole memorandum
  // ---------------------------------------------------------------------------

  /** `addSignature`: the name, 3.2 cm below the content, and the position one
      step lower, each centred 2 cm right of the page's middle and with Thai
      digits, or their placeholders; the cursor ends on the position's line. */
  function AddSignature(f: Fields, startY: real, measure: string -> real): (r: Emitted)
    ensures |r.draws| == 2 && forall i :: 0 <= i < 2 ==> r.draws[i].Text? && r.draws[i].align == AlignLeft
    ensures var s := Field(f, "signature");
            r.draws[0].text == (if s == "" then "(________________)" else ToThaiDigits(s))
    ensures var p := Field(f, "position");
            r.draws[1].text == (if p == "" then "(ตำแหน่ง)" else ToThaiDigits(p))
    ensures forall i :: 0 <= i < 2 ==>
              r.draws[i].x + measure(r.draws[i].text) / 2.0 == PageWidth / 2.0 + Cm(2.0)
    ensures r.draws[0].y == startY + Cm(3.2) && r.draws[1].y == r.y == startY + Cm(4.0)
    ensures Stacked(r, startY)
  {
    var name := NumeralField(Field(f, "signature"), "(________________)");
    var position := NumeralField(Field(f, "position"), "(ตำแหน่ง)");
    var y := startY + Cm(3.2);
    Emitted([Text(name, PageWidth / 2.0 - measure(name) / 2.0 + Cm(2.0), y, AlignLeft),
             Text(position, PageWidth / 2.0 - measure(position) / 2.0 + Cm(2.0), y + Cm(0.8), AlignLeft)],
            y + Cm(0.8))
  }

  /** Everything below the emblem: header, subject rows, content and
      signature, each block starting at the cursor the previous one hands on.
      The header comes first, and the content's lines appear, in order and
      where the layout puts them, between the subject rows and the
      signature. */
  function Body(f: Fields, startY: real, measure: string -> real, wrap: string -> seq<string>): (r: seq<Draw>)
    ensures |r| >= 7 && r[..3] == AddHeader(f, startY, measure).draws
    ensures var header := AddHeader(f, startY, measure);
            var sub := AddSubjectAndReference(f, header.y);
            var content := AddContent(f, sub.y, wrap);
            PlacedTexts(r) == PlacedTexts(header.draws + sub.draws)
                              + LaidSections(SectionLines(Sections(f), wrap))
                              + PlacedTexts(AddSignature(f, content.y, measure).draws)
  {
    var header := AddHeader(f, startY, measure);
    var sub := AddSubjectAndReference(f, header.y);
    var content := AddContent(f, sub.y, wrap);
    var signature := AddSignature(f, content.y, measure);
    Assemble(header.draws, sub.draws, content.draws, signature.draws)
  }

  /** The blocks one after another. */
  function Assemble(header: seq<Draw>, sub: seq<Draw>, content: seq<Draw>, signature: seq<Draw>): (r: seq<Draw>)
    ensures |r| == |header| + |sub| + |content| + |signature|
    ensures r[..|header|] == header
    ensures PlacedTexts(r) == PlacedTexts(header + sub) + PlacedTexts(content) + PlacedTexts(signature)
  {
    var front := header + sub;
    PlacedTextsAppend(front, content);
    PlacedTextsAppend(front + content, signature);
    assert (front + content + signature)[..|header|] == header;
    front + content + signature
  }

  /** `generate`: the emblem, then the body from the y `addGaruda` returns,
      which lies below the emblem and the title. */
  function Generate(f: Fields, loaded: bool, titleWidth: real, measure: string -> real,
                    wrap: string -> seq<string>): (r: seq<Draw>)
    ensures |r| >= |GarudaDraws(loaded, titleWidth)| + 7
    ensures r[..|GarudaDraws(loaded, titleWidth)|] == GarudaDraws(loaded, titleWidth)
    ensures r[|GarudaDraws(loaded, titleWidth)|..] == Body(f, GarudaY(loaded), measure, wrap)
  {
    var g := GarudaDraws(loaded, titleWidth);
    var body := Body(f, GarudaY(loaded), measure, wrap);
    g + body
  }

  lemma {:induction false} PlacedTextsAppend(a: seq<Draw>, b: seq<Draw>)
    ensures PlacedTexts(a + b) == PlacedTexts(a) + PlacedTexts(b)
    decreases |b|
  {
    if |b| == 0 {
      assert a + b == a;
    } else {
      var b' := b[..|b| - 1];
      PlacedTextsAppend(a, b');
      assert (a + b)[..|a + b| - 1] == a + b';
      assert (a + b)[|a + b| - 1] == b[|b| - 1];
    }
  }
}
