/** What every document class shares: the point/centimetre conversion, the A4
    page, the draw instructions handed to the PDF surface, and field lookup with
    JavaScript's truthiness (a missing field and an empty one are both falsy). */
module Layout {

  /** `cmToPt`: the factor every document class uses. */
  const PointsPerCm: real := 28.346

  function Cm(x: real): real
  {
    x * PointsPerCm
  }

  /** Width and height of an A4 page in points. */
  const PageWidth: real := 595.28
  const PageHeight: real := 841.89

  datatype Align = AlignLeft | AlignCenter | AlignRight

  /** One call on the PDF surface: `text`, `addImage`, `line` or `addPage`. */
  datatype Draw =
    | Text(text: string, x: real, y: real, align: Align)
    | Image(x: real, y: real, width: real, height: real)
    | Rule(x1: real, y1: real, x2: real, y2: real)
    | NewPage

  /** The draw instructions of one block and the cursor it hands on. */
  datatype Emitted = Emitted(draws: seq<Draw>, y: real)

  /** A form: field name to value. */
  type Fields = map<string, string>

  /** The value of a field, or the empty string when the form lacks it. */
  function Field(f: Fields, key: string): string
  {
    if key in f then f[key] else ""
  }

  /** `value || fallback`. */
  function Or(value: string, fallback: string): string
  {
    if value != "" then value else fallback
  }

  /** 1 when the field would be printed, else 0. */
  function Present(value: string): nat
  {
    if value != "" then 1 else 0
  }

  predicate IsText(d: Draw)
  {
    d.Text?
  }

  /** The height a draw sits at; a page break has none. */
  function YOf(d: Draw): real
    requires !d.NewPage?
  {
    match d
    case Text(_, _, y, _) => y
    case Image(_, y, _, _) => y
    case Rule(_, y1, _, _) => y1
  }

  /** No page break, and no draw above the one before it. */
  predicate TopDown(ds: seq<Draw>)
  {
    && (forall i :: 0 <= i < |ds| ==> !ds[i].NewPage?)
    && (forall i, j :: 0 <= i < j < |ds| ==> YOf(ds[i]) <= YOf(ds[j]))
  }

  lemma TopDownAppend(a: seq<Draw>, b: seq<Draw>)
    requires TopDown(a) && TopDown(b)
    requires |a| > 0 && |b| > 0 ==> YOf(a[|a| - 1]) <= YOf(b[0])
    ensures TopDown(a + b)
  {
    var ab := a + b;
    forall i, j | 0 <= i < j < |ab|
      ensures YOf(ab[i]) <= YOf(ab[j])
    {
      if j < |a| {
      } else if i >= |a| {
        assert ab[i] == b[i - |a|] && ab[j] == b[j - |a|];
      } else {
        assert YOf(ab[i]) <= YOf(a[|a| - 1]);
        assert YOf(b[0]) <= YOf(ab[j]);
      }
    }
  }

  /** A block's draws run top-down from the y it starts at to the y it hands
      on. */
  predicate Stacked(e: Emitted, startY: real)
  {
    && TopDown(e.draws)
    && startY <= e.y
    && (|e.draws| > 0 ==> startY <= YOf(e.draws[0]) && YOf(e.draws[|e.draws| - 1]) <= e.y)
  }

  /** One block followed by the next, which starts where the first ended. */
  function Then(a: Emitted, b: Emitted): Emitted
  {
    Emitted(a.draws + b.draws, b.y)
  }

  lemma StackedThen(a: Emitted, b: Emitted, startY: real)
    requires Stacked(a, startY) && Stacked(b, a.y)
    ensures Stacked(Then(a, b), startY)
  {
    TopDownAppend(a.draws, b.draws);
  }

  /** A draw moved `dy` points down the page. */
  function ShiftDraw(d: Draw, dy: real): Draw
  {
    match d
    case Text(t, x, y, a) => Text(t, x, y + dy, a)
    case Image(x, y, w, h) => Image(x, y + dy, w, h)
    case Rule(x1, y1, x2, y2) => Rule(x1, y1 + dy, x2, y2 + dy)
    case NewPage => NewPage
  }

  function ShiftAll(ds: seq<Draw>, dy: real): (r: seq<Draw>)
    ensures |r| == |ds|
  {
    seq(|ds|, i requires 0 <= i < |ds| => ShiftDraw(ds[i], dy))
  }

  /** A block moved `dy` points down the page, cursor included. */
  function Shift(e: Emitted, dy: real): Emitted
  {
    Emitted(ShiftAll(e.draws, dy), e.y + dy)
  }

  /** Moving two consecutive blocks is moving their concatenation. */
  lemma ShiftThen(a: Emitted, b: Emitted, dy: real)
    ensures Then(Shift(a, dy), Shift(b, dy)) == Shift(Then(a, b), dy)
  {
    assert ShiftAll(a.draws + b.draws, dy) == ShiftAll(a.draws, dy) + ShiftAll(b.draws, dy);
  }

  /** Four blocks, each starting where the previous one ended, run top-down
      as a whole, the first block's draws first. */
  lemma StackedChain(a: Emitted, b: Emitted, c: Emitted, d: Emitted, startY: real)
    requires Stacked(a, startY) && Stacked(b, a.y) && Stacked(c, b.y) && Stacked(d, c.y)
    ensures var r := Then(Then(Then(a, b), c), d);
            Stacked(r, startY) && |r.draws| >= |a.draws| && r.draws[..|a.draws|] == a.draws
  {
    StackedThen(a, b, startY);
    StackedThen(Then(a, b), c, startY);
    StackedThen(Then(Then(a, b), c), d, startY);
    assert Then(Then(Then(a, b), c), d).draws == a.draws + (b.draws + c.draws + d.draws);
  }

  lemma ShiftChain(a: Emitted, b: Emitted, c: Emitted, d: Emitted, dy: real)
    ensures Shift(Then(Then(Then(a, b), c), d), dy)
            == Then(Then(Then(Shift(a, dy), Shift(b, dy)), Shift(c, dy)), Shift(d, dy))
  {
    ShiftThen(a, b, dy);
    ShiftThen(Then(a, b), c, dy);
    ShiftThen(Then(Then(a, b), c), d, dy);
  }

  /** Two blocks each moved by `dy` chain into the pair moved by `dy`. */
  lemma ShiftedThen(a: Emitted, b: Emitted, a': Emitted, b': Emitted, dy: real)
    requires a' == Shift(a, dy) && b' == Shift(b, dy)
    ensures Then(a', b') == Shift(Then(a, b), dy)
  {
    ShiftThen(a, b, dy);
  }

  /** The strings a sequence of draws puts on the page, in order. */
  function DrawnTexts(ds: seq<Draw>): (r: seq<string>)
    ensures |r| == |ds|
  {
    seq(|ds|, i requires 0 <= i < |ds| => if ds[i].Text? then ds[i].text else "")
  }
}
