/** The greedy paragraph line-breaker shared by three document variants. The
    variants differ only in how the paragraph is cut into tokens and in the
    string put between two tokens of one line:
    - the external memorandum: single characters, joined by nothing;
    - the news release: regular-expression tokens, joined by one space;
    - the public-relations announcement: word segments, joined by nothing.
    The width of a string is measured by the drawing surface, so it is a
    parameter here; no property of it is assumed. */
module LineBreaking {
  import opened Strings

  /** A line: the text drawn, the tokens it was built from, and whether it is
      the first line of the paragraph (the indented one). */
  datatype Line = Line(text: string, words: seq<string>, isFirstLine: bool)

  /** Width a line may take: the first line gives up the indent. */
  function Allowed(maxWidth: real, indent: real, first: bool): real
  {
    if first then maxWidth - indent else maxWidth
  }

  /** All tokens of all lines, in order. */
  function Flatten(lines: seq<Line>): seq<string>
    decreases |lines|
  {
    if |lines| == 0 then [] else lines[0].words + Flatten(lines[1..])
  }

  function Texts(lines: seq<Line>): (r: seq<string>)
    ensures |r| == |lines|
  {
    seq(|lines|, i requires 0 <= i < |lines| => lines[i].text)
  }

  function Words(lines: seq<Line>): (r: seq<seq<string>>)
    ensures |r| == |lines|
  {
    seq(|lines|, i requires 0 <= i < |lines| => lines[i].words)
  }

  /** A line holds at least one token, no token is empty, and its text is its
      tokens joined by the joiner. */
  predicate WellFormed(l: Line, joiner: string)
  {
    |l.words| > 0 && AllNonEmpty(l.words) && l.text == Join(l.words, joiner)
  }

  /** A line of two or more tokens is no wider than it may be. */
  predicate Fits(l: Line, maxWidth: real, indent: real, measure: string -> real)
  {
    |l.words| >= 2 ==> measure(l.text) <= Allowed(maxWidth, indent, l.isFirstLine)
  }

  /** Adding the next line's first token to this line would make it too wide. */
  predicate Full(l: Line, next: Line, joiner: string, maxWidth: real, indent: real,
                 measure: string -> real)
  {
    |next.words| > 0
    && measure(Join(l.words + [next.words[0]], joiner)) > Allowed(maxWidth, indent, l.isFirstLine)
  }

  /** What the greedy loop promises from the point where `acc` holds the
      tokens of the line being built and `first` says whether no line has been
      emitted yet: the lines hold `acc` and then `tokens`, in order; `acc`
      opens the first line; every line is well formed; only the first line of
      a fresh start is marked first; every line of two or more tokens fits;
      and every line but the last is full. */
  predicate Greedy(lines: seq<Line>, tokens: seq<string>, joiner: string, maxWidth: real, indent: real,
                   measure: string -> real, acc: seq<string>, first: bool)
  {
    && Flatten(lines) == acc + tokens
    && (|lines| == 0 <==> |acc| + |tokens| == 0)
    && (|lines| > 0 ==> acc <= lines[0].words)
    && (forall i :: 0 <= i < |lines| ==> WellFormed(lines[i], joiner))
    && (forall i :: 0 <= i < |lines| ==> (lines[i].isFirstLine <==> first && i == 0))
    && (forall i :: 0 <= i < |lines| ==> Fits(lines[i], maxWidth, indent, measure))
    && (forall i :: 0 <= i < |lines| - 1 ==>
          Full(lines[i], lines[i + 1], joiner, maxWidth, indent, measure))
  }

  /** The greedy loop. For the next token, the candidate line is `acc` plus
      that token; when it is wider than allowed and `acc` is not empty, `acc`
      is emitted as a line and the token starts the next one, otherwise the
      token joins `acc`. A token wider than the whole line therefore still gets
      a line of its own. */
  function Fill(tokens: seq<string>, joiner: string, maxWidth: real, indent: real,
                measure: string -> real, acc: seq<string>, first: bool): (lines: seq<Line>)
    requires AllNonEmpty(tokens) && AllNonEmpty(acc)
    requires |acc| >= 2 ==> measure(Join(acc, joiner)) <= Allowed(maxWidth, indent, first)
    ensures Greedy(lines, tokens, joiner, maxWidth, indent, measure, acc, first)
    decreases |tokens|, 1
  {
    if |tokens| == 0 then
      var lines := if |acc| > 0 then [Line(Join(acc, joiner), acc, first)] else [];
      assert acc + tokens == acc;
      lines
    else
      var candidate := acc + [tokens[0]];
      if measure(Join(candidate, joiner)) > Allowed(maxWidth, indent, first) && |acc| > 0 then
        Break(tokens, joiner, maxWidth, indent, measure, acc, first)
      else
        assert acc + tokens == candidate + tokens[1..];
        Fill(tokens[1..], joiner, maxWidth, indent, measure, candidate, first)
  }

  /** The break step: `acc` becomes a line, and the next token opens a new
      one. */
  function Break(tokens: seq<string>, joiner: string, maxWidth: real, indent: real,
                 measure: string -> real, acc: seq<string>, first: bool): (lines: seq<Line>)
    requires AllNonEmpty(tokens) && AllNonEmpty(acc)
    requires |tokens| > 0 && |acc| > 0
    requires |acc| >= 2 ==> measure(Join(acc, joiner)) <= Allowed(maxWidth, indent, first)
    requires measure(Join(acc + [tokens[0]], joiner)) > Allowed(maxWidth, indent, first)
    ensures Greedy(lines, tokens, joiner, maxWidth, indent, measure, acc, first)
    decreases |tokens|, 0
  {
    var line := Line(Join(acc, joiner), acc, first);
    var rest := Fill(tokens[1..], joiner, maxWidth, indent, measure, [tokens[0]], false);
    EmitLine(line, rest, tokens, joiner, maxWidth, indent, measure);
    [line] + rest
  }

  /** Emitting a line in front of the lines built from the remaining tokens
      keeps every property of the greedy loop. */
  lemma EmitLine(line: Line, rest: seq<Line>, tokens: seq<string>, joiner: string, maxWidth: real,
                 indent: real, measure: string -> real)
    requires |tokens| > 0 && |line.words| > 0 && AllNonEmpty(line.words)
    requires line.text == Join(line.words, joiner)
    requires |line.words| >= 2 ==> measure(line.text) <= Allowed(maxWidth, indent, line.isFirstLine)
    requires measure(Join(line.words + [tokens[0]], joiner)) > Allowed(maxWidth, indent, line.isFirstLine)
    requires Greedy(rest, tokens[1..], joiner, maxWidth, indent, measure, [tokens[0]], false)
    ensures Greedy([line] + rest, tokens, joiner, maxWidth, indent, measure, line.words, line.isFirstLine)
  {
    var lines := [line] + rest;
    assert lines[1..] == rest;
    assert tokens == [tokens[0]] + tokens[1..];
    assert rest[0].words[0] == tokens[0];
    assert Full(line, rest[0], joiner, maxWidth, indent, measure);
    assert Flatten(lines) == line.words + Flatten(rest);
  }

  /** The line-breaker: no token is lost, added or reordered; only the first
      line is marked first; every line of two or more tokens fits its allowed
      width, so a line that is too wide holds one token alone; and every line
      but the last is full, since the next line's first token would not fit. */
  function BreakLines(tokens: seq<string>, joiner: string, maxWidth: real, indent: real,
                      measure: string -> real): (lines: seq<Line>)
    requires AllNonEmpty(tokens)
    ensures Flatten(lines) == tokens
    ensures |lines| == 0 <==> |tokens| == 0
    ensures forall i :: 0 <= i < |lines| ==> WellFormed(lines[i], joiner)
    ensures forall i :: 0 <= i < |lines| ==> (lines[i].isFirstLine <==> i == 0)
    ensures forall i :: 0 <= i < |lines| ==> Fits(lines[i], maxWidth, indent, measure)
    ensures forall i :: 0 <= i < |lines| - 1 ==>
              Full(lines[i], lines[i + 1], joiner, maxWidth, indent, measure)
  {
    var lines := Fill(tokens, joiner, maxWidth, indent, measure, [], true);
    assert [] + tokens == tokens;
    lines
  }

  lemma {:induction false} FlattenIsConcat(lines: seq<Line>)
    ensures Flatten(lines) == Concat(Words(lines))
    decreases |lines|
  {
    if |lines| > 0 {
      assert Words(lines) == [lines[0].words] + Words(lines[1..]);
      ConcatCons(lines[0].words, Words(lines[1..]));
      FlattenIsConcat(lines[1..]);
    }
  }

  /** Joining the line texts with the joiner gives the tokens joined with it:
      for an empty joiner the lines concatenate back to the paragraph, for a
      space the lines joined by spaces equal the tokens joined by spaces. */
  lemma LinesJoinBack(lines: seq<Line>, tokens: seq<string>, joiner: string)
    requires Flatten(lines) == tokens
    requires forall i :: 0 <= i < |lines| ==> WellFormed(lines[i], joiner)
    ensures Join(Texts(lines), joiner) == Join(tokens, joiner)
  {
    var groups := Words(lines);
    assert AllNonEmpty(groups);
    assert Texts(lines) == JoinEach(groups, joiner);
    JoinOfJoins(groups, joiner);
    FlattenIsConcat(lines);
  }

  // ---------------------------------------------------------------------------
  // A uniform-width measure: the greedy breaker cuts fixed-size chunks
  // ---------------------------------------------------------------------------

  /** Every character 10 units wide. */
  function Uniform(s: string): real
  {
    10.0 * (|s| as real)
  }

  predicate AllSingle(ws: seq<string>)
  {
    forall i :: 0 <= i < |ws| ==> |ws[i]| == 1
  }

  lemma {:induction false} ConcatSinglesLength(ws: seq<string>)
    requires AllSingle(ws)
    ensures |Concat(ws)| == |ws|
    decreases |ws|
  {
    if |ws| > 0 {
      ConcatCons(ws[0], ws[1..]);
      assert ws == [ws[0]] + ws[1..];
      ConcatSinglesLength(ws[1..]);
    }
  }

  /** Line lengths of `n` items cut into a first chunk of `firstCap` and then
      chunks of `cap`. */
  function ChunkLengths(n: nat, firstCap: nat, cap: nat): seq<nat>
    requires firstCap > 0 && cap > 0
    decreases n
  {
    if n <= firstCap then (if n == 0 then [] else [n])
    else [firstCap] + ChunkLengths(n - firstCap, cap, cap)
  }

  function LineLengths(lines: seq<Line>): (r: seq<nat>)
    ensures |r| == |lines|
  {
    seq(|lines|, i requires 0 <= i < |lines| => |lines[i].words|)
  }

  function UniformCap(first: bool): nat
  {
    if first then 7 else 10
  }

  /** Under the uniform measure a candidate line of single characters is too
      wide exactly when the line being built already holds its capacity. */
  lemma UniformOverflow(acc: seq<string>, first: bool)
    requires AllSingle(acc)
    ensures |acc| >= 2 ==> (Uniform(Join(acc, "")) <= Allowed(100.0, 25.0, first)
                            <==> |acc| <= UniformCap(first))
    ensures |acc| >= 1 ==> (Uniform(Join(acc, "")) > Allowed(100.0, 25.0, first)
                            <==> |acc| > UniformCap(first))
  {
    ConcatSinglesLength(acc);
  }

  /** With 10 units per character, a 100-unit line and a 25-unit indent, the
      greedy breaker over single characters gives a first line of 7 characters
      (75 units) and then lines of 10. */
  lemma {:induction false} FillUniform(tokens: seq<string>, acc: seq<string>, first: bool)
    requires AllNonEmpty(tokens) && AllNonEmpty(acc)
    requires AllSingle(tokens) && AllSingle(acc)
    requires |acc| <= UniformCap(first)
    ensures |acc| >= 2 ==> Uniform(Join(acc, "")) <= Allowed(100.0, 25.0, first)
    ensures LineLengths(Fill(tokens, "", 100.0, 25.0, Uniform, acc, first))
            == ChunkLengths(|acc| + |tokens|, UniformCap(first), 10)
    decreases |tokens|, 1
  {
    UniformOverflow(acc, first);
    if |tokens| > 0 {
      if |acc| == UniformCap(first) {
        FillUniformBreak(tokens, acc, first);
      } else {
        FillUniformGrow(tokens, acc, first);
      }
    }
  }

  /** The line being built is at capacity: it is emitted. */
  lemma {:induction false} FillUniformBreak(tokens: seq<string>, acc: seq<string>, first: bool)
    requires AllNonEmpty(tokens) && AllNonEmpty(acc)
    requires AllSingle(tokens) && AllSingle(acc)
    requires |tokens| > 0 && |acc| == UniformCap(first)
    ensures |acc| >= 2 ==> Uniform(Join(acc, "")) <= Allowed(100.0, 25.0, first)
    ensures LineLengths(Fill(tokens, "", 100.0, 25.0, Uniform, acc, first))
            == ChunkLengths(|acc| + |tokens|, UniformCap(first), 10)
    decreases |tokens|, 0
  {
    UniformOverflow(acc, first);
    UniformBreakStep(tokens, acc, first);
    FillUniform(tokens[1..], [tokens[0]], false);
    var rest := Fill(tokens[1..], "", 100.0, 25.0, Uniform, [tokens[0]], false);
    LineLengthsCons(Line(Join(acc, ""), acc, first), rest);
    assert ChunkLengths(|acc| + |tokens|, UniformCap(first), 10)
        == [|acc|] + ChunkLengths(|tokens|, 10, 10);
  }

  /** At capacity, the next character overflows: the line is emitted and the
      character opens a new, non-first line. */
  lemma UniformBreakStep(tokens: seq<string>, acc: seq<string>, first: bool)
    requires AllNonEmpty(tokens) && AllNonEmpty(acc)
    requires AllSingle(tokens) && AllSingle(acc)
    requires |tokens| > 0 && |acc| == UniformCap(first)
    ensures |acc| >= 2 ==> Uniform(Join(acc, "")) <= Allowed(100.0, 25.0, first)
    ensures Fill(tokens, "", 100.0, 25.0, Uniform, acc, first)
            == [Line(Join(acc, ""), acc, first)] + Fill(tokens[1..], "", 100.0, 25.0, Uniform, [tokens[0]], false)
  {
    UniformOverflow(acc, first);
    UniformOverflow(acc + [tokens[0]], first);
  }

  lemma LineLengthsCons(line: Line, rest: seq<Line>)
    ensures LineLengths([line] + rest) == [|line.words|] + LineLengths(rest)
  {
    assert forall i :: 0 <= i < |rest| ==> ([line] + rest)[i + 1] == rest[i];
  }

  /** The line being built has room: the character joins it. */
  lemma {:induction false} FillUniformGrow(tokens: seq<string>, acc: seq<string>, first: bool)
    requires AllNonEmpty(tokens) && AllNonEmpty(acc)
    requires AllSingle(tokens) && AllSingle(acc)
    requires |tokens| > 0 && |acc| < UniformCap(first)
    ensures |acc| >= 2 ==> Uniform(Join(acc, "")) <= Allowed(100.0, 25.0, first)
    ensures LineLengths(Fill(tokens, "", 100.0, 25.0, Uniform, acc, first))
            == ChunkLengths(|acc| + |tokens|, UniformCap(first), 10)
    decreases |tokens|, 0
  {
    UniformOverflow(acc, first);
    var candidate := acc + [tokens[0]];
    UniformOverflow(candidate, first);
    FillUniform(tokens[1..], candidate, first);
    assert Fill(tokens, "", 100.0, 25.0, Uniform, acc, first)
        == Fill(tokens[1..], "", 100.0, 25.0, Uniform, candidate, first);
  }

  /** A 30-character paragraph under the uniform measure breaks into lines of
      7, 10, 10 and 3 characters. */
  lemma ExampleThirtyCharacters(s: string)
    requires |s| == 30
    ensures LineLengths(BreakLines(Chars(s), "", 100.0, 25.0, Uniform)) == [7, 10, 10, 3]
  {
    FillUniform(Chars(s), [], true);
    assert ChunkLengths(30, 7, 10) == [7] + ChunkLengths(23, 10, 10);
    assert ChunkLengths(23, 10, 10) == [10] + ChunkLengths(13, 10, 10);
    assert ChunkLengths(13, 10, 10) == [10] + ChunkLengths(3, 10, 10);
  }
}
