/** The content clean-up the external memorandum and the news release share:
    `content.replace(/\n/g, ' ').replace(/\s+/g, ' ').trim()`. */
module Whitespace {
  import opened Strings

  /** `replace(/\n/g, ' ')`. */
  function ReplaceNewlines(s: string): (r: string)
    ensures |r| == |s|
    ensures forall i :: 0 <= i < |s| ==> r[i] == (if s[i] == '\n' then ' ' else s[i])
    decreases |s|
  {
    if |s| == 0 then [] else [if s[0] == '\n' then ' ' else s[0]] + ReplaceNewlines(s[1..])
  }

  lemma {:induction false} ReplaceNewlinesVisible(s: string)
    ensures RemoveIf(ReplaceNewlines(s), IsJsSpace) == RemoveIf(s, IsJsSpace)
    decreases |s|
  {
    if |s| > 0 {
      ReplaceNewlinesVisible(s[1..]);
      assert ReplaceNewlines(s)[1..] == ReplaceNewlines(s[1..]);
    }
  }

  /** Its only white space is single ordinary spaces. */
  predicate SingleSpaced(s: string)
  {
    && (forall i :: 0 <= i < |s| && IsJsSpace(s[i]) ==> s[i] == ' ')
    && (forall i :: 0 <= i < |s| - 1 ==> !(IsJsSpace(s[i]) && IsJsSpace(s[i + 1])))
  }

  /** The clean-up: no white space at either end, only single spaces between
      visible characters, and every visible character of `content` kept in
      order. */
  function Normalize(content: string): (r: string)
    ensures IsTrimmed(r) && SingleSpaced(r)
    ensures RemoveIf(r, IsJsSpace) == RemoveIf(content, IsJsSpace)
  {
    var spaced := ReplaceNewlines(content);
    var collapsed := CollapseRuns(spaced, IsJsSpace);
    CollapseRunsSpaces(spaced, IsJsSpace);
    CollapseRunsNoAdjacent(spaced, IsJsSpace);
    CollapseRunsKeepsOthers(spaced, IsJsSpace);
    ReplaceNewlinesVisible(content);
    TrimKeepsVisible(collapsed);
    TrimKeepsCollapsed(collapsed, IsJsSpace);
    Trim(collapsed)
  }

  /** Text that is already clean is left as it is; in particular cleaning twice
      is cleaning once. */
  lemma NormalizeFixed(s: string)
    requires IsTrimmed(s) && SingleSpaced(s)
    ensures Normalize(s) == s
  {
    assert ReplaceNewlines(s) == s;
    CollapseRunsFixed(s, IsJsSpace);
  }

  lemma NormalizeIdempotent(s: string)
    ensures Normalize(Normalize(s)) == Normalize(s)
  {
    NormalizeFixed(Normalize(s));
  }

  // ---------------------------------------------------------------------------
  // The clean-up, word by word
  // ---------------------------------------------------------------------------

  predicate IsVisible(c: char)
  {
    !IsJsSpace(c)
  }

  /** A non-empty piece of text with no white space in it. */
  predicate IsWord(w: string)
  {
    |w| > 0 && forall i :: 0 <= i < |w| ==> IsVisible(w[i])
  }

  /** The maximal runs of visible characters of `s`, in order: the words the
      clean-up keeps. */
  function Words(s: string): (r: seq<string>)
    ensures forall k :: 0 <= k < |r| ==> IsWord(r[k])
    ensures IsBlank(s) <==> r == []
    decreases |s|
  {
    var t := SkipRun(s, IsJsSpace);
    if t == [] then []
    else
      assert !IsBlank(s) by {
        assert s[|s| - |t|] == t[0];
      }
      var n := RunLength(t, IsVisible);
      var w, rest := t[..n], Words(t[n..]);
      assert IsWord(w) by {
        assert IsVisible(t[0]);
        forall i | 0 <= i < n
          ensures IsVisible(w[i])
        {
          assert w[i] == t[i];
        }
      }
      var r := [w] + rest;
      forall k | 0 <= k < |r|
        ensures IsWord(r[k])
      {
        if k > 0 {
          assert r[k] == rest[k - 1];
        }
      }
      r
  }

  /** `replace(/\n/g, ' ')` works piece by piece. */
  lemma {:induction false} ReplaceNewlinesAppend(a: string, b: string)
    ensures ReplaceNewlines(a + b) == ReplaceNewlines(a) + ReplaceNewlines(b)
    decreases |a|
  {
    if |a| == 0 {
      assert a + b == b;
    } else {
      assert (a + b)[0] == a[0] && (a + b)[1..] == a[1..] + b;
      ReplaceNewlinesAppend(a[1..], b);
    }
  }

  /** The clean-up drops white space in front of the first visible character. */
  lemma {:induction false} NormalizeLead(lead: string, t: string)
    requires IsBlank(lead)
    requires t == [] || IsVisible(t[0])
    ensures Normalize(lead + t) == Normalize(t)
  {
    if lead != [] {
      ReplaceNewlinesAppend(lead, t);
      var l, x := ReplaceNewlines(lead), ReplaceNewlines(t);
      CollapseRunsAppend(l, x, IsJsSpace);
      CollapseRunsOfRun(l, IsJsSpace);
      TrimSpaceStart(' ', CollapseRuns(x, IsJsSpace));
    } else {
      assert lead + t == t;
    }
  }

  /** The clean-up drops white space after the last visible character. */
  lemma {:induction false} NormalizeTrail(w: string, u: string)
    requires w == [] || IsVisible(w[|w| - 1])
    requires IsBlank(u)
    ensures Normalize(w + u) == Normalize(w)
  {
    if u != [] {
      ReplaceNewlinesAppend(w, u);
      var x, l := ReplaceNewlines(w), ReplaceNewlines(u);
      CollapseRunsAppend(x, l, IsJsSpace);
      CollapseRunsOfRun(l, IsJsSpace);
      TrimSpaceEnd(CollapseRuns(x, IsJsSpace), ' ');
    } else {
      assert w + u == w;
    }
  }

  /** White space between two visible characters becomes exactly one space,
      and the text on either side is cleaned on its own. */
  lemma {:induction false} NormalizeAround(a: string, run: string, b: string)
    requires |a| > 0 && IsVisible(a[|a| - 1])
    requires |run| > 0 && IsBlank(run)
    requires |b| > 0 && IsVisible(b[0])
    ensures Normalize(a + run + b) == Normalize(a) + " " + Normalize(b)
  {
    ReplaceNewlinesAppend(a, run);
    ReplaceNewlinesAppend(a + run, b);
    var x, l, y := ReplaceNewlines(a), ReplaceNewlines(run), ReplaceNewlines(b);
    CollapseRunsAround(x, l, y, IsJsSpace);
    CollapseRunsLast(x, IsJsSpace);
    TrimAround(CollapseRuns(x, IsJsSpace), " ", CollapseRuns(y, IsJsSpace));
  }

  /** A word is its own clean-up. */
  lemma {:induction false} NormalizeWord(w: string)
    requires IsWord(w)
    ensures Normalize(w) == w
  {
    NormalizeFixed(w);
  }

  /** The words of text that starts after its leading white space. */
  lemma {:induction false} WordsStep(s: string, lead: string, w: string, u: string)
    requires s == lead + w + u && IsBlank(lead) && IsWord(w)
    requires u == [] || !IsVisible(u[0])
    ensures Words(s) == [w] + Words(u)
  {
    var t := w + u;
    assert s == lead + t;
    RunLengthIs(s, IsJsSpace, |lead|);
    assert SkipRun(s, IsJsSpace) == t;
    RunLengthIs(t, IsVisible, |w|);
    assert t[..|w|] == w && t[|w|..] == u;
  }

  /** The words of text after leading white space are its words. */
  lemma {:induction false} WordsSkip(lead: string, v: string)
    requires IsBlank(lead)
    requires v == [] || IsVisible(v[0])
    ensures Words(lead + v) == Words(v)
  {
    RunLengthIs(lead + v, IsJsSpace, |lead|);
    assert SkipRun(lead + v, IsJsSpace) == v;
    RunLengthIs(v, IsJsSpace, 0);
  }

  /** A word followed by white space only cleans up to itself. */
  lemma {:induction false} WordThenBlank(w: string, run: string)
    requires IsWord(w) && IsBlank(run)
    ensures Normalize(w + run) == Join(Words(w + run), " ")
  {
    assert Words(w + run) == [w] by {
      assert w + run == [] + w + run;
      WordsStep(w + run, [], w, run);
      assert Words(run) == [];
    }
    assert Normalize(w + run) == w by {
      NormalizeWord(w);
      NormalizeTrail(w, run);
    }
  }

  /** A word, white space and more words clean up to the word, one space and
      the clean-up of the rest. */
  lemma {:induction false} WordThenMore(w: string, run: string, v: string)
    requires IsWord(w) && |run| > 0 && IsBlank(run) && |v| > 0 && IsVisible(v[0])
    requires Normalize(v) == Join(Words(v), " ")
    ensures Normalize(w + run + v) == Join(Words(w + run + v), " ")
  {
    WordsOfWordThenMore(w, run, v);
    NormalizeWord(w);
    NormalizeAround(w, run, v);
    WordsNonEmpty(v);
    JoinCons(w, Words(v), " ");
  }

  /** The words of a word, white space and more text. */
  lemma {:induction false} WordsOfWordThenMore(w: string, run: string, v: string)
    requires IsWord(w) && |run| > 0 && IsBlank(run) && |v| > 0 && IsVisible(v[0])
    ensures Words(w + run + v) == [w] + Words(v)
  {
    var s := w + run + v;
    assert s == [] + w + (run + v);
    WordsStep(s, [], w, run + v);
    WordsSkip(run, v);
  }

  /** Text with a visible character has a word. */
  lemma {:induction false} WordsNonEmpty(v: string)
    requires |v| > 0 && IsVisible(v[0])
    ensures |Words(v)| > 0
  {
    assert !IsBlank(v);
  }

  /** `s` as its leading white space and the rest. */
  lemma {:induction false} SplitLead(s: string) returns (lead: string, t: string)
    ensures s == lead + t && IsBlank(lead) && (t == [] || IsVisible(t[0]))
  {
    t := SkipRun(s, IsJsSpace);
    lead := s[..|s| - |t|];
  }

  /** Text that starts with a visible character as its first word, the white
      space after it, and the rest. */
  lemma {:induction false} SplitWord(t: string) returns (w: string, run: string, v: string)
    requires |t| > 0 && IsVisible(t[0])
    ensures t == w + run + v && IsWord(w) && IsBlank(run) && |v| < |t|
    ensures v == [] ==> t == w + run
    ensures v != [] ==> |run| > 0 && IsVisible(v[0])
  {
    var u;
    w, u := SplitFirstWord(t);
    run, v := SplitLead(u);
    assert t == w + run + v;
  }

  /** Text that starts with a visible character as its first word and the
      rest, which does not start with one. */
  lemma {:induction false} SplitFirstWord(t: string) returns (w: string, u: string)
    requires |t| > 0 && IsVisible(t[0])
    ensures t == w + u && IsWord(w) && (u == [] || !IsVisible(u[0]))
  {
    var n := RunLength(t, IsVisible);
    w, u := t[..n], t[n..];
    assert t == w + u;
  }

  /** The clean-up is the words of the content joined by single spaces. */
  lemma {:induction false} NormalizeWords(s: string)
    ensures Normalize(s) == Join(Words(s), " ")
    decreases |s|
  {
    var lead, t := SplitLead(s);
    NormalizeLead(lead, t);
    WordsSkip(lead, t);
    if t != [] {
      var w, run, v := SplitWord(t);
      if v == [] {
        WordThenBlank(w, run);
      } else {
        NormalizeWords(v);
        WordThenMore(w, run, v);
      }
    }
  }
}
