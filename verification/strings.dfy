/** Sequence and JavaScript-string helpers shared by every document variant:
    joining, filtering, trimming, run collapsing, splitting and searching.
    Strings are `seq<char>`, one char per Unicode code point. Thai characters
    lie in the Basic Multilingual Plane, where a code point is also one UTF-16
    code unit of the JavaScript string. */
module Strings {

  datatype Option<T> = None | Some(value: T)

  // ---------------------------------------------------------------------------
  // Joining
  // ---------------------------------------------------------------------------

  /** `Array.prototype.join`: the parts in order with `sep` between neighbours. */
  function Join<T>(parts: seq<seq<T>>, sep: seq<T>): seq<T>
    decreases |parts|
  {
    if |parts| == 0 then []
    else if |parts| == 1 then parts[0]
    else parts[0] + sep + Join(parts[1..], sep)
  }

  lemma JoinCons<T>(head: seq<T>, tail: seq<seq<T>>, sep: seq<T>)
    requires |tail| > 0
    ensures Join([head] + tail, sep) == head + sep + Join(tail, sep)
  {
    assert ([head] + tail)[1..] == tail;
  }

  /** A sequence is what comes before position `n`, the element there, and
      what comes after. */
  lemma SplitAround<T>(s: seq<T>, n: nat)
    requires n < |s|
    ensures s == s[..n] + [s[n]] + s[n + 1..]
  {
  }

  /** The parts glued together with nothing in between (`join('')`). */
  function Concat<T>(parts: seq<seq<T>>): seq<T>
  {
    Join(parts, [])
  }

  predicate AllNonEmpty<T>(parts: seq<seq<T>>)
  {
    forall i :: 0 <= i < |parts| ==> |parts[i]| > 0
  }

  /** Joining two non-empty lists of parts puts exactly one separator at the seam. */
  lemma {:induction false} JoinAppend<T>(a: seq<seq<T>>, b: seq<seq<T>>, sep: seq<T>)
    requires |a| > 0 && |b| > 0
    ensures Join(a + b, sep) == Join(a, sep) + sep + Join(b, sep)
    decreases |a|
  {
    if |a| == 1 {
      assert (a + b)[1..] == b;
    } else {
      assert (a + b)[1..] == a[1..] + b;
      JoinAppend(a[1..], b, sep);
    }
  }

  lemma ConcatCons<T>(x: seq<T>, rest: seq<seq<T>>)
    ensures Concat([x] + rest) == x + Concat(rest)
  {
    if |rest| > 0 {
      JoinAppend([x], rest, []);
    } else {
      assert [x] + rest == [x];
    }
  }

  lemma ConcatAppend<T>(a: seq<seq<T>>, b: seq<seq<T>>)
    ensures Concat(a + b) == Concat(a) + Concat(b)
  {
    if |a| == 0 {
      assert a + b == b;
    } else if |b| == 0 {
      assert a + b == a;
    } else {
      JoinAppend(a, b, []);
    }
  }

  /** Glued together, the parts end with the last part. */
  lemma {:induction false} ConcatLast<T>(parts: seq<seq<T>>)
    requires |parts| > 0
    ensures var c, n := Concat(parts), |parts| - 1;
            |c| >= |parts[n]| && c[|c| - |parts[n]|..] == parts[n]
  {
    var n := |parts| - 1;
    assert parts == parts[..n] + [parts[n]];
    ConcatAppend(parts[..n], [parts[n]]);
    ConcatCons(parts[n], []);
    assert Concat([parts[n]]) == parts[n] + Concat<T>([]);
  }

  /** When the last part is one element, it is the last element of the whole. */
  lemma {:induction false} ConcatLastSingle<T>(parts: seq<seq<T>>, x: T)
    requires |parts| > 0 && parts[|parts| - 1] == [x]
    ensures var c := Concat(parts); |c| > 0 && c[|c| - 1] == x
  {
    ConcatLast(parts);
    var c := Concat(parts);
    assert c[|c| - 1] == c[|c| - 1..][0];
  }

  /** Each group joined, then the results joined with the same separator, equals
      joining all members of all groups at once (groups must be non-empty). */
  lemma {:induction false} JoinOfJoins<T>(groups: seq<seq<seq<T>>>, sep: seq<T>)
    requires AllNonEmpty(groups)
    ensures Join(JoinEach(groups, sep), sep) == Join(Concat(groups), sep)
    decreases |groups|
  {
    if |groups| == 0 {
    } else if |groups| == 1 {
      ConcatCons(groups[0], []);
      assert groups == [groups[0]] + [];
    } else {
      var rest := groups[1..];
      assert groups == [groups[0]] + rest;
      assert JoinEach(groups, sep)[1..] == JoinEach(rest, sep);
      JoinOfJoins(rest, sep);
      ConcatCons(groups[0], rest);
      ConcatNonEmpty(rest);
      JoinAppend(groups[0], Concat(rest), sep);
    }
  }

  function JoinEach<T>(groups: seq<seq<seq<T>>>, sep: seq<T>): (r: seq<seq<T>>)
    ensures |r| == |groups|
  {
    seq(|groups|, i requires 0 <= i < |groups| => Join(groups[i], sep))
  }

  lemma ConcatNonEmpty<T>(groups: seq<seq<seq<T>>>)
    requires AllNonEmpty(groups) && |groups| > 0
    ensures |Concat(groups)| > 0
  {
    ConcatCons(groups[0], groups[1..]);
    assert groups == [groups[0]] + groups[1..];
  }

  // ---------------------------------------------------------------------------
  // Filtering
  // ---------------------------------------------------------------------------

  /** The elements of `s` that do not satisfy `p`, in order. */
  function RemoveIf<T>(s: seq<T>, p: T -> bool): (r: seq<T>)
    ensures |r| <= |s|
    ensures forall i :: 0 <= i < |r| ==> !p(r[i])
    decreases |s|
  {
    if |s| == 0 then []
    else (if p(s[0]) then [] else [s[0]]) + RemoveIf(s[1..], p)
  }

  lemma {:induction false} RemoveIfAppend<T>(a: seq<T>, b: seq<T>, p: T -> bool)
    ensures RemoveIf(a + b, p) == RemoveIf(a, p) + RemoveIf(b, p)
    decreases |a|
  {
    if |a| == 0 {
      assert a + b == b;
    } else {
      assert (a + b)[1..] == a[1..] + b;
      RemoveIfAppend(a[1..], b, p);
    }
  }

  lemma {:induction false} RemoveIfNone<T>(s: seq<T>, p: T -> bool)
    requires forall i :: 0 <= i < |s| ==> !p(s[i])
    ensures RemoveIf(s, p) == s
    decreases |s|
  {
    if |s| > 0 {
      RemoveIfNone(s[1..], p);
    }
  }

  /** A gap that loses everything can stand in for nothing: `c` and `gap + rest`
      keep the same elements after `a` when `c` and `rest` do. */
  lemma {:induction false} RemoveIfAcross<T>(a: seq<T>, gap: seq<T>, rest: seq<T>, c: seq<T>, p: T -> bool)
    requires RemoveIf(gap, p) == [] && RemoveIf(c, p) == RemoveIf(rest, p)
    ensures RemoveIf(a + c, p) == RemoveIf(a + gap + rest, p)
  {
    calc {
      RemoveIf(a + gap + rest, p);
      { assert a + gap + rest == a + (gap + rest); }
      RemoveIf(a + (gap + rest), p);
      { RemoveIfAppend(a, gap + rest, p); }
      RemoveIf(a, p) + RemoveIf(gap + rest, p);
      { RemoveIfAppend(gap, rest, p); assert [] + RemoveIf(rest, p) == RemoveIf(rest, p); }
      RemoveIf(a, p) + RemoveIf(c, p);
      { RemoveIfAppend(a, c, p); }
      RemoveIf(a + c, p);
    }
  }

  lemma {:induction false} RemoveIfAll<T>(s: seq<T>, p: T -> bool)
    requires forall i :: 0 <= i < |s| ==> p(s[i])
    ensures RemoveIf(s, p) == []
    decreases |s|
  {
    if |s| > 0 {
      RemoveIfAll(s[1..], p);
    }
  }

  /** Length of the longest prefix of `s` whose elements all satisfy `p`. */
  function RunLength<T>(s: seq<T>, p: T -> bool): (n: nat)
    ensures n <= |s|
    ensures forall i :: 0 <= i < n ==> p(s[i])
    ensures n == |s| || !p(s[n])
    decreases |s|
  {
    if |s| == 0 || !p(s[0]) then 0 else 1 + RunLength(s[1..], p)
  }

  // ---------------------------------------------------------------------------
  // Characters
  // ---------------------------------------------------------------------------

  /** JavaScript `\s` and the characters `String.prototype.trim` removes:
      WhiteSpace and LineTerminator of ECMAScript section 12.2 and 12.3. */
  predicate IsJsSpace(c: char)
  {
    var n := c as int;
    n == 0x09 || n == 0x0A || n == 0x0B || n == 0x0C || n == 0x0D || n == 0x20
    || n == 0xA0 || n == 0x1680 || (0x2000 <= n <= 0x200A)
    || n == 0x2028 || n == 0x2029 || n == 0x202F || n == 0x205F
    || n == 0x3000 || n == 0xFEFF
  }

  /** A character of the Thai Unicode block U+0E00..U+0E7F. */
  predicate IsThai(c: char)
  {
    0x0E00 <= c as int <= 0x0E7F
  }

  /** The one-character strings of `s` (`s.split('')`). */
  function Chars(s: string): (r: seq<string>)
    ensures |r| == |s|
    ensures forall i :: 0 <= i < |r| ==> r[i] == [s[i]]
  {
    seq(|s|, i requires 0 <= i < |s| => [s[i]])
  }

  /** `s.split('').join('')` gives back `s`. */
  lemma {:induction false} ConcatChars(s: string)
    ensures Concat(Chars(s)) == s
    decreases |s|
  {
    if |s| > 0 {
      var c, t := Chars(s), Chars(s[1..]);
      assert c == [[s[0]]] + t by {
        forall i | 1 <= i < |c|
          ensures c[i] == t[i - 1]
        {
          assert s[1..][i - 1] == s[i];
        }
      }
      ConcatCons([s[0]], t);
      ConcatChars(s[1..]);
      assert s == [s[0]] + s[1..];
    }
  }

  // ---------------------------------------------------------------------------
  // Trimming (String.prototype.trim)
  // ---------------------------------------------------------------------------

  function TrimStart(s: string): (r: string)
    ensures |r| <= |s| && r == s[|s| - |r|..]
    ensures forall i :: 0 <= i < |s| - |r| ==> IsJsSpace(s[i])
    ensures r == [] || !IsJsSpace(r[0])
    decreases |s|
  {
    if |s| > 0 && IsJsSpace(s[0]) then TrimStart(s[1..]) else s
  }

  function TrimEnd(s: string): (r: string)
    ensures |r| <= |s| && r == s[..|r|]
    ensures forall i :: |r| <= i < |s| ==> IsJsSpace(s[i])
    ensures r == [] || !IsJsSpace(r[|r| - 1])
    decreases |s|
  {
    if |s| > 0 && IsJsSpace(s[|s| - 1]) then TrimEnd(s[..|s| - 1]) else s
  }

  predicate IsTrimmed(s: string)
  {
    s == [] || (!IsJsSpace(s[0]) && !IsJsSpace(s[|s| - 1]))
  }

  predicate IsBlank(s: string)
  {
    forall i :: 0 <= i < |s| ==> IsJsSpace(s[i])
  }

  /** `String.prototype.trim`: what is left once the leading and trailing white
      space is cut; it is empty exactly when `s` is blank, and a string already
      without white space at either end is returned as is. */
  function Trim(s: string): (r: string)
    ensures IsTrimmed(r)
    ensures r == [] <==> IsBlank(s)
    ensures IsTrimmed(s) ==> r == s
  {
    var t := TrimStart(s);
    TrimStartBlank(s);
    TrimEndBlank(t);
    TrimEnd(t)
  }

  lemma {:induction false} TrimStartBlank(s: string)
    ensures TrimStart(s) == [] <==> IsBlank(s)
    decreases |s|
  {
    if |s| > 0 && IsJsSpace(s[0]) {
      TrimStartBlank(s[1..]);
    }
  }

  lemma {:induction false} TrimEndBlank(s: string)
    ensures TrimEnd(s) == [] <==> IsBlank(s)
    decreases |s|
  {
    if |s| > 0 && IsJsSpace(s[|s| - 1]) {
      TrimEndBlank(s[..|s| - 1]);
    }
  }

  /** The trimmed string is a slice of `s` with only white space outside it. */
  lemma TrimIsSlice(s: string) returns (lo: nat)
    ensures lo + |Trim(s)| <= |s| && Trim(s) == s[lo..lo + |Trim(s)|]
    ensures forall i :: 0 <= i < lo ==> IsJsSpace(s[i])
    ensures forall i :: lo + |Trim(s)| <= i < |s| ==> IsJsSpace(s[i])
  {
    var t := TrimStart(s);
    lo := |s| - |t|;
    var r := TrimEnd(t);
    assert Trim(s) == r;
    assert t == s[lo..] && r == t[..|r|];
    assert r == s[lo..lo + |r|];
    forall i | lo + |r| <= i < |s|
      ensures IsJsSpace(s[i])
    {
      assert s[i] == t[i - lo];
    }
  }

  lemma {:induction false} TrimStartRemoveIf(s: string, p: char -> bool)
    requires forall c :: p(c) ==> IsJsSpace(c)
    ensures RemoveIf(TrimStart(s), p) == TrimStart(RemoveIf(s, p))
    decreases |s|
  {
    if |s| > 0 {
      var x := RemoveIf(s[1..], p);
      if IsJsSpace(s[0]) {
        assert TrimStart(s) == TrimStart(s[1..]);
        TrimStartRemoveIf(s[1..], p);
        if !p(s[0]) {
          assert RemoveIf(s, p) == [s[0]] + x;
          assert ([s[0]] + x)[1..] == x;
          assert TrimStart([s[0]] + x) == TrimStart(x);
        } else {
          assert RemoveIf(s, p) == x;
        }
      } else {
        assert !p(s[0]);
        assert TrimStart(s) == s;
        assert RemoveIf(s, p) == [s[0]] + x;
        assert TrimStart([s[0]] + x) == [s[0]] + x;
      }
    }
  }

  lemma {:induction false} TrimEndRemoveIf(s: string, p: char -> bool)
    requires forall c :: p(c) ==> IsJsSpace(c)
    ensures RemoveIf(TrimEnd(s), p) == TrimEnd(RemoveIf(s, p))
    decreases |s|
  {
    if |s| > 0 {
      var init, c := s[..|s| - 1], s[|s| - 1];
      assert s == init + [c];
      RemoveIfAppend(init, [c], p);
      var x := RemoveIf(init, p);
      assert RemoveIf([c], p) == if p(c) then [] else [c] by {
        assert [c][1..] == [];
      }
      if IsJsSpace(c) {
        assert TrimEnd(s) == TrimEnd(init);
        TrimEndRemoveIf(init, p);
        if !p(c) {
          var f := x + [c];
          assert f[..|f| - 1] == x;
          assert TrimEnd(f) == TrimEnd(x);
        } else {
          assert RemoveIf(s, p) == x;
        }
      } else {
        assert TrimEnd(s) == s;
        var f := x + [c];
        assert RemoveIf(s, p) == f;
        assert f[|f| - 1] == c;
        assert TrimEnd(f) == f;
      }
    }
  }

  /** Removing some kinds of white space commutes with trimming. */
  lemma TrimRemoveIf(s: string, p: char -> bool)
    requires forall c :: p(c) ==> IsJsSpace(c)
    ensures RemoveIf(Trim(s), p) == Trim(RemoveIf(s, p))
  {
    TrimStartRemoveIf(s, p);
    TrimEndRemoveIf(TrimStart(s), p);
  }

  /** Trimming loses no visible character. */
  lemma TrimKeepsVisible(s: string)
    ensures RemoveIf(Trim(s), IsJsSpace) == RemoveIf(s, IsJsSpace)
  {
    TrimRemoveIf(s, IsJsSpace);
    var f := RemoveIf(s, IsJsSpace);
    assert IsTrimmed(f);
  }

  /** Text with a visible character keeps everything after its leading white
      space. */
  lemma {:induction false} TrimStartAppend(x: string, z: string)
    requires !IsBlank(x)
    ensures TrimStart(x + z) == TrimStart(x) + z
    decreases |x|
  {
    if IsJsSpace(x[0]) {
      assert (x + z)[1..] == x[1..] + z;
      TrimStartAppend(x[1..], z);
    }
  }

  /** Text with a visible character keeps everything before its trailing white
      space. */
  lemma {:induction false} TrimEndPrepend(z: string, y: string)
    requires !IsBlank(y)
    ensures TrimEnd(z + y) == z + TrimEnd(y)
    decreases |y|
  {
    var n := |y| - 1;
    assert (z + y)[|z + y| - 1] == y[n];
    if IsJsSpace(y[n]) {
      assert (z + y)[..|z + y| - 1] == z + y[..n];
      TrimEndPrepend(z, y[..n]);
    }
  }

  /** Between a visible last and a visible first character, trimming leaves
      the middle alone and trims the two sides on their own. */
  lemma {:induction false} TrimAround(x: string, mid: string, y: string)
    requires |x| > 0 && !IsJsSpace(x[|x| - 1])
    requires |y| > 0 && !IsJsSpace(y[0])
    ensures Trim(x + mid + y) == Trim(x) + mid + Trim(y)
  {
    TrimStartVisibleEnd(x);
    assert TrimStart(y) == y;
    TrimEndsAround(x, mid, y);
  }

  /** The two halves of trimming, around a visible seam on each side. */
  lemma {:induction false} TrimEndsAround(x: string, mid: string, y: string)
    requires !IsBlank(x) && !IsBlank(y)
    ensures TrimEnd(TrimStart(x + mid + y)) == TrimStart(x) + mid + TrimEnd(y)
  {
    TrimStartThree(x, mid, y);
    TrimEndPrepend(TrimStart(x) + mid, y);
  }

  /** Text with a visible character keeps all that follows its leading white
      space, split in two. */
  lemma {:induction false} TrimStartThree(x: string, mid: string, y: string)
    requires !IsBlank(x)
    ensures TrimStart(x + mid + y) == TrimStart(x) + mid + y
  {
    assert x + mid + y == x + (mid + y);
    TrimStartAppend(x, mid + y);
  }

  /** Trimming the front keeps a visible last character. */
  lemma {:induction false} TrimStartVisibleEnd(x: string)
    requires |x| > 0 && !IsJsSpace(x[|x| - 1])
    ensures !IsBlank(x)
    ensures var t := TrimStart(x); |t| > 0 && t[|t| - 1] == x[|x| - 1] && TrimEnd(t) == t
  {
    assert !IsJsSpace(x[|x| - 1]);
    TrimStartBlank(x);
  }

  /** White space in front is lost to trimming. */
  lemma {:induction false} TrimSpaceStart(c: char, y: string)
    requires IsJsSpace(c)
    ensures Trim([c] + y) == Trim(y)
  {
    assert ([c] + y)[1..] == y;
  }

  /** White space at the end is lost to trimming. */
  lemma {:induction false} TrimSpaceEnd(x: string, c: char)
    requires IsJsSpace(c)
    ensures Trim(x + [c]) == Trim(x)
  {
    TrimStartBlank(x);
    TrimStartBlank(x + [c]);
    if IsBlank(x) {
      assert IsBlank(x + [c]);
    } else {
      TrimStartAppend(x, [c]);
      var t := TrimStart(x);
      assert (t + [c])[..|t|] == t;
    }
  }

  // ---------------------------------------------------------------------------
  // Collapsing runs (`s.replace(/[class]+/g, ' ')`)
  // ---------------------------------------------------------------------------

  /** The suffix of `s` after its leading run of `p` characters. */
  function SkipRun(s: string, p: char -> bool): (r: string)
    ensures |r| <= |s| && r == s[|s| - |r|..]
    ensures forall i :: 0 <= i < |s| - |r| ==> p(s[i])
    ensures r == [] || !p(r[0])
  {
    s[RunLength(s, p)..]
  }

  /** Every maximal run of characters satisfying `p` replaced by a single space,
      as a global regular-expression replace of `[class]+` by `' '` does. */
  function CollapseRuns(s: string, p: char -> bool): (r: string)
    requires p(' ')
    ensures |s| > 0 <==> |r| > 0
    ensures |s| > 0 ==> r[0] == if p(s[0]) then ' ' else s[0]
    decreases |s|
  {
    if |s| == 0 then []
    else if p(s[0]) then [' '] + CollapseRuns(SkipRun(s, p), p)
    else [s[0]] + CollapseRuns(s[1..], p)
  }

  /** After collapsing, the only `p` character left is the space. */
  lemma {:induction false} CollapseRunsSpaces(s: string, p: char -> bool)
    requires p(' ')
    ensures forall i :: (0 <= i < |CollapseRuns(s, p)| && p(CollapseRuns(s, p)[i])
                         ==> CollapseRuns(s, p)[i] == ' ')
    decreases |s|
  {
    if |s| > 0 {
      var rest := if p(s[0]) then SkipRun(s, p) else s[1..];
      CollapseRunsSpaces(rest, p);
      var r := CollapseRuns(s, p);
      assert r[1..] == CollapseRuns(rest, p);
    }
  }

  /** After collapsing, no two neighbouring characters both satisfy `p`. */
  lemma {:induction false} CollapseRunsNoAdjacent(s: string, p: char -> bool)
    requires p(' ')
    ensures forall i :: (0 <= i < |CollapseRuns(s, p)| - 1
                         ==> !(p(CollapseRuns(s, p)[i]) && p(CollapseRuns(s, p)[i + 1])))
    decreases |s|
  {
    if |s| > 0 {
      var rest := if p(s[0]) then SkipRun(s, p) else s[1..];
      CollapseRunsNoAdjacent(rest, p);
      var r := CollapseRuns(s, p);
      assert r[1..] == CollapseRuns(rest, p);
    }
  }

  /** Collapsing loses no character outside the class `p`, and adds none. */
  lemma {:induction false} CollapseRunsKeepsOthers(s: string, p: char -> bool)
    requires p(' ')
    ensures RemoveIf(CollapseRuns(s, p), p) == RemoveIf(s, p)
    decreases |s|
  {
    if |s| > 0 {
      var r := CollapseRuns(s, p);
      if p(s[0]) {
        var rest := SkipRun(s, p);
        var run := s[..|s| - |rest|];
        assert s == run + rest;
        RemoveIfAppend(run, rest, p);
        RemoveIfAll(run, p);
        CollapseRunsKeepsOthers(rest, p);
        assert r == [' '] + CollapseRuns(rest, p);
        assert r[1..] == CollapseRuns(rest, p);
      } else {
        CollapseRunsKeepsOthers(s[1..], p);
        assert r[1..] == CollapseRuns(s[1..], p);
      }
    }
  }

  /** A string whose only `p` character is the space, never two in a row, is left
      alone by `CollapseRuns`. */
  lemma {:induction false} CollapseRunsFixed(s: string, p: char -> bool)
    requires p(' ')
    requires forall i :: 0 <= i < |s| && p(s[i]) ==> s[i] == ' '
    requires forall i :: 0 <= i < |s| - 1 ==> !(p(s[i]) && p(s[i + 1]))
    ensures CollapseRuns(s, p) == s
    decreases |s|
  {
    if |s| > 0 {
      if p(s[0]) {
        assert RunLength(s[1..], p) == 0;
        assert RunLength(s, p) == 1;
      }
      CollapseRunsFixed(s[1..], p);
      assert s == [s[0]] + s[1..];
    }
  }

  /** The run length is the only `n` whose prefix is a `p`-run not followed
      by another `p` element. */
  lemma {:induction false} RunLengthIs<T>(s: seq<T>, p: T -> bool, n: nat)
    requires n <= |s| && (forall i :: 0 <= i < n ==> p(s[i])) && (n == |s| || !p(s[n]))
    ensures RunLength(s, p) == n
  {
  }

  /** A non-empty run of `p` characters collapses to one space. */
  lemma {:induction false} CollapseRunsOfRun(run: string, p: char -> bool)
    requires p(' ')
    requires |run| > 0 && forall i :: 0 <= i < |run| ==> p(run[i])
    ensures CollapseRuns(run, p) == " "
  {
    RunLengthIs(run, p, |run|);
    assert SkipRun(run, p) == [];
  }

  /** Collapsing works piece by piece when the cut does not fall inside a run. */
  lemma {:induction false} CollapseRunsAppend(a: string, x: string, p: char -> bool)
    requires p(' ')
    requires a == [] || x == [] || !p(a[|a| - 1]) || !p(x[0])
    ensures CollapseRuns(a + x, p) == CollapseRuns(a, p) + CollapseRuns(x, p)
    decreases |a|
  {
    if |a| == 0 {
      assert a + x == x;
    } else if !p(a[0]) {
      CollapseRunsAppend(a[1..], x, p);
      CollapseRunsKeepStep(a, x, p);
    } else if RunLength(a, p) == |a| {
      CollapseRunsWholeRun(a, x, p);
    } else {
      var n := RunLength(a, p);
      CollapseRunsAppend(a[n..], x, p);
      CollapseRunsSkipStep(a, x, p);
    }
  }

  /** The step of `CollapseRunsAppend` past a kept first character. */
  lemma {:induction false} CollapseRunsKeepStep(a: string, x: string, p: char -> bool)
    requires p(' ') && |a| > 0 && !p(a[0])
    requires CollapseRuns(a[1..] + x, p) == CollapseRuns(a[1..], p) + CollapseRuns(x, p)
    ensures CollapseRuns(a + x, p) == CollapseRuns(a, p) + CollapseRuns(x, p)
  {
    CollapseRunsKeep(a, x, p);
  }

  /** The step of `CollapseRunsAppend` past a leading run that ends inside
      `a`. */
  lemma {:induction false} CollapseRunsSkipStep(a: string, x: string, p: char -> bool)
    requires p(' ') && |a| > 0 && p(a[0]) && RunLength(a, p) < |a|
    requires var n := RunLength(a, p);
             CollapseRuns(a[n..] + x, p) == CollapseRuns(a[n..], p) + CollapseRuns(x, p)
    ensures CollapseRuns(a + x, p) == CollapseRuns(a, p) + CollapseRuns(x, p)
  {
    CollapseRunsSkip(a, x, p);
  }

  /** A first character outside the class is kept, here and in any extension. */
  lemma {:induction false} CollapseRunsKeep(a: string, x: string, p: char -> bool)
    requires p(' ') && |a| > 0 && !p(a[0])
    ensures CollapseRuns(a + x, p) == [a[0]] + CollapseRuns(a[1..] + x, p)
    ensures CollapseRuns(a, p) == [a[0]] + CollapseRuns(a[1..], p)
  {
    var s := a + x;
    assert s[0] == a[0] && s[1..] == a[1..] + x;
  }

  /** Text that is one run, then text that does not start with the class. */
  lemma {:induction false} CollapseRunsWholeRun(a: string, x: string, p: char -> bool)
    requires p(' ') && |a| > 0 && RunLength(a, p) == |a|
    requires x == [] || !p(x[0])
    ensures CollapseRuns(a + x, p) == CollapseRuns(a, p) + CollapseRuns(x, p)
  {
    var s := a + x;
    RunLengthIs(s, p, |a|);
    assert SkipRun(s, p) == x;
    CollapseRunsOfRun(a, p);
  }

  /** A leading run that ends inside `a` is skipped, here and in any
      extension. */
  lemma {:induction false} CollapseRunsSkip(a: string, x: string, p: char -> bool)
    requires p(' ') && |a| > 0 && p(a[0]) && RunLength(a, p) < |a|
    ensures var n := RunLength(a, p);
            && CollapseRuns(a + x, p) == [' '] + CollapseRuns(a[n..] + x, p)
            && CollapseRuns(a, p) == [' '] + CollapseRuns(a[n..], p)
  {
    var s, n := a + x, RunLength(a, p);
    RunLengthIs(s, p, n);
    assert SkipRun(s, p) == a[n..] + x;
  }

  /** A run of `p` characters between two characters outside the class becomes
      exactly one space, and the text on either side collapses on its own. */
  lemma {:induction false} CollapseRunsAround(a: string, run: string, b: string, p: char -> bool)
    requires p(' ')
    requires |run| > 0 && forall i :: 0 <= i < |run| ==> p(run[i])
    requires a == [] || !p(a[|a| - 1])
    requires b == [] || !p(b[0])
    ensures CollapseRuns(a + run + b, p) == CollapseRuns(a, p) + " " + CollapseRuns(b, p)
  {
    RunThen(run, b, p);
    assert a + run + b == a + (run + b);
    CollapseRunsAppend(a, run + b, p);
  }

  /** A run followed by text that does not start with the class: one space,
      then that text collapsed. */
  lemma {:induction false} RunThen(run: string, b: string, p: char -> bool)
    requires p(' ')
    requires |run| > 0 && forall i :: 0 <= i < |run| ==> p(run[i])
    requires b == [] || !p(b[0])
    ensures CollapseRuns(run + b, p) == " " + CollapseRuns(b, p)
  {
    CollapseRunsAppend(run, b, p);
    CollapseRunsOfRun(run, p);
  }

  /** A last character outside the class survives collapsing. */
  lemma {:induction false} CollapseRunsLast(s: string, p: char -> bool)
    requires p(' ')
    requires |s| > 0 && !p(s[|s| - 1])
    ensures |CollapseRuns(s, p)| > 0
    ensures CollapseRuns(s, p)[|CollapseRuns(s, p)| - 1] == s[|s| - 1]
  {
    var c := s[|s| - 1];
    assert s == s[..|s| - 1] + [c];
    CollapseRunsAppend(s[..|s| - 1], [c], p);
    assert CollapseRuns([c], p) == [c];
  }

  /** A slice keeps the two properties `CollapseRuns` establishes. */
  lemma SliceKeepsCollapsed(s: string, p: char -> bool, lo: nat, hi: nat)
    requires lo <= hi <= |s|
    requires forall i :: 0 <= i < |s| && p(s[i]) ==> s[i] == ' '
    requires forall i :: 0 <= i < |s| - 1 ==> !(p(s[i]) && p(s[i + 1]))
    ensures forall i :: 0 <= i < hi - lo && p(s[lo..hi][i]) ==> s[lo..hi][i] == ' '
    ensures forall i :: 0 <= i < hi - lo - 1 ==> !(p(s[lo..hi][i]) && p(s[lo..hi][i + 1]))
  {
    assert forall i :: 0 <= i < hi - lo ==> s[lo..hi][i] == s[lo + i];
  }

  /** Trimming keeps the two properties `CollapseRuns` establishes. */
  lemma TrimKeepsCollapsed(s: string, p: char -> bool)
    requires forall i :: 0 <= i < |s| && p(s[i]) ==> s[i] == ' '
    requires forall i :: 0 <= i < |s| - 1 ==> !(p(s[i]) && p(s[i + 1]))
    ensures forall i :: 0 <= i < |Trim(s)| && p(Trim(s)[i]) ==> Trim(s)[i] == ' '
    ensures forall i :: 0 <= i < |Trim(s)| - 1 ==> !(p(Trim(s)[i]) && p(Trim(s)[i + 1]))
  {
    var lo := TrimIsSlice(s);
    SliceKeepsCollapsed(s, p, lo, lo + |Trim(s)|);
  }

  // ---------------------------------------------------------------------------
  // Splitting on one character (`s.split('\n')`)
  // ---------------------------------------------------------------------------

  /** Index of the first `c` in `s`, if any. */
  function IndexOfChar(s: string, c: char): (r: Option<nat>)
    ensures r.None? ==> forall i :: 0 <= i < |s| ==> s[i] != c
    ensures r.Some? ==> (r.value < |s| && s[r.value] == c
                         && forall i :: 0 <= i < r.value ==> s[i] != c)
    decreases |s|
  {
    if |s| == 0 then None
    else if s[0] == c then Some(0)
    else match IndexOfChar(s[1..], c)
      case None => None
      case Some(i) => Some(i + 1)
  }

  /** No `c` anywhere in `s`. */
  predicate Lacks(s: string, c: char)
  {
    forall i :: 0 <= i < |s| ==> s[i] != c
  }

  /** `String.prototype.split` with a one-character separator: the text up to
      the first `c`, then the split of the rest; always at least one piece. */
  function SplitOn(s: string, c: char): (r: seq<string>)
    ensures |r| >= 1
    decreases |s|
  {
    match IndexOfChar(s, c)
    case None => [s]
    case Some(i) => [s[..i]] + SplitOn(s[i + 1..], c)
  }

  /** Joining the pieces with the separator gives the text back. */
  lemma {:induction false} SplitOnJoin(s: string, c: char)
    ensures Join(SplitOn(s, c), [c]) == s
    decreases |s|
  {
    match IndexOfChar(s, c)
    case None =>
    case Some(i) =>
      SplitOnJoin(s[i + 1..], c);
      JoinCons(s[..i], SplitOn(s[i + 1..], c), [c]);
      assert s == s[..i] + [c] + s[i + 1..];
  }

  /** No piece holds the separator. */
  lemma {:induction false} SplitOnLacks(s: string, c: char)
    ensures forall k :: 0 <= k < |SplitOn(s, c)| ==> Lacks(SplitOn(s, c)[k], c)
    decreases |s|
  {
    match IndexOfChar(s, c)
    case None =>
    case Some(i) =>
      SplitOnLacks(s[i + 1..], c);
      var rest := SplitOn(s[i + 1..], c);
      var r := SplitOn(s, c);
      assert r == [s[..i]] + rest;
      forall k | 0 <= k < |r|
        ensures Lacks(r[k], c)
      {
        if k == 0 {
          assert r[k] == s[..i];
        } else {
          assert r[k] == rest[k - 1];
        }
      }
  }

  // ---------------------------------------------------------------------------
  // Substring search (`includes`, first-occurrence `replace`)
  // ---------------------------------------------------------------------------

  predicate OccursAt(s: string, pat: string, i: int)
  {
    0 <= i && i + |pat| <= |s| && s[i..i + |pat|] == pat
  }

  function IndexOfFrom(s: string, pat: string, from: nat): (r: Option<nat>)
    ensures r.None? ==> forall i :: from <= i ==> !OccursAt(s, pat, i)
    ensures r.Some? ==> (from <= r.value && OccursAt(s, pat, r.value)
                         && forall i :: from <= i < r.value ==> !OccursAt(s, pat, i))
    decreases |s| - from
  {
    if from + |pat| > |s| then None
    else if s[from..from + |pat|] == pat then Some(from)
    else IndexOfFrom(s, pat, from + 1)
  }

  /** `String.prototype.indexOf`: the first occurrence of `pat`. */
  function IndexOf(s: string, pat: string): (r: Option<nat>)
    ensures r.None? <==> forall i :: !OccursAt(s, pat, i)
    ensures r.Some? ==> (OccursAt(s, pat, r.value)
                         && forall i :: 0 <= i < r.value ==> !OccursAt(s, pat, i))
  {
    IndexOfFrom(s, pat, 0)
  }

  predicate Contains(s: string, pat: string)
  {
    IndexOf(s, pat).Some?
  }

  predicate StartsWith(s: string, prefix: string)
  {
    |prefix| <= |s| && s[..|prefix|] == prefix
  }
}
