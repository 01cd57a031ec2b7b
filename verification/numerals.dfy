/** Arabic-to-Thai digit conversion of the internal memorandum
    (`convertToThaiNumber` and its per-run use on the form fields). */
module Numerals {
  import opened Strings

  /** JavaScript `\d`: only the ASCII digits 0-9. */
  predicate IsAsciiDigit(c: char)
  {
    '0' <= c <= '9'
  }

  /** The Thai digits U+0E50 (๐) .. U+0E59 (๙). */
  predicate IsThaiDigit(c: char)
  {
    0x0E50 <= c as int <= 0x0E59
  }

  function AsciiValue(c: char): int
    requires IsAsciiDigit(c)
  {
    c as int - '0' as int
  }

  function ThaiValue(c: char): int
    requires IsThaiDigit(c)
  {
    c as int - 0x0E50
  }

  /** The entry of the `thaiNumbers` table selected by an ASCII digit. */
  function ToThaiDigit(c: char): (t: char)
    requires IsAsciiDigit(c)
    ensures IsThaiDigit(t) && ThaiValue(t) == AsciiValue(c)
  {
    (0x0E50 + AsciiValue(c)) as char
  }

  function ToAsciiDigit(t: char): (c: char)
    requires IsThaiDigit(t)
    ensures IsAsciiDigit(c) && AsciiValue(c) == ThaiValue(t)
  {
    ('0' as int + ThaiValue(t)) as char
  }

  function ConvertChar(c: char): char
  {
    if IsAsciiDigit(c) then ToThaiDigit(c) else c
  }

  /** `convertToThaiNumber`: every ASCII digit becomes the Thai digit of the same
      value; every other character, Thai digits included, is kept. */
  function ToThaiDigits(s: string): (r: string)
    ensures |r| == |s|
    ensures forall i :: 0 <= i < |s| && IsAsciiDigit(s[i]) ==>
              IsThaiDigit(r[i]) && ThaiValue(r[i]) == AsciiValue(s[i])
    ensures forall i :: 0 <= i < |s| && !IsAsciiDigit(s[i]) ==> r[i] == s[i]
    decreases |s|
  {
    if |s| == 0 then [] else [ConvertChar(s[0])] + ToThaiDigits(s[1..])
  }

  /** The reverse mapping, Thai digits back to ASCII digits. */
  function ToAsciiDigits(s: string): (r: string)
    ensures |r| == |s|
    ensures forall i :: 0 <= i < |s| && IsThaiDigit(s[i]) ==>
              IsAsciiDigit(r[i]) && AsciiValue(r[i]) == ThaiValue(s[i])
    ensures forall i :: 0 <= i < |s| && !IsThaiDigit(s[i]) ==> r[i] == s[i]
    decreases |s|
  {
    if |s| == 0 then []
    else [if IsThaiDigit(s[0]) then ToAsciiDigit(s[0]) else s[0]] + ToAsciiDigits(s[1..])
  }

  predicate NoAsciiDigit(s: string)
  {
    forall i :: 0 <= i < |s| ==> !IsAsciiDigit(s[i])
  }

  predicate NoThaiDigit(s: string)
  {
    forall i :: 0 <= i < |s| ==> !IsThaiDigit(s[i])
  }

  /** The result holds no ASCII digit, so converting it again changes nothing. */
  lemma ToThaiDigitsIdempotent(s: string)
    ensures NoAsciiDigit(ToThaiDigits(s))
    ensures ToThaiDigits(ToThaiDigits(s)) == ToThaiDigits(s)
  {
  }

  /** On text without Thai digits the conversion is undone by `ToAsciiDigits`. */
  lemma {:induction false} ThaiThenAscii(s: string)
    requires NoThaiDigit(s)
    ensures ToAsciiDigits(ToThaiDigits(s)) == s
    decreases |s|
  {
    if |s| > 0 {
      var c := s[0];
      assert ToThaiDigits(s) == [ConvertChar(c)] + ToThaiDigits(s[1..]);
      assert NoThaiDigit(s[1..]) by {
        forall j | 0 <= j < |s| - 1
          ensures !IsThaiDigit(s[1..][j])
        {
          assert s[1..][j] == s[j + 1];
        }
      }
      ThaiThenAscii(s[1..]);
      AsciiDigitsCons(ConvertChar(c), ToThaiDigits(s[1..]));
      if IsAsciiDigit(c) {
        AsciiDigitRoundTrip(c);
      }
      assert s == [c] + s[1..];
    }
  }

  /** On text without ASCII digits `ToAsciiDigits` is undone by the conversion. */
  lemma {:induction false} AsciiThenThai(s: string)
    requires NoAsciiDigit(s)
    ensures ToThaiDigits(ToAsciiDigits(s)) == s
    decreases |s|
  {
    if |s| > 0 {
      var c := s[0];
      var a := if IsThaiDigit(c) then ToAsciiDigit(c) else c;
      assert ToAsciiDigits(s) == [a] + ToAsciiDigits(s[1..]);
      assert NoAsciiDigit(s[1..]) by {
        forall j | 0 <= j < |s| - 1
          ensures !IsAsciiDigit(s[1..][j])
        {
          assert s[1..][j] == s[j + 1];
        }
      }
      AsciiThenThai(s[1..]);
      ThaiDigitsCons(a, ToAsciiDigits(s[1..]));
      if IsThaiDigit(c) {
        ThaiDigitRoundTrip(c);
      }
      assert s == [c] + s[1..];
    }
  }

  /** The conversion of a string that starts with `c`. */
  lemma {:induction false} ThaiDigitsCons(c: char, x: string)
    ensures ToThaiDigits([c] + x) == [ConvertChar(c)] + ToThaiDigits(x)
  {
    assert ([c] + x)[1..] == x;
  }

  /** The reverse mapping of a string that starts with `t`. */
  lemma {:induction false} AsciiDigitsCons(t: char, x: string)
    ensures ToAsciiDigits([t] + x)
            == [if IsThaiDigit(t) then ToAsciiDigit(t) else t] + ToAsciiDigits(x)
  {
    assert ([t] + x)[1..] == x;
  }

  lemma AsciiDigitRoundTrip(c: char)
    requires IsAsciiDigit(c)
    ensures ToAsciiDigit(ToThaiDigit(c)) == c
  {
  }

  lemma ThaiDigitRoundTrip(t: char)
    requires IsThaiDigit(t)
    ensures ToThaiDigit(ToAsciiDigit(t)) == t
  {
  }

  lemma ToThaiDigitsAppend(a: string, b: string)
    ensures ToThaiDigits(a + b) == ToThaiDigits(a) + ToThaiDigits(b)
  {
    var l, r := ToThaiDigits(a + b), ToThaiDigits(a) + ToThaiDigits(b);
    forall i | 0 <= i < |a + b|
      ensures l[i] == r[i]
    {
      if i < |a| {
        assert (a + b)[i] == a[i];
      } else {
        assert (a + b)[i] == b[i - |a|];
      }
      if IsAsciiDigit((a + b)[i]) {
        assert ThaiValue(l[i]) == ThaiValue(r[i]);
      }
    }
  }

  /** `s.replace(/\d+/g, match => convertToThaiNumber(match))`: each maximal run
      of ASCII digits is converted on its own, the text between runs is copied. */
  function ConvertDigitRuns(s: string): (r: string)
    decreases |s|
  {
    if |s| == 0 then []
    else if IsAsciiDigit(s[0]) then
      var n := RunLength(s, IsAsciiDigit);
      ToThaiDigits(s[..n]) + ConvertDigitRuns(s[n..])
    else [s[0]] + ConvertDigitRuns(s[1..])
  }

  /** Converting run by run is the same as converting the whole string. */
  lemma {:induction false} ConvertDigitRunsWhole(s: string)
    ensures ConvertDigitRuns(s) == ToThaiDigits(s)
    decreases |s|
  {
    if |s| > 0 {
      var n := if IsAsciiDigit(s[0]) then RunLength(s, IsAsciiDigit) else 1;
      assert s == s[..n] + s[n..];
      ConvertDigitRunsWhole(s[n..]);
      ToThaiDigitsAppend(s[..n], s[n..]);
    }
  }

  /** How the internal memorandum prints a numeral-bearing field:
      `value ? value.replace(/\d+/g, ...) : placeholder`. */
  function NumeralField(value: string, placeholder: string): (r: string)
    ensures value == "" ==> r == placeholder
    ensures value != "" ==> r == ToThaiDigits(value)
  {
    ConvertDigitRunsWhole(value);
    if value == "" then placeholder else ConvertDigitRuns(value)
  }

  lemma ExampleYear()
    ensures ToThaiDigits("2569") == "๒๕๖๙"
  {
  }

  lemma ExampleDocumentNumber()
    ensures ConvertDigitRuns("12/69") == "๑๒/๖๙"
  {
    ConvertDigitRunsWhole("12/69");
  }
}
