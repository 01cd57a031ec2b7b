/** The form of the external-letter page: `handleChange` stores every field as
    typed, except the content, whose runs of tabs and spaces become one space
    and which is then trimmed. */
module ExternalDocsPage {
  import opened Strings
  import opened Layout

  /** The character class `[\t ]`. */
  predicate IsSpaceOrTab(c: char)
  {
    c == '\t' || c == ' '
  }

  /** `value.replace(/[\t ]+/g, ' ').trim()`: no tab, no two spaces in a row,
      no white space at either end; line breaks and every other character are
      kept in order, and only white space at the two ends is lost. */
  function CleanContent(value: string): (r: string)
    ensures IsTrimmed(r)
    ensures forall i :: 0 <= i < |r| ==> r[i] != '\t'
    ensures forall i :: 0 <= i < |r| - 1 ==> !(r[i] == ' ' && r[i + 1] == ' ')
    ensures RemoveIf(r, IsSpaceOrTab) == Trim(RemoveIf(value, IsSpaceOrTab))
  {
    var collapsed := CollapseRuns(value, IsSpaceOrTab);
    CollapseRunsSpaces(value, IsSpaceOrTab);
    CollapseRunsNoAdjacent(value, IsSpaceOrTab);
    CollapseRunsKeepsOthers(value, IsSpaceOrTab);
    TrimKeepsCollapsed(collapsed, IsSpaceOrTab);
    TrimRemoveIf(collapsed, IsSpaceOrTab);
    Trim(collapsed)
  }

  /** Cleaning content that is already clean changes nothing. */
  lemma CleanContentIdempotent(value: string)
    ensures CleanContent(CleanContent(value)) == CleanContent(value)
  {
    var r := CleanContent(value);
    CollapseRunsFixed(r, IsSpaceOrTab);
  }

  /** A run of tabs and spaces between two visible characters becomes exactly
      one space, and the text on either side is cleaned on its own. */
  lemma {:induction false} CleanContentAround(a: string, run: string, b: string)
    requires |a| > 0 && !IsJsSpace(a[|a| - 1])
    requires |run| > 0 && forall i :: 0 <= i < |run| ==> IsSpaceOrTab(run[i])
    requires |b| > 0 && !IsJsSpace(b[0])
    ensures CleanContent(a + run + b) == CleanContent(a) + " " + CleanContent(b)
  {
    CollapseRunsAround(a, run, b, IsSpaceOrTab);
    CollapseRunsLast(a, IsSpaceOrTab);
    TrimAround(CollapseRuns(a, IsSpaceOrTab), " ", CollapseRuns(b, IsSpaceOrTab));
  }

  /** Content that starts and ends with a visible character is only
      collapsed: trimming has nothing to remove, and line breaks inside it
      stay. */
  lemma {:induction false} CleanContentInner(value: string)
    requires |value| > 0 && !IsJsSpace(value[0]) && !IsJsSpace(value[|value| - 1])
    ensures CleanContent(value) == CollapseRuns(value, IsSpaceOrTab)
  {
    CollapseRunsLast(value, IsSpaceOrTab);
  }

  /** `handleChange`: the named field takes the new value, cleaned when it is
      the content; every other field keeps its value. */
  function HandleChange(form: Fields, name: string, value: string): (r: Fields)
    ensures r.Keys == form.Keys + {name}
    ensures Field(r, name) == if name == "content" then CleanContent(value) else value
    ensures forall k :: k != name ==> Field(r, k) == Field(form, k)
  {
    form[name := if name == "content" then CleanContent(value) else value]
  }
}
