/** The completion-marker protocol of the to-do list: a task's display string
    begins with a three-character marker, "[ ]" for an open task and "[x]" for
    a done one, and toggling a task swaps the marker by a first-occurrence
    string replacement (Go's strings.Replace with a count of 1). */
module Markers {

  const Open: string := "[ ]"
  const Done: string := "[x]"

  /** strings.HasPrefix */
  predicate HasPrefix(s: string, p: string) {
    |p| <= |s| && s[..|p|] == p
  }

  /** The pattern `pat` occurs in `s` starting at position `j`. */
  predicate OccursAt(s: string, pat: string, j: int) {
    0 <= j && j + |pat| <= |s| && s[j..j + |pat|] == pat
  }

  /** A string that starts with one of the two markers. */
  predicate Marked(s: string) {
    HasPrefix(s, Open) || HasPrefix(s, Done)
  }

  /** A well-formed task line: a marker followed by a space and the description. */
  predicate WellFormed(s: string) {
    HasPrefix(s, Open + " ") || HasPrefix(s, Done + " ")
  }

  /** A well-formed line starts with the marker of its first four characters. */
  lemma WellFormedMarked(s: string)
    requires WellFormed(s)
    ensures Marked(s)
    ensures HasPrefix(s, Done) <==> HasPrefix(s, Done + " ")
  {
    assert s[..4][..3] == s[..3];
    assert s[1] == (if HasPrefix(s, Done + " ") then 'x' else ' ');
  }

  lemma {:induction false} OccursShift(s: string, pat: string, j: int)
    requires |s| > 0 && 0 <= j
    ensures OccursAt(s[1..], pat, j) <==> OccursAt(s, pat, j + 1)
  {
    if j + |pat| <= |s| - 1 {
      assert s[1..][j..j + |pat|] == s[j + 1..j + 1 + |pat|];
    }
  }

  /** strings.Index: the position of the first occurrence of `pat` in `s`, or -1. */
  function IndexOf(s: string, pat: string): (r: int)
    ensures r == -1 || OccursAt(s, pat, r)
    ensures r == -1 ==> forall j :: !OccursAt(s, pat, j)
    ensures forall j :: 0 <= j < r ==> !OccursAt(s, pat, j)
    decreases |s|
  {
    if |s| < |pat| then
      -1
    else if s[..|pat|] == pat then
      0
    else
      var k := IndexOf(s[1..], pat);
      assert !OccursAt(s, pat, 0);
      assert forall j :: 0 < j ==> (OccursAt(s, pat, j) <==> OccursAt(s[1..], pat, j - 1)) by {
        forall j | 0 < j ensures OccursAt(s, pat, j) <==> OccursAt(s[1..], pat, j - 1) {
          OccursShift(s, pat, j - 1);
        }
      }
      if k == -1 then -1 else k + 1
  }

  /** strings.Replace(s, pat, rep, 1): replace the first occurrence of `pat`
      by `rep`, or leave `s` alone when `pat` does not occur. */
  function ReplaceFirst(s: string, pat: string, rep: string): string {
    var j := IndexOf(s, pat);
    if j == -1 then s else s[..j] + rep + s[j + |pat|..]
  }

  /** Replacement happens exactly at the first occurrence. */
  lemma ReplaceFirstAt(s: string, pat: string, rep: string, j: int)
    requires OccursAt(s, pat, j)
    requires forall i :: 0 <= i < j ==> !OccursAt(s, pat, i)
    ensures ReplaceFirst(s, pat, rep) == s[..j] + rep + s[j + |pat|..]
  {
  }

  /** Without an occurrence the string is returned as it is. */
  lemma ReplaceFirstAbsent(s: string, pat: string, rep: string)
    requires forall j :: !OccursAt(s, pat, j)
    ensures ReplaceFirst(s, pat, rep) == s
  {
  }

  /** When `s` starts with `pat`, only that prefix is replaced. */
  lemma ReplaceFirstPrefix(s: string, pat: string, rep: string)
    requires HasPrefix(s, pat)
    ensures ReplaceFirst(s, pat, rep) == rep + s[|pat|..]
  {
    assert OccursAt(s, pat, 0);
    ReplaceFirstAt(s, pat, rep, 0);
  }

  /** The ctrl+c transform on one task string. */
  function Toggle(s: string): string {
    if HasPrefix(s, Done) then ReplaceFirst(s, Done, Open) else ReplaceFirst(s, Open, Done)
  }

  lemma ToggleDone(s: string)
    requires HasPrefix(s, Done)
    ensures Toggle(s) == Open + s[3..]
  {
    ReplaceFirstPrefix(s, Done, Open);
  }

  lemma ToggleOpen(s: string)
    requires HasPrefix(s, Open)
    ensures Toggle(s) == Done + s[3..]
  {
    assert !HasPrefix(s, Done) by { assert s[1] == ' ' != 'x'; }
    ReplaceFirstPrefix(s, Open, Done);
  }

  /** On a marked string toggling swaps the marker and changes nothing after it. */
  lemma ToggleKeepsSuffix(s: string)
    requires Marked(s)
    ensures |Toggle(s)| == |s|
    ensures HasPrefix(Toggle(s), Done) <==> HasPrefix(s, Open)
    ensures HasPrefix(Toggle(s), Open) <==> HasPrefix(s, Done)
    ensures forall i :: 3 <= i < |s| ==> Toggle(s)[i] == s[i]
  {
    if HasPrefix(s, Done) {
      ToggleDone(s);
      assert Toggle(s)[1] == ' ';
    } else {
      ToggleOpen(s);
      assert Toggle(s)[1] == 'x';
    }
  }

  /** Toggling is an involution on marked strings, whatever the description holds. */
  lemma ToggleInvolution(s: string)
    requires Marked(s)
    ensures Marked(Toggle(s))
    ensures Toggle(Toggle(s)) == s
  {
    if HasPrefix(s, Done) {
      ToggleDone(s);
      var t := Open + s[3..];
      assert HasPrefix(t, Open);
      ToggleOpen(t);
      assert t[3..] == s[3..];
      assert s == Done + s[3..];
    } else {
      ToggleOpen(s);
      var t := Done + s[3..];
      assert HasPrefix(t, Done);
      ToggleDone(t);
      assert t[3..] == s[3..];
      assert s == Open + s[3..];
    }
  }

  /** A well-formed task line stays well-formed. */
  lemma ToggleWellFormed(s: string)
    requires WellFormed(s)
    ensures WellFormed(Toggle(s))
  {
    WellFormedMarked(s);
    if HasPrefix(s, Done + " ") {
      ToggleDone(s);
      assert s[3] == ' ';
      assert Toggle(s)[..4] == Open + [s[3]];
    } else {
      ToggleOpen(s);
      assert s[3] == ' ';
      assert Toggle(s)[..4] == Done + [s[3]];
    }
  }

  /** A string that neither starts with "[x]" nor contains "[ ]" is left unchanged. */
  lemma ToggleUnmarked(s: string)
    requires !HasPrefix(s, Done)
    requires forall j :: !OccursAt(s, Open, j)
    ensures Toggle(s) == s
  {
    ReplaceFirstAbsent(s, Open, Done);
  }
}
