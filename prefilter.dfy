/**
 * The textual prefilter: a file is parsed and rewritten only if its text
 * contains "invariant" in any letter case (the `/invariant/i` test).
 *
 * A case-insensitive JavaScript regular expression without the `u` flag
 * compares characters by their upper-case forms but never lets a non-ASCII
 * character match an ASCII one, so for this all-ASCII pattern it is exactly
 * ASCII case folding.
 */
module Prefilter {

  const Keyword := "invariant"

  /** ASCII lower-casing; every other character is left as it is. */
  function LowerAscii(c: char): char
  {
    if 'A' <= c <= 'Z' then (c as int + 32) as char else c
  }

  /** `a` and `b` have the same length and agree up to ASCII letter case. */
  predicate EqualIgnoringCase(a: string, b: string)
  {
    |a| == |b| && forall k :: 0 <= k < |a| ==> LowerAscii(a[k]) == LowerAscii(b[k])
  }

  /** `pat` occurs at position `i` of `s`, up to ASCII letter case. */
  predicate OccursAt(s: string, pat: string, i: int)
  {
    0 <= i && i + |pat| <= |s| && EqualIgnoringCase(s[i..i + |pat|], pat)
  }

  /** Scans `s` from the left for an occurrence of `pat`, ignoring ASCII letter case. */
  function ContainsIgnoringCase(s: string, pat: string): (r: bool)
    ensures r <==> exists i :: OccursAt(s, pat, i)
    decreases |s|
  {
    if |s| < |pat| then
      assert forall i :: !OccursAt(s, pat, i);
      false
    else if EqualIgnoringCase(s[..|pat|], pat) then
      assert OccursAt(s, pat, 0);
      true
    else
      var rest := ContainsIgnoringCase(s[1..], pat);
      ShiftOccurrence(s, pat);
      rest
  }

  /** An occurrence in `s` is at position 0 or is an occurrence in `s[1..]` shifted by one. */
  lemma ShiftOccurrence(s: string, pat: string)
    requires |s| >= 1
    ensures (exists i :: OccursAt(s, pat, i)) <==> OccursAt(s, pat, 0) || exists j :: OccursAt(s[1..], pat, j)
  {
    forall j | OccursAt(s[1..], pat, j) ensures OccursAt(s, pat, j + 1) {
      assert s[1..][j..j + |pat|] == s[j + 1..j + 1 + |pat|];
    }
    forall i | OccursAt(s, pat, i) && i >= 1 ensures OccursAt(s[1..], pat, i - 1) {
      assert s[1..][i - 1..i - 1 + |pat|] == s[i..i + |pat|];
    }
  }

  /** The `/invariant/i` test of the source text. */
  predicate MentionsInvariant(code: string)
  {
    ContainsIgnoringCase(code, Keyword)
  }
}
