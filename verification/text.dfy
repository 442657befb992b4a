/**
 The substring test the classifier relies on: Python's `pat in s` for
 strings. `OccursIn` is the declarative meaning, `Contains` the executable
 left-to-right scan, and the contract of `Contains` ties the two together.
 */
module Text {

  /** `pat` appears in `s` as the contiguous block starting at offset `i`. */
  predicate OccursAt(pat: string, s: string, i: int)
  {
    0 <= i && i + |pat| <= |s| && s[i..i + |pat|] == pat
  }

  /** `pat` appears as a contiguous block of `s`, starting at some offset. */
  ghost predicate OccursIn(pat: string, s: string)
  {
    exists i :: OccursAt(pat, s, i)
  }

  /** When `pat` is not a prefix of `s`, it occurs in `s` exactly when it
      occurs in `s` with its first character dropped. */
  lemma {:induction false} OccursInTail(pat: string, s: string)
    requires |pat| <= |s| && s[..|pat|] != pat
    ensures OccursIn(pat, s) <==> OccursIn(pat, s[1..])
  {
    if OccursIn(pat, s) {
      var i :| OccursAt(pat, s, i);
      assert s[0..|pat|] == s[..|pat|];
      assert i != 0;
      assert s[1..][i - 1..i - 1 + |pat|] == s[i..i + |pat|];
      assert OccursAt(pat, s[1..], i - 1);
    }
    if OccursIn(pat, s[1..]) {
      var j :| OccursAt(pat, s[1..], j);
      assert s[j + 1..j + 1 + |pat|] == s[1..][j..j + |pat|];
      assert OccursAt(pat, s, j + 1);
    }
  }

  /** Python's `pat in s`: true iff `pat` occurs somewhere in `s`
      (the empty pattern occurs in every string). */
  function Contains(s: string, pat: string): (b: bool)
    ensures b <==> OccursIn(pat, s)
    decreases |s|
  {
    if |s| < |pat| then false
    else if s[..|pat|] == pat then
      assert OccursAt(pat, s, 0);
      true
    else
      OccursInTail(pat, s);
      Contains(s[1..], pat)
  }
}
