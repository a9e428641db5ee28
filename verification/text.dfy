/**
  The two string operations the search box uses: lower-casing (restricted to
  ASCII letters) and the substring test of `includes`.
 */
module Text {

  /** ASCII lower-casing of one character; every other character is kept. */
  function LowerChar(c: char): (d: char)
    ensures 'A' <= c <= 'Z' ==> 'a' <= d <= 'z' && d as int - c as int == 32
    ensures !('A' <= c <= 'Z') ==> d == c
    ensures !('A' <= d <= 'Z')
  {
    if 'A' <= c <= 'Z' then (c as int + 32) as char else c
  }

  /** Lower-cases a whole string, character by character. */
  function Lower(s: string): (r: string)
    ensures |r| == |s|
    ensures forall i :: 0 <= i < |s| ==> r[i] == LowerChar(s[i])
  {
    seq(|s|, i requires 0 <= i < |s| => LowerChar(s[i]))
  }

  /** Lower-casing an already lower-cased string changes nothing. */
  lemma LowerIdempotent(s: string)
    ensures Lower(Lower(s)) == Lower(s)
  {
  }

  predicate IsPrefix(pat: string, text: string)
  {
    |pat| <= |text| && text[..|pat|] == pat
  }

  /** `pat` occurs in `text` at position `i`. */
  ghost predicate OccursAt(text: string, pat: string, i: int)
  {
    0 <= i && i + |pat| <= |text| && text[i..i + |pat|] == pat
  }

  /** An occurrence in the tail is an occurrence one position later in the whole. */
  lemma OccursInTail(text: string, pat: string)
    requires |text| > 0
    ensures (exists i :: OccursAt(text[1..], pat, i)) <==> (exists i :: 1 <= i && OccursAt(text, pat, i))
  {
    if exists i :: OccursAt(text[1..], pat, i) {
      var i :| OccursAt(text[1..], pat, i);
      assert text[1..][i..i + |pat|] == text[i + 1..i + 1 + |pat|];
      assert OccursAt(text, pat, i + 1);
    }
    if exists i :: 1 <= i && OccursAt(text, pat, i) {
      var i :| 1 <= i && OccursAt(text, pat, i);
      assert text[1..][i - 1..i - 1 + |pat|] == text[i..i + |pat|];
      assert OccursAt(text[1..], pat, i - 1);
    }
  }

  /**
    The substring test of `includes`: `pat` occurs somewhere in `text` (the
    empty pattern occurs everywhere).
   */
  function Contains(text: string, pat: string): (found: bool)
    ensures found <==> exists i :: OccursAt(text, pat, i)
    decreases |text|
  {
    if IsPrefix(pat, text) then
      assert OccursAt(text, pat, 0);
      true
    else if |text| == 0 then
      false
    else
      OccursInTail(text, pat);
      Contains(text[1..], pat)
  }

  /** The empty string occurs in every string. */
  lemma ContainsEmpty(text: string)
    ensures Contains(text, "")
  {
  }
}
