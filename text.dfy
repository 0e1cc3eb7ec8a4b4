/** Substring search on class-name strings: String.prototype.search with a
    regular expression made only of literal characters, such as
    /selected-item/. Indices count characters (Unicode scalar values), not
    the UTF-16 code units JavaScript counts; the toggle only asks whether
    the result is at least 0, which does not depend on the unit. */
module Text {

  /** p occurs in s starting at index i. */
  predicate OccursAt(s: string, p: string, i: int)
  {
    0 <= i && i + |p| <= |s| && s[i..i + |p|] == p
  }

  /** p occurs somewhere in s. */
  ghost predicate Occurs(s: string, p: string)
  {
    exists i :: OccursAt(s, p, i)
  }

  /** An occurrence in s[1..] is an occurrence in s one place further on, and back. */
  lemma OccursShift(s: string, p: string, j: int)
    requires |s| >= 1 && j >= 0
    ensures OccursAt(s[1..], p, j) <==> OccursAt(s, p, j + 1)
  {
  }

  /** The index of the first occurrence of p in s, or -1 when there is none. */
  function Search(s: string, p: string): (r: int)
    ensures r == -1 || OccursAt(s, p, r)
    ensures forall j :: OccursAt(s, p, j) ==> 0 <= r <= j
    decreases |s|
  {
    if |s| < |p| then -1
    else if s[..|p|] == p then 0
    else
      var k := Search(s[1..], p);
      assert forall j :: OccursAt(s, p, j) ==> j >= 1 && OccursAt(s[1..], p, j - 1) by {
        forall j | OccursAt(s, p, j) ensures j >= 1 && OccursAt(s[1..], p, j - 1) {
          assert j != 0;
          OccursShift(s, p, j - 1);
        }
      }
      if k == -1 then -1
      else
        OccursShift(s, p, k);
        k + 1
  }

  /** Search finds something exactly when the pattern occurs. */
  lemma SearchFindsOccurrence(s: string, p: string)
    ensures Search(s, p) >= 0 <==> Occurs(s, p)
  {
  }

  /** A pattern placed between any two strings is found by Search. */
  lemma {:induction false} SearchFindsEmbedded(pre: string, p: string, post: string)
    ensures 0 <= Search(pre + p + post, p) <= |pre|
  {
    var s := pre + p + post;
    assert s[|pre|..|pre| + |p|] == p;
    assert OccursAt(s, p, |pre|);
  }
}
