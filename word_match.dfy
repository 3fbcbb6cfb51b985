/** The test `new RegExp("\\b" + p + "\\b", "i").test(name)` that the edit form uses to filter
    sub-categories, for a parent `p` without regular-expression metacharacters: `p` occurs in
    `name`, compared case-insensitively, with a word boundary on both sides. */
module WordMatch {
  import opened JsValues

  /** Case-insensitive equality of two characters (ASCII). */
  predicate SameLetter(a: char, b: char) { LowerAscii(a) == LowerAscii(b) }

  /** `p` occurs in `s` at `i`, ignoring case. */
  predicate OccursAt(p: string, s: string, i: int) {
    0 <= i && i + |p| <= |s| && forall k :: 0 <= k < |p| ==> SameLetter(s[i + k], p[k])
  }

  /** The character at `k` is a word character; out of range counts as a non-word character. */
  predicate IsWordAt(s: string, k: int) { 0 <= k < |s| && IsWordChar(s[k]) }

  /** `\b` at position `k`: between a word character and a non-word character. */
  predicate BoundaryAt(s: string, k: int) { IsWordAt(s, k - 1) != IsWordAt(s, k) }

  /** `\bp\b` matches at `i`. */
  predicate WholeWordAt(p: string, s: string, i: int) {
    OccursAt(p, s, i) && BoundaryAt(s, i) && BoundaryAt(s, i + |p|)
  }

  /** What the regular expression accepts: a match at some position. */
  ghost predicate WholeWordMatch(p: string, s: string) {
    exists i :: WholeWordAt(p, s, i)
  }

  /** A left-to-right scan for a match at `i` or later, as the regex engine tries positions. */
  function MatchFrom(p: string, s: string, i: nat): (b: bool)
    requires i <= |s| + 1
    ensures b <==> exists j :: i <= j && WholeWordAt(p, s, j)
    decreases |s| + 1 - i
  {
    if i + |p| > |s| then false
    else if WholeWordAt(p, s, i) then true
    else MatchFrom(p, s, i + 1)
  }

  /** The regular-expression test. */
  function Matches(p: string, s: string): (b: bool)
    ensures b <==> WholeWordMatch(p, s)
  {
    MatchFrom(p, s, 0)
  }

  lemma MatchExamples()
    ensures Matches("ring", "Gold Ring")
    ensures !Matches("ring", "Earrings")
  {
    assert WholeWordAt("ring", "Gold Ring", 5);
    var p, s := "ring", "Earrings";
    forall i ensures !WholeWordAt(p, s, i) {
      if 0 <= i && i + 4 <= 8 {
        if i == 3 {
          assert !BoundaryAt(s, 7);
        } else if i == 2 {
          assert !SameLetter(s[3], p[1]);
        } else {
          assert !SameLetter(s[i], p[0]);
        }
      }
    }
  }

  // ---------------------------------------------------------------- categories.filter

  /** An entry of the category option list: its `name` and its `parentCategory`. */
  datatype CategoryOption = CategoryOption(name: string, parentCategory: string)

  /** `s` is `t` with some elements left out, order kept. */
  ghost predicate IsSubsequence<T>(s: seq<T>, t: seq<T>)
    decreases |t|
  {
    if s == [] then true
    else if t == [] then false
    else if s[0] == t[0] then IsSubsequence(s[1..], t[1..])
    else IsSubsequence(s, t[1..])
  }

  /** `categories.filter((category) => regex.test(category.name))`. */
  function FilterByWord(p: string, categories: seq<CategoryOption>): (r: seq<CategoryOption>)
    ensures forall c :: c in r <==> c in categories && WholeWordMatch(p, c.name)
    ensures forall c :: multiset(r)[c] == if WholeWordMatch(p, c.name) then multiset(categories)[c] else 0
    ensures IsSubsequence(r, categories)
  {
    if categories == [] then []
    else
      var rest := FilterByWord(p, categories[1..]);
      assert categories == [categories[0]] + categories[1..];
      if Matches(p, categories[0].name) then
        assert ([categories[0]] + rest)[1..] == rest;
        [categories[0]] + rest
      else
        assert rest != [] ==> rest[0] != categories[0];
        rest
  }
}
