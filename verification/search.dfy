/**
 * The `std::string` searches the source relies on. Each returns the index of
 * the first match at or after `from`, or `None` where C++ returns `npos`; a
 * start position past the end finds nothing.
 *
 * The functions carry only the bounds of their result; what makes the result
 * the FIRST match is stated by the lemmas after each, so that the many proofs
 * that merely pass search results around are not burdened with it.
 */
module Search {
  import opened Wrappers

  /** `pat` occurs in `s` starting at index `i`. */
  predicate OccursAt(s: string, pat: string, i: int) {
    0 <= i && i + |pat| <= |s| && s[i..i + |pat|] == pat
  }

  /** `s.find(pat, from)`. */
  function Find(s: string, pat: string, from: nat): (r: Option<nat>)
    ensures r.Some? ==> from <= r.value && r.value + |pat| <= |s|
    decreases |s| + 1 - from
  {
    if from + |pat| > |s| then None
    else if OccursAt(s, pat, from) then Some(from)
    else Find(s, pat, from + 1)
  }

  /** What `Find` returns is an occurrence of the pattern. */
  lemma {:induction false} FindOccurs(s: string, pat: string, from: nat)
    requires Find(s, pat, from).Some?
    ensures OccursAt(s, pat, Find(s, pat, from).value)
    decreases |s| + 1 - from
  {
    if !OccursAt(s, pat, from) {
      FindOccurs(s, pat, from + 1);
    }
  }

  /** `Find` returns the first occurrence at or after `from`, and `None` only when there is none. */
  lemma {:induction false} FindIsFirst(s: string, pat: string, from: nat)
    ensures var r := Find(s, pat, from);
      && (r.Some? ==> OccursAt(s, pat, r.value) && forall j :: from <= j < r.value ==> !OccursAt(s, pat, j))
      && (r.None? ==> forall j :: from <= j ==> !OccursAt(s, pat, j))
    decreases |s| + 1 - from
  {
    if from + |pat| <= |s| && !OccursAt(s, pat, from) {
      FindIsFirst(s, pat, from + 1);
    }
  }

  /** `s.find_first_of(chars, from)`; with a single character it is also `s.find(c, from)`. */
  function FindFirstOf(s: string, chars: set<char>, from: nat): (r: Option<nat>)
    ensures r.Some? ==> from <= r.value < |s| && s[r.value] in chars
    decreases |s| - from
  {
    if from >= |s| then None
    else if s[from] in chars then Some(from)
    else FindFirstOf(s, chars, from + 1)
  }

  /** `FindFirstOf` returns the first index holding one of `chars`, and `None` only when there is none. */
  lemma {:induction false} FindFirstOfIsFirst(s: string, chars: set<char>, from: nat)
    ensures var r := FindFirstOf(s, chars, from);
      && (r.Some? ==> forall j :: from <= j < r.value ==> s[j] !in chars)
      && (r.None? ==> forall j :: from <= j < |s| ==> s[j] !in chars)
    decreases |s| - from
  {
    if from < |s| && s[from] !in chars {
      FindFirstOfIsFirst(s, chars, from + 1);
    }
  }

  /** The first index at or after `from` holding one of `chars` is the one `find_first_of` returns. */
  lemma FindFirstOfIs(s: string, chars: set<char>, from: nat, v: nat)
    requires from <= v < |s| && s[v] in chars
    requires forall j :: from <= j < v ==> s[j] !in chars
    ensures FindFirstOf(s, chars, from) == Some(v)
  {
    FindFirstOfIsFirst(s, chars, from);
  }

  /** `s.find_first_not_of(chars, from)`. */
  function FindFirstNotOf(s: string, chars: set<char>, from: nat): (r: Option<nat>)
    ensures r.Some? ==> from <= r.value < |s| && s[r.value] !in chars
    decreases |s| - from
  {
    if from >= |s| then None
    else if s[from] !in chars then Some(from)
    else FindFirstNotOf(s, chars, from + 1)
  }

  /** `FindFirstNotOf` skips exactly the leading run of `chars`. */
  lemma {:induction false} FindFirstNotOfIsFirst(s: string, chars: set<char>, from: nat)
    ensures var r := FindFirstNotOf(s, chars, from);
      && (r.Some? ==> forall j :: from <= j < r.value ==> s[j] in chars)
      && (r.None? ==> forall j :: from <= j < |s| ==> s[j] in chars)
    decreases |s| - from
  {
    if from < |s| && s[from] in chars {
      FindFirstNotOfIsFirst(s, chars, from + 1);
    }
  }

  /** The first index at or after `from` outside `chars` is the one `find_first_not_of` returns. */
  lemma FindFirstNotOfIs(s: string, chars: set<char>, from: nat, v: nat)
    requires from <= v < |s| && s[v] !in chars
    requires forall j :: from <= j < v ==> s[j] in chars
    ensures FindFirstNotOf(s, chars, from) == Some(v)
  {
    FindFirstNotOfIsFirst(s, chars, from);
  }

  /** When only characters of `chars` remain from `from` on, `find_first_not_of` finds nothing. */
  lemma FindFirstNotOfNone(s: string, chars: set<char>, from: nat)
    requires forall j :: from <= j < |s| ==> s[j] in chars
    ensures FindFirstNotOf(s, chars, from).None?
  {
    FindFirstNotOfIsFirst(s, chars, from);
  }
}
