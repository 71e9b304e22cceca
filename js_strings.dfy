/** The few JavaScript string operations the autoloader relies on, on `string` (= `seq<char>`). */
module JsStrings {

  /** `s.endsWith(suffix)`; also what the regular expression `/\.js$/` tests for the literal ".js". */
  predicate EndsWith(s: string, suffix: string)
  {
    |suffix| <= |s| && s[|s| - |suffix|..] == suffix
  }

  predicate StartsWith(s: string, prefix: string)
  {
    |prefix| <= |s| && s[..|prefix|] == prefix
  }

  /** `pat` occurs in `s` starting at index `i`. */
  predicate OccursAt(s: string, pat: string, i: nat)
  {
    i + |pat| <= |s| && s[i..i + |pat|] == pat
  }

  /** `i` is where `pat` occurs first in `s`. */
  predicate FirstOccurrence(s: string, pat: string, i: nat)
  {
    OccursAt(s, pat, i) && forall j: nat :: j < i ==> !OccursAt(s, pat, j)
  }

  /** `s.lastIndexOf(c)` for a one-character argument: the last index holding `c`, or -1 when there is none. */
  function LastIndexOf(s: string, c: char): (r: int)
    ensures -1 <= r < |s|
    ensures r >= 0 ==> s[r] == c
    ensures forall j :: r < j < |s| ==> s[j] != c
  {
    if s == [] then -1
    else if s[|s| - 1] == c then |s| - 1
    else LastIndexOf(s[..|s| - 1], c)
  }

  /**
   * `s.indexOf(pat, from)` for `from <= |s|`: the first occurrence of `pat` at or after `from`,
   * or -1. Larger `from`, which JavaScript clamps to `|s|`, is excluded; the autoloader only
   * searches from 0.
   */
  function IndexOfFrom(s: string, pat: string, from: nat): (r: int)
    requires from <= |s|
    ensures r == -1 || (from <= r && OccursAt(s, pat, r))
    ensures r >= 0 ==> forall j: nat :: from <= j < r ==> !OccursAt(s, pat, j)
    ensures r == -1 ==> forall j: nat :: from <= j ==> !OccursAt(s, pat, j)
    decreases |s| - from
  {
    if from + |pat| > |s| then -1
    else if s[from..from + |pat|] == pat then from
    else IndexOfFrom(s, pat, from + 1)
  }

  /**
   * `s.replace(pat, '')` with a string pattern: JavaScript removes the FIRST occurrence of `pat`,
   * wherever it is, and leaves `s` alone when there is none.
   */
  function RemoveFirst(s: string, pat: string): (r: string)
    ensures StartsWith(s, pat) ==> r == s[|pat|..]
    ensures (forall j: nat :: !OccursAt(s, pat, j)) ==> r == s
    ensures forall i: nat :: FirstOccurrence(s, pat, i) ==> r == s[..i] + s[i + |pat|..]
  {
    var i := IndexOfFrom(s, pat, 0);
    if i < 0 then s else s[..i] + s[i + |pat|..]
  }
}
