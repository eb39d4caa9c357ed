/**
 * The few `str` operations the bill generator relies on: `startswith`,
 * `endswith`, the `in` operator and `str.replace` (left to right,
 * non-overlapping, every occurrence).
 */
module Text {

  predicate StartsWith(s: string, prefix: string) {
    |prefix| <= |s| && s[..|prefix|] == prefix
  }

  predicate EndsWith(s: string, suffix: string) {
    |suffix| <= |s| && s[|s| - |suffix|..] == suffix
  }

  /** Python's `k in s`; the empty string occurs in every string. */
  predicate Contains(s: string, k: string)
    decreases |s|
  {
    StartsWith(s, k) || (s != [] && Contains(s[1..], k))
  }

  /** Python's `s.replace(k, v)`. An empty `k` puts `v` before every character and at the end. */
  function Replace(s: string, k: string, v: string): string
    decreases |s|
  {
    if k == [] then
      (if s == [] then v else v + [s[0]] + Replace(s[1..], k, v))
    else if StartsWith(s, k) then
      v + Replace(s[|k|..], k, v)
    else if s == [] then
      []
    else
      [s[0]] + Replace(s[1..], k, v)
  }

  /** A string none of whose characters is `c` contains no string that starts with `c`. */
  lemma {:induction false} AbsentFirstCharacter(s: string, k: string)
    requires |k| > 0
    requires forall i :: 0 <= i < |s| ==> s[i] != k[0]
    ensures !Contains(s, k)
    decreases |s|
  {
    if s != [] {
      if |k| <= |s| {
        assert s[..|k|][0] == s[0];
      }
      AbsentFirstCharacter(s[1..], k);
    }
  }

  /** A string in which `k` does not occur is left as it is by the replacement. */
  lemma {:induction false} ReplaceAbsent(s: string, k: string, v: string)
    requires !Contains(s, k)
    ensures Replace(s, k, v) == s
    decreases |s|
  {
    if s != [] {
      ReplaceAbsent(s[1..], k, v);
      assert [s[0]] + s[1..] == s;
    }
  }

  /** Unfolds one step of the scan at a position where `k` does not start. */
  lemma ReplaceSkip(s: string, k: string, v: string)
    requires |k| > 0 && s != [] && !StartsWith(s, k)
    ensures Replace(s, k, v) == [s[0]] + Replace(s[1..], k, v)
  {
  }

  lemma TailOfConcatenation(a: string, k: string, b: string)
    requires a != []
    ensures (a + k + b)[0] == a[0] && (a + k + b)[1..] == a[1..] + k + b
  {
  }

  /**
   * Replacement works left to right: the text `a` before the first
   * occurrence is kept, that occurrence becomes `v`, and the scan resumes
   * after it, so occurrences do not overlap. The occurrence after `a` is
   * the first one when `k` does not occur in `a` followed by all but the
   * last character of `k`.
   */
  lemma {:induction false} ReplaceFirstOccurrence(a: string, k: string, b: string, v: string)
    requires |k| > 0 && !Contains(a + k[..|k| - 1], k)
    ensures Replace(a + k + b, k, v) == a + v + Replace(b, k, v)
    decreases |a|
  {
    var s := a + k + b;
    if a == [] {
      assert s == k + b;
      assert s[..|k|] == k && s[|k|..] == b;
    } else {
      var w := a + k[..|k| - 1];
      assert !StartsWith(s, k) by {
        assert s[..|k|] == w[..|k|];
      }
      assert w[1..] == a[1..] + k[..|k| - 1];
      var a' := a[1..];
      ReplaceFirstOccurrence(a', k, b, v);
      ReplaceSkip(s, k, v);
      TailOfConcatenation(a, k, b);
      calc {
        Replace(s, k, v);
        [a[0]] + Replace(a' + k + b, k, v);
        [a[0]] + (a' + v + Replace(b, k, v));
        { assert [a[0]] + a' == a; }
        a + v + Replace(b, k, v);
      }
    }
  }
}
