/**
 The one piece of string handling the converter does: taking the part of a
 conversion name before the first " to ", which the application writes as
 `choice.split(" to ")[0]`.
 */
module Text {
  import opened Wrappers

  /** The characters of `pat` from index `m` on appear in `s` from index `k + m` on. */
  predicate MatchesFrom(s: string, pat: string, k: nat, m: nat)
    requires k + |pat| <= |s| && m <= |pat|
    decreases |pat| - m
  {
    m == |pat| || (s[k + m] == pat[m] && MatchesFrom(s, pat, k, m + 1))
  }

  /** `pat` occurs in `s` starting at index `k`, compared character by character. */
  predicate OccursAt(s: string, pat: string, k: int) {
    0 <= k && k + |pat| <= |s| && MatchesFrom(s, pat, k, 0)
  }

  lemma {:induction false} MatchesFromIsSlice(s: string, pat: string, k: nat, m: nat)
    requires k + |pat| <= |s| && m <= |pat|
    ensures MatchesFrom(s, pat, k, m) <==> s[k + m..k + |pat|] == pat[m..]
    decreases |pat| - m
  {
    if m < |pat| {
      MatchesFromIsSlice(s, pat, k, m + 1);
      assert s[k + m..k + |pat|] == [s[k + m]] + s[k + m + 1..k + |pat|];
      assert pat[m..] == [pat[m]] + pat[m + 1..];
    }
  }

  /** The character-by-character test agrees with comparing the slice of `s` at `k` with `pat`. */
  lemma OccursAtIsSlice(s: string, pat: string, k: int)
    ensures OccursAt(s, pat, k) <==> 0 <= k && k + |pat| <= |s| && s[k..k + |pat|] == pat
  {
    if 0 <= k && k + |pat| <= |s| {
      MatchesFromIsSlice(s, pat, k, 0);
    }
  }

  /** The first index at or after `from` at which `pat` occurs in `s`, if any. */
  function FindFrom(s: string, pat: string, from: nat): (r: Option<nat>)
    requires from <= |s|
    ensures r.Some? ==> from <= r.value <= |s| && OccursAt(s, pat, r.value)
    ensures r.Some? ==> forall j :: from <= j < r.value ==> !OccursAt(s, pat, j)
    ensures r.None? <==> forall j :: from <= j <= |s| ==> !OccursAt(s, pat, j)
    decreases |s| - from
  {
    if OccursAt(s, pat, from) then Some(from)
    else if from == |s| then None
    else FindFrom(s, pat, from + 1)
  }

  /**
   The first field of splitting `s` on the separator `sep`: everything before
   the first occurrence of `sep`, or all of `s` when `sep` does not occur.
   Splitting on an empty separator is an error in the application's language,
   hence the precondition.
   */
  function SplitHead(s: string, sep: string): (head: string)
    requires sep != ""
    ensures head <= s
    ensures forall j :: 0 <= j < |head| ==> !OccursAt(s, sep, j)
    ensures head == s || OccursAt(s, sep, |head|)
  {
    match FindFrom(s, sep, 0)
    case Some(k) => s[..k]
    case None => s
  }

  /** The head is exactly the text before the first occurrence, and only that. */
  lemma SplitHeadUnique(s: string, sep: string, head: string)
    requires sep != ""
    requires head <= s
    requires forall j :: 0 <= j < |head| ==> !OccursAt(s, sep, j)
    requires head == s || OccursAt(s, sep, |head|)
    ensures SplitHead(s, sep) == head
  {
    var h := SplitHead(s, sep);
    assert h == s[..|h|] && head == s[..|head|];
  }

  /** Occurrences in a suffix are occurrences in the whole string, shifted by the prefix's length. */
  lemma OccursAtShift(p: string, s: string, pat: string, j: int)
    requires 0 <= j
    ensures OccursAt(p + s, pat, |p| + j) <==> OccursAt(s, pat, j)
  {
    OccursAtIsSlice(p + s, pat, |p| + j);
    OccursAtIsSlice(s, pat, j);
    if j + |pat| <= |s| {
      assert (p + s)[|p| + j..|p| + j + |pat|] == s[j..j + |pat|];
    }
  }

  /** An occurrence that ends inside `s` does not depend on what follows `s`. */
  lemma OccursAtPrefix(s: string, t: string, pat: string, j: int)
    requires j + |pat| <= |s|
    ensures OccursAt(s + t, pat, j) <==> OccursAt(s, pat, j)
  {
    OccursAtIsSlice(s + t, pat, j);
    OccursAtIsSlice(s, pat, j);
    if 0 <= j {
      assert (s + t)[j..j + |pat|] == s[j..j + |pat|];
    }
  }

  /** Joining `l` and `r` around `sep` and splitting again gives back `l`, provided `sep` first occurs where it was put. */
  lemma SplitHeadOfJoin(l: string, sep: string, r: string)
    requires sep != ""
    requires forall j :: 0 <= j < |l| ==> !OccursAt(l + sep, sep, j)
    ensures SplitHead(l + sep + r, sep) == l
  {
    var s := l + sep + r;
    assert s == (l + sep) + r;
    forall j | 0 <= j < |l|
      ensures !OccursAt(s, sep, j)
    {
      OccursAtPrefix(l + sep, r, sep, j);
    }
    OccursAtShift(l, sep + r, sep, 0);
    OccursAtPrefix(sep, r, sep, 0);
    OccursAtIsSlice(sep, sep, 0);
    assert s == l + (sep + r);
    SplitHeadUnique(s, sep, l);
  }
}
