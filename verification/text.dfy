/** String primitives the merger relies on: substring search and newline trimming. */
module Text {
  import opened Results

  /** `pat` occurs in `s` starting at index `i`. */
  predicate OccursAt(s: string, pat: string, i: nat) {
    i + |pat| <= |s| && s[i..i + |pat|] == pat
  }

  /** `pat` occurs somewhere in `s`. */
  predicate Contains(s: string, pat: string) {
    exists i: nat | i <= |s| :: OccursAt(s, pat, i)
  }

  /** Index of the first occurrence of `pat` in `s` (`str::find`); an empty
      pattern is found at 0. */
  function Find(s: string, pat: string): (r: Option<nat>)
    ensures r.Some? ==> OccursAt(s, pat, r.value)
    ensures r.Some? ==> forall j: nat :: j < r.value ==> !OccursAt(s, pat, j)
    ensures r.None? ==> forall j: nat :: !OccursAt(s, pat, j)
  {
    FindFrom(s, pat, 0)
  }

  /** First occurrence of `pat` in `s` at an index of at least `i`. */
  function FindFrom(s: string, pat: string, i: nat): (r: Option<nat>)
    requires i <= |s|
    ensures r.Some? ==> i <= r.value && OccursAt(s, pat, r.value)
    ensures r.Some? ==> forall j: nat :: i <= j < r.value ==> !OccursAt(s, pat, j)
    ensures r.None? ==> forall j: nat :: i <= j ==> !OccursAt(s, pat, j)
    decreases |s| - i
  {
    if OccursAt(s, pat, i) then Some(i)
    else if i == |s| then None
    else FindFrom(s, pat, i + 1)
  }

  /** A first occurrence is pinned down by its two defining facts. */
  lemma FindIs(s: string, pat: string, i: nat)
    requires OccursAt(s, pat, i)
    requires forall j: nat :: j < i ==> !OccursAt(s, pat, j)
    ensures Find(s, pat) == Some(i)
  {
  }

  /** `s` without its trailing `'\n'` characters (`trim_end_matches('\n')`);
      carriage returns and spaces are kept. */
  function TrimTrailingNewlines(s: string): (r: string)
    ensures r <= s
    ensures forall i :: |r| <= i < |s| ==> s[i] == '\n'
    ensures r == [] || r[|r| - 1] != '\n'
    decreases |s|
  {
    if |s| > 0 && s[|s| - 1] == '\n' then TrimTrailingNewlines(s[..|s| - 1]) else s
  }

  /** Trimming after one appended newline gives back a string that had none. */
  lemma TrimOneNewline(t: string)
    requires t == [] || t[|t| - 1] != '\n'
    ensures TrimTrailingNewlines(t + "\n") == t
  {
    assert (t + "\n")[..|t|] == t;
  }

  /** A pattern cannot start at an index holding a different first character. */
  lemma FirstCharMismatch(s: string, pat: string, j: nat)
    requires |pat| > 0 && j < |s| && s[j] != pat[0]
    ensures !OccursAt(s, pat, j)
  {
    if j + |pat| <= |s| {
      assert s[j..j + |pat|][0] == s[j];
    }
  }

  /** A non-empty pattern whose first character is absent from `s[lo..hi]` does
      not start in that range. */
  lemma FirstCharAbsent(s: string, pat: string, lo: nat, hi: nat)
    requires |pat| > 0 && lo <= hi <= |s|
    requires pat[0] !in s[lo..hi]
    ensures forall j: nat :: lo <= j < hi ==> !OccursAt(s, pat, j)
  {
    forall j: nat | lo <= j < hi
      ensures !OccursAt(s, pat, j)
    {
      assert s[lo..hi][j - lo] == s[j];
      FirstCharMismatch(s, pat, j);
    }
  }
}
