/** Python's `str.strip()` with no argument: drop leading and trailing
    whitespace (ASCII `isspace`). Like CPython, it scans for the first and
    last characters that are not whitespace and returns the slice between them. */
module PyStrip {
  import opened Common

  /** Just past the last index below `j` (and at or after `lo`) that does not
      hold whitespace, or `lo`. */
  function StripEnd(s: string, lo: nat, j: nat): (r: nat)
    requires lo <= j <= |s|
    ensures lo <= r <= j
    decreases j
  {
    if lo < j && IsSpace(s[j - 1]) then StripEnd(s, lo, j - 1) else j
  }

  /** `str.strip()`. */
  function Strip(s: string): (r: string)
    ensures |r| <= |s|
  {
    var i := SkipSpaces(s, 0);
    s[i..StripEnd(s, i, |s|)]
  }

  /** `StripEnd` drops only whitespace and stops after the last other character. */
  lemma {:induction false} StripEndDropsSpaces(s: string, lo: nat, j: nat)
    requires lo <= j <= |s|
    ensures AllSpaceIn(s, StripEnd(s, lo, j), j)
    ensures StripEnd(s, lo, j) == lo || !IsSpace(s[StripEnd(s, lo, j) - 1])
    decreases j
  {
    if lo < j && IsSpace(s[j - 1]) {
      StripEndDropsSpaces(s, lo, j - 1);
    }
  }

  /** The stripped string is a slice `s[i..j]` of its input, and only
      whitespace was cut off on either side. */
  lemma StripIsTrimmedSlice(s: string) returns (i: nat, j: nat)
    ensures i <= j <= |s| && Strip(s) == s[i..j]
    ensures AllSpaceIn(s, 0, i) && AllSpaceIn(s, j, |s|)
    ensures Strip(s) == [] || (!IsSpace(s[i]) && !IsSpace(s[j - 1]))
  {
    i := SkipSpaces(s, 0);
    j := StripEnd(s, i, |s|);
    SkipSpacesRun(s, 0);
    StripEndDropsSpaces(s, i, |s|);
  }

  /** A string without leading or trailing whitespace is left as it is. */
  lemma StripUnchanged(s: string)
    requires s == [] || (!IsSpace(s[0]) && !IsSpace(s[|s| - 1]))
    ensures Strip(s) == s
  {
  }

  /** The result of `strip` neither starts nor ends with whitespace. */
  lemma StripHasNoOuterSpace(s: string)
    ensures Strip(s) == [] || (!IsSpace(Strip(s)[0]) && !IsSpace(Strip(s)[|Strip(s)| - 1]))
  {
    var t := Strip(s);
    var i, j := StripIsTrimmedSlice(s);
    if t != [] {
      assert t[0] == s[i] && t[|t| - 1] == s[j - 1];
    }
  }

  /** Stripping twice is the same as stripping once. */
  lemma StripIdempotent(s: string)
    ensures Strip(Strip(s)) == Strip(s)
  {
    StripHasNoOuterSpace(s);
    StripUnchanged(Strip(s));
  }
}
