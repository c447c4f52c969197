/** Character classes and small range predicates shared by the extractor.
    Python's `\s`, `\d`, `str.strip` and IGNORECASE are Unicode-aware; here they
    are restricted to ASCII. */
module Common {

  datatype Option<+T> = None | Some(value: T)

  /** `str.isspace` (which is also what `\s` matches) on the ASCII range:
      space, \t \n \v \f \r and the separators 0x1C..0x1F. */
  predicate IsSpace(c: char) {
    var n := c as int;
    n == 32 || 9 <= n <= 13 || 28 <= n <= 31
  }

  /** `\d` on the ASCII range. */
  predicate IsDigit(c: char) {
    '0' <= c <= '9'
  }

  /** The characters of `[\d,]`. */
  predicate IsDigitOrComma(c: char) {
    IsDigit(c) || c == ','
  }

  /** ASCII lower-casing, used both for IGNORECASE and for `str.lower`. */
  function ToLower(c: char): (r: char)
    ensures 'A' <= c <= 'Z' ==> r as int == c as int + 32
    ensures !('A' <= c <= 'Z') ==> r == c
  {
    if 'A' <= c <= 'Z' then (c as int + 32) as char else c
  }

  function Lower(s: string): (r: string)
    ensures |r| == |s|
    ensures forall k :: 0 <= k < |s| ==> r[k] == ToLower(s[k])
  {
    if s == [] then [] else [ToLower(s[0])] + Lower(s[1..])
  }

  predicate AllSpaceIn(s: string, lo: nat, hi: nat)
    requires lo <= hi <= |s|
  {
    forall k :: lo <= k < hi ==> IsSpace(s[k])
  }

  predicate AllDigitsIn(s: string, lo: nat, hi: nat)
    requires lo <= hi <= |s|
  {
    forall k :: lo <= k < hi ==> IsDigit(s[k])
  }

  predicate NoNewlineIn(s: string, lo: nat, hi: nat)
    requires lo <= hi <= |s|
  {
    forall k :: lo <= k < hi ==> s[k] != '\n'
  }

  /** Greedy `\s*` from `i`: the end of the run of whitespace starting there.
      `str.strip` starts its result at the same place. */
  function SkipSpaces(text: string, i: nat): (r: nat)
    requires i <= |text|
    ensures i <= r <= |text|
    decreases |text| - i
  {
    if i < |text| && IsSpace(text[i]) then SkipSpaces(text, i + 1) else i
  }

  /** `\s*` consumes only whitespace and stops at the first other character. */
  lemma {:induction false} SkipSpacesRun(text: string, i: nat)
    requires i <= |text|
    ensures AllSpaceIn(text, i, SkipSpaces(text, i))
    ensures SkipSpaces(text, i) == |text| || !IsSpace(text[SkipSpaces(text, i)])
    decreases |text| - i
  {
    if i < |text| && IsSpace(text[i]) {
      SkipSpacesRun(text, i + 1);
    }
  }

  /** Whitespace from `i` up to a non-whitespace character at `c` pins
      `SkipSpaces` down: `\s*` can only stop there. */
  lemma {:induction false} SkipSpacesStopsAt(text: string, i: nat, c: nat)
    requires i <= c < |text| && AllSpaceIn(text, i, c) && !IsSpace(text[c])
    ensures SkipSpaces(text, i) == c
    decreases c - i
  {
    if i < c {
      SkipSpacesStopsAt(text, i + 1, c);
    }
  }

  /** `\s*` runs at least as far as any run of whitespace from `i`. */
  lemma {:induction false} SkipSpacesCovers(text: string, i: nat, c: nat)
    requires i <= c <= |text| && AllSpaceIn(text, i, c)
    ensures c <= SkipSpaces(text, i)
    decreases c - i
  {
    if i < c {
      SkipSpacesCovers(text, i + 1, c);
    }
  }

  /** `\s*` stops at the latest at the first non-whitespace character. */
  lemma {:induction false} SkipSpacesStopsBy(text: string, i: nat, c: nat)
    requires i <= c < |text| && !IsSpace(text[c])
    ensures SkipSpaces(text, i) <= c
    decreases c - i
  {
    if i < c && IsSpace(text[i]) {
      SkipSpacesStopsBy(text, i + 1, c);
    }
  }
}
