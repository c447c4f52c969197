/** The five field patterns of `parse_fields` and a hand-written matcher for
    each of them, with the semantics of Python's `re.search(pattern, text,
    re.IGNORECASE)`: every pattern is `Label:` (one of a fixed alternation),
    then `\s*`, then a capture group whose shape depends on the field.

    A matcher returns the span of capture group 1, as `match.span(1)` would.
    Next to each matcher stands a declarative predicate saying which spans the
    regular expression admits, and lemmas proving that the matcher returns
    the one that the regex engine's priority order (leftmost start, greedy
    `\s*`, lazy `.+?`, greedy `[\d,]+\.?\d*`) selects. */
module Patterns {
  import opened Common

  datatype Field = Owner | Address | TaxYear | AmountDue | DueDate

  /** The three shapes of capture group that follow `Label:\s*`. */
  datatype Shape =
    | RestOfLine  // (.+?)(?:\n|$)
    | FourDigits  // (\d{4})
    | Amount      // \$?\s*([\d,]+\.?\d*)

  /** A capture group's span: `text[start..end]` is the group. */
  datatype Group = Group(start: nat, end: nat)

  /** A successful `re.search`: where the match begins, and its group 1. */
  datatype Found = Found(pos: nat, group: Group)

  /** The keys in the order the pattern dictionary lists them. */
  const FieldOrder: seq<Field> := [Owner, Address, TaxYear, AmountDue, DueDate]

  function Key(f: Field): string {
    match f
    case Owner => "owner"
    case Address => "address"
    case TaxYear => "tax_year"
    case AmountDue => "amount_due"
    case DueDate => "due_date"
  }

  /** Different fields have different keys. */
  lemma KeyInjective(f: Field, g: Field)
    requires f != g
    ensures Key(f) != Key(g)
  {
    assert Key(f)[0] != Key(g)[0] || |Key(f)| != |Key(g)|;
  }

  /** The alternation before the colon, in the order the regex tries it. */
  function Labels(f: Field): seq<string> {
    match f
    case Owner => ["Owner", "Name"]
    case Address => ["Address", "Property"]
    case TaxYear => ["Tax Year", "Year"]
    case AmountDue => ["Amount Due", "Total Due", "Balance"]
    case DueDate => ["Due Date", "Payment Due"]
  }

  function ShapeOf(f: Field): Shape {
    match f
    case Owner => RestOfLine
    case Address => RestOfLine
    case TaxYear => FourDigits
    case AmountDue => Amount
    case DueDate => RestOfLine
  }

  // ---------------------------------------------------------------------
  // `Label:` under IGNORECASE

  /** `name` followed by `:` occurs at position `i`, ignoring case. */
  predicate LabelAt(text: string, i: nat, name: string) {
    && i + |name| < |text|
    && (forall k :: 0 <= k < |name| ==> ToLower(text[i + k]) == ToLower(name[k]))
    && text[i + |name|] == ':'
  }

  /** The alternation `(?:l0|l1|...)` followed by `:` at position `i`: the
      index of the first alternative, from `from` on, that matches there. */
  function FirstLabel(text: string, i: nat, labels: seq<string>, from: nat): (r: Option<nat>)
    requires from <= |labels|
    ensures r.Some? ==> from <= r.value < |labels| && i + |labels[r.value]| < |text|
    decreases |labels| - from
  {
    if from == |labels| then None
    else if LabelAt(text, i, labels[from]) then Some(from)
    else FirstLabel(text, i, labels, from + 1)
  }

  /** `FirstLabel` picks an alternative that matches, no earlier one
      matches, and it fails only when none matches. */
  lemma {:induction false} FirstLabelIsFirst(text: string, i: nat, labels: seq<string>, from: nat)
    requires from <= |labels|
    ensures FirstLabel(text, i, labels, from).Some? ==>
              var n := FirstLabel(text, i, labels, from).value;
              LabelAt(text, i, labels[n]) && forall m :: from <= m < n ==> !LabelAt(text, i, labels[m])
    ensures FirstLabel(text, i, labels, from).None? ==>
              forall m :: from <= m < |labels| ==> !LabelAt(text, i, labels[m])
    decreases |labels| - from
  {
    if from < |labels| && !LabelAt(text, i, labels[from]) {
      FirstLabelIsFirst(text, i, labels, from + 1);
    }
  }

  /** The position just after `Label:` when the field's name occurs at `i`. */
  function LabelEnd(text: string, i: nat, f: Field): (r: Option<nat>)
    ensures r.Some? ==> i < r.value <= |text|
  {
    match FirstLabel(text, i, Labels(f), 0)
    case None => None
    case Some(n) => Some(i + |Labels(f)[n]| + 1)
  }

  /** `LabelEnd` succeeds exactly when one of the field's names, followed by
      `:`, occurs at `i` (ignoring case); it ends after the first of them in
      the order of the alternation. */
  lemma LabelEndIsAlternation(text: string, i: nat, f: Field)
    ensures LabelEnd(text, i, f).Some? ==>
              exists n :: 0 <= n < |Labels(f)| && LabelAt(text, i, Labels(f)[n])
                          && (forall m :: 0 <= m < n ==> !LabelAt(text, i, Labels(f)[m]))
                          && LabelEnd(text, i, f).value == i + |Labels(f)[n]| + 1
    ensures LabelEnd(text, i, f).None? <==> forall n :: 0 <= n < |Labels(f)| ==> !LabelAt(text, i, Labels(f)[n])
  {
    FirstLabelIsFirst(text, i, Labels(f), 0);
  }

  /** `Year:` also matches inside `Tax Year:`: a search that starts after
      `Tax ` ends its label at the same colon. */
  lemma YearInsideTaxYear(text: string, i: nat)
    requires LabelAt(text, i, "Tax Year")
    ensures LabelEnd(text, i, TaxYear) == Some(i + 9)
    ensures LabelEnd(text, i + 4, TaxYear) == Some(i + 9)
  {
    assert !LabelAt(text, i + 4, "Tax Year") by {
      assert ToLower(text[i + 4]) == ToLower("Tax Year"[4]);
    }
    assert LabelAt(text, i + 4, "Year") by {
      forall k | 0 <= k < 4 ensures ToLower(text[i + 4 + k]) == ToLower("Year"[k]) {
        assert ToLower(text[i + (4 + k)]) == ToLower("Tax Year"[4 + k]);
      }
    }
    assert FirstLabel(text, i + 4, Labels(TaxYear), 1) == Some(1);
  }

  // ---------------------------------------------------------------------
  // `\s*(.+?)(?:\n|$)`

  /** The spans `text[c..e]` the regex admits as group 1 after `Label:` ends at
      `q`: whitespace up to `c`, at least one character, no newline inside, and
      a newline or the end of the text right after. */
  predicate LineMatch(text: string, q: nat, c: nat, e: nat) {
    && q <= c < e <= |text|
    && AllSpaceIn(text, q, c)
    && NoNewlineIn(text, c, e)
    && (e == |text| || text[e] == '\n')
  }

  /** `(?:\n|$)` after lazy `.+?`: the first newline at or after `k`, or the end. */
  function LineEnd(text: string, k: nat): (e: nat)
    requires k <= |text|
    ensures k <= e <= |text|
    decreases |text| - k
  {
    if k == |text| || text[k] == '\n' then k else LineEnd(text, k + 1)
  }

  /** `LineEnd` passes no newline and stops at a newline or the end. */
  lemma {:induction false} LineEndRun(text: string, k: nat)
    requires k <= |text|
    ensures NoNewlineIn(text, k, LineEnd(text, k))
    ensures LineEnd(text, k) == |text| || text[LineEnd(text, k)] == '\n'
    decreases |text| - k
  {
    if k < |text| && text[k] != '\n' {
      LineEndRun(text, k + 1);
    }
  }

  /** The regex engine's backtracking over `\s*`: `.+?` is first tried at the
      end `c` of the greedy whitespace run, and then at each shorter run. It
      succeeds where the character at `c` exists and is not a newline; the
      lazy group then ends at the first newline after that character. */
  function LineBacktrack(text: string, q: nat, c: nat): (r: Option<Group>)
    requires q <= c <= |text|
    ensures r.Some? ==> q <= r.value.start <= c && r.value.start < r.value.end <= |text|
    decreases c - q
  {
    if c < |text| && text[c] != '\n' then Some(Group(c, LineEnd(text, c + 1)))
    else if c == q then None
    else LineBacktrack(text, q, c - 1)
  }

  /** `\s*(.+?)(?:\n|$)` after `Label:` ends at `q`. */
  function LineSpan(text: string, q: nat): (r: Option<Group>)
    requires q <= |text|
    ensures r.Some? ==> q <= r.value.start < r.value.end <= |text|
  {
    LineBacktrack(text, q, SkipSpaces(text, q))
  }

  /** A newline (or the end) after a newline-free stretch from `k` is the
      first one: the lazy group can end nowhere else. */
  lemma {:induction false} LineEndIsFirst(text: string, k: nat, e: nat)
    requires k <= e <= |text| && NoNewlineIn(text, k, e)
    requires e == |text| || text[e] == '\n'
    ensures LineEnd(text, k) == e
    decreases e - k
  {
    if k < e {
      LineEndIsFirst(text, k + 1, e);
    }
  }

  lemma {:induction false} LineBacktrackChoosesLast(text: string, q: nat, c: nat)
    requires q <= c <= |text| && AllSpaceIn(text, q, c)
    ensures LineBacktrack(text, q, c).Some? ==>
              var g := LineBacktrack(text, q, c).value;
              LineMatch(text, q, g.start, g.end) && g.start <= c
    ensures LineBacktrack(text, q, c).Some? ==>
              forall c': nat, e': nat :: LineMatch(text, q, c', e') && c' <= c ==> c' <= LineBacktrack(text, q, c).value.start
    ensures LineBacktrack(text, q, c).None? ==> forall c': nat, e': nat :: LineMatch(text, q, c', e') ==> c' > c
    decreases c - q
  {
    if c < |text| && text[c] != '\n' {
      LineEndRun(text, c + 1);
    } else {
      forall c': nat, e': nat | LineMatch(text, q, c', e') ensures c' != c {
        assert text[c'] != '\n';
      }
      if c > q {
        LineBacktrackChoosesLast(text, q, c - 1);
      }
    }
  }

  /** `LineSpan` returns a span the regex admits, and of all admitted spans
      the one with the latest start (greedy `\s*`) and, for that start, the
      only possible end (lazy `.+?`); it fails only when no span is admitted. */
  lemma LineSpanIsRegexChoice(text: string, q: nat)
    requires q <= |text|
    ensures LineSpan(text, q).Some? ==>
              LineMatch(text, q, LineSpan(text, q).value.start, LineSpan(text, q).value.end)
    ensures LineSpan(text, q).Some? ==>
              forall c: nat, e: nat :: LineMatch(text, q, c, e) ==>
                c < LineSpan(text, q).value.start || (c == LineSpan(text, q).value.start && e == LineSpan(text, q).value.end)
    ensures LineSpan(text, q).None? ==> forall c: nat, e: nat :: !LineMatch(text, q, c, e)
  {
    var r := SkipSpaces(text, q);
    SkipSpacesRun(text, q);
    LineBacktrackChoosesLast(text, q, r);
    forall c: nat, e: nat | LineMatch(text, q, c, e) ensures c <= r && LineEnd(text, c + 1) == e {
      SkipSpacesCovers(text, q, c);
      LineEndIsFirst(text, c + 1, e);
    }
  }

  // ---------------------------------------------------------------------
  // `\s*(\d{4})`

  /** The regex admits `text[c..c+4]` as group 1: whitespace, then four digits. */
  predicate YearMatch(text: string, q: nat, c: nat) {
    && q <= c && c + 4 <= |text|
    && AllSpaceIn(text, q, c)
    && AllDigitsIn(text, c, c + 4)
  }

  function YearSpan(text: string, q: nat): (r: Option<Group>)
    requires q <= |text|
    ensures r.Some? ==> q <= r.value.start && r.value.end == r.value.start + 4 <= |text|
  {
    var c := SkipSpaces(text, q);
    if c + 4 <= |text| && IsDigit(text[c]) && IsDigit(text[c + 1]) && IsDigit(text[c + 2]) && IsDigit(text[c + 3])
    then Some(Group(c, c + 4))
    else None
  }

  /** `YearSpan` finds exactly the span the regex admits, when there is one:
      since a digit is not whitespace, at most one start is possible. */
  lemma YearSpanIsRegexChoice(text: string, q: nat)
    requires q <= |text|
    ensures YearSpan(text, q).Some? ==>
              YearMatch(text, q, YearSpan(text, q).value.start)
              && YearSpan(text, q).value.end == YearSpan(text, q).value.start + 4
    ensures forall c: nat :: YearMatch(text, q, c) ==>
              YearSpan(text, q).Some? && YearSpan(text, q).value.start == c
  {
    SkipSpacesRun(text, q);
    var c := SkipSpaces(text, q);
    if YearSpan(text, q).Some? {
      forall k | c <= k < c + 4 ensures IsDigit(text[k]) {
        assert k == c || k == c + 1 || k == c + 2 || k == c + 3;
      }
    }
    forall c': nat | YearMatch(text, q, c') ensures c == c' {
      SkipSpacesStopsAt(text, q, c');
    }
  }

  // ---------------------------------------------------------------------
  // `\s*\$?\s*([\d,]+\.?\d*)`

  /** `text[lo..hi]` is `\s*\$?\s*`: whitespace with at most one `$`. */
  predicate SignPrefix(text: string, lo: nat, hi: nat)
    requires lo <= hi <= |text|
  {
    && (forall k :: lo <= k < hi ==> IsSpace(text[k]) || text[k] == '$')
    && (forall j, k :: lo <= j < k < hi && text[j] == '$' ==> text[k] != '$')
  }

  /** `text[s..e]` is `[\d,]+\.?\d*`: it starts with a digit or comma, holds only
      digits, commas and dots, and only digits follow a dot. */
  predicate AmountIn(text: string, s: nat, e: nat)
    requires s <= e <= |text|
  {
    && s < e && IsDigitOrComma(text[s])
    && (forall k :: s <= k < e ==> IsDigitOrComma(text[k]) || text[k] == '.')
    && (forall j, k :: s <= j < k < e && text[j] == '.' ==> IsDigit(text[k]))
  }

  predicate AmountMatch(text: string, q: nat, s: nat, e: nat) {
    q <= s < e <= |text| && SignPrefix(text, q, s) && AmountIn(text, s, e)
  }

  /** Greedy `[\d,]+` from `k`. */
  function DigitCommaRunEnd(text: string, k: nat): (e: nat)
    requires k <= |text|
    ensures k <= e <= |text|
    decreases |text| - k
  {
    if k < |text| && IsDigitOrComma(text[k]) then DigitCommaRunEnd(text, k + 1) else k
  }

  /** `[\d,]+` consumes only digits and commas and stops at the first other character. */
  lemma {:induction false} DigitCommaRun(text: string, k: nat)
    requires k <= |text|
    ensures forall j :: k <= j < DigitCommaRunEnd(text, k) ==> IsDigitOrComma(text[j])
    ensures DigitCommaRunEnd(text, k) == |text| || !IsDigitOrComma(text[DigitCommaRunEnd(text, k)])
    decreases |text| - k
  {
    if k < |text| && IsDigitOrComma(text[k]) {
      DigitCommaRun(text, k + 1);
    }
  }

  /** Greedy `\d*` from `k`. */
  function DigitRunEnd(text: string, k: nat): (e: nat)
    requires k <= |text|
    ensures k <= e <= |text|
    decreases |text| - k
  {
    if k < |text| && IsDigit(text[k]) then DigitRunEnd(text, k + 1) else k
  }

  /** `\d*` consumes only digits and stops at the first other character. */
  lemma {:induction false} DigitRun(text: string, k: nat)
    requires k <= |text|
    ensures AllDigitsIn(text, k, DigitRunEnd(text, k))
    ensures DigitRunEnd(text, k) == |text| || !IsDigit(text[DigitRunEnd(text, k)])
    decreases |text| - k
  {
    if k < |text| && IsDigit(text[k]) {
      DigitRun(text, k + 1);
    }
  }

  /** Where group 1 can begin: after `\s*`, an optional `$` and `\s*` again. */
  function AmountStart(text: string, q: nat): nat
    requires q <= |text|
  {
    var r := SkipSpaces(text, q);
    if r < |text| && text[r] == '$' then SkipSpaces(text, r + 1) else r
  }

  /** Where group 1 ends once it begins at `s`: greedy `[\d,]+`, then `\.` if
      one follows, then greedy `\d*`. */
  function AmountEnd(text: string, s: nat): nat
    requires s <= |text|
  {
    var t := DigitCommaRunEnd(text, s);
    var u := if t < |text| && text[t] == '.' then t + 1 else t;
    DigitRunEnd(text, u)
  }

  /** `\$?\s*([\d,]+\.?\d*)` after `Label:\s*` ends at `q`. */
  function AmountSpan(text: string, q: nat): (r: Option<Group>)
    requires q <= |text|
    ensures r.Some? ==> q <= r.value.start < r.value.end <= |text|
  {
    var s := AmountStart(text, q);
    if s < |text| && IsDigitOrComma(text[s]) then Some(Group(s, AmountEnd(text, s))) else None
  }

  lemma {:induction false} DigitCommaRunCovers(text: string, k: nat, m: nat)
    requires k <= m <= |text| && (forall j :: k <= j < m ==> IsDigitOrComma(text[j]))
    ensures m <= DigitCommaRunEnd(text, k)
    decreases m - k
  {
    if k < m {
      DigitCommaRunCovers(text, k + 1, m);
    }
  }

  lemma {:induction false} DigitRunCovers(text: string, k: nat, m: nat)
    requires k <= m <= |text| && AllDigitsIn(text, k, m)
    ensures m <= DigitRunEnd(text, k)
    decreases m - k
  {
    if k < m {
      DigitRunCovers(text, k + 1, m);
    }
  }

  /** Any admitted start of the amount is the one `AmountStart` computes. */
  lemma AmountStartForced(text: string, q: nat, s: nat)
    requires q <= s < |text| && SignPrefix(text, q, s) && IsDigitOrComma(text[s])
    ensures AmountStart(text, q) == s
  {
    var r := SkipSpaces(text, q);
    SkipSpacesRun(text, q);
    SkipSpacesStopsBy(text, q, s);
    if r < s {
      assert text[r] == '$';
      forall k | r + 1 <= k < s ensures IsSpace(text[k]) {
        assert text[k] != '$';
      }
      SkipSpacesStopsAt(text, r + 1, s);
    }
  }

  /** The greedy end reaches at least as far as any admitted end. */
  lemma AmountEndGreedy(text: string, s: nat, e: nat)
    requires s <= e <= |text| && AmountIn(text, s, e)
    ensures e <= AmountEnd(text, s)
  {
    var t := DigitCommaRunEnd(text, s);
    DigitCommaRun(text, s);
    if t < e {
      assert text[t] == '.';
      DigitRunCovers(text, t + 1, e);
    }
  }

  /** The greedy end gives an admitted amount. */
  lemma AmountEndAdmitted(text: string, s: nat)
    requires s < |text| && IsDigitOrComma(text[s])
    ensures AmountIn(text, s, AmountEnd(text, s))
  {
    var t := DigitCommaRunEnd(text, s);
    var e := AmountEnd(text, s);
    DigitCommaRun(text, s);
    DigitRun(text, if t < |text| && text[t] == '.' then t + 1 else t);
    forall j, k | s <= j < k < e && text[j] == '.' ensures IsDigit(text[k]) {
      assert j == t;
    }
  }

  /** When `AmountSpan` succeeds, the regex admits its span. */
  lemma AmountSpanAdmitted(text: string, q: nat)
    requires q <= |text| && AmountSpan(text, q).Some?
    ensures AmountMatch(text, q, AmountSpan(text, q).value.start, AmountSpan(text, q).value.end)
  {
    var s := AmountStart(text, q);
    var r := SkipSpaces(text, q);
    SkipSpacesRun(text, q);
    if r < |text| && text[r] == '$' {
      SkipSpacesRun(text, r + 1);
      forall j, k | q <= j < k < s && text[j] == '$' ensures text[k] != '$' {
        assert j == r;
      }
    }
    AmountEndAdmitted(text, s);
  }

  /** `AmountSpan` returns the span the regex selects: its start is the only
      admitted one, and its end is the furthest admitted one (all quantifiers
      in the pattern are greedy); it fails only when no span is admitted. */
  lemma AmountSpanIsRegexChoice(text: string, q: nat)
    requires q <= |text|
    ensures AmountSpan(text, q).Some? ==>
              AmountMatch(text, q, AmountSpan(text, q).value.start, AmountSpan(text, q).value.end)
    ensures forall s: nat, e: nat :: AmountMatch(text, q, s, e) ==>
              AmountSpan(text, q).Some? && AmountSpan(text, q).value.start == s && e <= AmountSpan(text, q).value.end
  {
    forall s: nat, e: nat | AmountMatch(text, q, s, e) ensures AmountStart(text, q) == s && e <= AmountEnd(text, s) {
      AmountStartForced(text, q, s);
      AmountEndGreedy(text, s, e);
    }
    if AmountSpan(text, q).Some? {
      AmountSpanAdmitted(text, q);
    }
  }

  // ---------------------------------------------------------------------
  // One pattern at one position, and `re.search`

  /** The capture group of the field's shape, tried right after `Label:`. */
  function Capture(text: string, q: nat, shape: Shape): (r: Option<Group>)
    requires q <= |text|
    ensures r.Some? ==> q <= r.value.start < r.value.end <= |text|
  {
    match shape
    case RestOfLine => LineSpan(text, q)
    case FourDigits => YearSpan(text, q)
    case Amount => AmountSpan(text, q)
  }

  /** What the regex admits as group 1 of a shape after `Label:` ends at `q`. */
  ghost predicate Admits(text: string, q: nat, shape: Shape)
    requires q <= |text|
  {
    match shape
    case RestOfLine => exists c: nat, e: nat :: LineMatch(text, q, c, e)
    case FourDigits => exists c: nat :: YearMatch(text, q, c)
    case Amount => exists s: nat, e: nat :: AmountMatch(text, q, s, e)
  }

  /** `Capture` succeeds exactly when the regex admits some group there. */
  lemma CaptureIsShape(text: string, q: nat, shape: Shape)
    requires q <= |text|
    ensures Capture(text, q, shape).Some? <==> Admits(text, q, shape)
  {
    match shape
    case RestOfLine =>
      LineSpanIsRegexChoice(text, q);
      if LineSpan(text, q).Some? {
        var g := LineSpan(text, q).value;
        assert LineMatch(text, q, g.start, g.end);
      }
    case FourDigits =>
      YearSpanIsRegexChoice(text, q);
      if YearSpan(text, q).Some? {
        assert YearMatch(text, q, YearSpan(text, q).value.start);
      }
    case Amount =>
      AmountSpanIsRegexChoice(text, q);
      if AmountSpan(text, q).Some? {
        var g := AmountSpan(text, q).value;
        assert AmountMatch(text, q, g.start, g.end);
      }
  }

  /** Within one field's alternation no two names can both match at the same
      position, because their first letters differ even ignoring case. So
      when the capture after the first matching name fails, backtracking into
      the alternation finds no other name to try. */
  lemma AtMostOneLabel(text: string, i: nat, f: Field, n: nat, m: nat)
    requires n < |Labels(f)| && m < |Labels(f)| && n != m
    ensures !(LabelAt(text, i, Labels(f)[n]) && LabelAt(text, i, Labels(f)[m]))
  {
    assert ToLower(Labels(f)[n][0]) != ToLower(Labels(f)[m][0]);
  }

  /** The field's pattern tried at position `i`: group 1 if it matches there. */
  function MatchAt(text: string, i: nat, f: Field): (r: Option<Group>)
    requires i <= |text|
    ensures r.Some? ==> i < r.value.start < r.value.end <= |text|
  {
    match LabelEnd(text, i, f)
    case None => None
    case Some(q) => Capture(text, q, ShapeOf(f))
  }

  /** The whole pattern matches at `i` exactly when one of the field's names
      and `:` occur there and the regex admits the field's group right after
      them. By `AtMostOneLabel`, trying only the first matching name loses no
      match. */
  lemma MatchAtIsPattern(text: string, i: nat, f: Field)
    requires i <= |text|
    ensures MatchAt(text, i, f).Some? <==>
              exists n :: 0 <= n < |Labels(f)| && LabelAt(text, i, Labels(f)[n])
                          && Admits(text, i + |Labels(f)[n]| + 1, ShapeOf(f))
  {
    LabelEndIsAlternation(text, i, f);
    if LabelEnd(text, i, f).Some? {
      var q := LabelEnd(text, i, f).value;
      var n := OnlyLabel(text, i, f);
      assert MatchAt(text, i, f) == Capture(text, q, ShapeOf(f));
      CaptureIsShape(text, q, ShapeOf(f));
      if MatchAt(text, i, f).Some? {
        assert LabelAt(text, i, Labels(f)[n]) && Admits(text, i + |Labels(f)[n]| + 1, ShapeOf(f));
      } else {
        forall m | 0 <= m < |Labels(f)| && LabelAt(text, i, Labels(f)[m])
          ensures !Admits(text, i + |Labels(f)[m]| + 1, ShapeOf(f))
        {
          assert m == n;
        }
      }
    }
  }

  /** When `LabelEnd` succeeds, the name it ends after is the only one of the
      field's names that matches at `i`. */
  lemma OnlyLabel(text: string, i: nat, f: Field) returns (n: nat)
    requires LabelEnd(text, i, f).Some?
    ensures n < |Labels(f)| && LabelAt(text, i, Labels(f)[n])
    ensures LabelEnd(text, i, f).value == i + |Labels(f)[n]| + 1
    ensures forall m :: 0 <= m < |Labels(f)| && LabelAt(text, i, Labels(f)[m]) ==> m == n
  {
    LabelEndIsAlternation(text, i, f);
    n :| 0 <= n < |Labels(f)| && LabelAt(text, i, Labels(f)[n])
         && (forall m :: 0 <= m < n ==> !LabelAt(text, i, Labels(f)[m]))
         && LabelEnd(text, i, f).value == i + |Labels(f)[n]| + 1;
    forall m | 0 <= m < |Labels(f)| && LabelAt(text, i, Labels(f)[m]) ensures m == n {
      if m != n {
        AtMostOneLabel(text, i, f, n, m);
      }
    }
  }

  /** The outcome of trying the field's pattern at each position
      `0, 1, ..., |text|` (a match may also be tried at the very end). */
  function Attempts(text: string, f: Field): (a: seq<Option<Group>>)
    ensures |a| == |text| + 1
    ensures forall k :: 0 <= k <= |text| ==> a[k] == MatchAt(text, k, f)
  {
    seq(|text| + 1, k requires 0 <= k <= |text| => MatchAt(text, k, f))
  }

  /** The scan of `re.search`: the first successful attempt from `i` on. Its
      contract says it is the leftmost one, and that it fails only when every
      attempt from `i` on fails. */
  function FirstSuccess(a: seq<Option<Group>>, i: nat): (r: Option<Found>)
    requires i <= |a|
    ensures r.Some? ==> i <= r.value.pos < |a| && a[r.value.pos] == Some(r.value.group)
    ensures r.Some? ==> forall k :: i <= k < r.value.pos ==> a[k].None?
    ensures r.None? ==> forall k :: i <= k < |a| ==> a[k].None?
    decreases |a| - i
  {
    if i == |a| then None
    else if a[i].Some? then Some(Found(i, a[i].value))
    else FirstSuccess(a, i + 1)
  }

  /** `re.search(pattern, text, re.IGNORECASE)` for the field's pattern. */
  function Search(text: string, f: Field): (r: Option<Found>)
    ensures r.Some? ==> r.value.pos < r.value.group.start < r.value.group.end <= |text|
  {
    FirstSuccess(Attempts(text, f), 0)
  }
}
