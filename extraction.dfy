/** `parse_fields(text)`: search each of the five patterns once over the
    whole text and store the stripped group 1 of its leftmost match under the
    field's key, or `None` when the pattern matches nowhere. */
module Extraction {
  import opened Common
  import opened PyStrip
  import opened Patterns

  /** What `parse_fields` stores for one `re.search` result:
      `match.group(1).strip()`, or None when there is no match. */
  function StoredValue(text: string, m: Option<Found>): (r: Option<string>)
    requires m.Some? ==> m.value.group.start <= m.value.group.end <= |text|
    ensures r.None? <==> m.None?
    ensures r.Some? ==> |r.value| <= m.value.group.end - m.value.group.start
  {
    match m
    case None => None
    case Some(found) => Some(Strip(text[found.group.start..found.group.end]))
  }

  /** The value `parse_fields` stores for one field. */
  function Extract(text: string, f: Field): (r: Option<string>)
    ensures r.Some? ==> |r.value| < |text|
  {
    StoredValue(text, Search(text, f))
  }

  /** The keys of the first `n` entries of the pattern table. */
  function KeysUpTo(n: nat): set<string>
    requires n <= |FieldOrder|
  {
    if n == 0 then {} else KeysUpTo(n - 1) + {Key(FieldOrder[n - 1])}
  }

  /** The keys of the whole pattern table are exactly the five keys. */
  lemma AllKeys()
    ensures KeysUpTo(|FieldOrder|) == {"owner", "address", "tax_year", "amount_due", "due_date"}
  {
    assert KeysUpTo(1) == {"owner"};
    assert KeysUpTo(2) == {"owner", "address"};
    assert KeysUpTo(3) == {"owner", "address", "tax_year"};
    assert KeysUpTo(4) == {"owner", "address", "tax_year", "amount_due"};
  }

  /** Where a field stands in the pattern table. */
  function Position(f: Field): (m: nat)
    ensures m < |FieldOrder| && FieldOrder[m] == f
  {
    match f
    case Owner => 0
    case Address => 1
    case TaxYear => 2
    case AmountDue => 3
    case DueDate => 4
  }

  /** The dictionary after storing `values[m]` under the key of the `m`-th
      entry of the pattern table, for each `m < n` in turn. */
  ghost function Filled(values: seq<Option<string>>, n: nat): map<string, Option<string>>
    requires n <= |values| == |FieldOrder|
  {
    if n == 0 then map[] else Filled(values, n - 1)[Key(FieldOrder[n - 1]) := values[n - 1]]
  }

  /** After `n` entries exactly their keys are present, and each holds its
      own value: a later entry never overwrites an earlier one. */
  lemma {:induction false} FilledHolds(values: seq<Option<string>>, n: nat)
    requires n <= |values| == |FieldOrder|
    ensures Filled(values, n).Keys == KeysUpTo(n)
    ensures forall m :: 0 <= m < n ==> Key(FieldOrder[m]) in Filled(values, n) && Filled(values, n)[Key(FieldOrder[m])] == values[m]
  {
    if n > 0 {
      FilledHolds(values, n - 1);
      forall m | 0 <= m < n - 1 ensures Key(FieldOrder[m]) != Key(FieldOrder[n - 1]) {
        KeyInjective(FieldOrder[m], FieldOrder[n - 1]);
      }
    }
  }

  /** The value of every field, in the order of the pattern table. */
  ghost function Results(text: string): (r: seq<Option<string>>)
    ensures |r| == |FieldOrder|
    ensures forall m :: 0 <= m < |FieldOrder| ==> r[m] == Extract(text, FieldOrder[m])
  {
    seq(|FieldOrder|, m requires 0 <= m < |FieldOrder| => Extract(text, FieldOrder[m]))
  }

  /** The dictionary is filled one key at a time, in the order of the
      pattern table; every key ends up present, mapped to a string or None. */
  method ParseFields(text: string) returns (data: map<string, Option<string>>)
    ensures data.Keys == {"owner", "address", "tax_year", "amount_due", "due_date"}
    ensures forall f :: Key(f) in data && data[Key(f)] == Extract(text, f)
  {
    ghost var values := Results(text);
    data := map[];
    for n := 0 to |FieldOrder|
      invariant data == Filled(values, n)
    {
      var f := FieldOrder[n];
      var found := Search(text, f);
      data := data[Key(f) := StoredValue(text, found)];
    }
    FilledIsParsed(text);
  }

  /** The table filled with every field's value has the five keys, each
      mapped to the value of its own field. */
  lemma FilledIsParsed(text: string)
    ensures Filled(Results(text), |FieldOrder|).Keys == {"owner", "address", "tax_year", "amount_due", "due_date"}
    ensures forall f :: Key(f) in Filled(Results(text), |FieldOrder|)
                        && Filled(Results(text), |FieldOrder|)[Key(f)] == Extract(text, f)
  {
    var values := Results(text);
    FilledHolds(values, |FieldOrder|);
    AllKeys();
    forall f ensures Key(f) in Filled(values, |FieldOrder|) && Filled(values, |FieldOrder|)[Key(f)] == Extract(text, f) {
      var m := Position(f);
      assert Key(f) in KeysUpTo(|FieldOrder|);
    }
  }

  /** A field is None exactly when its pattern matches at no position. */
  lemma ExtractNoneIffNoMatch(text: string, f: Field)
    ensures Extract(text, f).None? <==> forall k :: 0 <= k <= |text| ==> MatchAt(text, k, f).None?
  {
    var a := Attempts(text, f);
    if Extract(text, f).Some? {
      var p := Search(text, f).value.pos;
      assert a[p].Some?;
    }
  }

  /** The value comes from the leftmost match; later occurrences are ignored. */
  lemma ExtractTakesLeftmost(text: string, f: Field, k: nat)
    requires k <= |text| && MatchAt(text, k, f).Some?
    requires forall j :: 0 <= j < k ==> MatchAt(text, j, f).None?
    ensures Extract(text, f) == Some(Strip(text[MatchAt(text, k, f).value.start..MatchAt(text, k, f).value.end]))
  {
    var a := Attempts(text, f);
    assert a[k].Some?;
    var p := Search(text, f).value.pos;
    assert p == k by {
      assert a[p].Some?;
    }
  }

  /** Without any colon in the text no label can match, so every field is None. */
  lemma NoColonNoFields(text: string, f: Field)
    requires forall k :: 0 <= k < |text| ==> text[k] != ':'
    ensures Extract(text, f) == None
  {
    forall k | 0 <= k <= |text| ensures MatchAt(text, k, f).None? {
      LabelEndIsAlternation(text, k, f);
    }
    ExtractNoneIffNoMatch(text, f);
  }

  /** A text in which none of the field's names followed by `:` occurs
      anywhere (in any case) yields None for that field. */
  lemma NoLabelNoField(text: string, f: Field)
    requires forall k, n :: 0 <= k <= |text| && 0 <= n < |Labels(f)| ==> !LabelAt(text, k, Labels(f)[n])
    ensures Extract(text, f) == None
  {
    forall k | 0 <= k <= |text| ensures MatchAt(text, k, f).None? {
      LabelEndIsAlternation(text, k, f);
    }
    ExtractNoneIffNoMatch(text, f);
  }

  /** Every stored value is stripped: no whitespace at either end (it may be ""). */
  lemma ExtractIsStripped(text: string, f: Field, v: string)
    requires Extract(text, f) == Some(v)
    ensures v == [] || (!IsSpace(v[0]) && !IsSpace(v[|v| - 1]))
  {
    var q, g := FoundGroup(text, f);
    StripHasNoOuterSpace(text[g.start..g.end]);
  }

  /** The group of a match found by `Search`, and where its label ends. */
  lemma FoundGroup(text: string, f: Field) returns (q: nat, g: Group)
    requires Search(text, f).Some?
    ensures g == Search(text, f).value.group
    ensures LabelEnd(text, Search(text, f).value.pos, f) == Some(q)
    ensures q <= |text| && Capture(text, q, ShapeOf(f)) == Some(g)
    ensures g.start < g.end <= |text|
    ensures Extract(text, f) == Some(Strip(text[g.start..g.end]))
  {
    var found := Search(text, f).value;
    assert Attempts(text, f)[found.pos] == MatchAt(text, found.pos, f);
    g := found.group;
    q := LabelEnd(text, found.pos, f).value;
  }

  /** A rest-of-line group holds no newline, so neither does its stripped value. */
  lemma LineValueHasNoNewline(text: string, q: nat, g: Group)
    requires q <= |text| && LineSpan(text, q) == Some(g)
    ensures g.start <= g.end <= |text|
    ensures forall k :: 0 <= k < |Strip(text[g.start..g.end])| ==> Strip(text[g.start..g.end])[k] != '\n'
  {
    LineSpanIsRegexChoice(text, q);
    var raw := text[g.start..g.end];
    var i, j := StripIsTrimmedSlice(raw);
    forall k | 0 <= k < |Strip(raw)| ensures Strip(raw)[k] != '\n' {
      assert Strip(raw)[k] == raw[i + k] == text[g.start + i + k];
    }
  }

  /** owner, address and due_date never hold a newline: `.` stops at one. */
  lemma ExtractLineHasNoNewline(text: string, f: Field, v: string)
    requires ShapeOf(f) == RestOfLine && Extract(text, f) == Some(v)
    ensures forall k :: 0 <= k < |v| ==> v[k] != '\n'
  {
    var q, g := FoundGroup(text, f);
    LineValueHasNoNewline(text, q, g);
  }

  /** A four-digit group is left as it is by `strip`. */
  lemma YearValue(text: string, q: nat, g: Group)
    requires q <= |text| && YearSpan(text, q) == Some(g)
    ensures YearMatch(text, q, g.start) && g.end == g.start + 4
    ensures Strip(text[g.start..g.end]) == text[g.start..g.start + 4]
  {
    YearSpanIsRegexChoice(text, q);
    var raw := text[g.start..g.end];
    assert raw[0] == text[g.start] && raw[3] == text[g.start + 3];
    StripUnchanged(raw);
  }

  /** Where the stored tax_year comes from: the label found by the search,
      and the four characters the regex admits after it. */
  lemma TaxYearSource(text: string, v: string) returns (p: nat, q: nat, c: nat)
    requires Extract(text, TaxYear) == Some(v)
    ensures p <= |text| && LabelEnd(text, p, TaxYear) == Some(q)
    ensures YearMatch(text, q, c) && v == text[c..c + 4]
  {
    var g;
    q, g := FoundGroup(text, TaxYear);
    p := Search(text, TaxYear).value.pos;
    YearValue(text, q, g);
    c := g.start;
  }

  /** tax_year is four digits that directly follow `Tax Year:` or `Year:`
      (in any case) and optional whitespace. */
  lemma ExtractTaxYear(text: string, v: string)
    requires Extract(text, TaxYear) == Some(v)
    ensures |v| == 4 && forall k :: 0 <= k < 4 ==> IsDigit(v[k])
    ensures exists p: nat, q: nat, c: nat ::
              p <= |text| && LabelEnd(text, p, TaxYear) == Some(q) && YearMatch(text, q, c) && v == text[c..c + 4]
  {
    var p, q, c := TaxYearSource(text, v);
    forall k | 0 <= k < 4 ensures IsDigit(v[k]) {
      assert v[k] == text[c + k];
    }
  }

  /** The shape of an amount as stored. */
  predicate AmountText(v: string) {
    && v != [] && IsDigitOrComma(v[0])
    && (forall k :: 0 <= k < |v| ==> IsDigitOrComma(v[k]) || v[k] == '.')
    && (forall j, k :: 0 <= j < k < |v| && v[j] == '.' ==> IsDigit(v[k]))
  }

  /** An amount group holds no whitespace, so `strip` leaves it as it is. */
  lemma AmountValue(text: string, q: nat, g: Group)
    requires q <= |text| && AmountSpan(text, q) == Some(g)
    ensures g.start < g.end <= |text|
    ensures Strip(text[g.start..g.end]) == text[g.start..g.end]
    ensures AmountText(text[g.start..g.end])
  {
    AmountSpanIsRegexChoice(text, q);
    var raw := text[g.start..g.end];
    assert forall k :: 0 <= k < |raw| ==> raw[k] == text[g.start + k];
    StripUnchanged(raw);
  }

  /** The stored amount_due is exactly the group of the leftmost match: the
      span the regex admits after the label that the search found. */
  lemma AmountSource(text: string, v: string) returns (q: nat, g: Group)
    requires Extract(text, AmountDue) == Some(v)
    ensures g == Search(text, AmountDue).value.group
    ensures LabelEnd(text, Search(text, AmountDue).value.pos, AmountDue) == Some(q)
    ensures q <= |text| && AmountMatch(text, q, g.start, g.end)
    ensures g.start < g.end <= |text| && v == text[g.start..g.end]
    ensures AmountText(v)
  {
    q, g := FoundGroup(text, AmountDue);
    AmountValue(text, q, g);
    AmountSpanAdmitted(text, q);
  }

  /** amount_due holds digits and commas, then at most one `.` followed only
      by digits; it starts with a digit or comma and never holds `$`. */
  lemma ExtractAmount(text: string, v: string)
    requires Extract(text, AmountDue) == Some(v)
    ensures v != [] && IsDigitOrComma(v[0])
    ensures forall k :: 0 <= k < |v| ==> IsDigitOrComma(v[k]) || v[k] == '.'
    ensures forall j, k :: 0 <= j < k < |v| && v[j] == '.' ==> IsDigit(v[k])
    ensures '$' !in v
  {
    var q, g := AmountSource(text, v);
  }
}
