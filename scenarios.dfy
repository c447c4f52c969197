/** Concrete inputs on which `parse_fields` behaves in ways a reader of the
    patterns might not expect; each lemma pins the extracted value down. */
module Scenarios {
  import opened Common
  import opened PyStrip
  import opened Patterns
  import opened Extraction
  import opened Masking

  /** `Owner:` at the very start of `text`. */
  lemma OwnerLabelAtStart(text: string)
    requires |text| > 5 && text[..6] == "Owner:"
    ensures LabelEnd(text, 0, Owner) == Some(6)
  {
    assert LabelAt(text, 0, "Owner") by {
      assert forall k :: 0 <= k < 5 ==> text[k] == "Owner"[k];
      assert text[5] == ':';
    }
  }

  /** The group `text[start..end]` is a word with no whitespace around it,
      so `strip` leaves it as it is. */
  lemma WordIsKept(text: string, start: nat, end: nat, word: string)
    requires start <= end <= |text| && text[start..end] == word
    requires word == [] || (!IsSpace(word[0]) && !IsSpace(word[|word| - 1]))
    ensures Strip(text[start..end]) == word
  {
    StripUnchanged(word);
  }

  lemma OwnerOnNextLineMatch(text: string)
    requires text == "Owner:\nJane"
    ensures MatchAt(text, 0, Owner) == Some(Group(7, 11))
  {
    OwnerLabelAtStart(text);
    assert SkipSpaces(text, 6) == 7 by {
      SkipSpacesStopsAt(text, 6, 7);
    }
    LineEndIsFirst(text, 8, 11);
  }

  /** `\s*` also consumes a newline, so the owner is read from the next line. */
  lemma OwnerOnNextLine()
    ensures Extract("Owner:\nJane", Owner) == Some("Jane")
  {
    var text := "Owner:\nJane";
    OwnerOnNextLineMatch(text);
    ExtractTakesLeftmost(text, Owner, 0);
    JaneIsKept(text);
  }

  lemma JaneIsKept(text: string)
    requires text == "Owner:\nJane"
    ensures Strip(text[7..11]) == "Jane"
  {
    WordIsKept(text, 7, 11, "Jane");
  }

  lemma TrailingSpacesMatch(text: string)
    requires text == "Owner:  "
    ensures MatchAt(text, 0, Owner) == Some(Group(7, 8))
  {
    OwnerLabelAtStart(text);
    assert SkipSpaces(text, 6) == 8;
    assert LineBacktrack(text, 6, 8) == Some(Group(7, 8));
  }

  /** A label followed only by spaces: `\s*` gives one space back so that
      `.+?` can match it, and the stripped value is "" rather than None. */
  lemma TrailingSpacesGiveEmptyValue()
    ensures Extract("Owner:  ", Owner) == Some("")
  {
    var text := "Owner:  ";
    TrailingSpacesMatch(text);
    ExtractTakesLeftmost(text, Owner, 0);
    OneSpaceStripsToEmpty(text);
  }

  lemma OneSpaceStripsToEmpty(text: string)
    requires text == "Owner:  "
    ensures Strip(text[7..8]) == ""
  {
    assert text[7..8] == " ";
    assert SkipSpaces(" ", 0) == 1;
  }

  lemma FiveDigitYearMatch(text: string)
    requires text == "Year: 20245"
    ensures MatchAt(text, 0, TaxYear) == Some(Group(6, 10))
  {
    assert !LabelAt(text, 0, "Tax Year");
    assert LabelAt(text, 0, "Year");
    assert FirstLabel(text, 0, Labels(TaxYear), 1) == Some(1);
    assert LabelEnd(text, 0, TaxYear) == Some(5);
    assert SkipSpaces(text, 5) == 6 by {
      SkipSpacesStopsAt(text, 5, 6);
    }
  }

  /** `\d{4}` has no word boundary: a five-digit year yields its first four digits. */
  lemma FiveDigitYearIsCut()
    ensures Extract("Year: 20245", TaxYear) == Some("2024")
  {
    var text := "Year: 20245";
    FiveDigitYearMatch(text);
    ExtractTakesLeftmost(text, TaxYear, 0);
    YearIsKept(text);
  }

  lemma YearIsKept(text: string)
    requires text == "Year: 20245"
    ensures Strip(text[6..10]) == "2024"
  {
    WordIsKept(text, 6, 10, "2024");
  }

  /** In `filename: x` no owner label ends in a colon before position 4. */
  lemma NoOwnerLabelBefore(text: string, j: nat)
    requires text == "filename: x" && j < 4
    ensures MatchAt(text, j, Owner).None?
  {
    assert !LabelAt(text, j, "Name") by {
      assert text[j + 4] != ':';
    }
    if j < 3 {
      assert !LabelAt(text, j, "Owner") by {
        assert text[j + 5] != ':';
      }
    } else {
      assert !LabelAt(text, j, "Owner") by {
        assert ToLower(text[j]) != ToLower("Owner"[0]);
      }
    }
    LabelEndIsAlternation(text, j, Owner);
  }

  /** `name:` inside `filename:` is the first owner label in the text. */
  lemma NameLabelInFilename(text: string)
    requires text == "filename: x"
    ensures MatchAt(text, 4, Owner) == Some(Group(10, 11))
  {
    assert !LabelAt(text, 4, "Owner");
    assert LabelAt(text, 4, "Name");
    assert FirstLabel(text, 4, Labels(Owner), 1) == Some(1);
    assert LabelEnd(text, 4, Owner) == Some(9);
    assert SkipSpaces(text, 9) == 10 by {
      SkipSpacesStopsAt(text, 9, 10);
    }
  }

  /** Labels match as substrings and in any case: `filename:` holds `name:`. */
  lemma FilenameCountsAsName()
    ensures Extract("filename: x", Owner) == Some("x")
  {
    var text := "filename: x";
    forall j | 0 <= j < 4 ensures MatchAt(text, j, Owner).None? {
      NoOwnerLabelBefore(text, j);
    }
    NameLabelInFilename(text);
    ExtractTakesLeftmost(text, Owner, 4);
    NameIsKept(text);
  }

  lemma NameIsKept(text: string)
    requires text == "filename: x"
    ensures Strip(text[10..11]) == "x"
  {
    WordIsKept(text, 10, 11, "x");
  }

  /** After `Amount Due:`, the group skips the space and the dollar sign and
      runs over digits, commas, one dot and the cents. */
  lemma AmountAfterDollar(text: string)
    requires text == "Amount Due: $1,234.56"
    ensures MatchAt(text, 0, AmountDue) == Some(Group(13, 21))
  {
    assert LabelAt(text, 0, "Amount Due");
    assert LabelEnd(text, 0, AmountDue) == Some(11);
    AmountGroupAfterDollar(text);
  }

  lemma AmountGroupAfterDollar(text: string)
    requires text == "Amount Due: $1,234.56"
    ensures AmountSpan(text, 11) == Some(Group(13, 21))
  {
    assert SkipSpaces(text, 11) == 12 by {
      SkipSpacesStopsAt(text, 11, 12);
    }
    assert SkipSpaces(text, 13) == 13;
    assert DigitCommaRunEnd(text, 13) == 18 by {
      DigitCommaRunCovers(text, 13, 18);
      DigitCommaRun(text, 13);
      assert !IsDigitOrComma(text[18]);
    }
    assert DigitRunEnd(text, 19) == 21 by {
      DigitRunCovers(text, 19, 21);
    }
  }

  /** The dollar sign and the space after the colon are not part of the amount. */
  lemma AmountWithDollarSign()
    ensures Extract("Amount Due: $1,234.56", AmountDue) == Some("1,234.56")
  {
    var text := "Amount Due: $1,234.56";
    AmountAfterDollar(text);
    ExtractTakesLeftmost(text, AmountDue, 0);
    AmountIsKept(text);
  }

  lemma AmountIsKept(text: string)
    requires text == "Amount Due: $1,234.56"
    ensures Strip(text[13..21]) == "1,234.56"
  {
    WordIsKept(text, 13, 21, "1,234.56");
  }

  /** A street number is masked, the rest of the address is kept. */
  lemma StreetNumberMasked()
    ensures MaskDigits("12 Elm") == "XX Elm"
  {
    var m := MaskDigits("12 Elm");
    assert m[0] == 'X' && m[1] == 'X' && m[2] == ' ' && m[3] == 'E' && m[4] == 'l' && m[5] == 'm';
  }
}
