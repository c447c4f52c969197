# Field extraction and address masking of the property-tax upload service

This project models the one piece of real logic in the service's `app.py`.
After OCR has turned an uploaded tax bill into plain text, `parse_fields`
searches that text with five fixed regular expressions. Each search is
case-insensitive and leftmost-first. For each field the result records
either the stripped capture group or `None`. Before the response is sent,
the handler replaces every digit of a non-empty address with `X`. The
project also models the checks on the uploaded file that come before any
of this.

Modules:

- `Common`: character classes (`\s`, `\d`, `[\d,]`) and lower-casing,
  restricted to ASCII, and the greedy whitespace scan that both `\s*` and
  `str.strip` perform.
- `PyStrip`: Python's `str.strip()` with no argument, defined as an index
  range, with lemmas saying it trims exactly the outer whitespace and is
  idempotent.
- `Patterns`: the five patterns, each as a label alternation, `:`, `\s*`
  and one of three capture shapes:
  - `(.+?)(?:\n|$)`
  - `(\d{4})`
  - `\$?\s*([\d,]+\.?\d*)`

  Every matcher is written by hand and stands next to a declarative
  predicate saying which spans the regular expression admits. Lemmas prove
  that each matcher returns the span the regex engine's priority order
  selects. `Search` is `re.search`: the first start position, from 0 to
  `len(text)`, where a match exists.
- `Extraction`: `ParseFields` is a method that fills the result map in a
  loop over the five fields in dictionary order. Lemmas state what every
  stored value is.
- `Masking`: `re.sub(r"\d", "X", ...)` and the masking step of the upload
  handler.
- `Upload`: the three request checks of the upload handler, in order.
- `Scenarios`: concrete texts that pin down surprising but genuine
  behaviour of the patterns.

## Model

| member | source | states |
|---|---|---|
| Extraction.ParseFields | app.py:96-122 | the result has exactly the keys owner, address, tax_year, amount_due, due_date, and each key holds the outcome of its own pattern's search (stripped group or None) |
| Extraction.FilledIsParsed | app.py:100-119 | after the loop has stored all five fields in order, the map has exactly the five keys and each holds its field's extraction (keys are distinct, so no later store overwrites an earlier one) |
| Extraction.FilledHolds | app.py:111-118 | after n iterations the map holds exactly the first n keys, each mapped to its own field's value |
| Extraction.AllKeys | app.py:103-109 | the keys of the pattern dictionary are exactly the five field names |
| Patterns.KeyInjective | app.py:103-109 | two different fields never share a key |
| Extraction.ExtractNoneIffNoMatch | app.py:111-118 | a field is None exactly when its pattern matches at no position of the text |
| Extraction.ExtractTakesLeftmost | app.py:112-115 | when the pattern matches at k and at no earlier position, the stored value is the stripped group of the match at k; later occurrences are ignored |
| Extraction.NoColonNoFields | app.py:103-118 | a text without a colon yields None for every field |
| Extraction.NoLabelNoField | app.py:103-118 | a text in which none of a field's names followed by `:` occurs anywhere, in any case, yields None for that field |
| Extraction.ExtractIsStripped | app.py:114 | a stored value is empty or starts and ends with a non-whitespace character |
| Extraction.ExtractLineHasNoNewline | app.py:104-105 | owner, address and due_date values never contain a newline |
| Extraction.LineValueHasNoNewline | app.py:108 | a stripped rest-of-line group holds no newline |
| Extraction.ExtractTaxYear | app.py:106 | a tax_year value is exactly four digits, namely the first four characters after some `Tax Year:` or `Year:` label and the whitespace after it |
| Extraction.TaxYearSource | app.py:106 | a tax_year value is the four-character slice a `\d{4}` match admits right after a label |
| Extraction.YearValue | app.py:106 | the four-digit group is its own stripped value |
| Extraction.ExtractAmount | app.py:107 | an amount_due value is non-empty, starts with a digit or comma, holds only digits, commas and dots, has only digits after a dot (so at most one dot), and never holds `$` |
| Extraction.AmountSource | app.py:107 | an amount_due value is exactly the group of the leftmost match: the span `\$?\s*([\d,]+\.?\d*)` admits after the label the search found, unchanged by strip, and of the shape `[\d,]+\.?\d*` |
| Extraction.AmountValue | app.py:107 | the amount group is non-empty, unchanged by strip, and has the shape of `[\d,]+\.?\d*` |
| Extraction.FoundGroup | app.py:112-114 | a found field's value is the strip of the group the field's capture shape returns right after its label |
| Patterns.FirstLabelIsFirst | app.py:103-109 | the alternation picks the first alternative that matches with its colon, and fails only when none does |
| Patterns.LabelEndIsAlternation | app.py:103-109 | `Label:` matches at i exactly when one of the field's names plus `:` occurs there, ignoring case, and it ends after the first such name in alternation order |
| Patterns.YearInsideTaxYear | app.py:106 | `Year:` also matches inside `Tax Year:`, ending at the same colon |
| Common.SkipSpacesRun | app.py:104-108 | greedy `\s*` consumes only whitespace and stops at a non-whitespace character or the end |
| Patterns.LineEndRun | app.py:104 | the lazy `.+?` followed by a newline or the end of text passes no newline and stops at a newline or the end |
| Patterns.LineEndIsFirst | app.py:104 | a newline-free stretch ending at a newline or the end of text is exactly where the lazy group ends |
| Patterns.LineBacktrackChoosesLast | app.py:104 | giving back whitespace from position c one character at a time yields an admissible span starting at the latest admissible start not after c, and fails only when no admissible start lies at or before c |
| Patterns.LineSpanIsRegexChoice | app.py:104 | the rest-of-line matcher returns an admissible span whose start is the latest admissible one (greedy `\s*`) and whose end is the first line end; it fails only when no span is admissible |
| Patterns.YearSpanIsRegexChoice | app.py:106 | the four-digit matcher returns the unique span `\s*(\d{4})` admits, and fails only when none exists |
| Patterns.AmountSpanAdmitted | app.py:107 | the amount matcher's span is admitted by `\$?\s*([\d,]+\.?\d*)` |
| Patterns.AmountSpanIsRegexChoice | app.py:107 | every admissible amount span starts where the matcher's does and ends no later (greedy), and the matcher succeeds whenever one exists |
| Patterns.AmountStartForced | app.py:107 | the start of the amount group is fixed by `\s*\$?\s*` |
| Patterns.AmountEndGreedy | app.py:107 | greedy `[\d,]+\.?\d*` ends no earlier than any admissible end |
| Patterns.AmountEndAdmitted | app.py:107 | the greedy end is itself admissible |
| Patterns.FirstSuccess | app.py:112 | the first successful attempt: every earlier one fails; none means all fail |
| Patterns.MatchAt | app.py:103-112 | the pattern tried at position i: its group lies strictly after i and inside the text; MatchAtIsPattern pins down when it succeeds |
| Patterns.MatchAtIsPattern | app.py:103-112 | the whole pattern matches at i exactly when one of the field's names and `:` occur there and the regex admits the field's group right after them |
| Patterns.AtMostOneLabel | app.py:103-109 | no two names of one field's alternation match at the same position (their first letters differ ignoring case), so committing to the first matching name loses no match that backtracking into the alternation would find |
| Patterns.OnlyLabel | app.py:103-109 | when the label matcher succeeds, the name it ends after is the only name of the field that matches there |
| Patterns.CaptureIsShape | app.py:104-107 | the field's capture matcher succeeds exactly when the regex admits some group of that shape after the label |
| Patterns.Capture | app.py:104-107 | the group of the field's shape lies after the label end and inside the text, and is never empty; CaptureIsShape and the three RegexChoice lemmas pin it down |
| Patterns.LabelEnd | app.py:103-109 | the label ends after position i and inside the text; LabelEndIsAlternation pins down which name and where |
| Patterns.LineBacktrack | app.py:104 | a span found while giving back whitespace starts between the label end and c and is non-empty; LineBacktrackChoosesLast says which one |
| Patterns.LineSpan | app.py:104 | the rest-of-line group is non-empty and lies after the label end; LineSpanIsRegexChoice says it is the regex's choice |
| Patterns.YearSpan | app.py:106 | the year group is four characters long and lies after the label end; YearSpanIsRegexChoice says it is the unique admitted one |
| Patterns.AmountSpan | app.py:107 | the amount group is non-empty and lies after the label end; AmountSpanIsRegexChoice says it is the regex's choice |
| Patterns.Search | app.py:112 | the match position lies before its group, which lies inside the text; by FirstSuccess's contract it is the leftmost success over positions 0 to len(text) (see ExtractNoneIffNoMatch and ExtractTakesLeftmost) |
| Extraction.StoredValue | app.py:113-118 | None exactly when the search found nothing, otherwise a value no longer than the group (the stripped group) |
| Extraction.Extract | app.py:111-118 | a stored value is shorter than the text; ExtractNoneIffNoMatch, ExtractTakesLeftmost and FoundGroup pin it down |
| PyStrip.Strip | app.py:114 | the result is no longer than its input; StripIsTrimmedSlice pins it down |
| Common.Lower | app.py:149 | `str.lower` on ASCII: same length, each character lower-cased in place |
| PyStrip.StripIsTrimmedSlice | app.py:114 | strip returns a slice with only whitespace before and after it, whose outer characters are not whitespace |
| PyStrip.StripHasNoOuterSpace | app.py:114 | the stripped string is empty or has non-whitespace ends |
| PyStrip.StripIdempotent | app.py:114 | stripping twice is stripping once |
| Masking.MaskDigits | app.py:176 | the mask keeps the length, turns each digit into X and leaves every other character unchanged |
| Masking.MaskIdempotent | app.py:176 | masking twice is masking once |
| Masking.MaskChangesIffDigit | app.py:176 | the mask changes a string exactly when it holds a digit |
| Masking.Masked | app.py:174-176 | the address as sent is None exactly when none was found, keeps its length and holds no digit |
| Masking.MaskAddress | app.py:174-176 | a truthy address (present, not None, not empty) is replaced by its mask; every other key and the key set are unchanged; otherwise the map is unchanged |
| Masking.FieldsForResponse | app.py:171-176 | the response map has the five keys, every field but address as parsed, and the address masked |
| Upload.Validate | app.py:140-150 | a rejection carries one of the three error messages |
| Upload.LowerEndsWithPdf | app.py:149 | the lower-cased name ends in `.pdf` exactly when its last four characters are `.`, p, d, f in any case |
| Upload.AcceptedIff | app.py:140-150 | a request is accepted exactly when it has a file part with a name ending in `.pdf` in any case |
| Upload.RejectionOrder | app.py:140-150 | a missing file part wins over a missing or empty name, which wins over a wrong extension |
| Scenarios.OwnerOnNextLine | app.py:104 | `\s*` eats the newline, so "Owner:\nJane" gives owner "Jane" |
| Scenarios.TrailingSpacesGiveEmptyValue | app.py:104 | "Owner:  " gives owner "" (a backtracked space, stripped), not None |
| Scenarios.FiveDigitYearIsCut | app.py:106 | "Year: 20245" gives tax_year "2024" (there is no word boundary) |
| Scenarios.FilenameCountsAsName | app.py:104 | "filename: x" gives owner "x" (labels match as substrings and in any case) |
| Scenarios.AmountWithDollarSign | app.py:107 | "Amount Due: $1,234.56" gives amount_due "1,234.56" |
| Scenarios.StreetNumberMasked | app.py:176 | "12 Elm" is masked to "XX Elm" |

## Left out

- `extract_text` (app.py:26-94) is not modelled. It rasterises the PDF and runs OCR through pdf2image and pytesseract, and it resizes pages with a floating-point ratio. Its output is the `text` parameter here.
- The empty-OCR check (app.py:166-168) is not modelled. It sits between OCR and parsing in the HTTP flow. `FieldsForResponse` starts from a text that passed it.
- Flask routing, CORS, `jsonify`, status codes, `MAX_CONTENT_LENGTH` and the `/`, `/health` and `/test-ocr` routes are not modelled. They are web plumbing with no decisions of their own.
- Saving, sizing and removing the uploaded file, the timestamped path and `os.makedirs` are not modelled. They are filesystem I/O.
- The exception handler is not modelled. Logging, timing, the tesseract path, the `__main__` runner and the gunicorn configuration are not modelled either. None of them affects the returned fields.
- Upload.Request: the request is reduced to whether a `file` part is present and its filename, `Some(name)` or `None`. Werkzeug's multipart parsing is not modelled.
- General regular expressions are not modelled. Only the five fixed patterns are matched by hand.
- `\s`, `\d`, `str.strip`, `str.lower` and `re.IGNORECASE` are restricted to ASCII:
  - non-ASCII whitespace is not whitespace here;
  - non-ASCII digits are not digits;
  - case folding such as U+017F matching `s` is not covered.
- Extraction.ParseFields: the order in which fields are stored is the literal order of the pattern dictionary. Python dictionaries keep insertion order, so this is the order the loop visits, but no field depends on another anyway.
