/** The compliance step of `upload_pdf`: once the fields are parsed, a
    truthy address has every digit replaced by `X` (`re.sub(r"\d", "X", ...)`);
    no other field is touched. */
module Masking {
  import opened Common
  import opened Patterns
  import opened Extraction

  /** `re.sub(r"\d", "X", s)`: each digit becomes `X`, every other character
      stays where it is. */
  function MaskDigits(s: string): (r: string)
    ensures |r| == |s|
    ensures forall k :: 0 <= k < |s| ==> r[k] == (if IsDigit(s[k]) then 'X' else s[k])
  {
    if s == [] then [] else [if IsDigit(s[0]) then 'X' else s[0]] + MaskDigits(s[1..])
  }

  /** Masking twice is the same as masking once. */
  lemma MaskIdempotent(s: string)
    ensures MaskDigits(MaskDigits(s)) == MaskDigits(s)
  {
    var m := MaskDigits(s);
    assert forall k :: 0 <= k < |m| ==> !IsDigit(m[k]);
  }

  /** The mask changes a string exactly when the string holds a digit. */
  lemma MaskChangesIffDigit(s: string)
    ensures MaskDigits(s) == s <==> forall k :: 0 <= k < |s| ==> !IsDigit(s[k])
  {
    if MaskDigits(s) == s {
      forall k | 0 <= k < |s| ensures !IsDigit(s[k]) {
        assert MaskDigits(s)[k] == s[k];
      }
    }
  }

  /** `if fields.get("address"): fields["address"] = re.sub(r"\d", "X", ...)`:
      the address is masked only when it is present and not the empty string. */
  method MaskAddress(fields: map<string, Option<string>>) returns (masked: map<string, Option<string>>)
    ensures masked.Keys == fields.Keys
    ensures forall k :: k in fields && k != "address" ==> masked[k] == fields[k]
    ensures "address" in fields && fields["address"].Some? && fields["address"].value != [] ==>
              masked["address"] == Some(MaskDigits(fields["address"].value))
    ensures !("address" in fields && fields["address"].Some? && fields["address"].value != []) ==>
              masked == fields
  {
    masked := fields;
    if "address" in fields && fields["address"].Some? && fields["address"].value != [] {
      masked := masked["address" := Some(MaskDigits(fields["address"].value))];
    }
  }

  /** What `upload_pdf` returns for an extracted text: the parsed fields with
      the address masked. */
  method FieldsForResponse(text: string) returns (fields: map<string, Option<string>>)
    ensures fields.Keys == {"owner", "address", "tax_year", "amount_due", "due_date"}
    ensures forall f :: f != Address ==> fields[Key(f)] == Extract(text, f)
    ensures fields["address"] == Masked(Extract(text, Address))
  {
    fields := ParseFields(text);
    assert Key(Address) == "address";
    fields := MaskAddress(fields);
    forall f | f != Address ensures fields[Key(f)] == Extract(text, f) {
      assert Key(f) != "address" by {
        KeyInjective(f, Address);
      }
    }
  }

  /** The address as the response carries it: masked whenever present. The
      truthiness test skips only the empty string, which the mask would
      leave unchanged anyway. */
  function Masked(address: Option<string>): (r: Option<string>)
    ensures r.None? <==> address.None?
    ensures address.Some? ==> |r.value| == |address.value|
                              && forall k :: 0 <= k < |r.value| ==> !IsDigit(r.value[k])
  {
    match address
    case None => None
    case Some(v) => Some(MaskDigits(v))
  }
}
