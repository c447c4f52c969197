/** The checks `upload_pdf` makes on the request before it saves anything:
    a `file` part must be present, it must carry a filename, and the name,
    lower-cased, must end in `.pdf`. The first failing check decides the
    error message. */
module Upload {
  import opened Common

  datatype Verdict = Accepted | Rejected(message: string)

  /** The multipart request as far as the checks look at it: whether it has
      a part named `file`, and that part's filename (Werkzeug reports a
      missing filename as None). */
  datatype Request = Request(hasFilePart: bool, filename: Option<string>)

  predicate EndsWith(s: string, suffix: string) {
    |suffix| <= |s| && s[|s| - |suffix|..] == suffix
  }

  /** The filename checks of `upload_pdf`, in the order the handler makes them. */
  function Validate(req: Request): (v: Verdict)
    ensures v.Rejected? ==> v.message in {"No file uploaded", "No file selected", "Only PDF files allowed"}
  {
    if !req.hasFilePart then Rejected("No file uploaded")
    else if req.filename.None? || req.filename.value == [] then Rejected("No file selected")
    else if !EndsWith(Lower(req.filename.value), ".pdf") then Rejected("Only PDF files allowed")
    else Accepted
  }

  /** The last four characters of `name` spell `.pdf` in any mix of case. */
  predicate PdfExtension(name: string) {
    && |name| >= 4
    && name[|name| - 4] == '.'
    && (name[|name| - 3] == 'p' || name[|name| - 3] == 'P')
    && (name[|name| - 2] == 'd' || name[|name| - 2] == 'D')
    && (name[|name| - 1] == 'f' || name[|name| - 1] == 'F')
  }

  /** A character lower-cases to the letter `lc` exactly when it is `lc` or
      its capital `uc`. */
  lemma LowersTo(c: char, lc: char, uc: char)
    requires 'a' <= lc <= 'z' && uc as int == lc as int - 32
    ensures ToLower(c) == lc <==> c == lc || c == uc
  {
  }

  /** The lower-cased suffix test is the same as reading the extension
      character by character in either case. */
  lemma LowerEndsWithPdf(name: string)
    ensures EndsWith(Lower(name), ".pdf") <==> PdfExtension(name)
  {
    if |name| >= 4 {
      var n := |name|;
      var t := Lower(name)[n - 4..];
      assert t == [ToLower(name[n - 4]), ToLower(name[n - 3]), ToLower(name[n - 2]), ToLower(name[n - 1])];
      assert t == ".pdf" <==> t[0] == '.' && t[1] == 'p' && t[2] == 'd' && t[3] == 'f';
      LowersTo(name[n - 3], 'p', 'P');
      LowersTo(name[n - 2], 'd', 'D');
      LowersTo(name[n - 1], 'f', 'F');
    }
  }

  /** A request is accepted exactly when it has a file part whose filename is
      present, not empty, and ends in `.pdf` in any case. */
  lemma AcceptedIff(req: Request)
    ensures Validate(req) == Accepted <==>
              req.hasFilePart && req.filename.Some? && PdfExtension(req.filename.value)
  {
    if req.filename.Some? {
      LowerEndsWithPdf(req.filename.value);
    }
  }

  /** The checks run in order: a missing part is reported whatever the
      filename; a missing or empty filename before the extension. */
  lemma RejectionOrder(req: Request)
    ensures !req.hasFilePart ==> Validate(req) == Rejected("No file uploaded")
    ensures req.hasFilePart && (req.filename.None? || req.filename.value == []) ==>
              Validate(req) == Rejected("No file selected")
    ensures req.hasFilePart && req.filename.Some? && req.filename.value != [] && !PdfExtension(req.filename.value) ==>
              Validate(req) == Rejected("Only PDF files allowed")
  {
    if req.filename.Some? {
      LowerEndsWithPdf(req.filename.value);
    }
  }
}
