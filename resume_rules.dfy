/** The resume document and its PDF: upload replaces the stored file, delete clears it, and the
    public download finds it. Files on disk are a set of paths (`blobs`); a resume names its PDF by
    the path in its `cvFile` key. */
module ResumeRules {
  import opened JsValues
  import opened Records

  /** The resume is a JSON object; the routes only ever look at its `cvFile` key. */
  type Resume = map<string, Value>

  /** What the upload middleware hands the PDF route: a size-limit error, another upload error, an
      unexpected error, no file at all, or a stored file with its name and declared type. */
  datatype PdfUpload =
    | TooLarge
    | UploadError(message: string)
    | ServerError(message: string)
    | NoFile
    | Uploaded(filename: string, mimetype: string)

  /** The part of the store the PDF routes read and write. */
  datatype PdfState = PdfState(resume: Option<Resume>, blobs: set<string>)

  function CvFile(r: Resume): Option<Value> {
    Get(r, "cvFile")
  }

  /** The path the server gives an uploaded file. */
  function PdfPath(filename: string): string {
    "/uploads/" + filename
  }

  /** `POST /resume/upload-pdf`. Upload errors answer 400 (500 for an unexpected one) and leave
      everything as it was; a missing file or another type than PDF answers 400, and the stray file
      is removed. Otherwise the resume (an empty one when absent) gets the new path as `cvFile`, the
      previous PDF is removed, and the new one stays on disk. A truthy `cvFile` that is not a string
      makes the path computation throw: 500, resume unchanged, the new file left behind. */
  function UploadPdf(s: PdfState, u: PdfUpload): (r: (Reply<string>, PdfState))
    ensures !u.Uploaded? ==> r.1 == s && r.0.Fail? && r.0.status == (if u.ServerError? then 500 else 400)
    ensures u.Uploaded? && u.mimetype != "application/pdf" ==>
      r == (Fail(400, "Only PDF files are allowed"), PdfState(s.resume, s.blobs - {PdfPath(u.filename)}))
    ensures r.0.Ok? ==> u.Uploaded? && u.mimetype == "application/pdf" && r.0.value == PdfPath(u.filename)
    ensures r.0.Ok? ==> r.1.resume.Some? && CvFile(r.1.resume.value) == Some(Str(PdfPath(u.filename)))
    ensures r.0.Ok? ==> forall k :: k != "cvFile" && s.resume.Some? && k in s.resume.value ==>
      k in r.1.resume.value && r.1.resume.value[k] == s.resume.value[k]
    ensures r.0.Ok? && s.resume.None? ==> r.1.resume == Some(map["cvFile" := Str(PdfPath(u.filename))])
    ensures r.0.Ok? ==> PdfPath(u.filename) in r.1.blobs || (s.resume.Some? && CvFile(s.resume.value) == Some(Str(PdfPath(u.filename))))
    ensures r.0.Ok? && s.resume.Some? && Truthy(CvFile(s.resume.value)) ==>
      CvFile(s.resume.value).value.Str? && CvFile(s.resume.value).value.s !in r.1.blobs
    ensures r.0.Ok? ==> r.1.blobs <= s.blobs + {PdfPath(u.filename)}
  {
    match u
    case TooLarge => (Fail(400, "File size exceeds 10MB limit"), s)
    case UploadError(m) => (Fail(400, "Upload error: " + m), s)
    case ServerError(m) => (Fail(500, "Server error: " + m), s)
    case NoFile => (Fail(400, "No file uploaded"), s)
    case Uploaded(filename, mimetype) =>
      var path := PdfPath(filename);
      if mimetype != "application/pdf" then
        (Fail(400, "Only PDF files are allowed"), PdfState(s.resume, s.blobs - {path}))
      else
        var resume := if s.resume.Some? then s.resume.value else map[];
        var stored := s.blobs + {path};
        var previous := CvFile(resume);
        if Truthy(previous) && !previous.value.Str? then
          (Fail(500, "Failed to upload resume PDF"), PdfState(s.resume, stored))
        else
          var kept := if Truthy(previous) then stored - {previous.value.s} else stored;
          (Ok(path), PdfState(Some(resume["cvFile" := Str(path)]), kept))
  }

  /** `DELETE /resume/pdf`: 404 without a resume or without a `cvFile`; otherwise the file is removed
      and `cvFile` becomes `null`, every other key kept. */
  function DeletePdf(s: PdfState): (r: (Reply<string>, PdfState))
    ensures s.resume.None? ==> r == (Fail(404, "Resume not found"), s)
    ensures s.resume.Some? && !Truthy(CvFile(s.resume.value)) ==> r == (Fail(404, "No PDF file to delete"), s)
    ensures r.0.Ok? ==> s.resume.Some? && CvFile(s.resume.value).Some? && CvFile(s.resume.value).value.Str?
    ensures r.0.Ok? ==> r.1 == PdfState(Some(s.resume.value["cvFile" := Null]), s.blobs - {CvFile(s.resume.value).value.s})
    ensures r.0.Fail? ==> r.1 == s
  {
    if s.resume.None? then (Fail(404, "Resume not found"), s)
    else
      var cv := CvFile(s.resume.value);
      if !Truthy(cv) then (Fail(404, "No PDF file to delete"), s)
      else if !cv.value.Str? then (Fail(500, "Failed to delete resume PDF"), s)
      else (Ok("Resume PDF deleted successfully"), PdfState(Some(s.resume.value["cvFile" := Null]), s.blobs - {cv.value.s}))
  }

  /** `GET /resume/download`: the path of the stored PDF, or 404 when there is no resume, no
      `cvFile`, or no such file on disk. */
  function DownloadPath(s: PdfState): (r: Reply<string>)
    ensures r.Ok? <==> s.resume.Some? && CvFile(s.resume.value).Some? && CvFile(s.resume.value).value.Str? &&
                       Truthy(CvFile(s.resume.value)) && CvFile(s.resume.value).value.s in s.blobs
    ensures r.Ok? ==> r.value in s.blobs && CvFile(s.resume.value) == Some(Str(r.value))
    ensures s.resume.None? ==> r == Fail(404, "Resume not found")
  {
    if s.resume.None? then Fail(404, "Resume not found")
    else
      var cv := CvFile(s.resume.value);
      if !Truthy(cv) then Fail(404, "No resume PDF available")
      else if !cv.value.Str? then Fail(500, "Failed to download resume")
      else if cv.value.s !in s.blobs then Fail(404, "Resume file not found")
      else Ok(cv.value.s)
  }

  /** A PDF just uploaded is what the download serves, as long as its name is not the one the
      replaced PDF had. */
  lemma UploadThenDownload(s: PdfState, filename: string)
    requires UploadPdf(s, Uploaded(filename, "application/pdf")).0.Ok?
    requires s.resume.Some? ==> CvFile(s.resume.value) != Some(Str(PdfPath(filename)))
    ensures DownloadPath(UploadPdf(s, Uploaded(filename, "application/pdf")).1) == Ok(PdfPath(filename))
  {
  }

  /** Upload followed by delete leaves no PDF behind: `cvFile` is `null`, and of the files only the
      previous PDF and the uploaded one are gone. */
  lemma UploadThenDelete(s: PdfState, filename: string)
    requires UploadPdf(s, Uploaded(filename, "application/pdf")).0.Ok?
    ensures var after := DeletePdf(UploadPdf(s, Uploaded(filename, "application/pdf")).1);
      after.0.Ok? && CvFile(after.1.resume.value) == Some(Null) &&
      PdfPath(filename) !in after.1.blobs && after.1.blobs <= s.blobs
  {
  }

  /** After a delete the download finds no PDF. */
  lemma DeleteThenDownload(s: PdfState)
    requires DeletePdf(s).0.Ok?
    ensures DownloadPath(DeletePdf(s).1) == Fail(404, "No resume PDF available")
  {
  }
}
