/** The upload endpoint: request validation in its fixed order, saving the
    file, extraction, analysis, and the mapping of each outcome to an HTTP
    status and a JSON body. */
module Handler {
  import opened Values
  import opened TextRules
  import opened Extractor
  import opened Analyzer

  /** The `file` field of a multipart request: the client's filename and the
      document the PDF reader would make of the uploaded bytes. */
  datatype FileUpload = FileUpload(filename: string, document: Document)

  /** An HTTP status with its JSON body. */
  datatype Response = Response(status: int, body: Json)

  const NoFilePart: string := "No file part in the request"
  const NoFileSelected: string := "No file selected"
  const NotPdf: string := "File must be a PDF"
  const ExtractionFailed: string := "Failed to extract text from PDF"

  /** The upload directory, relative to the working directory. */
  const UploadRoot: string := "./uploaded_pdfs"

  /** Where an accepted upload is saved. */
  function PathFor(filename: string): string
  {
    UploadRoot + "/" + filename
  }

  /** The three request checks, first failure wins. An accepted request
      yields its filename. */
  function Validate(req: Option<FileUpload>): (v: Result<string>)
    ensures v.Ok? <==> req.Some? && req.value.filename != "" && EndsWith(req.value.filename, ".pdf")
    ensures v.Ok? ==> v.value == req.value.filename
    ensures v.Err? ==> v.error == NoFilePart || v.error == NoFileSelected || v.error == NotPdf
  {
    if req.None? then Err(NoFilePart)
    else if req.value.filename == "" then Err(NoFileSelected)
    else if !EndsWith(req.value.filename, ".pdf") then Err(NotPdf)
    else Ok(req.value.filename)
  }

  /** The `{"analysis": result}` body of a successful answer. */
  function AnalysisBody(result: Json): Json
  {
    JObject([("analysis", result)])
  }

  /** The answer of `upload_pdf` once the request is validated, the file is
      saved (or saving raised `saveError`), and extraction has read back the
      saved document. */
  function Respond(req: Option<FileUpload>, saveError: Option<string>,
                   complete: string -> Completion, parse: string -> Parsed): (r: Response)
    ensures r.status == 200 || r.status == 400 || r.status == 500
    ensures r.status != 200 ==> r.body.JObject? && |r.body.members| == 1 && r.body.members[0].0 == "error"
    ensures r.status == 200 ==> Validate(req).Ok? && saveError.None?
    ensures Validate(req).Err? ==> r == Response(400, ErrorObject(Validate(req).error))
    ensures Validate(req).Ok? && saveError.Some? ==> r == Response(500, ErrorObject(saveError.value))
  {
    match Validate(req)
    case Err(reason) => Response(400, ErrorObject(reason))
    case Ok(_) =>
      if saveError.Some? then Response(500, ErrorObject(saveError.value))
      else
        match ExtractOutcome(Some(req.value.document))
        case Raised(message) => Response(500, ErrorObject(message))
        case Returned(text) =>
          if !HasText(text) then Response(400, ErrorObject(ExtractionFailed))
          else Response(200, AnalysisBody(AnalyzeCv(text, complete, parse)))
  }

  /** The directory after a request: untouched when validation or the save
      fails, and otherwise without the saved path, which extraction removed. */
  function DirectoryAfter(files: map<string, Document>, req: Option<FileUpload>,
                          saveError: Option<string>): map<string, Document>
  {
    match Validate(req)
    case Err(_) => files
    case Ok(name) => if saveError.Some? then files else files - {PathFor(name)}
  }

  /** `upload_pdf`: validates, saves the upload under the upload directory,
      extracts its text (which removes the file) and analyses it. */
  method UploadPdf(dir: UploadDir, req: Option<FileUpload>, saveError: Option<string>,
                   complete: string -> Completion, parse: string -> Parsed)
    returns (resp: Response)
    modifies dir
    ensures resp == Respond(req, saveError, complete, parse)
    ensures dir.files == DirectoryAfter(old(dir.files), req, saveError)
  {
    if req.None? {
      return Response(400, ErrorObject(NoFilePart));
    }
    var file := req.value;
    if file.filename == "" {
      return Response(400, ErrorObject(NoFileSelected));
    }
    if !EndsWith(file.filename, ".pdf") {
      return Response(400, ErrorObject(NotPdf));
    }
    var path := PathFor(file.filename);
    if saveError.Some? {
      // the save raised before writing anything; the top-level catch answers
      return Response(500, ErrorObject(saveError.value));
    }
    dir.Save(path, file.document);
    var extracted := dir.ExtractText(path);
    match extracted
    case Raised(message) =>
      resp := Response(500, ErrorObject(message));
    case Returned(text) =>
      if !HasText(text) {
        resp := Response(400, ErrorObject(ExtractionFailed));
      } else {
        var result := AnalyzeCv(text, complete, parse);
        resp := Response(200, AnalysisBody(result));
      }
  }

  /** A request without a `file` field is refused before anything else is
      looked at. */
  lemma MissingFieldFirst(saveError: Option<string>, complete: string -> Completion, parse: string -> Parsed)
    ensures Respond(None, saveError, complete, parse) == Response(400, ErrorObject(NoFilePart))
  {
  }

  /** An empty filename is refused before its extension is looked at. */
  lemma EmptyFilenameSecond(doc: Document, saveError: Option<string>,
                            complete: string -> Completion, parse: string -> Parsed)
    ensures Respond(Some(FileUpload("", doc)), saveError, complete, parse)
         == Response(400, ErrorObject(NoFileSelected))
  {
  }

  /** A non-empty filename that does not end in `.pdf` is refused. */
  lemma NonPdfRefused(file: FileUpload, saveError: Option<string>,
                      complete: string -> Completion, parse: string -> Parsed)
    requires file.filename != "" && !EndsWith(file.filename, ".pdf")
    ensures Respond(Some(file), saveError, complete, parse) == Response(400, ErrorObject(NotPdf))
  {
  }

  /** The extension check is case-sensitive: `x.PDF` and `resume.txt` are
      refused, while the bare name `.pdf` passes validation. */
  lemma ExtensionExamples(doc: Document)
    ensures Validate(Some(FileUpload("x.PDF", doc))) == Err(NotPdf)
    ensures Validate(Some(FileUpload("resume.txt", doc))) == Err(NotPdf)
    ensures Validate(Some(FileUpload(".pdf", doc))) == Ok(".pdf")
  {
    assert "x.PDF"[5 - 4..] != ".pdf" by { assert "x.PDF"[2] == 'P'; }
    assert "resume.txt"[10 - 4..] != ".pdf" by { assert "resume.txt"[7] == 't'; }
    assert ".pdf"[0..] == ".pdf";
  }

  /** A document with no usable text is answered 400 with the fixed
      extraction message. */
  lemma BlankDocumentRefused(file: FileUpload, complete: string -> Completion, parse: string -> Parsed)
    requires Validate(Some(file)).Ok?
    requires file.document.Readable? && NoUsableText(file.document.pages)
    ensures Respond(Some(file), None, complete, parse) == Response(400, ErrorObject(ExtractionFailed))
  {
    ExtractReadable(file.document.pages);
  }

  /** A document with usable text is answered 200 with exactly what the
      analyser returns for the concatenated page texts, error objects
      included; that text is non-empty, so the service is consulted. */
  lemma UsableDocumentAnalysed(file: FileUpload, complete: string -> Completion, parse: string -> Parsed)
    requires Validate(Some(file)).Ok?
    requires file.document.Readable? && !NoUsableText(file.document.pages)
    ensures Lines(PageTexts(file.document.pages)) != ""
    ensures Respond(Some(file), None, complete, parse)
         == Response(200, AnalysisBody(AskService(Lines(PageTexts(file.document.pages)), complete, parse)))
  {
    ExtractReadable(file.document.pages);
  }

  /** An error while reading the PDF escapes as the `NameError` of the
      undefined logger and is answered 500 with that message, not 400. */
  lemma UnreadableDocumentIs500(file: FileUpload, complete: string -> Completion, parse: string -> Parsed)
    requires Validate(Some(file)).Ok?
    requires file.document.Unreadable?
    ensures Respond(Some(file), None, complete, parse) == Response(500, ErrorObject(LoggerNameError))
  {
  }

  /** A save that raises is answered 500 carrying the exception's message. */
  lemma SaveFailureIs500(file: FileUpload, e: string, complete: string -> Completion, parse: string -> Parsed)
    requires Validate(Some(file)).Ok?
    ensures Respond(Some(file), Some(e), complete, parse) == Response(500, ErrorObject(e))
  {
  }

  /** Every answer is 200, 400 or 500: 400 exactly for a refused request or
      a document without usable text, 500 exactly for a failed save or an
      unreadable document, and 200 otherwise. */
  lemma StatusClassification(req: Option<FileUpload>, saveError: Option<string>,
                             complete: string -> Completion, parse: string -> Parsed)
    ensures var r := Respond(req, saveError, complete, parse);
      && (r.status == 400 <==>
            Validate(req).Err? ||
            (saveError.None? && req.value.document.Readable? && NoUsableText(req.value.document.pages)))
      && (r.status == 500 <==>
            Validate(req).Ok? && (saveError.Some? || req.value.document.Unreadable?))
      && (r.status == 200 <==>
            Validate(req).Ok? && saveError.None? && req.value.document.Readable?
            && !NoUsableText(req.value.document.pages))
  {
    if req.Some? && req.value.document.Readable? {
      ExtractReadable(req.value.document.pages);
    }
  }

  /** Nothing is written to the upload directory when the request is
      refused or the save fails, and a saved upload leaves no file behind at
      its path (a file of the same name that was there before is gone too). */
  lemma DirectoryCleanup(files: map<string, Document>, req: Option<FileUpload>, saveError: Option<string>)
    ensures Validate(req).Err? ==> DirectoryAfter(files, req, saveError) == files
    ensures Validate(req).Ok? && saveError.None? ==> PathFor(req.value.filename) !in DirectoryAfter(files, req, saveError)
    ensures Validate(req).Ok? && saveError.Some? ==> DirectoryAfter(files, req, saveError) == files
    ensures DirectoryAfter(files, req, saveError).Keys <= files.Keys
  {
  }
}
