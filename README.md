# CV checker upload pipeline, modelled in Dafny

The service takes one uploaded PDF over `POST /upload_pdf`. It checks the
request, saves the file in the upload directory and extracts the text page
by page, which removes the saved file. It then hands the text to a language-model service for a
mentor-eligibility assessment and answers with an HTTP status and a JSON
body. This project models the decision layer of `app.py` and proves what it
promises:

- `values.dfy` (module `Values`): `Option`, `Result` and a JSON value type,
  plus the `{"error": ...}` body.
- `textrules.dfy` (module `TextRules`): Python's whitespace set
  (`str.isspace`), `str.strip()` and the case-sensitive `str.endswith`.
- `extractor.dfy` (module `Extractor`): `extract_text_from_pdf`. The upload
  directory is the class `UploadDir`. Its field `files` maps each existing
  path to the document the PDF reader would make of that file's bytes.
  `ExtractText` is the class method. Its body is the `try` part
  (`TryExtract`, with the source's page loop in `ReadPages`) followed by the
  `finally` removal. Its postcondition ties the result to the specification
  function `ExtractOutcome` and says that the path is gone afterwards, that
  every other path is unchanged, and that this holds on every exit.
- `analyzer.dfy` (module `Analyzer`): `analyze_cv`. The completion service
  and `json.loads` are oracle functions passed in.
- `handler.dfy` (module `Handler`): `upload_pdf`. The method `UploadPdf`
  validates, saves, extracts and analyses in the source's order. The
  function `Respond` specifies its answer.

The model follows the code as written at the extractor's `except` branch.
That branch calls `logger`, which `app.py` never defines. So every error
while opening or reading the PDF comes out as a `NameError` with the message
`name 'logger' is not defined`. The top-level handler then answers 500 with
that message. The `return None` at app.py:46 shows that such errors were meant to come
back as `None`, and so as a 400 answer. They never get there, because line 45
raises first. A missing file at the path behaves the same way, because
opening it raises too. The model follows the code as written.

## Model

| member | source | states |
|---|---|---|
| `TextRules.IsWs` | app.py:41 | the whitespace set of Python's `str.strip()`: the ASCII whitespace characters are in it; digits, letters and `.` are not; nothing above U+3000 is |
| `TextRules.EndsWith` | app.py:106 | `s.endswith(suffix)` holds iff `s` is some (possibly empty) stem followed by exactly `suffix`, compared case-sensitively |
| `TextRules.Strip` | app.py:41 | `text.strip()` is empty exactly when every character is Python whitespace; otherwise what remains starts and ends with a non-whitespace character; what remains is the slice of the input between a whitespace prefix and a whitespace suffix |
| `TextRules.TrimLeft` | app.py:41 | leading-whitespace removal leaves a suffix of the input that starts with non-whitespace, and everything removed is whitespace |
| `TextRules.TrimRight` | app.py:41 | trailing-whitespace removal leaves a prefix of the input that ends with non-whitespace, and everything removed is whitespace |
| `Extractor.Accumulate` | app.py:36-40 | the fold the page loop computes; its result is empty or ends with a newline |
| `Extractor.PageTexts` | app.py:37-39 | the pages that contribute are exactly those whose text is non-empty: a string is listed iff it is non-empty and some page returned it, and no listed text is empty |
| `Extractor.AccumulateIsLines` | app.py:36-40 | the accumulated text equals the in-order concatenation of `t + "\n"` over the pages with non-empty text `t`; `None` and `""` pages add nothing |
| `Extractor.AccumulateShape` | app.py:36-40 | the accumulated text is empty iff no page has non-empty text, and when non-empty it ends with the newline of the last contributing page |
| `Extractor.AccumulateBlank` | app.py:36-42 | the accumulated text is all whitespace iff every page has no text or only whitespace (both directions) |
| `Extractor.ExtractOutcome` | app.py:32-50 | an exception that escapes always carries the undefined-logger `NameError` message; a returned string is never empty or blank; extraction returns (rather than raises) iff a readable file is at the path |
| `Extractor.ExtractReadable` | app.py:41-43 | for a readable PDF, extraction returns `None` iff no page yields usable text; otherwise it returns the untrimmed concatenation, which ends in `"\n"` |
| `Extractor.ReadPages` | app.py:36-40 | the page loop's text equals `Accumulate` of the pages, by a loop invariant over the pages read so far |
| `Extractor.TryExtract` | app.py:33-46 | the `try`/`except` part returns or raises exactly as `ExtractOutcome` of the directory entry says |
| `Extractor.UploadDir.ExtractText` | app.py:32-50 | the result matches `ExtractOutcome` of the file found at the path (or of its absence); afterwards the path does not exist and every other path is unchanged, on every exit path |
| `Extractor.UploadDir.Save` | app.py:110-111 | saving writes the document at the path and replaces any file already there; no other path changes |
| `Analyzer.AnalyzeCv` | app.py:53-89 | missing or empty text gives `{"error": "No text extracted from PDF"}`; otherwise a service failure or a parse failure gives `{"error": "Groq API processing failed: " + details}`, and a parsed reply is returned unchanged |
| `Analyzer.EmptyTextSkipsService` | app.py:54-55 | missing or empty text gives `{"error": "No text extracted from PDF"}`, and the result is the same whatever the service and parser would do |
| `Analyzer.AnalyzeWithText` | app.py:79-89 | for non-empty text the result is the parsed reply when service and parse succeed, and otherwise `{"error": "Groq API processing failed: " + details}` for a service failure or a parse failure |
| `Analyzer.AnalyzeDependsOnReply` | app.py:79-87 | the analysis depends on the service only through its reply for this text |
| `Handler.Validate` | app.py:96-107 | a request passes iff it has a `file` field whose filename is non-empty and ends with `.pdf` (case-sensitive); a passing request yields its filename; a refusal carries one of the three fixed messages |
| `Handler.Respond` | app.py:93-122 | every answer is 200, 400 or 500; every non-200 body is a single `error` member; 200 only after validation and saving succeed; a refusal is 400 with the check's message; a failed save is 500 with its message |
| `Handler.MissingFieldFirst` | app.py:96-97 | no `file` field gives 400 "No file part in the request", whatever else holds |
| `Handler.EmptyFilenameSecond` | app.py:102-103 | an empty filename gives 400 "No file selected", before the extension is looked at |
| `Handler.NonPdfRefused` | app.py:106-107 | a non-empty filename not ending in `.pdf` gives 400 "File must be a PDF" |
| `Handler.ExtensionExamples` | app.py:106-107 | `x.PDF` and `resume.txt` are refused as non-PDF; the name `.pdf` passes validation |
| `Handler.BlankDocumentRefused` | app.py:113-115 | a valid upload whose pages yield no usable text gives 400 "Failed to extract text from PDF" |
| `Handler.UsableDocumentAnalysed` | app.py:113-119 | a valid upload with usable text gives 200 with `{"analysis": r}`, where `r` is exactly the analyser's service result for the concatenated page texts, error objects included |
| `Handler.UnreadableDocumentIs500` | app.py:44-46 | a PDF that cannot be read gives 500 with the undefined-logger `NameError` message, not 400 |
| `Handler.SaveFailureIs500` | app.py:109-111 | a valid upload whose save raises is answered 500 carrying the exception's message |
| `Handler.StatusClassification` | app.py:93-122 | every answer is 400 iff the request is refused or no page has usable text; 500 iff the save fails or the PDF is unreadable; 200 otherwise |
| `Handler.DirectoryCleanup` | app.py:106-113 | a refused request or a failed save leaves the directory unchanged; a saved upload leaves nothing at its path; no path is ever added |
| `Handler.UploadPdf` | app.py:93-122 | the answer equals `Respond` for the request, and the directory afterwards equals `DirectoryAfter`: unchanged on refusal or failed save, else minus the saved path |

## Left out

- The completion service call (model name, temperature, token cap, JSON response format) and the prompt wording. These are a foreign network call. The oracle `complete` gets the CV text, which the prompt embeds verbatim, and returns the reply's content or an error.
- `json.loads`: an oracle `parse` returning a JSON value or a failure with its details. The model's JSON numbers are integers only, and it does not check the shape of the reply, just as the code does not (no field check, no score threshold).
- PyPDF2 parsing: a file is described only by its per-page `extract_text()` results, or as unreadable. An error on any page and an error at open or parse time end the same way, so the model does not record where the error happened.
- Flask request and response objects, `jsonify`, routing and the server start. An absent `file` field is `None`; a response is a status with a JSON body.
- Startup configuration: the API key lookup, creating the upload directory, the port default.
- `os.path.join` semantics: the saved path is the upload directory, `/`, and the filename. An absolute filename or one with `..` components is not modelled specially.
- Concurrent requests that share a filename, and the race between one request's delete and another's file: there is no concurrency in the model.
- `Handler.UploadPdf`: a failing `file.save` is a parameter `saveError`. The model assumes such a failure writes nothing; a partly written file is not modelled.
- `Handler.StatusClassification`: a 500 from some other unexpected error inside the handler (beyond a failed save and a failed extraction) is not modelled. `analyze_cv` catches its own errors, and with request parsing left out, the checks themselves cannot raise.
- `Extractor.UploadDir.ExtractText`: a failure of `os.path.exists` or `os.remove` in the `finally` clause is not modelled. In the code such a failure would leave the file in place and turn even a successful return into a 500 with the OS error's message; the model always removes the file.
- Logging: the `logger.error` call never runs, because it raises first.
