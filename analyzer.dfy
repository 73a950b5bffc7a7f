/** The CV analyser: the guard against empty text and the wrapping of
    service and parse failures into an error object. The completion service
    and the JSON parser are oracles passed in as functions. */
module Analyzer {
  import opened Values

  /** What the completion service gives back for the prompt built around a
      CV text: the reply's message content, or the error it raised. */
  datatype Completion = Content(content: string) | ServiceError(reason: string)

  /** What `json.loads` makes of the reply content. */
  datatype Parsed = ParsedJson(value: Json) | ParseError(reason: string)

  const NoTextMessage: string := "No text extracted from PDF"
  const ServiceFailurePrefix: string := "Groq API processing failed: "

  /** Python's truthiness of the optional CV text. */
  predicate HasText(cvText: Option<string>)
  {
    cvText.Some? && cvText.value != ""
  }

  /** The guarded service call of `analyze_cv` for a non-empty text. */
  function AskService(cvText: string, complete: string -> Completion, parse: string -> Parsed): Json
  {
    match complete(cvText)
    case ServiceError(reason) => ErrorObject(ServiceFailurePrefix + reason)
    case Content(content) =>
      match parse(content)
      case ParsedJson(value) => value
      case ParseError(reason) => ErrorObject(ServiceFailurePrefix + reason)
  }

  /** `analyze_cv`: an error object for missing or empty text, otherwise
      whatever the service call yields. It never raises. */
  function AnalyzeCv(cvText: Option<string>, complete: string -> Completion, parse: string -> Parsed): (r: Json)
    ensures !HasText(cvText) ==> r == ErrorObject(NoTextMessage)
    ensures HasText(cvText) && complete(cvText.value).ServiceError? ==>
      r == ErrorObject(ServiceFailurePrefix + complete(cvText.value).reason)
    ensures HasText(cvText) && complete(cvText.value).Content? ==>
      match parse(complete(cvText.value).content)
      case ParsedJson(value) => r == value
      case ParseError(reason) => r == ErrorObject(ServiceFailurePrefix + reason)
  {
    if !HasText(cvText) then ErrorObject(NoTextMessage) else AskService(cvText.value, complete, parse)
  }

  /** Missing or empty text gives the fixed error whatever the service and
      the parser would do: the service is not consulted. */
  lemma EmptyTextSkipsService(cvText: Option<string>,
                              complete: string -> Completion, parse: string -> Parsed,
                              complete': string -> Completion, parse': string -> Parsed)
    requires !HasText(cvText)
    ensures AnalyzeCv(cvText, complete, parse) == ErrorObject(NoTextMessage)
    ensures AnalyzeCv(cvText, complete, parse) == AnalyzeCv(cvText, complete', parse')
  {
  }

  /** For non-empty text the result is the parsed reply when the service and
      the parser both succeed, and otherwise an error object carrying the
      failure's details after the fixed prefix. */
  lemma AnalyzeWithText(cvText: string, complete: string -> Completion, parse: string -> Parsed)
    requires cvText != ""
    ensures complete(cvText).ServiceError? ==>
      AnalyzeCv(Some(cvText), complete, parse) == ErrorObject(ServiceFailurePrefix + complete(cvText).reason)
    ensures complete(cvText).Content? && parse(complete(cvText).content).ParsedJson? ==>
      AnalyzeCv(Some(cvText), complete, parse) == parse(complete(cvText).content).value
    ensures complete(cvText).Content? && parse(complete(cvText).content).ParseError? ==>
      AnalyzeCv(Some(cvText), complete, parse) == ErrorObject(ServiceFailurePrefix + parse(complete(cvText).content).reason)
  {
  }

  /** The result depends on the service only through its answer for this
      text: two services that agree on it give the same analysis. */
  lemma AnalyzeDependsOnReply(cvText: Option<string>, complete: string -> Completion,
                              complete': string -> Completion, parse: string -> Parsed)
    requires HasText(cvText) ==> complete(cvText.value) == complete'(cvText.value)
    ensures AnalyzeCv(cvText, complete, parse) == AnalyzeCv(cvText, complete', parse)
  {
  }
}
