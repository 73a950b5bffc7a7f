/** The text extractor: reading a saved PDF page by page, the rule that
    turns a blank result into `None`, and the cleanup that removes the saved
    file on every path. */
module Extractor {
  import opened Values
  import opened TextRules

  /** What the PDF reader makes of a file: the result of `extract_text()` for
      each page in document order (`None` or `""` when a page yields no text),
      or an error raised while opening, parsing or reading a page. */
  datatype Document = Readable(pages: seq<Option<string>>) | Unreadable(detail: string)

  /** How `extract_text_from_pdf` ends: it returns `None` or a string, or an
      exception escapes from it. */
  datatype ExtractResult = Returned(text: Option<string>) | Raised(message: string)

  /** The message of the `NameError` raised by the except branch, which
      calls a `logger` that the program never defines. Python looks the name
      up before building the log message, so the original error is lost. */
  const LoggerNameError: string := "name 'logger' is not defined"

  /** What one page adds to the text: its text and a newline when the page
      text is truthy, nothing otherwise. */
  function Contribution(page: Option<string>): string
  {
    match page
    case Some(t) => if t != "" then t + "\n" else ""
    case None => ""
  }

  /** The text accumulated after the given pages, in the order the loop
      appends to it. */
  function Accumulate(pages: seq<Option<string>>): (text: string)
    ensures EmptyOrNewlineEnded(text)
  {
    if pages == [] then "" else Accumulate(pages[..|pages| - 1]) + Contribution(pages[|pages| - 1])
  }

  /** `t` is empty or its last character is a newline. */
  predicate EmptyOrNewlineEnded(t: string)
  {
    t == "" || t[|t| - 1] == '\n'
  }

  /** The non-empty page texts, in document order. */
  function PageTexts(pages: seq<Option<string>>): (ts: seq<string>)
    ensures forall i :: 0 <= i < |ts| ==> ts[i] != ""
    ensures forall t :: t in ts <==> t != "" && Some(t) in pages
    ensures |ts| <= |pages|
  {
    if pages == [] then []
    else
      var head := match pages[0] case Some(t) => if t != "" then [t] else [] case None => [];
      var rest := PageTexts(pages[1..]);
      assert pages == [pages[0]] + pages[1..];
      head + rest
  }

  /** Each string followed by a newline, concatenated in order. */
  function Lines(ts: seq<string>): string
  {
    if ts == [] then "" else ts[0] + "\n" + Lines(ts[1..])
  }

  /** A page yields no usable text: no text, or only whitespace. */
  predicate PageBlank(page: Option<string>)
  {
    match page
    case Some(t) => AllWs(t)
    case None => true
  }

  /** No page of the document yields usable text. */
  predicate NoUsableText(pages: seq<Option<string>>)
  {
    forall i :: 0 <= i < |pages| ==> PageBlank(pages[i])
  }

  /** The outcome of extraction from the directory entry found at the path
      (`None` when no file is there, so that opening it fails). */
  function ExtractOutcome(entry: Option<Document>): (r: ExtractResult)
    ensures r.Raised? ==> r.message == LoggerNameError
    ensures r.Returned? && r.text.Some? ==> r.text.value != "" && !AllWs(r.text.value)
    ensures r.Returned? <==> entry.Some? && entry.value.Readable?
  {
    match entry
    case None => Raised(LoggerNameError)
    case Some(Unreadable(_)) => Raised(LoggerNameError)
    case Some(Readable(pages)) =>
      var text := Accumulate(pages);
      if Strip(text) == "" then Returned(None) else Returned(Some(text))
  }

  /** One more page extends the accumulated text by that page's
      contribution. */
  lemma AccumulateStep(pages: seq<Option<string>>, i: nat)
    requires i < |pages|
    ensures Accumulate(pages[..i + 1]) == Accumulate(pages[..i]) + Contribution(pages[i])
  {
    assert pages[..i + 1][..i] == pages[..i];
  }

  lemma {:induction false} LinesAppend(a: seq<string>, b: seq<string>)
    ensures Lines(a + b) == Lines(a) + Lines(b)
  {
    if a == [] {
      assert a + b == b;
    } else {
      assert (a + b)[1..] == a[1..] + b;
      LinesAppend(a[1..], b);
    }
  }

  lemma {:induction false} PageTextsAppend(p: seq<Option<string>>, q: seq<Option<string>>)
    ensures PageTexts(p + q) == PageTexts(p) + PageTexts(q)
  {
    if p == [] {
      assert p + q == q;
    } else {
      assert (p + q)[1..] == p[1..] + q;
      PageTextsAppend(p[1..], q);
    }
  }

  /** The accumulated text is the in-order concatenation of `t + "\n"` over
      the pages whose text `t` is non-empty; other pages add nothing. */
  lemma {:induction false} AccumulateIsLines(pages: seq<Option<string>>)
    ensures Accumulate(pages) == Lines(PageTexts(pages))
  {
    if pages != [] {
      var init, last := pages[..|pages| - 1], pages[|pages| - 1];
      assert pages == init + [last];
      AccumulateIsLines(init);
      PageTextsAppend(init, [last]);
      LinesAppend(PageTexts(init), PageTexts([last]));
      assert PageTexts([last][1..]) == [];
    }
  }

  /** The accumulated text is all whitespace exactly when no page yields
      usable text. */
  lemma {:induction false} AccumulateBlank(pages: seq<Option<string>>)
    ensures AllWs(Accumulate(pages)) <==> NoUsableText(pages)
  {
    if pages != [] {
      var init, last := pages[..|pages| - 1], pages[|pages| - 1];
      AccumulateBlank(init);
      AllWsAppend(Accumulate(init), Contribution(last));
      if last.Some? && last.value != "" {
        AllWsAppend(last.value, "\n");
      }
      assert NoUsableText(pages) <==> NoUsableText(init) && PageBlank(last) by {
        if NoUsableText(init) && PageBlank(last) {
          forall i | 0 <= i < |pages| ensures PageBlank(pages[i]) {
            if i < |init| { assert pages[i] == init[i]; }
          }
        }
      }
    }
  }

  /** The accumulated text is empty exactly when no page has non-empty text;
      otherwise it ends with the newline added after the last such page. */
  lemma {:induction false} AccumulateShape(pages: seq<Option<string>>)
    ensures Accumulate(pages) == "" <==> PageTexts(pages) == []
    ensures Accumulate(pages) != "" ==> Accumulate(pages)[|Accumulate(pages)| - 1] == '\n'
  {
    if pages != [] {
      var init, last := pages[..|pages| - 1], pages[|pages| - 1];
      AccumulateShape(init);
      assert Accumulate(pages) == Accumulate(init) + Contribution(last);
      assert pages == init + [last];
      PageTextsAppend(init, [last]);
      assert PageTexts([last][1..]) == [];
    }
  }

  /** Extraction from a readable document returns `None` exactly when no page
      yields usable text, and otherwise the untrimmed accumulated text. */
  lemma ExtractReadable(pages: seq<Option<string>>)
    ensures ExtractOutcome(Some(Readable(pages))) == Returned(None) <==> NoUsableText(pages)
    ensures !NoUsableText(pages) ==>
      ExtractOutcome(Some(Readable(pages))) == Returned(Some(Lines(PageTexts(pages))))
    ensures !NoUsableText(pages) ==> PageTexts(pages) != [] && Lines(PageTexts(pages))[|Lines(PageTexts(pages))| - 1] == '\n'
  {
    AccumulateBlank(pages);
    AccumulateIsLines(pages);
    AccumulateShape(pages);
  }

  /** The page loop of `extract_text_from_pdf`: appends each truthy page
      text and a newline, in document order. */
  method ReadPages(pages: seq<Option<string>>) returns (text: string)
    ensures text == Accumulate(pages)
  {
    text := "";
    for i := 0 to |pages|
      invariant text == Accumulate(pages[..i])
    {
      AccumulateStep(pages, i);
      var extracted := pages[i];
      if extracted.Some? && extracted.value != "" {
        text := text + extracted.value + "\n";
      }
    }
    assert pages[..|pages|] == pages;
  }

  /** The `try`/`except` part of `extract_text_from_pdf` on the directory
      entry at the path: opening a missing file or reading an unreadable one
      raises, and the except branch then raises the undefined-logger
      `NameError`; otherwise the page loop appends each truthy page text and
      a newline (`ReadPages`), and a blank result gives `None`. */
  method TryExtract(entry: Option<Document>) returns (r: ExtractResult)
    ensures r == ExtractOutcome(entry)
  {
    if entry.None? || entry.value.Unreadable? {
      return Raised(LoggerNameError);
    }
    var text := ReadPages(entry.value.pages);
    if Strip(text) == "" {
      r := Returned(None);
    } else {
      r := Returned(Some(text));
    }
  }

  /** The upload directory: the paths that exist in it, each with the
      document the PDF reader would make of its bytes. */
  class UploadDir {
    var files: map<string, Document>

    constructor (initial: map<string, Document>)
      ensures files == initial
    {
      files := initial;
    }

    /** Writes `doc` at `path`, replacing any file already there. */
    method Save(path: string, doc: Document)
      modifies this
      ensures files == old(files)[path := doc]
    {
      files := files[path := doc];
    }

    /** `extract_text_from_pdf`: reads the file at `path`, accumulates the
        page texts, and removes the file whichever way it ends. No other path
        is touched. */
    method ExtractText(path: string) returns (r: ExtractResult)
      modifies this
      ensures r == ExtractOutcome(if path in old(files) then Some(old(files)[path]) else None)
      ensures path !in files && files == old(files) - {path}
    {
      r := TryExtract(if path in files then Some(files[path]) else None);
      // finally: remove the file if it still exists
      if path in files {
        files := files - {path};
      }
    }
  }
}
