/** Upload helpers: the size ceiling, the coarse type category of a MIME
    type, and the page-joining step of PDF text extraction. The PDF parser
    itself is outside the model; it is represented by what it yields for each
    page, or by its failure. */
module FileProcessor {
  import opened Wrappers
  import opened Text
  import opened Records

  /** `validate_file_size(file_size, max_size)` */
  function ValidateFileSize(fileSize: nat, maxSize: nat): bool {
    fileSize <= maxSize
  }

  /** The result of `get_file_type_category`. */
  datatype Category = Image | Pdf | PlainText | Unknown

  /** `get_file_type_category(content_type)`. The four outcomes are described
      independently of the order of the tests in the source: the prefixes
      and the exact PDF type cannot overlap. */
  function GetFileTypeCategory(contentType: string): (r: Category)
    ensures r == Image <==> StartsWith(contentType, "image/")
    ensures r == Pdf <==> contentType == "application/pdf"
    ensures r == PlainText <==> StartsWith(contentType, "text/")
    ensures r == Unknown <==>
      !StartsWith(contentType, "image/") && contentType != "application/pdf" && !StartsWith(contentType, "text/")
  {
    assert StartsWith(contentType, "image/") ==> contentType[0] == 'i';
    assert StartsWith(contentType, "text/") ==> contentType[0] == 't';
    assert contentType == "application/pdf" ==> contentType[0] == 'a';
    if StartsWith(contentType, "image/") then Image
    else if contentType == "application/pdf" then Pdf
    else if StartsWith(contentType, "text/") then PlainText
    else Unknown
  }

  /** Only the bare PDF type is recognised: the PDF type followed by anything,
      parameters included, falls into no category. */
  lemma PdfWithSuffixIsUnknown(suffix: string)
    requires |suffix| > 0
    ensures GetFileTypeCategory("application/pdf" + suffix) == Unknown
  {
    var ct := "application/pdf" + suffix;
    assert ct[0] == 'a';
    assert ct != "application/pdf" by { assert |ct| != 15; }
  }

  /** What the PDF reader yields: the text of each page (absent when a page
      has none), or a failure with its message. */
  datatype PdfReading = Pages(texts: seq<Option<string>>) | ReaderFailed(reason: string)

  /** Pages with non-empty text, in page order. */
  function KeptPages(pages: seq<Option<string>>): (r: seq<string>)
    ensures |r| <= |pages|
    ensures forall k :: 0 <= k < |r| ==> r[k] != [] && Some(r[k]) in pages
    ensures forall k :: 0 <= k < |pages| && pages[k].Some? && pages[k].value != [] ==> pages[k].value in r
  {
    if pages == [] then []
    else
      var rest := KeptPages(pages[1..]);
      assert forall k :: 1 <= k < |pages| ==> pages[k] == pages[1..][k - 1];
      if pages[0].Some? && pages[0].value != [] then [pages[0].value] + rest else rest
  }

  /** Keeping pages works page by page: the kept pages of a document are
      those of its first part followed by those of the rest, so page order
      is preserved. */
  lemma {:induction false} KeptPagesAppend(a: seq<Option<string>>, b: seq<Option<string>>)
    ensures KeptPages(a + b) == KeptPages(a) + KeptPages(b)
  {
    if a != [] {
      assert (a + b)[0] == a[0];
      assert (a + b)[1..] == a[1..] + b;
      KeptPagesAppend(a[1..], b);
    } else {
      assert a + b == b;
    }
  }

  const NoTextMessage := "No text could be extracted from PDF"

  /** Some kept page holds a non-whitespace character. */
  predicate SomePageHasText(kept: seq<string>) {
    exists k :: 0 <= k < |kept| && !AllSpace(kept[k])
  }

  /** The newline-joined pages strip to nothing exactly when no page has text. */
  lemma JoinedPagesHaveText(kept: seq<string>)
    ensures Strip(Join(kept, "\n")) != [] <==> SomePageHasText(kept)
    ensures Strip(Join(kept, "\n")) != [] <==> !AllSpace(Join(kept, "\n"))
  {
    assert AllSpace("\n") by { assert "\n"[0] == '\n'; }
    JoinAllSpace(kept, "\n");
    StripEmptyIffAllSpace(Join(kept, "\n"));
  }

  /** `extract_text_from_pdf`: the kept pages joined with newlines. A reader
      failure, or a joined text that is whitespace only, is a 400. */
  function ExtractTextFromPdf(reading: PdfReading): (r: Result<string, HttpError>)
    ensures r.Err? ==> r.error.status == 400 && StartsWith(r.error.detail, "Failed to extract text from PDF: ")
    ensures r.Ok? <==> reading.Pages? && SomePageHasText(KeptPages(reading.texts))
    ensures r.Ok? ==> r.value == Join(KeptPages(reading.texts), "\n") && !AllSpace(r.value)
  {
    match reading
    case ReaderFailed(reason) => Err(HttpError(400, "Failed to extract text from PDF: " + reason))
    case Pages(texts) =>
      var text := Join(KeptPages(texts), "\n");
      JoinedPagesHaveText(KeptPages(texts));
      if Strip(text) == [] then Err(HttpError(400, "Failed to extract text from PDF: " + NoTextMessage))
      else Ok(text)
  }

  /** When no page text holds a newline, splitting the extracted text on
      newlines gives back exactly the non-empty pages, in order. */
  lemma ExtractedPagesRoundTrip(reading: PdfReading)
    requires ExtractTextFromPdf(reading).Ok?
    requires forall k :: 0 <= k < |reading.texts| && reading.texts[k].Some? ==> '\n' !in reading.texts[k].value
    ensures Split(ExtractTextFromPdf(reading).value, '\n') == KeptPages(reading.texts)
  {
    var kept := KeptPages(reading.texts);
    forall k | 0 <= k < |kept| ensures '\n' !in kept[k] {
      var j :| 0 <= j < |reading.texts| && reading.texts[j] == Some(kept[k]);
    }
    SplitJoin(kept, '\n');
  }

  /** A document whose pages have no text at all is rejected. */
  lemma NoTextIsRejected(texts: seq<Option<string>>)
    requires forall k :: 0 <= k < |texts| ==> texts[k] == None || texts[k] == Some("")
    ensures ExtractTextFromPdf(Pages(texts)) == Err(HttpError(400, "Failed to extract text from PDF: " + NoTextMessage))
  {
    JoinedPagesHaveText(KeptPages(texts));
  }
}
