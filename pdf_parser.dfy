/** `file_comparator/pdf_parser.py`: the text of a PDF document and its lines.
    The PDF library is not modelled; what it yields for a file is an input. */
module PdfParser {
  import opened Outcome
  import opened PyStr
  import opened LineCleaning

  /** What `page.extract_text()` does for one page: return a text, or raise an
      exception whose `str(e)` is `reason`. */
  datatype Page = Extracted(text: string) | Unextractable(reason: string)

  /** What the PDF library makes of the file at the given path. */
  datatype PdfSource =
      /** Opening the file or constructing the reader raised an exception. */
    | PdfUnreadable(reason: string)
      /** The reader: whether the document is encrypted, whether `decrypt('')`
          raises on it, and its pages in order. */
    | Pdf(encrypted: bool, decryptRaises: bool, pages: seq<Page>)

  /** The prefix of every error `parse_pdf` raises. */
  const FailurePrefix := "解析PDF文档失败: "
  /** The message raised inside `parse_pdf` when decryption fails. */
  const EncryptedMessage := "PDF文档已加密，无法解析"

  /** The position of the first page whose extraction raises, or the number of
      pages when every page extracts. */
  function FirstUnextractable(pages: seq<Page>): (k: nat)
    ensures k <= |pages|
    ensures forall j :: 0 <= j < k ==> pages[j].Extracted?
    ensures k < |pages| ==> pages[k].Unextractable?
  {
    if pages == [] || pages[0].Unextractable? then 0
    else 1 + FirstUnextractable(pages[1..])
  }

  /** The texts that the page loop appends: the non-empty ones, in page order. */
  function KeptTexts(pages: seq<Page>): seq<string> {
    if pages == [] then []
    else
      var last := pages[|pages| - 1];
      KeptTexts(pages[..|pages| - 1]) + (if last.Extracted? && last.text != "" then [last.text] else [])
  }

  /** `parse_pdf` as a value: the text it returns or the error it raises. */
  function PdfText(src: PdfSource): Result<string> {
    match src
    case PdfUnreadable(reason) => Failure(Wrapped(FailurePrefix, reason))
    case Pdf(encrypted, decryptRaises, pages) =>
      if encrypted && decryptRaises then Failure(Wrapped(FailurePrefix, EncryptedMessage))
      else
        var k := FirstUnextractable(pages);
        if k < |pages| then Failure(Wrapped(FailurePrefix, pages[k].reason))
        else Success(Join(KeptTexts(pages), "\n"))
  }

  /** `parse_pdf` (pdf_parser.py:5-35). */
  method ParsePdf(src: PdfSource) returns (r: Result<string>)
    ensures r == PdfText(src)
  {
    match src
    case PdfUnreadable(reason) =>
      return Failure(Wrapped(FailurePrefix, reason));
    case Pdf(encrypted, decryptRaises, pages) =>
      if encrypted && decryptRaises {
        return Failure(Wrapped(FailurePrefix, EncryptedMessage));
      }
      var textParts: seq<string> := [];
      var i := 0;
      while i < |pages|
        invariant 0 <= i <= |pages|
        invariant forall j :: 0 <= j < i ==> pages[j].Extracted?
        invariant textParts == KeptTexts(pages[..i])
      {
        match pages[i]
        case Unextractable(reason) =>
          return Failure(Wrapped(FailurePrefix, reason));
        case Extracted(pageText) =>
          if pageText != "" {
            textParts := textParts + [pageText];
          }
        assert pages[..i + 1][..i] == pages[..i];
        i := i + 1;
      }
      assert pages[..i] == pages;
      return Success(Join(textParts, "\n"));
  }

  /** The comprehension of `parse_pdf_to_lines` (pdf_parser.py:48). */
  function PdfLines(text: string): seq<string> {
    StrippedNonBlank(Split(text, '\n'))
  }

  /** `parse_pdf_to_lines` (pdf_parser.py:37-48): errors of `parse_pdf` pass through. */
  method ParsePdfToLines(src: PdfSource) returns (r: Result<seq<string>>)
    ensures PdfText(src).Failure? ==> r == Failure(PdfText(src).error)
    ensures PdfText(src).Success? ==> r == Success(PdfLines(PdfText(src).value))
  {
    var fullText := ParsePdf(src);
    match fullText
    case Failure(e) => return Failure(e);
    case Success(t) => return Success(PdfLines(t));
  }
}

module PdfParserProperties {
  import opened Outcome
  import opened PyStr
  import opened LineCleaning
  import opened PdfParser

  /** `parse_pdf` succeeds exactly when the reader opens, decryption does not
      raise and every page extracts; otherwise it raises a `ValueError` with the
      common prefix, and the decryption error is wrapped a second time. */
  lemma PdfErrors(src: PdfSource)
    ensures PdfText(src).Success? <==>
      src.Pdf? && !(src.encrypted && src.decryptRaises) &&
      forall j :: 0 <= j < |src.pages| ==> src.pages[j].Extracted?
    ensures PdfText(src).Failure? ==>
      PdfText(src).error.ValueError? && StartsWith(PdfText(src).error.message, FailurePrefix)
    ensures src.Pdf? && src.encrypted && src.decryptRaises ==>
      PdfText(src) == Failure(ValueError("解析PDF文档失败: PDF文档已加密，无法解析"))
  {
  }

  /** The page loop keeps page order: kept texts distribute over the pages. */
  lemma {:induction false} KeptTextsAppend(ps: seq<Page>, qs: seq<Page>)
    ensures KeptTexts(ps + qs) == KeptTexts(ps) + KeptTexts(qs)
  {
    if qs != [] {
      var n := |qs|;
      assert (ps + qs)[..|ps + qs| - 1] == ps + qs[..n - 1];
      assert (ps + qs)[|ps + qs| - 1] == qs[n - 1];
      KeptTextsAppend(ps, qs[..n - 1]);
    } else {
      assert ps + qs == ps;
    }
  }

  /** A page contributes its text exactly when the text is not empty; a text of
      whitespace only is still kept, the test being truthiness and not `strip`. */
  lemma KeptTextsOfOnePage(p: Page)
    ensures KeptTexts([p]) == if p.Extracted? && p.text != "" then [p.text] else []
  {
    assert [p][..0] == [];
  }

  /** Every kept text is non-empty. */
  lemma {:induction false} KeptTextsNonEmpty(pages: seq<Page>)
    ensures forall k :: 0 <= k < |KeptTexts(pages)| ==> KeptTexts(pages)[k] != ""
  {
    if pages != [] {
      KeptTextsNonEmpty(pages[..|pages| - 1]);
    }
  }

  /** When no kept page text contains a line break, the lines of the joined
      text are the kept page texts themselves: the join adds exactly one line
      break between consecutive kept texts. */
  lemma PdfTextSeparatesPages(pages: seq<Page>)
    requires |KeptTexts(pages)| >= 1
    requires forall k :: 0 <= k < |KeptTexts(pages)| ==> '\n' !in KeptTexts(pages)[k]
    ensures Split(Join(KeptTexts(pages), "\n"), '\n') == KeptTexts(pages)
  {
    SplitJoinRoundTrip(KeptTexts(pages), '\n');
  }

  /** A document that opens and decrypts (or needs no decryption) but whose
      pages all extract to `""` gives the empty text and no lines. */
  lemma {:induction false} NoTextWithoutNonEmptyPage(src: PdfSource)
    requires src.Pdf? && !(src.encrypted && src.decryptRaises)
    requires forall j :: 0 <= j < |src.pages| ==> src.pages[j] == Extracted("")
    ensures PdfText(src) == Success("")
    ensures PdfLines(PdfText(src).value) == []
  {
    EmptyPagesKeepNothing(src.pages);
    assert StrippedNonBlank([""]) == [] + StrippedNonBlank([]);
  }

  lemma {:induction false} EmptyPagesKeepNothing(pages: seq<Page>)
    requires forall j :: 0 <= j < |pages| ==> pages[j] == Extracted("")
    ensures KeptTexts(pages) == []
  {
    if pages != [] {
      EmptyPagesKeepNothing(pages[..|pages| - 1]);
    }
  }

  /** Every line of `parse_pdf_to_lines` is non-empty, has no whitespace at
      either end and contains no line break. */
  lemma PdfLinesAreClean(text: string)
    ensures forall k :: 0 <= k < |PdfLines(text)| ==>
      var l := PdfLines(text)[k];
      l != "" && !IsSpace(l[0]) && !IsSpace(l[|l| - 1]) && '\n' !in l
  {
    SplitPieces(text, '\n');
    StrippedNonBlankLines(Split(text, '\n'));
    StrippedNonBlankAvoids(Split(text, '\n'), '\n');
  }

  /** The lines of each part, in order. */
  function LinesOfEach(parts: seq<string>): seq<string> {
    if parts == [] then [] else PdfLines(parts[0]) + LinesOfEach(parts[1..])
  }

  /** The lines of the joined page texts are the lines of each page text in
      page order: no line spans two pages. */
  lemma PdfLinesByPage(parts: seq<string>)
    ensures PdfLines(Join(parts, "\n")) == LinesOfEach(parts)
  {
    if parts == [] {
      assert StrippedNonBlank([""]) == [] + StrippedNonBlank([]);
    } else {
      SplitOfJoin(parts, '\n');
      CleanEach(parts);
    }
  }

  lemma {:induction false} CleanEach(parts: seq<string>)
    ensures StrippedNonBlank(SplitEach(parts, '\n')) == LinesOfEach(parts)
  {
    if parts != [] {
      CleanEach(parts[1..]);
      StrippedNonBlankAppend(Split(parts[0], '\n'), SplitEach(parts[1..], '\n'));
    }
  }
}
