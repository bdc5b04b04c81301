/** `PDFSplitterV2` of `src/pdf/pdf_chapter_splitter_v2.py`: the fixed
    splitter with OCR glue.  It classifies a PDF from a sample of its pages,
    takes a page's text from the PDF or, failing that, from OCR, and splits
    at `range(0, n, pages_per_chapter)`.  The PDF reader is an
    `Option<PdfDoc>` (`None` when opening it raises), the OCR module's
    scanned-document analysis is the flag saying whether it reports a
    probability above 0.6, and OCR'ed page text is a function of the page. */
module SplitterV2 {
  import opened Wrappers
  import opened PyText
  import opened Ranges
  import opened PdfFiles
  import V1 = SplitterV1

  /** `detected_type`: 'mixed/unknown' only appears in the detailed report. */
  datatype DetectedType = Text | Scanned | Unknown | MixedUnknown

  /** What `detect_pdf_type` returns: a type name, the detailed report, or
      the detailed error report (`{'error': …, 'detected_type': 'unknown'}`). */
  datatype TypeReport =
    | Simple(kind: DetectedType)
    | Detailed(totalPages: nat, sampledPages: nat, textPages: nat, textChars: nat,
               isTextPdf: bool, kind: DetectedType, highConfidence: bool)
    | DetailedError

  // ---------------------------------------------------------------------
  // Classification

  /** A sampled page counts as a text page when its extraction succeeds
      and the stripped text has more than 5 characters. */
  predicate IsTextPage(page: Option<string>) {
    page.Some? && |Strip(page.value)| > 5
  }

  /** `(text_pages, total_text_chars)` over the first `k` pages; a page
      whose extraction raises is skipped. */
  function TextStats(pages: seq<Option<string>>, k: nat): (r: (nat, nat))
    requires k <= |pages|
    ensures r.0 <= k && r.1 >= 6 * r.0
  {
    if k == 0 then (0, 0)
    else
      var prev := TextStats(pages, k - 1);
      if IsTextPage(pages[k - 1]) then (prev.0 + 1, prev.1 + |Strip(pages[k - 1].value)|) else prev
  }

  /** `text_pages / sample_pages > 0.7 or total_text_chars / text_pages > 100`
      in integers, each ratio being 0 when its divisor is.  No rounding is
      involved: the sample has at most 5 pages and 0.7 is no ratio of such
      numbers. */
  predicate IsText(sample: nat, textPages: nat, chars: nat) {
    (sample > 0 && 10 * textPages > 7 * sample) || (textPages > 0 && chars > 100 * textPages)
  }

  /** What `detect_pdf_type` returns.  `scanned` is only consulted with OCR
      on, as the source only runs the analysis then. */
  function TypeReportOf(doc: Option<PdfDoc>, useOcr: bool, scanned: bool, detailed: bool): TypeReport {
    if doc.None? then (if detailed then DetailedError else Simple(Unknown))
    else
      var pages := doc.value.pages;
      var sample := Min(5, |pages|);
      var stats := TextStats(pages, sample);
      var isText := IsText(sample, stats.0, stats.1);
      var isScanned := useOcr && scanned;
      if detailed then
        Detailed(|pages|, sample, stats.0, stats.1, isText,
                 if isText then Text else if isScanned then Scanned else MixedUnknown,
                 isText || isScanned)
      else Simple(if isText then Text else if isScanned then Scanned else Unknown)
  }

  /** The simple type is 'text' exactly for a readable text PDF, 'scanned'
      exactly for a readable non-text PDF the OCR analysis calls scanned,
      so without OCR every non-text PDF is 'unknown'; the detailed report's
      confidence is high exactly when its type is 'text' or 'scanned'. */
  lemma ClassificationRules(doc: Option<PdfDoc>, useOcr: bool, scanned: bool)
    ensures var stats := if doc.None? then (0, 0) else TextStats(doc.value.pages, Min(5, |doc.value.pages|));
      var isText := doc.Some? && IsText(Min(5, |doc.value.pages|), stats.0, stats.1);
      (TypeReportOf(doc, useOcr, scanned, false) == Simple(Text) <==> isText)
      && (TypeReportOf(doc, useOcr, scanned, false) == Simple(Scanned) <==>
            doc.Some? && !isText && useOcr && scanned)
      && (!useOcr ==> (TypeReportOf(doc, useOcr, scanned, false) == Simple(Unknown) <==> !isText))
    ensures TypeReportOf(doc, useOcr, scanned, true).Detailed? ==>
      var r := TypeReportOf(doc, useOcr, scanned, true);
      r.highConfidence <==> r.kind == Text || r.kind == Scanned
    ensures TypeReportOf(doc, useOcr, scanned, true) == DetailedError <==> doc.None?
  {
  }

  /** A sample whose pages all have text is a text PDF, one without a text
      page is not, and an empty PDF is not. */
  lemma TextExtremes(sample: nat, textPages: nat, chars: nat)
    requires textPages <= sample
    ensures sample > 0 && textPages == sample ==> IsText(sample, textPages, chars)
    ensures textPages == 0 ==> !IsText(sample, textPages, chars)
  {
  }

  // ---------------------------------------------------------------------
  // Splitting

  /** How many leading boundaries lie below `n`, where the chapter loop's
      `break` stops. */
  function BelowPrefix(bounds: seq<int>, n: int): (k: nat)
    ensures k <= |bounds|
    ensures forall i :: 0 <= i < k ==> bounds[i] < n
    ensures k < |bounds| ==> bounds[k] >= n
  {
    if bounds == [] || bounds[0] >= n then 0 else 1 + BelowPrefix(bounds[1..], n)
  }

  /** The chapters of `split_pdf` for boundaries `bounds`: from each
      boundary below `n`, `pages_per_chapter` pages or up to the end. */
  function BoundarySpans(bounds: seq<int>, n: int, ppc: int): (r: seq<Span>)
    ensures |r| == BelowPrefix(bounds, n)
    ensures forall i :: 0 <= i < |r| ==> r[i] == Span(bounds[i], Min(bounds[i] + ppc, n))
  {
    seq(BelowPrefix(bounds, n), i requires 0 <= i < BelowPrefix(bounds, n) =>
      Span(bounds[i], Min(bounds[i] + ppc, n)))
  }

  /** `split_pdf`: nothing for a missing input, a name without a '.pdf'
      suffix, an unreadable or zero-page PDF, or a chapter size below 1
      (`range` raises on 0, a negative step gives no boundary); otherwise,
      with or without smart splitting, the chapters at
      `range(0, n, pages_per_chapter)`. */
  function SplitPdfSpec(fileExists: bool, path: string, pageCount: Option<nat>, outDir: string, ppc: int)
    : seq<V1.ChapterFile>
  {
    if !fileExists || !IsPdfPath(path) || pageCount.None? || pageCount.value == 0 || ppc < 1 then []
    else V1.NameAll(outDir, Stem(FileName(path)),
                    BoundarySpans(RangeStep(0, pageCount.value, ppc), pageCount.value, ppc))
  }

  /** The version-2 split cuts exactly the chapters of the version-1
      split: `ceil(n / ppc)` chapters of `ppc` pages, the last one
      shorter, partitioning the PDF in order. */
  lemma SplitMatchesV1(fileExists: bool, path: string, pageCount: Option<nat>, outDir: string, ppc: int)
    requires ppc >= 1
    ensures SplitPdfSpec(fileExists, path, pageCount, outDir, ppc)
         == V1.SplitPdfSpec(fileExists, path, pageCount, outDir, ppc)
  {
    if fileExists && IsPdfPath(path) && pageCount.Some? && pageCount.value > 0 {
      FixedBoundsWellFormed(pageCount.value, ppc);
      FixedSpans(pageCount.value, ppc);
    }
  }

  /** At the fixed boundaries the version-2 chapters are the version-1
      spans. */
  lemma FixedSpans(n: nat, ppc: int)
    requires n >= 1 && ppc >= 1
    ensures BoundarySpans(FixedBounds(n, ppc), n, ppc) == V1.FixedSplit(n, ppc)
  {
    var b := FixedBounds(n, ppc);
    FixedBoundsWellFormed(n, ppc);
    FloorDivCeil(n, ppc);
    assert BelowPrefix(b, n) == |b|;
    var s, f := BoundarySpans(b, n, ppc), V1.FixedSplit(n, ppc);
    forall k | 0 <= k < |s| ensures s[k] == f[k] {
      assert (k + 1) * ppc == k * ppc + ppc;
    }
  }


  // ---------------------------------------------------------------------
  // The splitter

  class PDFSplitterV2 {
    const pagesPerChapter: int
    const useOcr: bool

    /** `__init__`: OCR is used only when asked for and the OCR module
        imports. */
    constructor (pagesPerChapter: int, useOcr: bool, ocrImports: bool)
      ensures this.pagesPerChapter == pagesPerChapter
      ensures this.useOcr == (useOcr && ocrImports)
    {
      this.pagesPerChapter := pagesPerChapter;
      this.useOcr := useOcr && ocrImports;
    }

    /** `detect_pdf_type`. */
    method DetectPdfType(doc: Option<PdfDoc>, detailed: bool, scanned: bool) returns (r: TypeReport)
      ensures r == TypeReportOf(doc, useOcr, scanned, detailed)
    {
      if doc.None? {
        return if detailed then DetailedError else Simple(Unknown);
      }
      var pages := doc.value.pages;
      var sample := Min(5, |pages|);
      var textPages, chars := CountTextPages(pages, sample);
      var isText := (sample > 0 && 10 * textPages > 7 * sample)
                    || (textPages > 0 && chars > 100 * textPages);
      var isScanned := useOcr && scanned;
      if detailed {
        r := Detailed(|pages|, sample, textPages, chars, isText,
                      if isText then Text else if isScanned then Scanned else MixedUnknown,
                      isText || isScanned);
      } else if isText {
        r := Simple(Text);
      } else if isScanned {
        r := Simple(Scanned);
      } else {
        r := Simple(Unknown);
      }
    }

    /** What `extract_page_text` returns for page `p`; `ocrText` is what
        the OCR processor extracts from it. */
    function PageText(doc: Option<PdfDoc>, p: nat, ocrText: string): string {
      if doc.None? then ""
      else if p < |doc.value.pages| && doc.value.pages[p].None? then ""
      else if p < |doc.value.pages| && |Strip(doc.value.pages[p].value)| > 5 then Strip(doc.value.pages[p].value)
      else if useOcr then ocrText
      else ""
    }

    /** A page's text is its stripped embedded text when that has more than
        5 characters; short or missing embedded text is replaced by the OCR
        text only with OCR on, and an unreadable PDF or page gives "". */
    lemma PageTextRules(doc: Option<PdfDoc>, p: nat, ocrText: string)
      ensures var t := PageText(doc, p, ocrText);
        t == ""
        || (doc.Some? && p < |doc.value.pages| && doc.value.pages[p].Some?
            && t == Strip(doc.value.pages[p].value) && |t| > 5)
        || (useOcr && t == ocrText)
      ensures !useOcr && PageText(doc, p, ocrText) != "" ==> |PageText(doc, p, ocrText)| > 5
      ensures doc.None? ==> PageText(doc, p, ocrText) == ""
    {
    }

    /** `extract_page_text`. */
    method ExtractPageText(doc: Option<PdfDoc>, p: nat, ocrText: string) returns (text: string)
      ensures text == PageText(doc, p, ocrText)
    {
      if doc.None? {
        return "";
      }
      var pages := doc.value.pages;
      if p < |pages| {
        var page := pages[p];
        if page.None? {
          return "";
        }
        if |Strip(page.value)| > 5 {
          return Strip(page.value);
        }
      }
      if useOcr {
        return ocrText;
      }
      return "";
    }

    /** `analyze_chapter_boundaries`: `range(0, n, pages_per_chapter)`, or
        nothing when reading fails or `range` raises. */
    method AnalyzeChapterBoundaries(pageCount: Option<nat>) returns (bounds: seq<int>)
      ensures pageCount.None? || pagesPerChapter == 0 ==> bounds == []
      ensures pageCount.Some? && pagesPerChapter >= 1 ==> bounds == RangeStep(0, pageCount.value, pagesPerChapter)
      ensures pageCount.Some? && pagesPerChapter < 0 ==> bounds == []
    {
      if pageCount.None? || pagesPerChapter == 0 {
        return [];
      }
      bounds := [];
      if pagesPerChapter < 0 {
        return;
      }
      var n := pageCount.value;
      var start := 0;
      while start < n
        invariant start >= 0
        invariant bounds + RangeStep(start, n, pagesPerChapter) == RangeStep(0, n, pagesPerChapter)
        decreases n - start
      {
        bounds := bounds + [start];
        start := start + pagesPerChapter;
      }
    }

    /** `split_pdf`.  The chapter title it computes is only logged. */
    method SplitPdf(fileExists: bool, path: string, pageCount: Option<nat>, outDir: string, smart: bool)
      returns (chapters: seq<V1.ChapterFile>)
      ensures chapters == SplitPdfSpec(fileExists, path, pageCount, outDir, pagesPerChapter)
    {
      if !fileExists || !IsPdfPath(path) || pageCount.None? {
        return [];
      }
      var n := pageCount.value;
      if n == 0 || pagesPerChapter < 1 {
        return [];
      }
      var bounds := AnalyzeChapterBoundaries(pageCount);
      chapters := CutAtBoundaries(outDir, Stem(FileName(path)), bounds, n, pagesPerChapter);
    }

    /** `ocr_test`: false with OCR off; otherwise whether some probed page,
        by default pages 0, 1 and 2, gave text. */
    method OcrTest(doc: Option<PdfDoc>, pages: Option<seq<nat>>, ocr: nat -> string) returns (ok: bool)
      ensures !useOcr ==> !ok
      ensures useOcr ==> (ok <==> exists k :: 0 <= k < |TestedPages(pages)|
                                   && PageText(doc, TestedPages(pages)[k], ocr(TestedPages(pages)[k])) != "")
    {
      if !useOcr {
        return false;
      }
      var tested := if pages.None? then [0, 1, 2] else pages.value;
      var results: map<nat, string> := map[];
      for k := 0 to |tested|
        invariant results.Keys == set i | 0 <= i < k :: tested[i]
        invariant forall p :: p in results ==> results[p] == PageText(doc, p, ocr(p))
      {
        var text := ExtractPageText(doc, tested[k], ocr(tested[k]));
        results := results[tested[k] := text];
      }
      var successful := CountWithText(results);
      ok := successful > 0;
      assert tested == TestedPages(pages);
      if ok {
        var p :| p in results && results[p] != "";
        var i :| 0 <= i < |tested| && tested[i] == p;
        assert PageText(doc, tested[i], ocr(tested[i])) != "";
      } else {
        forall k | 0 <= k < |tested| ensures PageText(doc, tested[k], ocr(tested[k])) == "" {
          assert tested[k] in results;
        }
      }
    }
  }

  /** `sum(1 for text in results.values() if text)` */
  method CountWithText(results: map<nat, string>) returns (successful: nat)
    ensures successful > 0 <==> exists p :: p in results && results[p] != ""
  {
    successful := 0;
    var keys := results.Keys;
    while keys != {}
      invariant keys <= results.Keys
      invariant successful > 0 <==> exists p :: p in results.Keys - keys && results[p] != ""
      decreases keys
    {
      var p :| p in keys;
      if results[p] != "" {
        successful := successful + 1;
      }
      keys := keys - {p};
    }
  }

  /** The sampling loop of `detect_pdf_type`. */
  method CountTextPages(pages: seq<Option<string>>, sample: nat) returns (textPages: nat, chars: nat)
    requires sample <= |pages|
    ensures (textPages, chars) == TextStats(pages, sample)
  {
    textPages, chars := 0, 0;
    for k := 0 to sample
      invariant textPages == TextStats(pages, k).0 && chars == TextStats(pages, k).1
    {
      var page := pages[k];
      if page.Some? {
        var text := Strip(page.value);
        if |text| > 5 {
          textPages := textPages + 1;
          chars := chars + |text|;
        }
      }
      TextStatsStep(pages, k);
    }
  }

  lemma TextStatsStep(pages: seq<Option<string>>, k: nat)
    requires k < |pages|
    ensures TextStats(pages, k + 1) ==
      if pages[k].Some? && |Strip(pages[k].value)| > 5
      then (TextStats(pages, k).0 + 1, TextStats(pages, k).1 + |Strip(pages[k].value)|)
      else TextStats(pages, k)
  {
  }

  /** `[0, 1, 2]` unless pages are given. */
  function TestedPages(pages: Option<seq<nat>>): seq<nat> {
    if pages.None? then [0, 1, 2] else pages.value
  }

  /** The chapter loop of `split_pdf`, which stops at the first boundary at
      or past the end. */
  method CutAtBoundaries(outDir: string, stem: string, bounds: seq<int>, n: int, ppc: int)
    returns (chapters: seq<V1.ChapterFile>)
    ensures chapters == V1.NameAll(outDir, stem, BoundarySpans(bounds, n, ppc))
  {
    ghost var spans := BoundarySpans(bounds, n, ppc);
    chapters := [];
    var i := 0;
    while i < |bounds|
      invariant 0 <= i <= BelowPrefix(bounds, n)
      invariant |chapters| == i
      invariant forall k :: 0 <= k < i ==> chapters[k] == V1.Named(outDir, stem, k, spans[k])
    {
      var startPage := bounds[i];
      if startPage >= n {
        break;
      }
      var endPage := Min(startPage + ppc, n);
      chapters := chapters + [V1.ChapterFile(JoinPath(outDir, ChapterFileName(stem, i + 1)),
                                             Span(startPage, endPage))];
      i := i + 1;
    }
    V1.NameAllEq(outDir, stem, spans, chapters);
  }
}
