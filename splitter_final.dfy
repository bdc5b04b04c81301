/** `PDFSplitterFinal` of `src/pdf/pdf_chapter_splitter_final.py`: it
    classifies a PDF as text or scanned, chooses between the OCR processor
    and the basic split, and in the basic split cuts the document at the
    chapter detector's boundaries or every `pages_per_chapter` pages.  The
    PDF reader, the OCR processor and the chapter-file writer are oracles:
    the reader is an `Option<PdfDoc>` (`None` when it cannot open the file),
    the OCR run is the flag saying whether it succeeded. */
module SplitterFinal {
  import opened Wrappers
  import opened PyText
  import opened Ranges
  import opened PdfFiles
  import CD = ChapterDetector

  datatype PdfType = Text | Scanned | Unknown

  /** `processing_mode`: 'ocr', 'basic' or 'basic_fallback'. */
  datatype Mode = Ocr | Basic | BasicFallback

  /** One entry of `chapter_details`. */
  datatype ChapterDetail = ChapterDetail(number: nat, startPage: int, endPage: int, pageCount: int,
                                         title: string, fileName: string)

  /** The result dictionary of a successful `_basic_split_pdf`;
      `pagesPerChapter` is `None` where the source reports 'variable'. */
  datatype SplitReport = SplitReport(totalPages: nat, chaptersCreated: nat, chapters: seq<string>,
                                     details: seq<ChapterDetail>, splitMethod: CD.SplitMethod,
                                     pagesPerChapter: Option<nat>)

  /** What `smart_process_pdf` reports once the input has been accepted:
      the mode, the detected type and, unless the OCR processor produced the
      result, the basic split's outcome. */
  datatype Processed = Processed(mode: Mode, pdfType: PdfType, basic: Option<Result<SplitReport>>)

  /** Stands for `str(e)` of an exception raised while reading the PDF. */
  const ReadError := "PDF读取异常"

  // ---------------------------------------------------------------------
  // The detector's window

  /** `max(5, pages_per_chapter // 2)` */
  function DetectorMin(ppc: int): int { Max(5, ppc / 2) }

  /** `min(50, pages_per_chapter * 2)` */
  function DetectorMax(ppc: int): int { Min(50, ppc * 2) }

  /** The detector's window is non-empty exactly for chapter sizes 3 to 101. */
  lemma DetectorWindow(ppc: int)
    ensures DetectorMin(ppc) <= DetectorMax(ppc) <==> 3 <= ppc <= 101
  {
    if ppc <= 2 {
      assert ppc * 2 <= 4;
    } else if ppc >= 102 {
      assert ppc / 2 >= 51;
    } else {
      assert ppc / 2 <= 50 && ppc * 2 >= 6;
    }
  }

  /** Outside that range the detector accepts no candidate at all: only page
      0 survives the greedy pass. */
  lemma NoCandidateOutsideWindow(ppc: int, high: seq<int>)
    requires !(3 <= ppc <= 101)
    ensures CD.Greedy(high, DetectorMin(ppc), DetectorMax(ppc)) == [0]
  {
    DetectorWindow(ppc);
    CD.GreedyEmptyWindow(high, DetectorMin(ppc), DetectorMax(ppc));
  }

  // ---------------------------------------------------------------------
  // Classification

  /** The page test of `detect_pdf_type`: extraction succeeds and the
      stripped text has more than 10 characters. */
  predicate HasTypeText(page: Option<string>) {
    page.Some? && |Strip(page.value)| > 10
  }

  /** One of the first `min(3, n)` pages passes the page test. */
  predicate TextFound(pages: seq<Option<string>>) {
    TextBefore(pages, Min(3, |pages|))
  }

  /** One of the first `n` pages passes the page test. */
  predicate TextBefore(pages: seq<Option<string>>, n: nat) {
    exists k :: 0 <= k < n && k < |pages| && HasTypeText(pages[k])
  }

  lemma TextBeforeStep(pages: seq<Option<string>>, n: nat)
    requires n < |pages|
    ensures TextBefore(pages, n + 1) <==> TextBefore(pages, n) || HasTypeText(pages[n])
  {
    if HasTypeText(pages[n]) {
      assert 0 <= n < n + 1 && n < |pages| && HasTypeText(pages[n]);
    }
  }

  /** What `detect_pdf_type` returns.  `scanned` is the outcome of the OCR
      module's analysis: `None` when it raises, otherwise whether the
      scanned probability exceeds 0.5. */
  function PdfTypeOf(doc: Option<PdfDoc>, ocrAvailable: bool, detailed: bool, scanned: Option<bool>): PdfType {
    if doc.None? then Unknown
    else if TextFound(doc.value.pages) then Text
    else if ocrAvailable && detailed then (if scanned == Some(true) then Scanned else Unknown)
    else Scanned
  }

  /** The classification `smart_process_pdf` asks for (not detailed): a
      readable PDF is 'text' when one of its first three pages has text and
      'scanned' otherwise, a zero-page PDF included; 'unknown' only when the
      PDF cannot be read. */
  lemma SimpleClassification(doc: Option<PdfDoc>, ocrAvailable: bool, scanned: Option<bool>)
    ensures PdfTypeOf(doc, ocrAvailable, false, scanned) == Unknown <==> doc.None?
    ensures doc.Some? ==>
      (PdfTypeOf(doc, ocrAvailable, false, scanned) == Text <==> TextFound(doc.value.pages))
    ensures doc.Some? && doc.value.pages == [] ==> PdfTypeOf(doc, ocrAvailable, false, scanned) == Scanned
  {
  }

  // ---------------------------------------------------------------------
  // Sampling the page texts for the detector

  /** The sampling test: extraction succeeds and the stripped text has more
      than 5 characters. */
  predicate Sampled(page: Option<string>) {
    page.Some? && |Strip(page.value)| > 5
  }

  /** The stripped text of a page, "" when extraction raises. */
  function SampleText(page: Option<string>): string {
    if page.Some? then Strip(page.value) else ""
  }

  /** The value `val` gives each of the first `k` entries that `keep`
      accepts, by position. */
  function KeptUpTo<T, U>(xs: seq<T>, k: nat, keep: T -> bool, val: T -> U): map<nat, U> {
    map p: nat | p < k && p < |xs| && keep(xs[p]) :: val(xs[p])
  }

  /** One more entry adds its value exactly when `keep` accepts it. */
  lemma KeptStep<T, U>(xs: seq<T>, p: nat, keep: T -> bool, val: T -> U)
    requires p < |xs|
    ensures KeptUpTo(xs, p + 1, keep, val)
      == if keep(xs[p]) then KeptUpTo(xs, p, keep, val)[p := val(xs[p])] else KeptUpTo(xs, p, keep, val)
  {
    var a, b := KeptUpTo(xs, p, keep, val), KeptUpTo(xs, p + 1, keep, val);
    var c := if keep(xs[p]) then a[p := val(xs[p])] else a;
    assert b.Keys == c.Keys;
  }

  /** The stripped texts of the sampled pages among the first `k`. */
  function SampledUpTo(pages: seq<Option<string>>, k: nat): map<nat, string> {
    KeptUpTo(pages, k, Sampled, SampleText)
  }

  /** The `page_texts` loop over the first `min(20, n)` pages. */
  method SamplePages(pages: seq<Option<string>>) returns (texts: map<nat, string>)
    ensures texts == SampledUpTo(pages, Min(20, |pages|))
  {
    texts := map[];
    var sample := Min(20, |pages|);
    for p := 0 to sample
      invariant texts == SampledUpTo(pages, p)
    {
      KeptStep(pages, p, Sampled, SampleText);
      var page := pages[p];
      if page.Some? && |Strip(page.value)| > 5 {
        texts := texts[p := Strip(page.value)];
      }
    }
  }

  // ---------------------------------------------------------------------
  // Chapters of a split

  /** `f"第 {i+1} 章"` */
  function DefaultTitle(i: nat): string {
    "第 " + Dec(i + 1) + " 章"
  }

  /** The title of chapter `i` starting at `start`: the start page's first
      line, stripped and cut to 50 characters, when it has more than 3
      characters; the default title otherwise, also when extraction raises. */
  function TitleOf(pages: seq<Option<string>>, start: int, i: nat): string {
    if 0 <= start < |pages| && pages[start].Some? && pages[start].value != ""
       && |Strip(Split(pages[start].value, '\n')[0])| > 3
    then Take(Strip(Split(pages[start].value, '\n')[0]), 50)
    else DefaultTitle(i)
  }

  /** A title is the default one or a prefix of 4 to 50 characters of the
      start page's stripped first line. */
  lemma TitleShape(pages: seq<Option<string>>, start: int, i: nat)
    ensures var t := TitleOf(pages, start, i);
      t == DefaultTitle(i)
      || (0 <= start < |pages| && pages[start].Some?
          && 3 < |t| <= 50 && StartsWith(Strip(Split(pages[start].value, '\n')[0]), t))
  {
  }

  /** `chapter_details` for boundaries `bounds` of an `n`-page PDF. */
  function ChapterDetails(pages: seq<Option<string>>, stem: string, bounds: seq<int>, n: int): (r: seq<ChapterDetail>)
    ensures |r| == |bounds|
    ensures forall i :: 0 <= i < |bounds| ==> r[i] == DetailAt(pages, stem, bounds, n, i)
  {
    seq(|bounds|, i requires 0 <= i < |bounds| => DetailAt(pages, stem, bounds, n, i))
  }

  /** Entry `i` of `chapter_details`. */
  function DetailAt(pages: seq<Option<string>>, stem: string, bounds: seq<int>, n: int, i: nat): ChapterDetail
    requires i < |bounds|
  {
    var span := SpanAt(bounds, n, i);
    ChapterDetail(i + 1, span.start, span.end, span.end - span.start,
                  TitleOf(pages, span.start, i), ChapterFileName(stem, i + 1))
  }

  function DetailSpans(details: seq<ChapterDetail>): (r: seq<Span>)
    ensures |r| == |details|
    ensures forall i :: 0 <= i < |r| ==> r[i] == Span(details[i].startPage, details[i].endPage)
  {
    seq(|details|, i requires 0 <= i < |details| => Span(details[i].startPage, details[i].endPage))
  }

  /** `chapters`: the output paths of the chapter files. */
  function ChapterPaths(outDir: string, details: seq<ChapterDetail>): (r: seq<string>)
    ensures |r| == |details|
  {
    seq(|details|, i requires 0 <= i < |details| => JoinPath(outDir, details[i].fileName))
  }

  /** The chapters of well-formed boundaries cover every page exactly once,
      in order; they are numbered 1, 2, ...; each counts its pages and has a
      file name no other chapter has. */
  lemma ChapterDetailsTile(pages: seq<Option<string>>, stem: string, bounds: seq<int>, n: int)
    requires WellFormedBounds(bounds, n)
    ensures Tiles(DetailSpans(ChapterDetails(pages, stem, bounds, n)), n)
    ensures forall i :: 0 <= i < |bounds| ==>
      ChapterDetails(pages, stem, bounds, n)[i].number == i + 1
      && ChapterDetails(pages, stem, bounds, n)[i].pageCount
         == ChapterDetails(pages, stem, bounds, n)[i].endPage - ChapterDetails(pages, stem, bounds, n)[i].startPage >= 1
      && ChapterDetails(pages, stem, bounds, n)[i].startPage == bounds[i]
    ensures forall i, j :: 0 <= i < j < |bounds| ==>
      ChapterDetails(pages, stem, bounds, n)[i].fileName != ChapterDetails(pages, stem, bounds, n)[j].fileName
  {
    var d := ChapterDetails(pages, stem, bounds, n);
    DetailSpansAre(pages, stem, bounds, n);
    SpansTile(bounds, n);
    forall i | 0 <= i < |bounds|
      ensures d[i].number == i + 1 && d[i].pageCount == d[i].endPage - d[i].startPage >= 1
      ensures d[i].startPage == bounds[i] && d[i].fileName == ChapterFileName(stem, i + 1)
    {
      DetailFacts(pages, stem, bounds, n, i);
    }
    DetailNamesDistinct(pages, stem, bounds, n);
  }

  lemma DetailNamesDistinct(pages: seq<Option<string>>, stem: string, bounds: seq<int>, n: int)
    ensures forall i, j :: 0 <= i < j < |bounds| ==>
      ChapterDetails(pages, stem, bounds, n)[i].fileName != ChapterDetails(pages, stem, bounds, n)[j].fileName
  {
    var d := ChapterDetails(pages, stem, bounds, n);
    forall i, j | 0 <= i < j < |bounds| ensures d[i].fileName != d[j].fileName {
      assert d[i].fileName == ChapterFileName(stem, i + 1);
      assert d[j].fileName == ChapterFileName(stem, j + 1);
      ChapterFileNamesDistinct(stem, i + 1, j + 1);
    }
  }

  lemma DetailFacts(pages: seq<Option<string>>, stem: string, bounds: seq<int>, n: int, i: nat)
    requires WellFormedBounds(bounds, n) && i < |bounds|
    ensures var d := ChapterDetails(pages, stem, bounds, n)[i];
      d.number == i + 1 && d.pageCount == d.endPage - d.startPage >= 1
      && d.startPage == bounds[i] && d.fileName == ChapterFileName(stem, i + 1)
  {
    if i + 1 < |bounds| { assert bounds[i] < bounds[i + 1]; }
  }

  lemma DetailSpansAre(pages: seq<Option<string>>, stem: string, bounds: seq<int>, n: int)
    ensures DetailSpans(ChapterDetails(pages, stem, bounds, n)) == SpansOf(bounds, n)
  {
    var d := ChapterDetails(pages, stem, bounds, n);
    var spans := SpansOf(bounds, n);
    forall k | 0 <= k < |bounds| ensures DetailSpans(d)[k] == spans[k] {
      assert d[k] == DetailAt(pages, stem, bounds, n, k);
    }
  }

  /** The title step of the chapter loop. */
  method ChapterTitle(pages: seq<Option<string>>, start: int, i: nat) returns (title: string)
    ensures title == TitleOf(pages, start, i)
  {
    title := DefaultTitle(i);
    if 0 <= start < |pages| {
      var text := pages[start];
      if text.Some? && text.value != "" {
        var lines := Split(text.value, '\n');
        if |Strip(lines[0])| > 3 {
          title := Take(Strip(lines[0]), 50);
        }
      }
    }
  }

  /** The chapter loop of `_basic_split_pdf`. */
  method BuildChapters(pages: seq<Option<string>>, stem: string, outDir: string, bounds: seq<int>, n: int)
    returns (chapters: seq<string>, details: seq<ChapterDetail>)
    ensures details == ChapterDetails(pages, stem, bounds, n)
    ensures chapters == ChapterPaths(outDir, details)
  {
    chapters, details := [], [];
    for i := 0 to |bounds|
      invariant |details| == |chapters| == i
      invariant forall k :: 0 <= k < i ==> details[k] == DetailAt(pages, stem, bounds, n, k)
      invariant forall k :: 0 <= k < i ==> chapters[k] == JoinPath(outDir, details[k].fileName)
    {
      var path, detail := ChapterEntry(pages, stem, outDir, bounds, n, i);
      chapters := chapters + [path];
      details := details + [detail];
    }
    ChapterDetailsEq(pages, stem, bounds, n, details);
    ChapterPathsEq(outDir, details, chapters);
  }

  /** One round of the chapter loop: chapter `i`'s output path and entry. */
  method ChapterEntry(pages: seq<Option<string>>, stem: string, outDir: string, bounds: seq<int>, n: int, i: nat)
    returns (path: string, detail: ChapterDetail)
    requires i < |bounds|
    ensures detail == DetailAt(pages, stem, bounds, n, i)
    ensures path == JoinPath(outDir, detail.fileName)
  {
    var start := bounds[i];
    var end := if i + 1 < |bounds| then bounds[i + 1] else n;
    var title := ChapterTitle(pages, start, i);
    var name := ChapterFileName(stem, i + 1);
    detail := ChapterDetail(i + 1, start, end, end - start, title, name);
    DetailAtIs(pages, stem, bounds, n, i, detail);
    path := JoinPath(outDir, name);
  }

  lemma ChapterPathsEq(outDir: string, details: seq<ChapterDetail>, chapters: seq<string>)
    requires |details| == |chapters|
    requires forall k :: 0 <= k < |details| ==> chapters[k] == JoinPath(outDir, details[k].fileName)
    ensures chapters == ChapterPaths(outDir, details)
  {
  }

  lemma DetailAtIs(pages: seq<Option<string>>, stem: string, bounds: seq<int>, n: int, i: nat, d: ChapterDetail)
    requires i < |bounds|
    requires d.number == i + 1 && d.startPage == bounds[i]
    requires d.endPage == (if i + 1 < |bounds| then bounds[i + 1] else n)
    requires d.pageCount == d.endPage - d.startPage
    requires d.title == TitleOf(pages, bounds[i], i) && d.fileName == ChapterFileName(stem, i + 1)
    ensures d == DetailAt(pages, stem, bounds, n, i)
  {
  }

  lemma ChapterDetailsEq(pages: seq<Option<string>>, stem: string, bounds: seq<int>, n: int, details: seq<ChapterDetail>)
    requires |details| == |bounds|
    requires forall k :: 0 <= k < |bounds| ==> details[k] == DetailAt(pages, stem, bounds, n, k)
    ensures details == ChapterDetails(pages, stem, bounds, n)
  {
  }

  // ---------------------------------------------------------------------
  // The splitter

  /** The result dictionary for chapters cut at `bounds`, found by method
      `how`; only a fixed split reports its chapter size `ppc`. */
  function SplitReportOf(pages: seq<Option<string>>, path: string, outDir: string,
                         bounds: seq<int>, how: CD.SplitMethod, ppc: nat): SplitReport
  {
    var details := ChapterDetails(pages, Stem(FileName(path)), bounds, |pages|);
    SplitReport(|pages|, |details|, ChapterPaths(outDir, details), details, how,
                if how == CD.Fixed then Some(ppc) else None)
  }

  /** Cut at well-formed boundaries, the chapters partition the pages in
      order, are numbered from 1 under distinct file names, and the chapter
      size is reported exactly for a fixed split. */
  lemma SplitReportProperties(pages: seq<Option<string>>, path: string, outDir: string,
                              bounds: seq<int>, how: CD.SplitMethod, ppc: nat)
    requires WellFormedBounds(bounds, |pages|)
    ensures var r := SplitReportOf(pages, path, outDir, bounds, how, ppc);
      r.totalPages == |pages|
      && r.chaptersCreated == |r.details| == |r.chapters|
      && Tiles(DetailSpans(r.details), r.totalPages)
      && (forall i :: 0 <= i < |r.details| ==> r.details[i].number == i + 1 && r.details[i].pageCount >= 1)
      && (forall i, j :: 0 <= i < j < |r.details| ==> r.details[i].fileName != r.details[j].fileName)
      && (r.pagesPerChapter.None? <==> how == CD.Smart)
  {
    ChapterDetailsTile(pages, Stem(FileName(path)), bounds, |pages|);
  }

  /** A fixed split has `ceil(n / ppc)` chapters of `ppc` pages, the last
      one shorter. */
  lemma FixedReportSpans(pages: seq<Option<string>>, path: string, outDir: string, ppc: nat)
    requires ppc >= 1 && |pages| > 0
    ensures var r := SplitReportOf(pages, path, outDir, FixedBounds(|pages|, ppc), CD.Fixed, ppc);
      |r.details| == CeilDiv(|pages|, ppc)
      && forall i :: 0 <= i < |r.details| ==>
           Span(r.details[i].startPage, r.details[i].endPage) == FixedSpan(|pages|, ppc, i)
  {
    var n := |pages|;
    var bounds := FixedBounds(n, ppc);
    FixedBoundsWellFormed(n, ppc);
    var details := ChapterDetails(pages, Stem(FileName(path)), bounds, n);
    DetailSpansAre(pages, Stem(FileName(path)), bounds, n);
    forall i | 0 <= i < |details|
      ensures Span(details[i].startPage, details[i].endPage) == FixedSpan(n, ppc, i)
    {
      FixedSpansAt(n, ppc, i);
      assert DetailSpans(details)[i] == Span(details[i].startPage, details[i].endPage);
    }
  }

  class PDFSplitterFinal {
    const pagesPerChapter: nat
    const useOcr: bool
    const ocrAvailable: bool
    const detectorAvailable: bool
    const minPages: int
    const maxPages: int

    /** The state `__init__` leaves: the detector window derived from the
        chapter size, and OCR on exactly when it is available. */
    predicate Valid() {
      pagesPerChapter >= 1
      && minPages == DetectorMin(pagesPerChapter) && maxPages == DetectorMax(pagesPerChapter)
      && useOcr == ocrAvailable
    }

    /** `__init__`.  `detectorImports` and `ocrImports` say whether the
        detector and OCR modules import, `processorAvailable` what the OCR
        processor's `is_available` reports. */
    constructor (pagesPerChapter: nat, useOcr: bool, detectorImports: bool, ocrImports: bool,
                 processorAvailable: bool)
      requires pagesPerChapter >= 1
      ensures Valid()
      ensures this.pagesPerChapter == pagesPerChapter && detectorAvailable == detectorImports
      ensures ocrAvailable == (useOcr && ocrImports && processorAvailable)
      ensures ocrAvailable ==> useOcr
    {
      this.pagesPerChapter := pagesPerChapter;
      minPages := DetectorMin(pagesPerChapter);
      maxPages := DetectorMax(pagesPerChapter);
      detectorAvailable := detectorImports;
      var available := false;
      var ocrOn := useOcr;
      if ocrOn {
        if ocrImports {
          available := processorAvailable;
          if !available {
            ocrOn := false;
          }
        } else {
          ocrOn := false;
        }
      }
      ocrAvailable := available;
      this.useOcr := ocrOn;
    }

    /** The loop of `detect_pdf_type` over the first three pages. */
    method FindTextPage(pages: seq<Option<string>>) returns (found: bool)
      ensures found == TextFound(pages)
    {
      var sample := Min(3, |pages|);
      found := false;
      var k := 0;
      while k < sample && !found
        invariant 0 <= k <= sample
        invariant found == TextBefore(pages, k)
      {
        TextBeforeStep(pages, k);
        if HasTypeText(pages[k]) {
          found := true;
        }
        k := k + 1;
      }
    }

    /** `detect_pdf_type`. */
    method DetectPdfType(doc: Option<PdfDoc>, detailed: bool, scanned: Option<bool>) returns (t: PdfType)
      ensures t == PdfTypeOf(doc, ocrAvailable, detailed, scanned)
    {
      if doc.None? {
        return Unknown;
      }
      var pages := doc.value.pages;
      var found := FindTextPage(pages);
      if found {
        t := Text;
      } else if ocrAvailable && detailed {
        t := if scanned == Some(true) then Scanned else Unknown;
      } else {
        t := Scanned;
      }
    }

    /** The mode decision of `smart_process_pdf`: OCR is wanted when forced,
        for a scanned PDF, or for an unknown one with OCR on, and runs only
        when OCR is available. */
    predicate UsesOcr(force: bool, t: PdfType) {
      (force || t == Scanned || (t == Unknown && useOcr)) && ocrAvailable
    }

    function ModeOf(force: bool, t: PdfType, ocrSucceeded: bool): Mode {
      if UsesOcr(force, t) then (if ocrSucceeded then Ocr else BasicFallback) else Basic
    }

    /** Since `__init__` leaves OCR on exactly when it is available, the OCR
        processor runs exactly when it is available and the PDF is not a
        text PDF or OCR is forced; without OCR the mode is always 'basic',
        never 'basic_fallback'. */
    lemma ModeRules(force: bool, t: PdfType, ocrSucceeded: bool)
      requires Valid()
      ensures UsesOcr(force, t) <==> ocrAvailable && (force || t != Text)
      ensures !ocrAvailable ==> ModeOf(force, t, ocrSucceeded) == Basic
      ensures ModeOf(force, t, ocrSucceeded) == BasicFallback <==> UsesOcr(force, t) && !ocrSucceeded
    {
    }

    /** The boundaries `_basic_split_pdf` cuts at and how it found them: the
        detector's, when smart detection is asked for, the detector loaded,
        some sampled page has text and the detector finds more than one
        boundary; every `pages_per_chapter` pages otherwise. */
    ghost function ChosenSplit(pages: seq<Option<string>>, smart: bool): (seq<int>, CD.SplitMethod)
      requires Valid()
    {
      var texts := SampledUpTo(pages, Min(20, |pages|));
      if smart && detectorAvailable && texts != map[] && |CD.Detect(texts, minPages, maxPages)| > 1
      then (CD.Detect(texts, minPages, maxPages), CD.Smart)
      else (FixedBounds(|pages|, pagesPerChapter), CD.Fixed)
    }

    /** What `_basic_split_pdf` returns. */
    ghost function BasicSplitSpec(doc: Option<PdfDoc>, path: string, outDir: string, smart: bool): Result<SplitReport>
      requires Valid()
    {
      if doc.None? then Err(ReadError)
      else if |doc.value.pages| == 0 then Err("PDF文件没有页面")
      else
        var split := ChosenSplit(doc.value.pages, smart);
        Ok(SplitReportOf(doc.value.pages, path, outDir, split.0, split.1, pagesPerChapter))
    }

    /** The chosen boundaries of a non-empty PDF are well formed: whatever
        the detector returns lies within the sampled pages. */
    lemma ChosenSplitWellFormed(pages: seq<Option<string>>, smart: bool)
      requires Valid() && |pages| > 0
      ensures WellFormedBounds(ChosenSplit(pages, smart).0, |pages|)
      ensures ChosenSplit(pages, smart).1 == CD.Fixed ==>
        ChosenSplit(pages, smart).0 == FixedBounds(|pages|, pagesPerChapter)
    {
      var texts := SampledUpTo(pages, Min(20, |pages|));
      if smart && detectorAvailable && texts != map[] && |CD.Detect(texts, minPages, maxPages)| > 1 {
        CD.DetectResultWellFormed(texts, minPages, maxPages);
        assert CD.MaxKey(texts.Keys) in texts.Keys;
      } else {
        FixedBoundsWellFormed(|pages|, pagesPerChapter);
      }
    }

    /** The basic split fails exactly for an unreadable or zero-page PDF;
        otherwise its chapters partition the pages in order, are numbered
        from 1 under distinct file names, the split is 'smart' exactly when
        the detector was used, a fixed split has `ceil(n / ppc)` chapters of
        `ppc` pages (the last one shorter), and only a fixed split reports
        its chapter size. */
    lemma BasicSplitProperties(doc: Option<PdfDoc>, path: string, outDir: string, smart: bool)
      requires Valid()
      ensures BasicSplitSpec(doc, path, outDir, smart).Err? <==> doc.None? || |doc.value.pages| == 0
      ensures BasicSplitSpec(doc, path, outDir, smart).Ok? ==>
        var r := BasicSplitSpec(doc, path, outDir, smart).value;
        r.totalPages == |doc.value.pages|
        && r.chaptersCreated == |r.details| == |r.chapters|
        && Tiles(DetailSpans(r.details), r.totalPages)
        && (forall i :: 0 <= i < |r.details| ==> r.details[i].number == i + 1 && r.details[i].pageCount >= 1)
        && (forall i, j :: 0 <= i < j < |r.details| ==> r.details[i].fileName != r.details[j].fileName)
        && (r.pagesPerChapter.None? <==> r.splitMethod == CD.Smart)
        && (r.splitMethod == CD.Fixed ==>
              |r.details| == CeilDiv(r.totalPages, pagesPerChapter)
              && forall i :: 0 <= i < |r.details| ==>
                   Span(r.details[i].startPage, r.details[i].endPage) == FixedSpan(r.totalPages, pagesPerChapter, i))
    {
      if doc.Some? && |doc.value.pages| > 0 {
        var pages := doc.value.pages;
        var split := ChosenSplit(pages, smart);
        ChosenSplitWellFormed(pages, smart);
        SplitReportProperties(pages, path, outDir, split.0, split.1, pagesPerChapter);
        if split.1 == CD.Fixed {
          FixedReportSpans(pages, path, outDir, pagesPerChapter);
        }
      }
    }

    /** `_basic_split_pdf`. */
    method BasicSplit(doc: Option<PdfDoc>, path: string, outDir: string, smart: bool)
      returns (r: Result<SplitReport>)
      requires Valid()
      ensures r == BasicSplitSpec(doc, path, outDir, smart)
    {
      if doc.None? {
        return Err(ReadError);
      }
      var pages := doc.value.pages;
      var n := |pages|;
      if n == 0 {
        return Err("PDF文件没有页面");
      }
      var how := CD.Fixed;
      var bounds: seq<int> := [];
      if smart && detectorAvailable {
        var texts := SamplePages(pages);
        if texts != map[] {
          bounds := CD.DetectFromText(texts, minPages, maxPages);
          if |bounds| > 1 {
            how := CD.Smart;
          }
        }
      }
      if how == CD.Fixed {
        bounds := FixedBounds(n, pagesPerChapter);
      }
      assert (bounds, how) == ChosenSplit(pages, smart);
      var chapters, details := BuildChapters(pages, Stem(FileName(path)), outDir, bounds, n);
      r := Ok(SplitReport(n, |chapters|, chapters, details, how,
                          if how == CD.Fixed then Some(pagesPerChapter) else None));
    }

    /** `smart_process_pdf`.  `fileExists` says whether the input exists and
        `ocrSucceeded` whether the OCR processor's run reports success. */
    method SmartProcessPdf(fileExists: bool, path: string, doc: Option<PdfDoc>, outDir: string,
                           force: bool, smart: bool, ocrSucceeded: bool)
      returns (r: Result<Processed>)
      requires Valid()
      ensures !fileExists ==> r == Err("文件不存在")
      ensures fileExists && !IsPdfPath(path) ==> r == Err("不是PDF文件")
      ensures fileExists && IsPdfPath(path) ==> r.Ok?
      ensures r.Ok? ==>
        r.value.pdfType == PdfTypeOf(doc, ocrAvailable, false, None)
        && r.value.mode == ModeOf(force, r.value.pdfType, ocrSucceeded)
        && (r.value.basic.None? <==> r.value.mode == Ocr)
        && (r.value.basic.Some? ==> r.value.basic.value == BasicSplitSpec(doc, path, outDir, smart))
    {
      if !fileExists {
        return Err("文件不存在");
      }
      if Lower(Suffix(FileName(path))) != ".pdf" {
        return Err("不是PDF文件");
      }
      var t := DetectPdfType(doc, false, None);
      var ocrMode := false;
      if force {
        ocrMode := true;
      } else if t == Scanned {
        ocrMode := true;
      } else if t == Unknown && useOcr {
        ocrMode := true;
      }
      if ocrMode && ocrAvailable {
        if ocrSucceeded {
          r := Ok(Processed(Ocr, t, None));
        } else {
          var split := BasicSplit(doc, path, outDir, smart);
          r := Ok(Processed(BasicFallback, t, Some(split)));
        }
      } else {
        var split := BasicSplit(doc, path, outDir, smart);
        r := Ok(Processed(Basic, t, Some(split)));
      }
    }
  }
}
