/** `PDFOCRProcessor` of `src/pdf/pdf_ocr_processor.py`: the end-to-end
    pipeline for a scanned PDF.  It cuts the document into fixed chapters of
    `pages_per_chapter` pages, runs OCR on every page of a chapter, writes the
    collected text of each chapter and a PDF made of its pages, and reports
    what it produced; `batch_process` runs it over a list of files.
    The libraries are oracles: `pageCount` is the PDF reader's page count
    (`None` when reading raises), `ocr(p)` is the OCR text of page `p`
    (`None` when OCR raises) and `written(k)` says whether the PDF of the
    `k`-th chapter (0-based) was written. */
module OcrProcessor {
  import opened Wrappers
  import opened PyText
  import opened Ranges
  import opened PdfFiles
  import V1 = SplitterV1
  import OM = OcrModule

  const Unavailable := "OCR功能不可用"
  const Missing := "文件不存在"
  const ReadFailed := "PDF读取失败"
  /** `str(ZeroDivisionError)` for `//` by zero on integers. */
  const DivisionByZero := "integer division or modulo by zero"

  /** The report of a run that produced chapters.  `chapterTexts` are the
      contents of the text files listed in `textFiles`. */
  datatype Report = Report(pdfName: string, totalPages: nat, chaptersCreated: nat,
                           pagesPerChapter: int, totalTextChars: nat, outputDir: string,
                           textFiles: seq<string>, pdfFiles: seq<string>,
                           chapterTexts: seq<string>)

  /** What `process_scanned_pdf` returns. */
  datatype Outcome = Failed(error: string) | AnalysisOnly(totalPages: nat) | Processed(report: Report)

  /** `result['success']` */
  predicate Succeeded(o: Outcome) { !o.Failed? }

  // ---------------------------------------------------------------------
  // Chapter text

  /** What page `p` adds to its chapter's text: a header and the text when
      OCR gave some, a failure marker when OCR raised, nothing for an empty
      page. */
  function PageEntry(p: nat, text: Option<string>): string {
    match text
    case None => FailureMarker(p)
    case Some(t) => if t == "" then "" else PageBlock(p, t)
  }

  /** `f"\n--- 第 {p + 1} 页 [OCR失败] ---\n"` */
  function FailureMarker(p: nat): (r: string)
    ensures |r| > 0
  {
    "\n--- 第 " + Dec(p + 1) + " 页 [OCR失败] ---\n"
  }

  /** `f"\n--- 第 {p + 1} 页 ---\n{t}\n"` */
  function PageBlock(p: nat, t: string): (r: string)
    ensures |r| > |t|
  {
    "\n--- 第 " + Dec(p + 1) + " 页 ---\n" + t + "\n"
  }

  /** The text of the chapter holding pages `[s, e)`, assembled in page
      order. */
  function ChapterText(ocr: nat -> Option<string>, s: int, e: int): string
    requires s >= 0 || e <= s
    decreases e - s
  {
    if e <= s then "" else ChapterText(ocr, s, e - 1) + PageEntry(e - 1, ocr(e - 1))
  }

  /** A page contributes nothing exactly when OCR gave it an empty text. */
  lemma PageEntryEmpty(p: nat, text: Option<string>)
    ensures PageEntry(p, text) == "" <==> text == Some("")
  {
  }

  /** The text of `[s, e)` is the text of `[s, m)` followed by that of
      `[m, e)`: pages appear in their order. */
  lemma {:induction false} ChapterTextSplit(ocr: nat -> Option<string>, s: int, m: int, e: int)
    requires 0 <= s <= m <= e
    ensures ChapterText(ocr, s, e) == ChapterText(ocr, s, m) + ChapterText(ocr, m, e)
    decreases e - m
  {
    if e > m {
      ChapterTextSplit(ocr, s, m, e - 1);
    }
  }

  /** A chapter's text is empty exactly when every page of it gave an
      empty OCR text. */
  lemma {:induction false} ChapterTextEmpty(ocr: nat -> Option<string>, s: int, e: int)
    requires 0 <= s
    ensures ChapterText(ocr, s, e) == "" <==> forall p: nat :: s <= p < e ==> ocr(p) == Some("")
    decreases e - s
  {
    if e > s {
      ChapterTextEmpty(ocr, s, e - 1);
      PageEntryEmpty(e - 1, ocr(e - 1));
      if ChapterText(ocr, s, e) == "" {
        assert ChapterText(ocr, s, e - 1) == "" && PageEntry(e - 1, ocr(e - 1)) == "";
      }
    }
  }

  /** A page whose OCR gave text contributes it, under its 1-based number,
      right after the text of the pages before it. */
  lemma PageTextKept(ocr: nat -> Option<string>, s: int, p: nat, e: int)
    requires 0 <= s <= p < e && ocr(p).Some? && ocr(p).value != ""
    ensures OccursAt(ChapterText(ocr, s, e), PageBlock(p, ocr(p).value), |ChapterText(ocr, s, p)|)
  {
    ChapterTextSplit(ocr, s, p, e);
    ChapterTextSplit(ocr, p, p + 1, e);
    var a, w, b := ChapterText(ocr, s, p), PageBlock(p, ocr(p).value), ChapterText(ocr, p + 1, e);
    assert ChapterText(ocr, p, p + 1) == w;
    assert ChapterText(ocr, s, e) == a + w + b;
    assert (a + w + b)[|a|..|a| + |w|] == w;
  }

  // ---------------------------------------------------------------------
  // Chapters

  /** With a negative size a chapter's range is empty, so every page a
      chapter reads is a page number. */
  lemma SpanPages(n: int, ppc: int, k: nat)
    requires ppc != 0
    ensures V1.ChapterSpan(n, ppc, k).start >= 0 || V1.ChapterSpan(n, ppc, k).end <= V1.ChapterSpan(n, ppc, k).start
  {
    assert (k + 1) * ppc == k * ppc + ppc;
    if ppc > 0 { assert k * ppc >= 0; }
  }

  /** The text of chapter `k` (0-based). */
  function ChapterTextOf(ocr: nat -> Option<string>, n: int, ppc: int, k: nat): string
    requires ppc != 0
  {
    SpanPages(n, ppc, k);
    ChapterText(ocr, V1.ChapterSpan(n, ppc, k).start, V1.ChapterSpan(n, ppc, k).end)
  }

  /** `f"{stem}_chapter_{k:03d}.txt"` */
  function TextFileName(stem: string, k: nat): string {
    stem + "_chapter_" + Pad3(k) + ".txt"
  }

  function ChapterPdfPath(outDir: string, stem: string, k: nat): string {
    JoinPath(outDir, ChapterFileName(stem, k + 1))
  }

  /** The chapter PDFs among the first `m` chapters that were written, in
      chapter order. */
  function WrittenPaths(outDir: string, stem: string, written: nat -> bool, m: nat): (r: seq<string>)
    ensures |r| <= m
  {
    if m == 0 then []
    else WrittenPaths(outDir, stem, written, m - 1)
         + (if written(m - 1) then [ChapterPdfPath(outDir, stem, m - 1)] else [])
  }

  /** `x` is the PDF path of one of the first `m` chapters, and that
      chapter's PDF was written. */
  predicate IsWrittenPath(outDir: string, stem: string, written: nat -> bool, m: nat, x: string) {
    exists k: nat :: k < m && written(k) && x == ChapterPdfPath(outDir, stem, k)
  }

  /** Every path listed was a chapter PDF that was written. */
  lemma {:induction false} WrittenPathsAreWritten(outDir: string, stem: string, written: nat -> bool, m: nat)
    ensures forall i :: 0 <= i < |WrittenPaths(outDir, stem, written, m)| ==>
      IsWrittenPath(outDir, stem, written, m, WrittenPaths(outDir, stem, written, m)[i])
  {
    if m > 0 {
      WrittenPathsAreWritten(outDir, stem, written, m - 1);
      var r := WrittenPaths(outDir, stem, written, m);
      var r' := WrittenPaths(outDir, stem, written, m - 1);
      forall i | 0 <= i < |r| ensures IsWrittenPath(outDir, stem, written, m, r[i]) {
        if i < |r'| {
          assert r[i] == r'[i];
          assert IsWrittenPath(outDir, stem, written, m - 1, r'[i]);
          var k: nat :| k < m - 1 && written(k) && r'[i] == ChapterPdfPath(outDir, stem, k);
        } else {
          assert written(m - 1) && r[i] == ChapterPdfPath(outDir, stem, m - 1);
        }
      }
    }
  }

  /** All `m` chapter PDFs are listed exactly when all were written. */
  lemma {:induction false} WrittenPathsAll(outDir: string, stem: string, written: nat -> bool, m: nat)
    ensures |WrittenPaths(outDir, stem, written, m)| == m <==> forall k: nat :: k < m ==> written(k)
  {
    if m > 0 {
      WrittenPathsAll(outDir, stem, written, m - 1);
      assert |WrittenPaths(outDir, stem, written, m - 1)| <= m - 1;
    }
  }

  /** `sum(len(text) for text in texts)` */
  function TotalLength(texts: seq<string>): nat {
    if texts == [] then 0 else TotalLength(texts[..|texts| - 1]) + |texts[|texts| - 1]|
  }

  /** The total is at least the length of each text, and zero exactly when
      every text is empty. */
  lemma {:induction false} TotalLengthBounds(texts: seq<string>)
    ensures forall k :: 0 <= k < |texts| ==> |texts[k]| <= TotalLength(texts)
    ensures TotalLength(texts) == 0 <==> forall k :: 0 <= k < |texts| ==> texts[k] == ""
  {
    if texts != [] {
      var init := texts[..|texts| - 1];
      TotalLengthBounds(init);
      assert forall k :: 0 <= k < |init| ==> init[k] == texts[k];
    }
  }

  /** The texts of the first `m` chapters, in order. */
  function ChapterTexts(ocr: nat -> Option<string>, n: int, ppc: int, m: nat): (r: seq<string>)
    requires ppc != 0
    ensures |r| == m
    ensures forall k :: 0 <= k < m ==> r[k] == ChapterTextOf(ocr, n, ppc, k)
  {
    if m == 0 then [] else ChapterTexts(ocr, n, ppc, m - 1) + [ChapterTextOf(ocr, n, ppc, m - 1)]
  }

  function TextFiles(outDir: string, stem: string, m: nat): (r: seq<string>)
    ensures |r| == m
    ensures forall k :: 0 <= k < m ==> r[k] == JoinPath(outDir, TextFileName(stem, k + 1))
  {
    seq(m, k requires 0 <= k => JoinPath(outDir, TextFileName(stem, k + 1)))
  }

  /** The report of a run over an `n`-page PDF at `path` into `outDir`. */
  function ReportOf(path: string, n: nat, ppc: int, outDir: string,
                    ocr: nat -> Option<string>, written: nat -> bool): Report
    requires ppc != 0
  {
    var stem := Stem(FileName(path));
    var texts := ChapterTexts(ocr, n, ppc, V1.NumChapters(n, ppc));
    var pdfs := WrittenPaths(outDir, stem, written, |texts|);
    Report(FileName(path), n, |pdfs|, ppc, TotalLength(texts), outDir,
           TextFiles(outDir, stem, |texts|), pdfs, texts)
  }

  /** `process_scanned_pdf`. */
  function ProcessSpec(available: bool, fileExists: bool, path: string, pageCount: Option<nat>,
                       outDir: Option<string>, ppc: int,
                       ocr: nat -> Option<string>, written: nat -> bool): Outcome
  {
    if !available then Failed(Unavailable)
    else if !fileExists then Failed(Missing)
    else if pageCount.None? then Failed(ReadFailed)
    else if outDir.None? then AnalysisOnly(pageCount.value)
    else if ppc == 0 then Failed(DivisionByZero)
    else Processed(ReportOf(path, pageCount.value, ppc, outDir.value, ocr, written))
  }

  /** The error checks come first, in order; without an output directory
      only the analysis is returned; otherwise a zero chapter size fails in
      the division and every other size produces a report. */
  lemma OutcomeRules(available: bool, fileExists: bool, path: string, pageCount: Option<nat>,
                     outDir: Option<string>, ppc: int,
                     ocr: nat -> Option<string>, written: nat -> bool)
    ensures var o := ProcessSpec(available, fileExists, path, pageCount, outDir, ppc, ocr, written);
      && (o == Failed(Unavailable) <==> !available)
      && (o == Failed(Missing) <==> available && !fileExists)
      && (o == Failed(ReadFailed) <==> available && fileExists && pageCount.None?)
      && (o.AnalysisOnly? <==> available && fileExists && pageCount.Some? && outDir.None?)
      && (o.AnalysisOnly? ==> o.totalPages == pageCount.value)
      && (o.Processed? <==> available && fileExists && pageCount.Some? && outDir.Some? && ppc != 0)
  {
  }

  /** A report lists one text file per fixed chapter and the chapter PDFs
      that were written, so at most as many chapters are created as there
      are chapters; all are created exactly when every write succeeded.
      The character total is the sum of the chapter texts' lengths, and with
      a positive size the chapters are `ceil(n / ppc)` runs of 1 to `ppc`
      pages that partition the document in order. */
  lemma ReportProperties(path: string, n: nat, ppc: int, outDir: string,
                         ocr: nat -> Option<string>, written: nat -> bool)
    requires ppc != 0
    ensures var r := ReportOf(path, n, ppc, outDir, ocr, written);
      && |r.textFiles| == |r.chapterTexts| == V1.NumChapters(n, ppc)
      && r.chaptersCreated == |r.pdfFiles| <= |r.chapterTexts|
      && (r.chaptersCreated == |r.chapterTexts| <==> forall k: nat :: k < |r.chapterTexts| ==> written(k))
      && r.totalTextChars == TotalLength(r.chapterTexts)
      && (r.totalTextChars == 0 <==> forall k :: 0 <= k < |r.chapterTexts| ==> r.chapterTexts[k] == "")
      && (n >= 1 && ppc >= 1 ==>
            |r.chapterTexts| == CeilDiv(n, ppc) && Tiles(V1.FixedSplit(n, ppc), n)
            && forall k :: 0 <= k < |r.chapterTexts| ==>
                 1 <= V1.FixedSplit(n, ppc)[k].end - V1.FixedSplit(n, ppc)[k].start <= ppc)
  {
    var r := ReportOf(path, n, ppc, outDir, ocr, written);
    WrittenPathsAll(outDir, Stem(FileName(path)), written, |r.chapterTexts|);
    TotalLengthBounds(r.chapterTexts);
    if n >= 1 && ppc >= 1 {
      V1.FixedSplitProperties(n, ppc);
    }
  }

  /** The text of chapter `k` is empty exactly when each of its pages gave
      an empty OCR text. */
  lemma ChapterTextOfEmpty(ocr: nat -> Option<string>, n: int, ppc: int, k: nat)
    requires ppc != 0
    ensures ChapterTextOf(ocr, n, ppc, k) == "" <==>
      forall p: nat :: V1.ChapterSpan(n, ppc, k).start <= p < V1.ChapterSpan(n, ppc, k).end ==> ocr(p) == Some("")
  {
    SpanPages(n, ppc, k);
    var sp := V1.ChapterSpan(n, ppc, k);
    if sp.start >= 0 {
      ChapterTextEmpty(ocr, sp.start, sp.end);
    }
  }

  // ---------------------------------------------------------------------
  // The loops

  /** The page loop that assembles one chapter's text. */
  method AssembleChapterText(ocr: nat -> Option<string>, s: int, e: int) returns (text: string)
    requires s >= 0 || e <= s
    ensures text == ChapterText(ocr, s, e)
  {
    text := "";
    if e <= s {
      return;
    }
    var p := s;
    while p < e
      invariant s <= p <= e
      invariant text == ChapterText(ocr, s, p)
      decreases e - p
    {
      var pageText := ocr(p);
      match pageText {
        case None =>
          text := text + FailureMarker(p);
        case Some(t) =>
          if t != "" {
            text := text + PageBlock(p, t);
          }
      }
      p := p + 1;
    }
  }

  /** The pages the chapter loop computes for chapter `k`. */
  lemma ChapterBounds(n: int, ppc: int, k: nat)
    requires ppc != 0
    ensures Span(k * ppc, Min(k * ppc + ppc, n)) == V1.ChapterSpan(n, ppc, k)
    ensures k * ppc >= 0 || Min(k * ppc + ppc, n) <= k * ppc
  {
    assert (k + 1) * ppc == k * ppc + ppc;
    SpanPages(n, ppc, k);
  }

  /** One round of the chapter loop: the pages of chapter `k`, its text,
      and the path of its PDF when that was written. */
  method CutChapter(outDir: string, stem: string, n: nat, ppc: int, k: nat,
                    ocr: nat -> Option<string>, written: nat -> bool)
    returns (chapterText: string, pdfFile: Option<string>)
    requires ppc != 0
    ensures chapterText == ChapterTextOf(ocr, n, ppc, k)
    ensures pdfFile == if written(k) then Some(ChapterPdfPath(outDir, stem, k)) else None
  {
    var startPage := k * ppc;
    var endPage := Min(startPage + ppc, n);
    ChapterBounds(n, ppc, k);
    chapterText := AssembleChapterText(ocr, startPage, endPage);
    pdfFile := None;
    if written(k) {
      pdfFile := Some(JoinPath(outDir, ChapterFileName(stem, k + 1)));
    }
  }

  /** The chapter loop: one text per chapter, and the path of each chapter
      PDF that was written. */
  method CutChapters(outDir: string, stem: string, n: nat, ppc: int,
                     ocr: nat -> Option<string>, written: nat -> bool)
    returns (texts: seq<string>, pdfFiles: seq<string>)
    requires ppc != 0
    ensures texts == ChapterTexts(ocr, n, ppc, V1.NumChapters(n, ppc))
    ensures pdfFiles == WrittenPaths(outDir, stem, written, |texts|)
  {
    var numChapters := FloorDiv(n + ppc - 1, ppc);
    texts := [];
    pdfFiles := [];
    var k := 0;
    while k < numChapters
      invariant 0 <= k && (k <= numChapters || k == 0)
      invariant texts == ChapterTexts(ocr, n, ppc, k)
      invariant pdfFiles == WrittenPaths(outDir, stem, written, k)
    {
      var chapterText, pdfFile := CutChapter(outDir, stem, n, ppc, k, ocr, written);
      texts := texts + [chapterText];
      if pdfFile.Some? {
        pdfFiles := pdfFiles + [pdfFile.value];
      }
      k := k + 1;
    }
  }

  /** `sum(len(text) for text in texts)` as the generator runs. */
  method SumLengths(texts: seq<string>) returns (total: nat)
    ensures total == TotalLength(texts)
  {
    total := 0;
    var i := 0;
    while i < |texts|
      invariant 0 <= i <= |texts|
      invariant total == TotalLength(texts[..i])
    {
      assert texts[..i + 1][..i] == texts[..i];
      total := total + |texts[i]|;
      i := i + 1;
    }
    assert texts[..i] == texts;
  }

  // ---------------------------------------------------------------------
  // Batches

  /** The oracles that drive one file of a batch. */
  datatype FileInputs = FileInputs(pageCount: Option<nat>, ocr: nat -> Option<string>, written: nat -> bool)

  /** One `details` entry: the file and what processing it gave. */
  datatype BatchEntry = BatchEntry(file: string, outcome: Outcome)

  /** The entry of one file: a missing file fails without processing;
      any other is processed into its own directory named after its stem. */
  function EntryOf(available: bool, f: string, present: bool, inputs: FileInputs, outBase: string, ppc: int)
    : BatchEntry
  {
    if !present then BatchEntry(f, Failed(Missing))
    else BatchEntry(f, ProcessSpec(available, true, f, inputs.pageCount,
                                   Some(JoinPath(outBase, Stem(FileName(f)))), ppc,
                                   inputs.ocr, inputs.written))
  }

  /** The entries of a batch, one per file in order. */
  function EntriesOf(files: seq<string>, entry: string -> BatchEntry): seq<BatchEntry>
    decreases |files|
  {
    if files == [] then [] else EntriesOf(files[..|files| - 1], entry) + [entry(files[|files| - 1])]
  }

  function SuccessCount(details: seq<BatchEntry>): (c: nat)
    ensures c <= |details|
  {
    if details == [] then 0
    else SuccessCount(details[..|details| - 1]) + (if Succeeded(details[|details| - 1].outcome) then 1 else 0)
  }

  /** One more file adds its entry, and one success when it succeeded. */
  lemma EntriesSnoc(files: seq<string>, i: nat, entry: string -> BatchEntry, details: seq<BatchEntry>, e: BatchEntry)
    requires i < |files| && details == EntriesOf(files[..i], entry) && e == entry(files[i])
    ensures EntriesOf(files[..i + 1], entry) == details + [e]
    ensures SuccessCount(details + [e]) == SuccessCount(details) + (if Succeeded(e.outcome) then 1 else 0)
  {
    assert files[..i + 1][..i] == files[..i];
    assert (details + [e])[..|details|] == details;
  }

  lemma {:induction false} EntriesOfEach(files: seq<string>, entry: string -> BatchEntry)
    ensures |EntriesOf(files, entry)| == |files|
    ensures forall i :: 0 <= i < |files| ==> EntriesOf(files, entry)[i] == entry(files[i])
    decreases |files|
  {
    if files != [] {
      var init := files[..|files| - 1];
      EntriesOfEach(init, entry);
      assert forall i :: 0 <= i < |init| ==> init[i] == files[i];
    }
  }

  /** A batch run never returns an analysis-only result: every file that
      exists gets an output directory. */
  lemma NoAnalysisInBatch(available: bool, f: string, present: bool, inputs: FileInputs, outBase: string, ppc: int)
    ensures !EntryOf(available, f, present, inputs, outBase, ppc).outcome.AnalysisOnly?
    ensures EntryOf(available, f, present, inputs, outBase, ppc).file == f
    ensures Succeeded(EntryOf(available, f, present, inputs, outBase, ppc).outcome) <==>
      available && present && inputs.pageCount.Some? && ppc != 0
  {
  }

  // ---------------------------------------------------------------------
  // The failure marker and the OCR call

  /** A page block and a failure marker for the same page differ right
      after the shared "--- 第 n 页 " prefix. */
  lemma BlockIsNotMarker(p: nat, t: string)
    ensures PageBlock(p, t) != FailureMarker(p)
  {
    var k := |"\n--- 第 " + Dec(p + 1) + " 页 "|;
    assert PageBlock(p, t)[k] == '-';
    assert FailureMarker(p)[k] == '[';
  }

  /** As written, the OCR call `extract_text_with_preprocessing` returns a
      text for every page, "" on failure, so no page of any chapter ever
      gets the failure marker: a page whose rendering raised contributes
      nothing, exactly like a blank page. */
  lemma SwallowedFailureUnmarked(available: bool, enabled: bool, p: nat, raster: int -> Option<seq<OM.Image>>,
                                 f: OM.Filters, ocr: OM.Image -> Option<string>)
    ensures PageEntry(p, Some(OM.PreprocessedPageText(available, enabled, p, raster, f, ocr))) != FailureMarker(p)
    ensures available && raster(p).None? ==>
      PageEntry(p, Some(OM.PreprocessedPageText(available, enabled, p, raster, f, ocr))) == ""
  {
    var t := OM.PreprocessedPageText(available, enabled, p, raster, f, ocr);
    if t != "" {
      BlockIsNotMarker(p, t);
    }
  }

  /** With the OCR call letting its failures through, a page whose
      rendering or OCR raised gets the failure marker, and every other page
      gets the same entry as before. */
  lemma RaisedFailureMarked(available: bool, enabled: bool, p: nat, raster: int -> Option<seq<OM.Image>>,
                            f: OM.Filters, ocr: OM.Image -> Option<string>)
    ensures var r := OM.PreprocessedPageResult(available, enabled, p, raster, f, ocr);
      && (PageEntry(p, r) == FailureMarker(p) <==> r.None?)
      && (r.Some? ==> PageEntry(p, r) == PageEntry(p, Some(OM.PreprocessedPageText(available, enabled, p, raster, f, ocr))))
  {
    var r := OM.PreprocessedPageResult(available, enabled, p, raster, f, ocr);
    OM.PreprocessedResultAgrees(available, enabled, p, raster, f, ocr);
    if r.Some? && r.value != "" {
      BlockIsNotMarker(p, r.value);
    }
  }

  class PDFOCRProcessor {
    const lang: string
    const enablePreprocessing: bool
    const dpi: int
    const ocrAvailable: bool

    /** `__init__`: OCR is available only when the OCR module imports and
        reports itself available. */
    constructor (lang: string, enablePreprocessing: bool, dpi: int, moduleImports: bool, moduleAvailable: bool)
      ensures this.lang == lang && this.enablePreprocessing == enablePreprocessing && this.dpi == dpi
      ensures ocrAvailable == (moduleImports && moduleAvailable)
    {
      this.lang := lang;
      this.enablePreprocessing := enablePreprocessing;
      this.dpi := dpi;
      ocrAvailable := moduleImports && moduleAvailable;
    }

    /** `is_available` */
    predicate IsAvailable() { ocrAvailable }

    /** `process_scanned_pdf`. */
    method ProcessScannedPdf(fileExists: bool, path: string, pageCount: Option<nat>, outDir: Option<string>,
                             ppc: int, ocr: nat -> Option<string>, written: nat -> bool)
      returns (o: Outcome)
      ensures o == ProcessSpec(ocrAvailable, fileExists, path, pageCount, outDir, ppc, ocr, written)
    {
      if !IsAvailable() {
        return Failed(Unavailable);
      }
      if !fileExists {
        return Failed(Missing);
      }
      if pageCount.None? {
        return Failed(ReadFailed);
      }
      var totalPages := pageCount.value;
      if outDir.None? {
        return AnalysisOnly(totalPages);
      }
      if ppc == 0 {
        return Failed(DivisionByZero);
      }
      var dir := outDir.value;
      var stem := Stem(FileName(path));
      var chapterTexts, chapters := CutChapters(dir, stem, totalPages, ppc, ocr, written);
      var totalTextChars := SumLengths(chapterTexts);
      var textFiles := TextFiles(dir, stem, |chapterTexts|);
      o := Processed(Report(FileName(path), totalPages, |chapters|, ppc, totalTextChars, dir,
                            textFiles, chapters, chapterTexts));
    }

    /** What `batch_process` records for one file. */
    function EntryFor(present: string -> bool, inputs: string -> FileInputs, outBase: string, ppc: int): string -> BatchEntry {
      f => EntryOf(ocrAvailable, f, present(f), inputs(f), outBase, ppc)
    }

    /** `batch_process`: one entry per file, in order. */
    function BatchSpec(files: seq<string>, present: string -> bool, inputs: string -> FileInputs,
                       outBase: string, ppc: int): seq<BatchEntry>
    {
      EntriesOf(files, EntryFor(present, inputs, outBase, ppc))
    }

    /** The batch holds one entry per file, the i-th being the i-th file's. */
    lemma BatchSpecEntries(files: seq<string>, present: string -> bool, inputs: string -> FileInputs,
                           outBase: string, ppc: int)
      ensures |BatchSpec(files, present, inputs, outBase, ppc)| == |files|
      ensures forall i :: 0 <= i < |files| ==>
        BatchSpec(files, present, inputs, outBase, ppc)[i]
          == EntryOf(ocrAvailable, files[i], present(files[i]), inputs(files[i]), outBase, ppc)
    {
      EntriesOfEach(files, EntryFor(present, inputs, outBase, ppc));
    }

    /** One file of `batch_process`: a missing file fails, any other is
        processed into its own directory under the output base. */
    method ProcessEntry(f: string, present: string -> bool, inputs: string -> FileInputs, outBase: string, ppc: int,
                        ghost entryOf: string -> BatchEntry)
      returns (entry: BatchEntry)
      requires entryOf == EntryFor(present, inputs, outBase, ppc)
      ensures entry == entryOf(f)
    {
      if !present(f) {
        entry := BatchEntry(f, Failed(Missing));
      } else {
        var inp := inputs(f);
        var result := ProcessScannedPdf(true, f, inp.pageCount, Some(JoinPath(outBase, Stem(FileName(f)))),
                                        ppc, inp.ocr, inp.written);
        entry := BatchEntry(f, result);
      }
    }

    /** `batch_process`: each file bumps exactly one of the two counters and
        adds exactly one entry. */
    method BatchProcess(files: seq<string>, present: string -> bool, inputs: string -> FileInputs,
                        outBase: string, ppc: int)
      returns (totalFiles: nat, successful: nat, failed: nat, details: seq<BatchEntry>)
      ensures details == BatchSpec(files, present, inputs, outBase, ppc)
      ensures totalFiles == |files| == |details| == successful + failed
      ensures successful == SuccessCount(details)
    {
      totalFiles := |files|;
      successful, failed := 0, 0;
      details := [];
      ghost var entryOf := EntryFor(present, inputs, outBase, ppc);
      var i := 0;
      while i < |files|
        invariant 0 <= i <= |files|
        invariant details == EntriesOf(files[..i], entryOf)
        invariant |details| == i
        invariant successful == SuccessCount(details) && successful + failed == i
      {
        var entry := ProcessEntry(files[i], present, inputs, outBase, ppc, entryOf);
        if Succeeded(entry.outcome) {
          successful := successful + 1;
        } else {
          failed := failed + 1;
        }
        EntriesSnoc(files, i, entryOf, details, entry);
        details := details + [entry];
        i := i + 1;
      }
      assert files[..i] == files;
    }
  }
}
