# RickyGB document tools, modelled in Dafny

RickyGB is a set of Python document tools. Its centre is a PDF
segmentation pipeline. That pipeline decides whether a PDF holds text or
scanned images, detects chapter boundaries and writes one file per
chapter; when the text path fails it falls back to OCR. Around it sit
smaller converters and helpers:

- Excel to Markdown tables (three converters);
- a Markdown merger with a table of contents;
- an EPUB text extractor;
- three JSON repair layers;
- file-type sniffing by magic number;
- a heartbeat monitor that restarts a chat gateway.

This project models the logic of those tools and proves what the code
promises about it. The PDF, OCR, image, spreadsheet, archive and JSON
libraries are taken as oracles, passed in as functions or values:

- a page's text is an `Option<string>`, with `None` when the library raises;
- OCR output and images are abstract;
- `json.loads` is a function from text to a parse result;
- the filesystem, the clock and `subprocess.run` are answers supplied in advance.

Each model file follows one source file. The files are:

| file | module | source |
|---|---|---|
| `chapter_detector.dfy` | `ChapterDetector` | `pdf_chapter_detector.py` |
| `splitter_final.dfy` | `SplitterFinal` | `src/pdf/pdf_chapter_splitter_final.py` |
| `splitter_v2.dfy` | `SplitterV2` | `src/pdf/pdf_chapter_splitter_v2.py` |
| `splitter_v1.dfy` | `SplitterV1` | `src/pdf/pdf_chapter_splitter_v1.py` |
| `pdf_files.dfy` | `PdfFiles` | path and file-name helpers shared by the PDF tools |
| `ocr_module.dfy` | `OcrModule` | `src/pdf/pdf_ocr_module.py` |
| `ocr_processor.dfy` | `OcrProcessor` | `src/pdf/pdf_ocr_processor.py` |
| `batch_processor.dfy` | `BatchProcessor` | `src/pdf/pdf_batch_processor.py` |
| `markdown_table.dfy` | `MarkdownTable` | table rendering and pagination of `src/excel/xlsx2md.py` |
| `excel_xlsx2md.dfy` | `ExcelConverter` | `src/excel/xlsx2md.py` |
| `xlsx2md_root.dfy` | `RootExcelConverter` | `xlsx2md.py` |
| `xlsx2md_improved.dfy` | `ExcelImproved` | `src/excel/xlsx2md_improved.py` |
| `merge_markdown.dfy` | `MarkdownMerge` | `src/markdown/merge_markdown.py` |
| `epub_v1.dfy` | `EpubV1` | `epub_to_markdown_v1.py` |
| `json_values.dfy`, `json_text.dfy`, `json_utils.dfy` | `JsonValues`, `JsonText`, `JsonUtils` | `src/utils/json_utils.py` |
| `json_safe_wrapper.dfy` | `JsonSafeWrapper` | `json_safe_wrapper.py` |
| `json_final_fix.dfy` | `JsonFinalFix` | `src/utils/json_final_fix.py` |
| `file_utils.dfy` | `FileUtils` | `src/utils/file_utils.py` |
| `heartbeat.dfy` | `GatewayHeartbeat` | `src/heartbeat/gateway_heartbeat.py` |
| `pytext.dfy`, `ranges.dfy`, `wrappers.dfy` | `PyText`, `Ranges`, `Wrappers` | shared models of Python `str` methods and formats, `range` and chapter spans, and `Option`/`Result` |

The models follow the form of the code:

- Pure helpers (pattern tests, escaping, slugs, formats) are functions.
- Loops over pages, rows, lines or files are methods. Each loop is proved
  against a specification function whose properties are proved as lemmas.
- Objects whose methods update their fields are classes. These are the
  splitters, the OCR processor, the batch processor, the converters, the
  merger, the JSON wrapper's statistics, the final fix's module cache and
  the heartbeat monitor.

Confidence scores in the chapter detector are whole tenths (8, 7 and 6
for 0.8, 0.7 and 0.6), since the code only compares them with literals.
`str.isspace` and `\s` follow Python's full whitespace set. `\w` follows
Python's class up to the characters that MarkdownMerge.IsNonWordSymbol
does not list (see "## Left out"). `str.lower`, `str.isupper`,
`str.isdigit` and `\d` are their ASCII versions.
CJK characters count as neither digits nor upper case.

## Model

| member | source | states |
|---|---|---|
| `ChapterDetector.ChapterStartConfidence` | pdf_chapter_detector.py:112-160 | `_is_chapter_start` yields only the confidences 0, 0.6, 0.7 or 0.8 (in tenths) |
| `ChapterDetector.ChapterStartRules` | pdf_chapter_detector.py:119-160 | the rules are tried in order and the first that applies decides, each as an if-and-only-if: 0.8 exactly when a pattern matches one of the first three stripped lines; 0.6 exactly when no pattern does and the first line has the heading shape; 0.7 exactly when neither holds, the page is below 5 and a front-matter word occurs; 0 otherwise |
| `ChapterDetector.HeadingFeatures` | pdf_chapter_detector.py:137-149 | a first line has at most three heading features |
| `ChapterDetector.LetterDotScoresHigh` | pdf_chapter_detector.py:37 | because `[A-Z]\.` is compiled with IGNORECASE, any first line holding a letter followed by a full stop scores 0.8 |
| `ChapterDetector.FrontMatterOnlyEarly` | pdf_chapter_detector.py:155-158 | the front-matter rule (0.7) never fires on page 5 or later |
| `ChapterDetector.FirstPieceOccurs` | pdf_chapter_detector.py:132-133 | the first piece of `text.split('\n')` is a prefix of the text |
| `ChapterDetector.NumeralRunEnd` | pdf_chapter_detector.py:33-34 | the run of `[零一…万\d]` numerals that the 第…章 / 第…节 patterns match ends at the first non-numeral |
| `ChapterDetector.SpaceRunEnd` | pdf_chapter_detector.py:40-47 | the `\s+` run of the English and general patterns ends at the first non-whitespace character |
| `ChapterDetector.DigitRunEnd` | pdf_chapter_detector.py:36 | the `\d+` run ends at the first non-digit |
| `ChapterDetector.Scores` | pdf_chapter_detector.py:76-81 | one score per page `0 .. total-1`, each the page's score |
| `ChapterDetector.ScorePage` | pdf_chapter_detector.py:76-81 | a missing page or one with fewer than 10 characters after stripping scores 0; any other page gets the chapter-start confidence |
| `ChapterDetector.CollectCandidates` | pdf_chapter_detector.py:74-97 | the candidate list of the page loop, sorted by page: strictly increasing pages, all below the page count |
| `ChapterDetector.CandidatesOrdered` | pdf_chapter_detector.py:83-97 | candidates are in strictly increasing page order, below the page count, each carrying its page's positive score |
| `ChapterDetector.CandidateIff` | pdf_chapter_detector.py:83-89 | a page is a candidate exactly when its score is positive |
| `ChapterDetector.HasPageSnoc` | pdf_chapter_detector.py:84-89 | appending a candidate adds exactly its page to the candidate pages |
| `ChapterDetector.HighPagesStep` | pdf_chapter_detector.py:185 | the `> 0.7` filter keeps a candidate's page exactly when its confidence exceeds 0.7 |
| `ChapterDetector.HighPagesIncreasing` | pdf_chapter_detector.py:177-185 | the high-confidence pages stay strictly increasing and within the page range (the confidence sort is stable on ties and only 0.8 passes, so page order is kept) |
| `ChapterDetector.HighPagesMembers` | pdf_chapter_detector.py:185 | a page is high-confidence exactly when some candidate for it has confidence above 0.7 |
| `ChapterDetector.Greedy` | pdf_chapter_detector.py:179-202 | the greedy pass always starts with page 0 |
| `ChapterDetector.GreedyStep` | pdf_chapter_detector.py:191-200 | a page is appended exactly when its distance from the last kept boundary lies in `[min, max]`; otherwise the boundaries are unchanged |
| `ChapterDetector.GreedyPass` | pdf_chapter_detector.py:179-202 | the first loop of the selection computes the greedy pass over the high-confidence pages |
| `ChapterDetector.GreedyEmptyWindow` | pdf_chapter_detector.py:195 | with `min > max` no candidate is ever accepted: only page 0 remains |
| `ChapterDetector.GreedyFacts` | pdf_chapter_detector.py:179-202 | the greedy result starts at 0, keeps only offered pages, has every gap within `[min, max]` and ends at or before the last offered page |
| `ChapterDetector.GreedyShapeSnoc` | pdf_chapter_detector.py:191-200 | one step of the greedy pass keeps that shape |
| `ChapterDetector.GreedyShapeWiden` | pdf_chapter_detector.py:197-200 | offering a page that is rejected keeps the shape |
| `ChapterDetector.GreedyShapeAppend` | pdf_chapter_detector.py:195-196 | accepting the offered page keeps the shape |
| `ChapterDetector.BackFill` | pdf_chapter_detector.py:205-210 | the second loop appends boundaries `max` pages apart while the last one is more than `max` pages before the end |
| `ChapterDetector.FillFacts` | pdf_chapter_detector.py:205-210 | the back-filled boundaries lie strictly between the last greedy boundary and the end, step by exactly `max`, and the last lies within `max` of the end |
| `ChapterDetector.FillShapeCons` | pdf_chapter_detector.py:208-210 | one more back-filled boundary keeps that shape |
| `ChapterDetector.SyntheticShift` | pdf_chapter_detector.py:208-209 | a boundary reached by steps of `max` from a later start is reached from the earlier one too |
| `ChapterDetector.FillMembers` | pdf_chapter_detector.py:205-210 | every back-filled boundary lies after its start, below the end, and a whole number of `max` steps from the start |
| `ChapterDetector.SortedSet` | pdf_chapter_detector.py:213 | `sorted(set(xs))` is strictly increasing and holds exactly the elements of `xs` |
| `ChapterDetector.Insert` | pdf_chapter_detector.py:213 | inserting into a strictly increasing sequence keeps it strictly increasing and adds exactly the element |
| `ChapterDetector.SortedSetOfIncreasing` | pdf_chapter_detector.py:213 | `sorted(set(xs))` of a strictly increasing sequence is the sequence itself, so the final sort and dedup changes nothing |
| `ChapterDetector.InsertAtEnd` | pdf_chapter_detector.py:213 | inserting an element above all others appends it |
| `ChapterDetector.SelectChapterBoundaries` | pdf_chapter_detector.py:162-215 | `_select_chapter_boundaries` computes the selection specification (greedy pass, back-fill, sort and dedup) |
| `ChapterDetector.SelectRaw` | pdf_chapter_detector.py:179-210 | before the sort and dedup, the greedy boundaries followed by the back-filled ones start at 0, stay in `[0, total)` and end with their largest element, which lies within `max` pages of the end (no order is claimed here: with `min <= 0` page 0 can be taken twice, which the sort and dedup remove) |
| `ChapterDetector.SelectWellFormed` | pdf_chapter_detector.py:162-215 | the selected boundaries start at 0, strictly increase, stay below the page count, the last lies within `max` pages of the end, and every one is 0, an accepted high-confidence page or a back-filled one |
| `ChapterDetector.SelectSizes` | pdf_chapter_detector.py:179-213 | with `1 <= min <= max`, every selected chapter has between `min` and `max` pages except the last, which has between 1 and `max` |
| `ChapterDetector.ConcatGaps` | pdf_chapter_detector.py:205-210 | greedy gaps within `[min, max]` followed by back-fill gaps of exactly `max` stay within `[min, max]` |
| `ChapterDetector.GapsIncreasing` | pdf_chapter_detector.py:195 | gaps of at least `min >= 1` make the boundaries strictly increasing |
| `ChapterDetector.GapsStep` | pdf_chapter_detector.py:195 | with such gaps an earlier boundary is below every later one |
| `ChapterDetector.FallbackWellFormed` | pdf_chapter_detector.py:217-225 | `_fallback_to_fixed_pages` gives boundaries that start at 0, strictly increase and stay below the page count |
| `ChapterDetector.FallbackGaps` | pdf_chapter_detector.py:220-223 | the fallback steps by exactly `(min + max) // 2` and ends within one step of the end |
| `ChapterDetector.MaxKey` | pdf_chapter_detector.py:70 | `max(page_texts.keys())` is a key and no key exceeds it |
| `ChapterDetector.MaxPageKey` | pdf_chapter_detector.py:70 | the loop computing the largest page key returns `MaxKey` |
| `ChapterDetector.DetectFromText` | pdf_chapter_detector.py:57-110 | `detect_from_text` is empty exactly for an empty mapping; otherwise its boundaries start at 0, strictly increase and stay below `max key + 1` |
| `ChapterDetector.DetectResultWellFormed` | pdf_chapter_detector.py:67-110 | the same well-formedness stated about the detection function |
| `ChapterDetector.DetectWellFormed` | pdf_chapter_detector.py:92-104 | both the fallback and the selection path give well-formed boundaries for any ordered candidate list |
| `ChapterDetector.AcceptedArePatternPages` | pdf_chapter_detector.py:77-129 | every boundary other than 0 and the back-filled ones is a page that has text of at least 10 stripped characters and a heading pattern in its first three lines, since only 0.8 passes the `> 0.7` filter |
| `ChapterDetector.ChapterLengthsBounded` | pdf_chapter_detector.py:57-110 | with `1 <= min <= max`, every detected chapter has between `min` and `max` pages except the last, which has between 1 and `max` |
| `ChapterDetector.SampleSelection` | pdf_chapter_detector.py:326-366 | on the nine-page sample of the module's own test the selection under the defaults (5, 50) is `[0, 6]` |
| `ChapterDetector.SampleHigh` | pdf_chapter_detector.py:185 | the sample's high-confidence pages are 0, 3 and 6 (the 0.7 front-matter page is filtered out) |
| `ChapterDetector.SampleGreedy` | pdf_chapter_detector.py:187-202 | the greedy pass over `[0, 3, 6]` keeps `[0, 6]` |
| `ChapterDetector.FirstLineTitle` | pdf_chapter_detector.py:262-267 | the chapter title is the first line of the start page's text, stripped and cut to 50 characters, or 未知章节 when the page has no text |
| `ChapterDetector.ChapterRecords` | pdf_chapter_detector.py:256-275 | record `i` is numbered `i + 1`, spans boundary `i` to the next boundary (the last to the page count), counts its pages and carries its start page's title |
| `ChapterDetector.RecordSpans` | pdf_chapter_detector.py:269-275 | the spans the records cover, one per record |
| `ChapterDetector.ChapterRecordsTile` | pdf_chapter_detector.py:256-277 | for well-formed boundaries the records tile the document: every page lies in exactly one chapter, chapters are numbered 1, 2, … in page order and each has at least one page |
| `ChapterDetector.BuildRecords` | pdf_chapter_detector.py:256-275 | the record loop of `analyze_document_structure` builds `ChapterRecords` |
| `ChapterDetector.AnalyzeDocumentStructure` | pdf_chapter_detector.py:227-279 | an error exactly for an empty mapping; otherwise the page count, the detected boundaries, their count, 'smart' exactly when more than one boundary, and chapter records that tile the document |
| `ChapterDetector.Detect` | pdf_chapter_detector.py:57-110 | what `detect_from_text` returns; DetectFromText, DetectResultWellFormed, ChapterLengthsBounded and AcceptedArePatternPages are about it |
| `ChapterDetector.SelectSpec` | pdf_chapter_detector.py:162-215 | what `_select_chapter_boundaries` returns; SelectWellFormed, SelectSizes, SampleSelection and SelectChapterBoundaries are about it |
| `ChapterDetector.PageScore` | pdf_chapter_detector.py:76-81 | the score of one page in `detect_from_text`; ScorePage and Scores are about it |
| `SplitterV1.NameAll` | src/pdf/pdf_chapter_splitter_v1.py:102-108 | chapter `k` (0-based) of a span list is written to `<out>/<stem>_chapter_<k+1:03d>.pdf` with that span |
| `SplitterV1.NameAllSnoc` | src/pdf/pdf_chapter_splitter_v1.py:196-204 | naming one more span appends one file numbered after the others |
| `SplitterV1.NameAllEq` | src/pdf/pdf_chapter_splitter_v1.py:102-108 | a file list that names each span in order is the named list |
| `SplitterV1.FixedSplit` | src/pdf/pdf_chapter_splitter_v1.py:85-91 | the spans of `split_pdf`: `(n + ppc - 1) // ppc` of them (none when the loop has no rounds), span `k` being `[k*ppc, min((k+1)*ppc, n))` |
| `SplitterV1.FixedSplitProperties` | src/pdf/pdf_chapter_splitter_v1.py:85-108 | with `ppc >= 1` and `n >= 1` pages: `ceil(n / ppc)` chapters, chapter `k` is `[k*ppc, min((k+1)*ppc, n))`, the chapters partition the pages in order and each has 1 to `ppc` pages |
| `SplitterV1.NamesDistinct` | src/pdf/pdf_chapter_splitter_v1.py:102-103 | the chapter file paths are pairwise distinct |
| `SplitterV1.NegativeSizeCount` | src/pdf/pdf_chapter_splitter_v1.py:85-91 | a negative chapter size gives no chapter for two or more pages, and one chapter file with an empty page range for a one-page PDF |
| `SplitterV1.CutFixed` | src/pdf/pdf_chapter_splitter_v1.py:89-108 | the chapter loop of `split_pdf` names exactly the fixed spans, in order |
| `SplitterV1.PDFSplitter.constructor` | src/pdf/pdf_chapter_splitter_v1.py:24-31 | keeps the chapter size |
| `SplitterV1.PDFSplitter.SplitPdf` | src/pdf/pdf_chapter_splitter_v1.py:34-121 | `split_pdf`: nothing for a missing file, a non-`.pdf` suffix (any case), an unreadable or zero-page PDF or a zero chapter size (the `ZeroDivisionError` is caught); otherwise the named fixed chapters |
| `SplitterV1.PDFSplitter.SplitPdfStreaming` | src/pdf/pdf_chapter_splitter_v1.py:123-216 | `split_pdf_streaming`: nothing for a missing file, an unreadable or zero-page PDF, a non-positive chunk size or a zero chapter size (no suffix check); otherwise the named streamed chapters |
| `SplitterV1.CutStream` | src/pdf/pdf_chapter_splitter_v1.py:158-204 | the chunk and chapter loops name exactly the streamed spans, numbered consecutively across chunks |
| `SplitterV1.RoundStart` | src/pdf/pdf_chapter_splitter_v1.py:178-185 | round `j` of a chunk starts before the chunk's end exactly for the `ceil(pages_in_chunk / ppc)` rounds the loop makes |
| `SplitterV1.ChunkIsFixed` | src/pdf/pdf_chapter_splitter_v1.py:180-185 | with a positive chapter size the `break` never fires and a chunk is cut into its fixed chapters |
| `SplitterV1.StreamFixedChunks` | src/pdf/pdf_chapter_splitter_v1.py:173-185 | the stream is each chunk's fixed chapters followed by the later chunks' |
| `SplitterV1.StreamCovers` | src/pdf/pdf_chapter_splitter_v1.py:173-204 | the streamed chapters from a page on cover the rest of the PDF in order, each with 1 to `ppc` pages |
| `SplitterV1.StreamPast` | src/pdf/pdf_chapter_splitter_v1.py:173 | no chunk starts at or past the page count |
| `SplitterV1.StreamChunkEdges` | src/pdf/pdf_chapter_splitter_v1.py:174-182 | no streamed chapter crosses a chunk edge |
| `SplitterV1.StreamNegative` | src/pdf/pdf_chapter_splitter_v1.py:178-185 | a negative chapter size streams no chapter |
| `SplitterV1.StreamingProperties` | src/pdf/pdf_chapter_splitter_v1.py:173-204 | with positive sizes the streamed chapters partition the PDF in order, each has 1 to `ppc` pages, and none crosses a chunk edge |
| `SplitterV1.StreamIsFixed` | src/pdf/pdf_chapter_splitter_v1.py:173-182 | when the chunk size is a multiple of the chapter size, streaming from a chunk start is the fixed split from there |
| `SplitterV1.StreamingMatchesFixed` | src/pdf/pdf_chapter_splitter_v1.py:85-204 | when the chunk size is a multiple of the chapter size, `split_pdf_streaming` cuts exactly the chapters `split_pdf` cuts |
| `SplitterV1.StreamingShortChapters` | src/pdf/pdf_chapter_splitter_v1.py:173-182 | otherwise the two differ: 10 pages in chapters of 3 and chunks of 5 stream as 3, 2, 3, 2 pages, where `split_pdf` cuts 3, 3, 3, 1 |
| `SplitterV1.FixedFromCovers` | src/pdf/pdf_chapter_splitter_v1.py:89-91 | fixed chapters from a page cover the rest in pieces of 1 to `ppc` pages |
| `SplitterV1.FixedFromAt` | src/pdf/pdf_chapter_splitter_v1.py:89-91 | fixed chapters from `c`: `ceil((n - c) / ppc)` of them, chapter `k` starting at `c + k*ppc` |
| `SplitterV1.FixedFromAppend` | src/pdf/pdf_chapter_splitter_v1.py:173-182 | fixed chapters of two adjacent ranges join into those of the whole when the first is a whole number of chapters long |
| `SplitterV1.StreamUnfold` | src/pdf/pdf_chapter_splitter_v1.py:173-180 | one chunk of the streaming loop is its rounds followed by the next chunks |
| `SplitterV1.ChunkAdvance` | src/pdf/pdf_chapter_splitter_v1.py:181-204 | a round that does not `break` moves its chapter from the remaining rounds to the chapters written |
| `SplitterV1.ChunkDone` | src/pdf/pdf_chapter_splitter_v1.py:180-185 | the chunk loop ends, by its range or by the `break`, with no chapter left in the chunk |
| `SplitterV1.CoversConcat` | src/pdf/pdf_chapter_splitter_v1.py:173-204 | covers of adjacent page ranges join |
| `SplitterV1.SameChunk` | src/pdf/pdf_chapter_splitter_v1.py:174 | pages of one chunk share a chunk number |
| `SplitterV2.TextStats` | src/pdf/pdf_chapter_splitter_v2.py:74-86 | over the sampled pages, the count of pages with more than 5 stripped characters (a page whose extraction raises is skipped) and their character total; the count never exceeds the sample and every counted page adds at least 6 characters |
| `SplitterV2.TextStatsStep` | src/pdf/pdf_chapter_splitter_v2.py:78-86 | one sampled page adds one text page and its stripped length exactly when it has more than 5 stripped characters |
| `SplitterV2.CountTextPages` | src/pdf/pdf_chapter_splitter_v2.py:74-86 | the sampling loop computes `TextStats` |
| `SplitterV2.ClassificationRules` | src/pdf/pdf_chapter_splitter_v2.py:88-149 | the simple type is 'text' exactly for a readable text PDF (ratio above 0.7 or average above 100, without rounding) and 'scanned' exactly for a readable non-text PDF the OCR analysis calls scanned, so without OCR every non-text PDF is 'unknown'; the detailed confidence is 'high' exactly for 'text' or 'scanned'; the detailed error report exactly for an unreadable PDF |
| `SplitterV2.TextExtremes` | src/pdf/pdf_chapter_splitter_v2.py:89-98 | a non-empty sample whose pages all have text is a text PDF; a sample without a text page is not |
| `SplitterV2.PDFSplitterV2.constructor` | src/pdf/pdf_chapter_splitter_v2.py:32-51 | keeps the chapter size; OCR is on exactly when asked for and the OCR module imports |
| `SplitterV2.PDFSplitterV2.DetectPdfType` | src/pdf/pdf_chapter_splitter_v2.py:53-149 | `detect_pdf_type` returns the classification of `TypeReportOf` |
| `SplitterV2.PDFSplitterV2.PageTextRules` | src/pdf/pdf_chapter_splitter_v2.py:151-199 | a page's text is "" or its stripped embedded text of more than 5 characters or, only with OCR on, the OCR text; without OCR any non-empty result has more than 5 characters; an unreadable PDF gives "" |
| `SplitterV2.PDFSplitterV2.ExtractPageText` | src/pdf/pdf_chapter_splitter_v2.py:151-199 | `extract_page_text` computes that page text |
| `SplitterV2.PDFSplitterV2.AnalyzeChapterBoundaries` | src/pdf/pdf_chapter_splitter_v2.py:201-232 | `range(0, n, pages_per_chapter)` for a readable PDF and positive size; nothing when reading fails, for size 0 (`range` raises) or a negative size |
| `SplitterV2.BelowPrefix` | src/pdf/pdf_chapter_splitter_v2.py:301-303 | the loop's `break` stops at the first boundary at or past the page count; all boundaries before it are below |
| `SplitterV2.BoundarySpans` | src/pdf/pdf_chapter_splitter_v2.py:301-305 | one chapter per boundary before the `break`, from the boundary to `min(start + ppc, n)` |
| `SplitterV2.CutAtBoundaries` | src/pdf/pdf_chapter_splitter_v2.py:301-322 | the chapter loop names exactly those spans, numbered by their index |
| `SplitterV2.PDFSplitterV2.SplitPdf` | src/pdf/pdf_chapter_splitter_v2.py:234-350 | `split_pdf`: nothing for a missing or non-`.pdf` input, an unreadable or zero-page PDF or a non-positive size; otherwise the chapters at `range(0, n, ppc)` whether or not smart splitting is asked for (both paths compute the same range) |
| `SplitterV2.SplitMatchesV1` | src/pdf/pdf_chapter_splitter_v2.py:289-322 | for a positive chapter size the version-2 split writes exactly the files and spans of the version-1 split |
| `SplitterV2.FixedSpans` | src/pdf/pdf_chapter_splitter_v2.py:296-305 | at the fixed boundaries the version-2 chapters are the version-1 spans |
| `SplitterV2.PDFSplitterV2.OcrTest` | src/pdf/pdf_chapter_splitter_v2.py:352-395 | false with OCR off; otherwise true exactly when some probed page (by default 0, 1 and 2) gave non-empty text |
| `SplitterV2.CountWithText` | src/pdf/pdf_chapter_splitter_v2.py:387 | the count of non-empty results is positive exactly when some result is non-empty |
| `SplitterFinal.DetectorWindow` | src/pdf/pdf_chapter_splitter_final.py:52-55 | the detector's window `[max(5, ppc // 2), min(50, ppc * 2)]` is non-empty exactly for chapter sizes 3 to 101 |
| `SplitterFinal.NoCandidateOutsideWindow` | src/pdf/pdf_chapter_splitter_final.py:52-55 | outside that range the detector accepts no candidate: only page 0 survives the greedy pass |
| `SplitterFinal.TextBeforeStep` | src/pdf/pdf_chapter_splitter_final.py:335-343 | one more sampled page is a text page or leaves the answer as it was |
| `SplitterFinal.PDFSplitterFinal.FindTextPage` | src/pdf/pdf_chapter_splitter_final.py:332-343 | the loop finds text exactly when one of the first `min(3, n)` pages has more than 10 stripped characters |
| `SplitterFinal.PDFSplitterFinal.DetectPdfType` | src/pdf/pdf_chapter_splitter_final.py:313-367 | `detect_pdf_type`: 'unknown' for an unreadable PDF, 'text' when text is found; otherwise with OCR and `detailed` 'scanned' exactly when the analysis gives a probability above 0.5 ('unknown' also when it raises), and 'scanned' in every other case |
| `SplitterFinal.SimpleClassification` | src/pdf/pdf_chapter_splitter_final.py:124 | the non-detailed classification `smart_process_pdf` asks for is 'unknown' exactly for an unreadable PDF, 'text' exactly when one of the first three pages has text, and 'scanned' for a zero-page PDF |
| `SplitterFinal.KeptStep` | src/pdf/pdf_chapter_splitter_final.py:223-230 | one more sampled page adds its entry exactly when it is kept |
| `SplitterFinal.SamplePages` | src/pdf/pdf_chapter_splitter_final.py:220-230 | `page_texts` maps each of the first `min(20, n)` pages with more than 5 stripped characters to its stripped text, and holds nothing else |
| `SplitterFinal.TitleShape` | src/pdf/pdf_chapter_splitter_final.py:259-269 | a chapter title is `第 i 章` or a 4-to-50-character prefix of the start page's stripped first line |
| `SplitterFinal.ChapterTitle` | src/pdf/pdf_chapter_splitter_final.py:259-269 | the title step computes that title |
| `SplitterFinal.ChapterDetails` | src/pdf/pdf_chapter_splitter_final.py:254-293 | one entry per boundary, entry `i` describing chapter `i` |
| `SplitterFinal.DetailSpans` | src/pdf/pdf_chapter_splitter_final.py:288-289 | the page spans of the entries, one per entry |
| `SplitterFinal.ChapterPaths` | src/pdf/pdf_chapter_splitter_final.py:279-285 | one output path per entry |
| `SplitterFinal.ChapterDetailsTile` | src/pdf/pdf_chapter_splitter_final.py:254-293 | for well-formed boundaries the chapters cover every page exactly once in order, are numbered 1, 2, …, start at their boundary, count their (at least one) pages and have pairwise distinct file names |
| `SplitterFinal.DetailNamesDistinct` | src/pdf/pdf_chapter_splitter_final.py:279 | the chapter file names are pairwise distinct |
| `SplitterFinal.DetailFacts` | src/pdf/pdf_chapter_splitter_final.py:286-293 | entry `i` is numbered `i + 1`, starts at boundary `i`, counts its pages and is named `<stem>_chapter_<i+1:03d>.pdf` |
| `SplitterFinal.DetailSpansAre` | src/pdf/pdf_chapter_splitter_final.py:255-256 | the entries' spans run from each boundary to the next, the last to the page count |
| `SplitterFinal.ChapterEntry` | src/pdf/pdf_chapter_splitter_final.py:255-293 | one round of the chapter loop produces chapter `i`'s entry and its path in the output directory |
| `SplitterFinal.BuildChapters` | src/pdf/pdf_chapter_splitter_final.py:251-293 | the chapter loop produces exactly the entries and their paths |
| `SplitterFinal.SplitReportProperties` | src/pdf/pdf_chapter_splitter_final.py:299-307 | for well-formed boundaries the report's chapters partition the pages in order, are numbered from 1 under distinct file names, and the chapter size is reported exactly for a fixed split |
| `SplitterFinal.FixedReportSpans` | src/pdf/pdf_chapter_splitter_final.py:245-247 | a fixed split has `ceil(n / ppc)` chapters, chapter `i` holding `[i*ppc, min((i+1)*ppc, n))` |
| `SplitterFinal.PDFSplitterFinal.constructor` | src/pdf/pdf_chapter_splitter_final.py:24-87 | the detector is available exactly when it imports; OCR stays on exactly when asked for, the OCR module imports and the processor reports itself available |
| `SplitterFinal.PDFSplitterFinal.ModeRules` | src/pdf/pdf_chapter_splitter_final.py:126-171 | the OCR processor runs exactly when OCR is available and the PDF is not 'text' or OCR is forced; without OCR the mode is always 'basic'; 'basic_fallback' exactly when OCR ran and failed |
| `SplitterFinal.PDFSplitterFinal.ChosenSplitWellFormed` | src/pdf/pdf_chapter_splitter_final.py:211-247 | the chosen boundaries of a non-empty PDF are well formed (the detector only sees sampled pages), and a fixed choice uses the fixed boundaries |
| `SplitterFinal.PDFSplitterFinal.BasicSplitProperties` | src/pdf/pdf_chapter_splitter_final.py:196-311 | the basic split fails exactly for an unreadable or zero-page PDF; otherwise its chapters partition the pages, are numbered from 1 under distinct names, the method is 'smart' exactly when the detector gave more than one boundary, a fixed split has `ceil(n / ppc)` chapters of `ppc` pages (the last shorter), and only a fixed split reports its chapter size |
| `SplitterFinal.PDFSplitterFinal.BasicSplit` | src/pdf/pdf_chapter_splitter_final.py:196-311 | `_basic_split_pdf` computes the basic split specification |
| `SplitterFinal.PDFSplitterFinal.SmartProcessPdf` | src/pdf/pdf_chapter_splitter_final.py:89-194 | 文件不存在 for a missing input, 不是PDF文件 for another suffix, and otherwise a result whose type is the simple classification, whose mode follows the mode rules, and which carries the basic split exactly when the mode is not 'ocr' |
| `BatchProcessor.KeptParts` | src/pdf/pdf_batch_processor.py:47 | the parts `Path` keeps are pieces of the text, never empty and never '.', and no more than the pieces |
| `BatchProcessor.ParsePath` | src/pdf/pdf_batch_processor.py:47 | `Path(s)`: anchored exactly when `s` starts with '/', with '/'-free, non-empty, non-'.' parts |
| `BatchProcessor.Child` | src/pdf/pdf_batch_processor.py:70 | `a / b`: an absolute `b` replaces `a`, a relative one extends its parts (partner: `RelativeToChild`) |
| `BatchProcessor.Str` | src/pdf/pdf_batch_processor.py:77-78 | `str(p)`: the anchor and the parts joined by '/', '.' for an empty relative path (partner: `StrParse`) |
| `BatchProcessor.Name` | src/pdf/pdf_batch_processor.py:68 | `p.name`: the last part, '' for a path without parts (used by `DirectoryRules` and `StemRelative`) |
| `BatchProcessor.RelativeTo` | src/pdf/pdf_batch_processor.py:127 | `relative_to` answers only when the base's parts open the path's under the same anchor, and what it answers, appended to the base, is the path again |
| `BatchProcessor.RelativeToChild` | src/pdf/pdf_batch_processor.py:93-127 | `relative_to` undoes `/` with a relative path: `(base / r).relative_to(base) == r` |
| `BatchProcessor.StrParse` | src/pdf/pdf_batch_processor.py:47-78 | `Path(str(p)) == p` for every path `Path` can build |
| `BatchProcessor.StrParseAbsolute` | src/pdf/pdf_batch_processor.py:47-78 | an absolute path with parts prints and parses back to its parts |
| `BatchProcessor.KeptPartsOfParts` | src/pdf/pdf_batch_processor.py:47 | parts that `Path` keeps are kept unchanged, also after a leading empty piece |
| `BatchProcessor.JoinStarts` | src/pdf/pdf_batch_processor.py:77-78 | a printed relative path starts with its first part's first character |
| `BatchProcessor.ChildWellFormed` | src/pdf/pdf_batch_processor.py:58 | `/` of two well-formed paths is well formed |
| `BatchProcessor.ParseOnePart` | src/pdf/pdf_batch_processor.py:47 | a single kept part parses to the relative path of that part |
| `BatchProcessor.ParseAbsoluteTwo` | src/pdf/pdf_batch_processor.py:47 | '/a/b' parses to the absolute path with parts `a` and `b` |
| `BatchProcessor.JoinTwo` | src/pdf/pdf_batch_processor.py:77-78 | two parts print with one '/' between them |
| `BatchProcessor.PdfGlob` | src/pdf/pdf_batch_processor.py:58 | `glob("*.pdf")` picks at most the directory's entries |
| `BatchProcessor.GlobIsCaseSensitive` | src/pdf/pdf_batch_processor.py:58 | the pattern is case-sensitive: a `.PDF` file is never picked up |
| `BatchProcessor.PdfPaths` | src/pdf/pdf_batch_processor.py:58 | one path `input_dir / name` per globbed PDF, in glob order, well formed when the input is |
| `BatchProcessor.FileOutputDir` | src/pdf/pdf_batch_processor.py:93 | `output_dir / pdf_file.stem` (used by `StepRules`, `InsideBase`, `ExampleFileOutputDir`) |
| `BatchProcessor.DoubleCounted` | src/pdf/pdf_batch_processor.py:119-143 | the splitter succeeded and `relative_to` then raised (characterised by `StepRules`) |
| `BatchProcessor.StepOf` | src/pdf/pdf_batch_processor.py:86-152 | one pass of the loop body as written, with the success counted before `relative_to` (its properties: `StepRules`) |
| `BatchProcessor.StepRules` | src/pdf/pdf_batch_processor.py:119-152 | every entry names `str(pdf_file)`; a file is counted once or twice; as a success exactly when the splitter succeeded; twice exactly when `relative_to` then raised; its entry is a success exactly when no failure was counted for it; a failure without an error message reads 未知错误 |
| `BatchProcessor.StepsOf` | src/pdf/pdf_batch_processor.py:86-152 | one step per PDF, in glob order, each the step of that file's outcome |
| `BatchProcessor.SuccessCount` | src/pdf/pdf_batch_processor.py:120 | `successful`: the sum of the steps' success increments (used by `CountsCover`) |
| `BatchProcessor.FailureCount` | src/pdf/pdf_batch_processor.py:131-143 | `failed`: the sum of the steps' failure increments (used by `CountsCover`, `NoFailures`) |
| `BatchProcessor.Entries` | src/pdf/pdf_batch_processor.py:128-152 | one `file_results` entry per step, in order |
| `BatchProcessor.CountsCover` | src/pdf/pdf_batch_processor.py:120-143 | when each step counts once or twice, the counters add up to at least the step count, and to exactly it when every step counts once |
| `BatchProcessor.NoFailures` | src/pdf/pdf_batch_processor.py:172 | no failure was counted exactly when no step counted one |
| `BatchProcessor.CountsStep` | src/pdf/pdf_batch_processor.py:120-143 | one more step adds its increments to the counters |
| `BatchProcessor.CountsOne` | src/pdf/pdf_batch_processor.py:120-143 | the counters and entries of a single step are that step's |
| `BatchProcessor.ProcessFiles` | src/pdf/pdf_batch_processor.py:86-152 | the per-file loop builds exactly the steps' entries and the two counters are the steps' sums |
| `BatchProcessor.ProcessOne` | src/pdf/pdf_batch_processor.py:93-152 | one round of the loop: the counters only grow, and its entry and increments are that file's `StepOf` |
| `BatchProcessor.ReportOf` | src/pdf/pdf_batch_processor.py:76-172 | the report of a run over given files (its properties: `ReportTallies`) |
| `BatchProcessor.ReportTallies` | src/pdf/pdf_batch_processor.py:76-172 | one entry per file, naming it; successes plus failures at least the file count, and equal to it exactly when no file was double counted; the batch succeeds exactly when no failure was counted, that is when every entry is a success |
| `BatchProcessor.StemRelative` | src/pdf/pdf_batch_processor.py:93 | a file's stem never starts with '/' |
| `BatchProcessor.InsideBase` | src/pdf/pdf_batch_processor.py:93-127 | under a relative sub-directory of the base `relative_to` never raises |
| `BatchProcessor.SubdirOf` | src/pdf/pdf_batch_processor.py:67-70 | the given sub-directory or the input directory's name, as a path (used by `DirectoryRules`) |
| `BatchProcessor.DirectorySpec` | src/pdf/pdf_batch_processor.py:35-173 | `process_directory` (its properties: `DirectoryRules`, `RelativeSubdirCountsOnce`, `AbsoluteSubdirDoubleCounts`) |
| `BatchProcessor.DirectoryRules` | src/pdf/pdf_batch_processor.py:35-173 | 目录不存在 exactly for a missing input, 不是目录 exactly for a non-directory, 没有PDF文件 exactly for a directory without `*.pdf` entries; otherwise every PDF is processed, and the report's `input_dir` and `output_dir` are the normal forms of the input and of `base / subdir` |
| `BatchProcessor.RelativeSubdirCountsOnce` | src/pdf/pdf_batch_processor.py:67-152 | with the default sub-directory or a relative one, successes and failures add up to the file count |
| `BatchProcessor.CurrentDirRecordsStem` | src/pdf/pdf_batch_processor.py:67-127 | for the input directory `.` the default sub-directory is empty, and a file's recorded output directory is its bare stem |
| `BatchProcessor.AbsoluteSubdirDoubleCounts` | src/pdf/pdf_batch_processor.py:119-152 | as written, base 'batch_output', sub-directory '/tmp/out' and one split file give one success, one failure, one failure entry with `relative_to`'s message and an unsuccessful batch |
| `BatchProcessor.ExampleDirectory` | src/pdf/pdf_batch_processor.py:47-70 | the example runs over the one file `in/a.pdf` into '/tmp/out' |
| `BatchProcessor.ExampleReport` | src/pdf/pdf_batch_processor.py:76-172 | the example's report has one entry, counted once as a success and once as a failure |
| `BatchProcessor.ExampleSteps` | src/pdf/pdf_batch_processor.py:86-152 | the example's only step counts the file twice |
| `BatchProcessor.ExampleStep` | src/pdf/pdf_batch_processor.py:119-152 | the example's file, split with success, gets a failure entry and both increments |
| `BatchProcessor.ExampleFileOutputDir` | src/pdf/pdf_batch_processor.py:93 | the example's file is written into '/tmp/out/a' |
| `BatchProcessor.ExampleOutputDir` | src/pdf/pdf_batch_processor.py:70-78 | '/tmp/out' parses to its two parts and prints back |
| `BatchProcessor.ExampleGlob` | src/pdf/pdf_batch_processor.py:58 | the example's directory yields the one path `in/a.pdf` |
| `BatchProcessor.OnePdfPath` | src/pdf/pdf_batch_processor.py:58 | a relative directory `dir` listing only the PDF `name` yields the one path `dir/name` |
| `BatchProcessor.IntendedStepOf` | src/pdf/pdf_batch_processor.py:119-152 | the loop body as intended: a file whose `relative_to` raised counts once, as a failure (its properties: `IntendedTallies`) |
| `BatchProcessor.IntendedStepsOf` | src/pdf/pdf_batch_processor.py:86-152 | one intended step per file, in order |
| `BatchProcessor.IntendedReportOf` | src/pdf/pdf_batch_processor.py:76-172 | the report as intended (its properties: `IntendedTallies`) |
| `BatchProcessor.IntendedTallies` | src/pdf/pdf_batch_processor.py:76-172 | as intended, the entries are those of the run as written, successes plus failures are exactly the file count, and the batch succeeds exactly when every entry is a success |
| `BatchProcessor.PDFBatchProcessor.constructor` | src/pdf/pdf_batch_processor.py:22-30 | keeps the base output directory |
| `BatchProcessor.PDFBatchProcessor.ProcessDirectory` | src/pdf/pdf_batch_processor.py:35-173 | `process_directory` computes the directory specification |
| `BatchProcessor.IsPdfFile` | src/pdf/pdf_batch_processor.py:195 | `Path(f).suffix.lower() == '.pdf'` on the path's name (used by `ValidFilesMembers`) |
| `BatchProcessor.ValidFiles` | src/pdf/pdf_batch_processor.py:192-198 | the valid files exist and end in `.pdf` in any case, and are no more than the listed ones |
| `BatchProcessor.ValidFilesMembers` | src/pdf/pdf_batch_processor.py:192-198 | a file is valid exactly when it is listed, exists and is a PDF |
| `BatchProcessor.InLastOrInit` | src/pdf/pdf_batch_processor.py:193 | an element of a non-empty list is its last one or one before |
| `BatchProcessor.PDFBatchProcessor.ProcessFileList` | src/pdf/pdf_batch_processor.py:175-216 | `process_file_list` as written: 文件列表为空 for an empty list, 没有有效的PDF文件 when no file is valid, otherwise the directory run over the fresh temporary directory |
| `BatchProcessor.FileListSpec` | src/pdf/pdf_batch_processor.py:175-216 | `process_file_list` as written (its properties: `FileListNeverProcesses`) |
| `BatchProcessor.FileListNeverProcesses` | src/pdf/pdf_batch_processor.py:206-216 | as written, a list holding a valid PDF always ends in 没有PDF文件: nothing is copied into the temporary directory, so no listed file is processed |
| `BatchProcessor.PathsOf` | src/pdf/pdf_batch_processor.py:194-196 | the valid files as `Path` values, in order |
| `BatchProcessor.FileListIntended` | src/pdf/pdf_batch_processor.py:210-216 | `process_file_list` as its comment intends (its properties: `FileListIntendedProcessesValid`) |
| `BatchProcessor.FileListIntendedProcessesValid` | src/pdf/pdf_batch_processor.py:210-216 | processed as the comment intends, the run succeeds with one entry for each valid file and for nothing else, each counted exactly once |
| `BatchProcessor.FileListIntendedCovers` | src/pdf/pdf_batch_processor.py:210-216 | the same, for a list whose valid files are not none |
| `BatchProcessor.FileListIntendedReport` | src/pdf/pdf_batch_processor.py:210-216 | with a valid file, the intended run gives the intended report over the valid files' paths |
| `BatchProcessor.IntendedCoversValid` | src/pdf/pdf_batch_processor.py:210-216 | the intended report over the valid files' paths counts each once and covers exactly the valid files |
| `BatchProcessor.ValidCovered` | src/pdf/pdf_batch_processor.py:211-213 | entries naming the valid files' paths, in order, cover exactly the valid files |
| `PdfFiles.RFind` | src/pdf/pdf_chapter_splitter_v1.py:46 | the last index holding the character, or -1 when there is none |
| `PdfFiles.FileName` | src/pdf/pdf_chapter_splitter_v1.py:46 | `Path.name` holds no '/' and ends the path |
| `PdfFiles.StemSuffix` | src/pdf/pdf_chapter_splitter_v1.py:54 | a name is its stem followed by its suffix; a non-empty suffix is a dot and at least one character after a non-empty stem |
| `PdfFiles.PdfNameIff` | src/pdf/pdf_chapter_splitter_v1.py:54 | `suffix.lower() == '.pdf'` exactly when the name has something before a final `.pdf` in any case |
| `PdfFiles.RFindAt` | src/pdf/pdf_chapter_splitter_v1.py:46 | an index holding the character with none after it is what `rfind` finds |
| `PdfFiles.FileNameJoin` | src/pdf/pdf_chapter_splitter_v1.py:103 | the name of `dir / name` is `name` when it holds no '/' |
| `PdfFiles.StemSuffixOf` | src/pdf/pdf_chapter_splitter_v1.py:102 | a non-empty stem and a dot-free extension split back into the two |
| `PdfFiles.ChapterFileNameParts` | src/pdf/pdf_chapter_splitter_v1.py:102 | a chapter file name has suffix `.pdf`, passes the PDF test, and its stem is the input's stem with `_chapter_` and the three-digit number |
| `PdfFiles.ChapterFileNamesDistinct` | src/pdf/pdf_chapter_splitter_v1.py:102 | different chapter numbers give different file names |
| `PdfFiles.Glob` | src/pdf/pdf_batch_processor.py:58 | `glob("*" + suffix)` keeps, in directory order, names ending in the suffix in that exact case |
| `PdfFiles.GlobMembers` | src/pdf/pdf_batch_processor.py:58 | a name is picked up exactly when it is listed and ends in the suffix |
| `OcrModule.PageTextRules` | src/pdf/pdf_ocr_module.py:68-144 | `extract_text_from_page` is non-empty only when OCR is available, the file exists, the page is below a readable page count (or the count is unreadable), rasterization gave an image and OCR succeeded; then, and always when all of these hold, it is the stripped OCR text of the first image; the text is always stripped |
| `OcrModule.PagesToProcess` | src/pdf/pdf_ocr_module.py:174-178 | every page processed exists |
| `OcrModule.InRange` | src/pdf/pdf_ocr_module.py:178 | the filter keeps only existing pages and never adds any |
| `OcrModule.InRangeMembers` | src/pdf/pdf_ocr_module.py:178 | a page is kept exactly when it is listed and below the page count |
| `OcrModule.PagesToProcessMembers` | src/pdf/pdf_ocr_module.py:174-178 | a page is processed exactly when it exists and, if a list is given, is listed; without a list the pages are 0..n-1 in order |
| `OcrModule.ResultsOfContents` | src/pdf/pdf_ocr_module.py:183-186 | the loop's dictionary has exactly the processed pages as keys, each mapped to that page's text |
| `OcrModule.ExtractProperties` | src/pdf/pdf_ocr_module.py:146-201 | with OCR available, the file present and a readable count, the result's keys are exactly the existing requested pages, each mapped to its `extract_text_from_page` text |
| `OcrModule.PDFOCR.constructor` | src/pdf/pdf_ocr_module.py:19-58 | keeps language and preprocessing switch and records one availability flag per library |
| `OcrModule.PDFOCR.ExtractTextFromPdf` | src/pdf/pdf_ocr_module.py:146-201 | the method computes the specification: `{}` when OCR is unavailable, the file is missing or the count is unreadable, otherwise the page dictionary |
| `OcrModule.SortInts` | src/pdf/pdf_ocr_module.py:376 | the pixels sorted, as `np.median` orders them: sorted, a permutation, same length |
| `OcrModule.InsertFacts` | src/pdf/pdf_ocr_module.py:376 | inserting into a sorted list keeps it sorted and adds exactly one element |
| `OcrModule.InsertBound` | src/pdf/pdf_ocr_module.py:376 | inserting keeps a lower bound shared by the list and the element |
| `OcrModule.PrependSorted` | src/pdf/pdf_ocr_module.py:376 | a first element no greater than the rest keeps the list sorted |
| `OcrModule.MedianCut` | src/pdf/pdf_ocr_module.py:376 | the elements up to the median do not exceed it, and those after the cut are at most half of the list |
| `OcrModule.BinaryPixels` | src/pdf/pdf_ocr_module.py:374-378 | binarization keeps the number of pixels |
| `OcrModule.PreprocessRules` | src/pdf/pdf_ocr_module.py:335-387 | identity when disabled or when grey conversion fails; otherwise grey, then median filter, equalization and binarization in turn, each failed stage falling back to the previous image |
| `OcrModule.Whites` | src/pdf/pdf_ocr_module.py:377 | no more white pixels than pixels |
| `OcrModule.Above` | src/pdf/pdf_ocr_module.py:377 | no more pixels above the threshold than pixels |
| `OcrModule.AboveConcat` | src/pdf/pdf_ocr_module.py:377 | the count above a threshold adds up over concatenation |
| `OcrModule.AboveInsert` | src/pdf/pdf_ocr_module.py:377 | inserting a pixel raises the count exactly when it is above the threshold |
| `OcrModule.AboveSort` | src/pdf/pdf_ocr_module.py:376-377 | sorting does not change the count above a threshold |
| `OcrModule.AboveNone` | src/pdf/pdf_ocr_module.py:377 | no pixel is above a threshold that bounds them all |
| `OcrModule.WhitesAbove` | src/pdf/pdf_ocr_module.py:377 | the white pixels after thresholding are exactly the pixels above the threshold |
| `OcrModule.BinaryHalf` | src/pdf/pdf_ocr_module.py:374-378 | every binarized pixel is 0 or 255, and at most half are white because white means strictly above the median |
| `OcrModule.PreprocessedPageTextRules` | src/pdf/pdf_ocr_module.py:389-446 | `extract_text_with_preprocessing` is stripped, and non-empty only when OCR is available, rasterization gave an image and OCR of the preprocessed first image succeeded, in which case it is that text stripped |
| `OcrModule.PreprocessedResultAgrees` | src/pdf/pdf_ocr_module.py:389-446 | the corrected variant that reports failure returns the same text, and reports failure exactly when rasterization or OCR raised |
| `OcrModule.PreprocessedPageResult` | src/pdf/pdf_ocr_module.py:389-446 | the page result with exceptions let through instead of swallowed; PreprocessedResultAgrees and OcrProcessor.RaisedFailureMarked are about it |
| `OcrProcessor.FailureMarker` | src/pdf/pdf_ocr_processor.py:150 | the failure marker is never empty |
| `OcrProcessor.PageBlock` | src/pdf/pdf_ocr_processor.py:147 | a page block is longer than the page text it carries |
| `OcrProcessor.PageEntryEmpty` | src/pdf/pdf_ocr_processor.py:143-150 | a page adds nothing to its chapter exactly when OCR returned "" for it |
| `OcrProcessor.ChapterTextSplit` | src/pdf/pdf_ocr_processor.py:142-150 | a chapter's text is the text of its first pages followed by that of the rest: pages appear in page order |
| `OcrProcessor.ChapterTextEmpty` | src/pdf/pdf_ocr_processor.py:142-150 | a chapter's text is empty exactly when every page of it gave "" |
| `OcrProcessor.PageTextKept` | src/pdf/pdf_ocr_processor.py:147 | a page with text contributes its block, under its 1-based number, right after the text of the pages before it |
| `OcrProcessor.SpanPages` | src/pdf/pdf_ocr_processor.py:131-132 | every page range a chapter reads starts at a page number or is empty |
| `OcrProcessor.ChapterBounds` | src/pdf/pdf_ocr_processor.py:131-132 | the chapter loop's start and end are those of the fixed-size splitter's chapter `k` |
| `OcrProcessor.AssembleChapterText` | src/pdf/pdf_ocr_processor.py:140-152 | the page loop builds exactly the chapter text |
| `OcrProcessor.CutChapter` | src/pdf/pdf_ocr_processor.py:130-183 | one round gives the chapter's text and, when its PDF was written, that PDF's path |
| `OcrProcessor.CutChapters` | src/pdf/pdf_ocr_processor.py:128-183 | the chapter loop gives one text per chapter and, in order, the paths of the PDFs that were written |
| `OcrProcessor.WrittenPaths` | src/pdf/pdf_ocr_processor.py:180 | no more PDF paths than chapters |
| `OcrProcessor.WrittenPathsAreWritten` | src/pdf/pdf_ocr_processor.py:174-180 | every listed PDF belongs to a chapter whose write succeeded |
| `OcrProcessor.WrittenPathsAll` | src/pdf/pdf_ocr_processor.py:165-183 | all chapter PDFs are listed exactly when every write succeeded |
| `OcrProcessor.ChapterTexts` | src/pdf/pdf_ocr_processor.py:152 | one text per chapter, the `k`-th being chapter `k`'s |
| `OcrProcessor.TextFiles` | src/pdf/pdf_ocr_processor.py:204-205 | one text-file path per chapter, numbered from 1 with three digits |
| `OcrProcessor.ChapterTextOfEmpty` | src/pdf/pdf_ocr_processor.py:131-150 | chapter `k`'s text is empty exactly when each page in its range gave "" |
| `OcrProcessor.SumLengths` | src/pdf/pdf_ocr_processor.py:192 | the generator sum is the total length |
| `OcrProcessor.TotalLengthBounds` | src/pdf/pdf_ocr_processor.py:192 | the total is at least each text's length and zero exactly when every text is empty |
| `OcrProcessor.OutcomeRules` | src/pdf/pdf_ocr_processor.py:50-234 | OCR功能不可用 exactly when OCR is unavailable, then 文件不存在, then a read failure; analysis only exactly when no output directory is given; a report exactly when, in addition, the chapter size is non-zero |
| `OcrProcessor.ReportProperties` | src/pdf/pdf_ocr_processor.py:123-230 | one text file per chapter; created chapters are the written PDFs and all are created exactly when every write succeeded; the character total is the sum of the chapter lengths and zero exactly when all are empty; with a positive size there are `ceil(n/ppc)` chapters of 1 to `ppc` pages tiling the document |
| `OcrProcessor.PDFOCRProcessor.constructor` | src/pdf/pdf_ocr_processor.py:22-44 | keeps the settings; OCR is available exactly when the module imports and reports itself available |
| `OcrProcessor.PDFOCRProcessor.ProcessScannedPdf` | src/pdf/pdf_ocr_processor.py:50-234 | `process_scanned_pdf` computes the specification whose rules are stated above |
| `OcrProcessor.SuccessCount` | src/pdf/pdf_ocr_processor.py:282-290 | no more successes than entries |
| `OcrProcessor.EntriesSnoc` | src/pdf/pdf_ocr_processor.py:260-303 | each file adds its own entry, and one success exactly when it succeeded |
| `OcrProcessor.EntriesOfEach` | src/pdf/pdf_ocr_processor.py:260-303 | one entry per file, the `i`-th being file `i`'s |
| `OcrProcessor.NoAnalysisInBatch` | src/pdf/pdf_ocr_processor.py:260-303 | a batch entry names its file, is never analysis-only, and succeeds exactly when OCR is available, the file exists, its page count is readable and the size is non-zero |
| `OcrProcessor.PDFOCRProcessor.BatchSpecEntries` | src/pdf/pdf_ocr_processor.py:260-303 | the batch has one entry per file, in order |
| `OcrProcessor.PDFOCRProcessor.ProcessEntry` | src/pdf/pdf_ocr_processor.py:261-303 | a missing file fails with 文件不存在; any other is processed into `output_base_dir / stem` |
| `OcrProcessor.PDFOCRProcessor.BatchProcess` | src/pdf/pdf_ocr_processor.py:236-317 | the entries are the specification's; total, entries and successful plus failed are all the file count; successful is the number of succeeding entries |
| `OcrProcessor.BlockIsNotMarker` | src/pdf/pdf_ocr_processor.py:147-150 | a page block is never the failure marker of the same page |
| `OcrProcessor.SwallowedFailureUnmarked` | src/pdf/pdf_ocr_processor.py:143-150 | as written, no page ever gets the failure marker, and a page whose rendering raised contributes nothing |
| `OcrProcessor.RaisedFailureMarked` | src/pdf/pdf_ocr_processor.py:143-150 | with failures let through, a page gets the marker exactly when rendering or OCR raised; every other page's entry is unchanged |
| `MarkdownTable.ReplaceCharConcat` | src/excel/xlsx2md.py:216 | `str.replace` of one character distributes over concatenation |
| `MarkdownTable.DelimsConcat` | src/excel/xlsx2md.py:216-219 | unescaped `\|` delimiters add up over concatenation, given the character before the second part |
| `MarkdownTable.EscapeCellSafe` | src/excel/xlsx2md.py:216 | an escaped cell holds no line break and no unescaped `\|`, so it stays one cell of one line |
| `MarkdownTable.CellText` | src/excel/xlsx2md.py:210-217 | what a row shows for a cell (empty for a missing value) is line-free and delimiter-free |
| `MarkdownTable.JoinDelims` | src/excel/xlsx2md.py:219 | joining `k` delimiter-free values with `" \| "` gives `k - 1` delimiters |
| `MarkdownTable.JoinNoBreak` | src/excel/xlsx2md.py:219 | joining line-free values gives a line-free text |
| `MarkdownTable.RowLineCells` | src/excel/xlsx2md.py:200 | a row line of `k` clean values has `k + 1` delimiters, i.e. exactly `k` cells, on one line |
| `MarkdownTable.SeparatorCells` | src/excel/xlsx2md.py:201 | the separator has one `---` cell per column, on one line |
| `MarkdownTable.DataLineCells` | src/excel/xlsx2md.py:206-220 | every data row renders as one line of one cell per column |
| `MarkdownTable.HeaderPipeSplitsColumn` | src/excel/xlsx2md.py:200 | column names are not escaped: a column named `a\|b` gives a header line of two cells |
| `MarkdownTable.TableLinesLayout` | src/excel/xlsx2md.py:186-222 | the lines of a non-empty table: title lines, header, separator with one cell per column, one line of one cell per column for each row in order, a final empty line |
| `MarkdownTable.PageMarkLine` | src/excel/xlsx2md.py:192-197 | the page mark is the second line exactly when a sheet name is given and there are several pages |
| `MarkdownTable.PageMark` | src/excel/xlsx2md.py:196 | the page mark is a non-empty italic marker |
| `MarkdownTable.TableLinesNoBreak` | src/excel/xlsx2md.py:186-222 | with line-free sheet and column names, no line holds a line break |
| `MarkdownTable.TableLayout` | src/excel/xlsx2md.py:167-223 | splitting the joined markdown at line breaks gives back exactly the line layout above, page mark included |
| `MarkdownTable.PageSpan` | src/excel/xlsx2md.py:248-250 | a page's row range lies within the table |
| `MarkdownTable.PageOf` | src/excel/xlsx2md.py:250 | a page keeps the columns and takes the rows of its range |
| `MarkdownTable.PagesCover` | src/excel/xlsx2md.py:245-255 | the first `j` pages together are the first `min(j*m, n)` rows, in order |
| `MarkdownTable.PageStart` | src/excel/xlsx2md.py:248-250 | each of the `ceil(n/m)` pages starts inside the rows and ends where the pages so far end |
| `MarkdownTable.AllPagesCover` | src/excel/xlsx2md.py:245-255 | all pages together are the table's rows, each page holding 1 to `m` rows |
| `MarkdownTable.RenderedPages` | src/excel/xlsx2md.py:247-255 | the page loop's list has one rendering per page, in order |
| `MarkdownTable.ProcessLargeDataframe` | src/excel/xlsx2md.py:225-257 | `process_large_dataframe` computes the pagination specification for any integer page size, with the page count `(rows + m - 1) // m` rounded as Python does |
| `MarkdownTable.PaginationProperties` | src/excel/xlsx2md.py:225-257 | an empty or short table is one page; a longer one is `ceil(rows/m)` pages, page `k` holding rows `[k*m, min((k+1)*m, rows))` marked `k+1` of the count, all rows once in order; paging by 0 rows raises; a negative size gives no page for two or more rows and one empty page for a single row |
| `ExcelConverter.GetEngineForFile` | src/excel/xlsx2md.py:53-69 | xlrd exactly for a `.xls` file (any case) when xlrd imports; openpyxl in every other case |
| `ExcelConverter.EnginesToTry` | src/excel/xlsx2md.py:84-92 | both engines, each once; xlrd first exactly for `.xls` |
| `ExcelConverter.SheetsOf` | src/excel/xlsx2md.py:102-131 | one sheet per sheet name, in order, each the frame the reads gave (an empty one when both reads failed) |
| `ExcelConverter.ReadRules` | src/excel/xlsx2md.py:94-146 | the first engine's sheets when it opens the workbook, the second's only when the first fails, nothing when both fail |
| `ExcelConverter.ExcelToMarkdownConverter.constructor` | src/excel/xlsx2md.py:38-47 | keeps chunk size and page size, any integer, a negative or zero page size included |
| `ExcelConverter.ExcelToMarkdownConverter.ReadExcelFile` | src/excel/xlsx2md.py:71-146 | `read_excel_file` computes the engine-order specification |
| `ExcelConverter.ExcelToMarkdownConverter.ReadSheets` | src/excel/xlsx2md.py:102-131 | the sheet loop builds exactly the sheets of the specification |
| `ExcelConverter.Take20` | src/excel/xlsx2md.py:312 | `lines[:20]` is a prefix of at most 20 lines |
| `ExcelConverter.CheckIfAlreadyConverted` | src/excel/xlsx2md.py:269-336 | the pattern and line loops compute the check's specification |
| `ExcelConverter.CheckNeedsOutput` | src/excel/xlsx2md.py:282-283 | the check never fires without an output file |
| `ExcelConverter.CheckFindsTitle` | src/excel/xlsx2md.py:293-306 | a document opening with this converter's title for a file is taken for a conversion of that file |
| `ExcelConverter.SummaryOf` | src/excel/xlsx2md.py:399-412 | `total_sheets` is the sheet count and there is one info entry per sheet, in order |
| `ExcelConverter.DocumentStartsWithTitle` | src/excel/xlsx2md.py:367-419 | every written document starts with the title naming its input |
| `ExcelConverter.ExcelToMarkdownConverter.ConvertSingleFile` | src/excel/xlsx2md.py:338-428 | `convert_single_file` computes the conversion specification |
| `ExcelConverter.BuildSections` | src/excel/xlsx2md.py:383-394 | the sheet loop's sections, stopping at the first sheet whose paging raises |
| `ExcelConverter.SectionsErr` | src/excel/xlsx2md.py:383-394 | once one sheet's paging raises, the whole conversion fails with that error |
| `ExcelConverter.ConvertIsIdempotent` | src/excel/xlsx2md.py:355-358 | converting again, without force, a file this converter has written is skipped and writes nothing |
| `ExcelConverter.CheckMatchesNamePrefix` | src/excel/xlsx2md.py:293-306 | as written, the title of a conversion of `data.xlsx` is taken for a conversion of `data.xls` |
| `ExcelConverter.CheckIntendedExact` | src/excel/xlsx2md.py:293-306 | an exact-line check still recognises the converter's own output and never a differently named file's title |
| `ExcelConverter.ExcelFilesMembers` | src/excel/xlsx2md.py:448-451 | a name is picked up exactly when listed and ending in one of the four extensions in that exact case |
| `ExcelConverter.CheckSpec` | src/excel/xlsx2md.py:269-336 | `check_if_already_converted`; CheckNeedsOutput, CheckFindsTitle, CheckMatchesNamePrefix and ExcelToMarkdownConverter.CheckIfAlreadyConverted are about it |
| `ExcelConverter.ConvertSpec` | src/excel/xlsx2md.py:338-428 | `convert_single_file`; ConvertIsIdempotent and ExcelToMarkdownConverter.ConvertSingleFile are about it |
| `ExcelConverter.DocumentSpec` | src/excel/xlsx2md.py:367-419 | the document `convert_single_file` writes; DocumentStartsWithTitle and CheckIntendedExact are about it |
| `ExcelConverter.CheckIntended` | src/excel/xlsx2md.py:293-306 | the check matching the exact title line; CheckIntendedExact is about it |
| `ExcelConverter.JsonFenceBlock` | src/excel/xlsx2md.py:322 | `group(1)` of the DOTALL search for a ```` ```json ```` block; FencedBlock and ExcelImproved.GeneratedSummaryBlock are about it |
| `ExcelConverter.SummaryName` | src/excel/xlsx2md.py:318-328 | the `file_name` the summary block names; ExcelImproved.GeneratedSummaryBlock and ExcelImproved.SkipIntended are about it |
| `ExcelConverter.SpaceEnd` | src/excel/xlsx2md.py:322 | a greedy `\s*` from `i` ends at the first non-whitespace character or the end, and takes only whitespace |
| `ExcelConverter.GroupEnd` | src/excel/xlsx2md.py:322 | the lazy `(.*?)` ends at the first position from which the closing `\s*` reaches three backticks; none before it does, and there is no end when none does |
| `ExcelConverter.FencedChars` | src/excel/xlsx2md.py:322 | a text followed by a line break, "```json", a line break, `d`, a line break and "```" has those characters at those offsets |
| `ExcelConverter.FencedOpenings` | src/excel/xlsx2md.py:322 | when the text before it has no "```json" and `d` has no "```", the block's own opening is the only "```json" |
| `ExcelConverter.SpaceEndOne` | src/excel/xlsx2md.py:322 | a whitespace run of one character ends right after it |
| `ExcelConverter.FencedNoCloseInside` | src/excel/xlsx2md.py:322 | from no position inside such a `d` does `\s*` reach three backticks |
| `ExcelConverter.FencedOpen` | src/excel/xlsx2md.py:322 | the opening `\s*` takes just the line break after "```json" |
| `ExcelConverter.FencedCloses` | src/excel/xlsx2md.py:322 | from the end of `d` the closing `\s*` reaches the closing fence |
| `ExcelConverter.FencedGroup` | src/excel/xlsx2md.py:322 | the lazy group starting at `d` ends exactly where `d` ends |
| `ExcelConverter.FencedSlice` | src/excel/xlsx2md.py:322 | the text between the fences is `d` |
| `ExcelConverter.SearchSkips` | src/excel/xlsx2md.py:322 | the search gives the same result from any earlier start with no "```json" in between |
| `ExcelConverter.FencedBlock` | src/excel/xlsx2md.py:322 | a text with no "```json" before the block and a JSON `d` that starts and ends with a non-blank and holds no "```" has exactly one opening fence, and the search gives back `d` |
| `RootExcelConverter.RootReadSpec` | xlsx2md.py:35-64 | all sheets in order when the workbook and every sheet read; nothing at all when the workbook or any one sheet fails |
| `RootExcelConverter.RootSummaryOf` | xlsx2md.py:224-234 | names the file, counts the sheets and has one info entry per sheet, in order |
| `RootExcelConverter.RootSummaryIsSummaryWithoutHash` | xlsx2md.py:224-234 | the summary is the later converter's without hash and time |
| `RootExcelConverter.RootConvertRules` | xlsx2md.py:177-248 | an unreadable or empty workbook fails without writing; success means a document was written, and it starts with the title naming the input |
| `RootExcelConverter.RootExcelFilesMembers` | xlsx2md.py:267 | a name is converted exactly when listed and ending in `.xlsx` or `.xls`; `.xlsm` and `.xlsb` are never picked up |
| `RootExcelConverter.RootExcelToMarkdownConverter.constructor` | xlsx2md.py:24-33 | keeps chunk size and page size, any integer, a negative or zero page size included |
| `RootExcelConverter.RootExcelToMarkdownConverter.ReadExcelFile` | xlsx2md.py:35-64 | `read_excel_file` computes the all-or-nothing specification |
| `RootExcelConverter.RootExcelToMarkdownConverter.ConvertSingleFile` | xlsx2md.py:177-248 | `convert_single_file` computes the conversion specification |
| `RootExcelConverter.RootExcelToMarkdownConverter.ConvertDirectory` | xlsx2md.py:250-281 | one result per selected file, in glob order, each that file's conversion outcome |
| `ExcelImproved.EscapePipesSafe` | src/excel/xlsx2md_improved.py:374 | escaping pipes leaves no unescaped `\|` and adds no line break |
| `ExcelImproved.SimpleLayout` | src/excel/xlsx2md_improved.py:344-378 | a line-free non-empty table renders as its header, a separator with one `---` per column, and one line of one cell per column for each row, in order |
| `ExcelImproved.SimpleMarkdownNotEmpty` | src/excel/xlsx2md_improved.py:344-378 | a non-empty table never renders as the empty-table marker |
| `ExcelImproved.BrokenCellText` | src/excel/xlsx2md_improved.py:365-375 | the one-column table whose cell is `x` line-break `y` renders with the line break kept inside the row |
| `ExcelImproved.NewlineCellBreaksRow` | src/excel/xlsx2md_improved.py:365-375 | as written, that table comes out as four lines, the third (`\| x`) not a row of one cell |
| `ExcelImproved.IntendedLayout` | src/excel/xlsx2md_improved.py:365-375 | with line breaks escaped too, every row of any table is one line of one cell per column |
| `ExcelImproved.PageBlocks` | src/excel/xlsx2md_improved.py:332-340 | four lines per page |
| `ExcelImproved.PageTitleAt` | src/excel/xlsx2md_improved.py:333-337 | page `p` is titled with its 1-based number and rows `p*m + 1` to `min((p+1)*m, rows)` |
| `ExcelImproved.PagedTitles` | src/excel/xlsx2md_improved.py:319-342 | for a positive page size `m`, a table longer than `m` rows becomes `ceil(rows/m)` pages, each titled with its number and range, holding 1 to `m` rows and a table, all rows once in order |
| `ExcelImproved.ExcelToMarkdownConverter.DfToMarkdownSimple` | src/excel/xlsx2md_improved.py:344-378 | `_df_to_markdown_simple` computes the simple rendering |
| `ExcelImproved.ExcelToMarkdownConverter.DataframeToMarkdown` | src/excel/xlsx2md_improved.py:319-342 | `_dataframe_to_markdown` computes the paged rendering for any integer page size: a zero size with more rows than it raises, and a negative one pages with `(rows + m - 1) // m` as Python rounds it |
| `ExcelImproved.SheetLinesRules` | src/excel/xlsx2md_improved.py:286-305 | a sheet section starts with its heading and statistics; the column list is there exactly for at most 20 columns, the table exactly for a non-empty sheet; it ends with an empty line |
| `ExcelImproved.SheetBlocksErr` | src/excel/xlsx2md_improved.py:286-305 | once a sheet's section fails, the document fails with that error |
| `ExcelImproved.SheetBlocksStep` | src/excel/xlsx2md_improved.py:286-305 | each further sheet appends its section |
| `ExcelImproved.SheetBlocksFail` | src/excel/xlsx2md_improved.py:286-305 | a failing sheet ends the document with its error |
| `ExcelImproved.ExcelToMarkdownConverter.SheetSection` | src/excel/xlsx2md_improved.py:287-305 | one round of the sheet loop gives that sheet's section |
| `ExcelImproved.ExcelToMarkdownConverter.SheetSections` | src/excel/xlsx2md_improved.py:284-307 | the sheet loop gives the sections of every sheet, in order |
| `ExcelImproved.TotalsConcat` | src/excel/xlsx2md_improved.py:275-276 | the row and column totals add up over any split of the sheets |
| `ExcelImproved.TotalsBound` | src/excel/xlsx2md_improved.py:275-276 | every sheet's rows and columns are within the totals |
| `ExcelImproved.CreateSummary` | src/excel/xlsx2md_improved.py:380-402 | names the file, counts the sheets, carries the row and column totals and one info entry per sheet, in order |
| `ExcelImproved.ExcelToMarkdownConverter.GenerateMarkdown` | src/excel/xlsx2md_improved.py:253-317 | `_generate_markdown` computes the document specification |
| `ExcelImproved.SheetsOrEmpty` | src/excel/xlsx2md_improved.py:140-159 | one sheet per sheet name, in order; a sheet that fails to read is an empty table |
| `ExcelImproved.ImprovedReadRules` | src/excel/xlsx2md_improved.py:117-171 | reading raises exactly when neither engine opens the workbook; otherwise it gives every sheet of the first engine that does |
| `ExcelImproved.ExcelToMarkdownConverter.ReadExcelFile` | src/excel/xlsx2md_improved.py:117-171 | `read_excel_file` computes the read specification |
| `ExcelImproved.ExcelToMarkdownConverter.ReadSheets` | src/excel/xlsx2md_improved.py:140-159 | the sheet loop builds exactly those sheets |
| `ExcelImproved.ImprovedConvertRules` | src/excel/xlsx2md_improved.py:204-251 | a missing input, an unreadable workbook, a paging error or a failed write answers false; any true answer not due to skipping comes with the written document |
| `ExcelImproved.ExcelToMarkdownConverter.ConvertSingleFile` | src/excel/xlsx2md_improved.py:204-251 | `convert_single_file` as written computes the conversion specification |
| `ExcelImproved.ForceIsIgnored` | src/excel/xlsx2md_improved.py:184-202 | as written the skip check never fires, so `force` makes no difference |
| `ExcelImproved.SkipIntended` | src/excel/xlsx2md_improved.py:184-202 | as intended, an output is skipped exactly when it exists, can be read and its ```` ```json ```` block names the input |
| `ExcelImproved.IntendedSkipsOwnOutput` | src/excel/xlsx2md_improved.py:217-226 | with the intended check, converting again over this converter's own output is skipped unless forced; proved from the block search run on the generated document (GeneratedSummaryBlock), given only that the workbook's names and cells hold no backtick fence and the JSON library reads back what it wrote |
| `ExcelImproved.ProgressTracker.constructor` | src/excel/xlsx2md_improved.py:69-72 | starts at zero with the given total and description |
| `ExcelImproved.ProgressTracker.Update` | src/excel/xlsx2md_improved.py:74-76 | advances the count by the increment and changes nothing else |
| `ExcelImproved.ExcelToMarkdownConverter.constructor` | src/excel/xlsx2md_improved.py:89-99 | keeps chunk size and page size, any integer, a negative or zero page size included |
| `ExcelImproved.ImprovedConvertSpec` | src/excel/xlsx2md_improved.py:204-251 | `convert_single_file` with the skip check as written or as intended; ImprovedConvertRules, ForceIsIgnored, IntendedSkipsOwnOutput and ExcelToMarkdownConverter.ConvertSingleFile are about it |
| `ExcelImproved.GenerateSpec` | src/excel/xlsx2md_improved.py:253-317 | `_generate_markdown`; GeneratedSummaryBlock and ExcelToMarkdownConverter.GenerateMarkdown are about it |
| `ExcelImproved.ShouldSkipConversion` | src/excel/xlsx2md_improved.py:173-202 | `should_skip_conversion` as written; ForceIsIgnored is about it |
| `ExcelImproved.IntendedMarkdown` | src/excel/xlsx2md_improved.py:365-375 | the table with line breaks escaped too; IntendedLayout is about it |
| `ExcelImproved.GeneratedSummaryBlock` | src/excel/xlsx2md_improved.py:308-317 | when no backtick fence comes from the workbook's names or cells, a generated document has exactly one "```json", the summary's; the block search gives back the summary's JSON, and the JSON library reads from it the input's file name |
| `ExcelImproved.NegativePageSize` | src/excel/xlsx2md_improved.py:319-342 | a negative page size renders a table of two or more rows as nothing, and a one-row table as one page titled `1-m` that shows the empty-table marker |
| `MarkdownMerge.InsertByName` | src/markdown/merge_markdown.py:47 | one insertion step of the stable sort adds exactly the file |
| `MarkdownMerge.SortByName` | src/markdown/merge_markdown.py:47 | sorting keeps exactly the same files |
| `MarkdownMerge.InsertKeepsSorted` | src/markdown/merge_markdown.py:47 | inserting into a list ordered by lower-cased name keeps it ordered |
| `MarkdownMerge.SortedCons` | src/markdown/merge_markdown.py:47 | a name no later than the head of an ordered list keeps it ordered when put in front |
| `MarkdownMerge.SortByNameSorted` | src/markdown/merge_markdown.py:47 | the files come out ordered by lower-cased name and are a permutation of those found |
| `MarkdownMerge.SortByNameStable` | src/markdown/merge_markdown.py:47 | the sort is stable, as `list.sort` is: for every lower-cased name, the files with that name (`A.md` and `a.md`) come out in the order the glob found them |
| `MarkdownMerge.InsertWithKey` | src/markdown/merge_markdown.py:47 | inserting into an ordered list puts the new file after every file whose lower-cased name equals its own |
| `MarkdownMerge.InsertInFront` | src/markdown/merge_markdown.py:47 | a file inserted in front of an ordered list whose first name is above its own has no file of its name before it |
| `MarkdownMerge.InsertBehind` | src/markdown/merge_markdown.py:47 | a file inserted behind the head keeps its place among the files of its name when it does so in the rest |
| `MarkdownMerge.NoKeyBelowFirst` | src/markdown/merge_markdown.py:47 | an ordered list whose first name is above a name holds no file of that name |
| `MarkdownMerge.WithKeyConcat` | src/markdown/merge_markdown.py:47 | the files of one name in a concatenation are those of the first part followed by those of the second |
| `MarkdownMerge.RegularFiles` | src/markdown/merge_markdown.py:37-44 | a file is kept exactly when the glob found it and it is a regular file |
| `MarkdownMerge.NoRegularFiles` | src/markdown/merge_markdown.py:37-44 | without a regular file among the glob's results nothing is kept |
| `MarkdownMerge.MarkdownMerger.FindMarkdownFiles` | src/markdown/merge_markdown.py:22-49 | `find_markdown_files` gives the regular files sorted by lower-cased name |
| `MarkdownMerge.RemoveSpecial` | src/markdown/merge_markdown.py:133 | removing `[^\w\s-]` leaves only word characters (letters and digits of any script and `_`, none of the punctuation, symbol, emoji and mark blocks listed by IsNonWordSymbol), whitespace and `-`, and adds no capital |
| `MarkdownMerge.RemoveSpecialConcat` | src/markdown/merge_markdown.py:133 | removing special characters works character by character: it distributes over concatenation |
| `MarkdownMerge.RemoveSpecialPlain` | src/markdown/merge_markdown.py:133 | a text of lower-case word characters other than `_` passes unchanged |
| `MarkdownMerge.NonWordNotKept` | src/markdown/merge_markdown.py:133 | a listed punctuation, symbol or emoji character beyond ASCII that is not whitespace is matched by `[^\w\s-]` |
| `MarkdownMerge.SymbolRemoved` | src/markdown/merge_markdown.py:133 | a character `[^\w\s-]` matches is removed |
| `MarkdownMerge.RemoveSpecialThree` | src/markdown/merge_markdown.py:133 | removing special characters from three pieces in a row removes them from each piece |
| `MarkdownMerge.RemovedBetween` | src/markdown/merge_markdown.py:133 | a piece that is removed entirely between two pieces that are kept whole leaves just those two pieces |
| `MarkdownMerge.InnerSymbolRemoved` | src/markdown/merge_markdown.py:133 | such a character between two plain words is removed and the words kept |
| `MarkdownMerge.LeadingSymbolRemoved` | src/markdown/merge_markdown.py:133 | such a character before a space and a plain word is removed, the space and word kept |
| `MarkdownMerge.CollapsePlain` | src/markdown/merge_markdown.py:134 | a non-empty plain word is left as it is by the run collapse |
| `MarkdownMerge.CollapseLeadingSpace` | src/markdown/merge_markdown.py:134 | a space before a plain word becomes one `-` |
| `MarkdownMerge.StripUndashed` | src/markdown/merge_markdown.py:135 | `strip('-')` keeps a text that neither starts nor ends with `-` and removes one `-` put before it |
| `MarkdownMerge.LowerAfter` | src/markdown/merge_markdown.py:132 | lower-casing leaves a non-capital and a space in front unchanged |
| `MarkdownMerge.LowerWordPlain` | src/markdown/merge_markdown.py:132-133 | lower-cased word characters other than `_` pass through the slug unchanged |
| `MarkdownMerge.PlainNoDash` | src/markdown/merge_markdown.py:135 | a non-empty plain word neither starts nor ends with `-` |
| `MarkdownMerge.SlugDropsSymbol` | src/markdown/merge_markdown.py:121-136 | two plain words with a punctuation or symbol character between them slug to the two words run together |
| `MarkdownMerge.SlugDropsLeadingSymbol` | src/markdown/merge_markdown.py:121-136 | a symbol and a space before a word are dropped, leaving the lower-cased word |
| `MarkdownMerge.SlugOfChineseHeading` | src/markdown/merge_markdown.py:121-136 | `第一章：概述` has the anchor `第一章概述` (the full-width colon is removed) |
| `MarkdownMerge.SlugOfPriceHeading` | src/markdown/merge_markdown.py:121-136 | `价格€` has the anchor `价格` (the currency sign is removed) |
| `MarkdownMerge.SlugOfEmojiHeading` | src/markdown/merge_markdown.py:121-136 | `📄 Guide` has the anchor `guide` (the emoji and its space are dropped) |
| `MarkdownMerge.Collapse` | src/markdown/merge_markdown.py:134 | every run of whitespace, `_` and `-` becomes one `-`: no `--` remains, and cleaned lower-case input gives slug characters only |
| `MarkdownMerge.LeadingDashes` | src/markdown/merge_markdown.py:135 | the count of leading `-` |
| `MarkdownMerge.TrailingDashEnd` | src/markdown/merge_markdown.py:135 | the end of the text before its trailing `-` |
| `MarkdownMerge.TrailingDashPast` | src/markdown/merge_markdown.py:135 | a character other than `-` lies before that end |
| `MarkdownMerge.StripDashes` | src/markdown/merge_markdown.py:135 | `strip('-')` neither starts nor ends with `-` |
| `MarkdownMerge.StripKeepsSlug` | src/markdown/merge_markdown.py:135 | stripping dashes keeps a text of slug characters without `--` in slug shape |
| `MarkdownMerge.SlugShape` | src/markdown/merge_markdown.py:121-136 | a slug holds no whitespace, `_`, capital or `--`, and neither starts nor ends with `-` |
| `MarkdownMerge.CollapseKeepsSlug` | src/markdown/merge_markdown.py:134 | collapsing leaves a slug-shaped text unchanged |
| `MarkdownMerge.RemoveSpecialKeeps` | src/markdown/merge_markdown.py:133 | removing special characters leaves slug characters (lower-case letters and digits of any script, and `-`) unchanged |
| `MarkdownMerge.SlugifyIdempotent` | src/markdown/merge_markdown.py:121-136 | slugifying a slug changes nothing |
| `MarkdownMerge.SpaceRunEnd` | src/markdown/merge_markdown.py:66 | where the `\s+` run starting at an index ends |
| `MarkdownMerge.LineEnd` | src/markdown/merge_markdown.py:66 | where the line holding an index ends (`$` in multi-line mode) |
| `MarkdownMerge.LineEndAt` | src/markdown/merge_markdown.py:66 | a line break with none before it on the line is where the line ends |
| `MarkdownMerge.HashRun` | src/markdown/merge_markdown.py:80 | the run of `#` marks starting at an index stays in the text |
| `MarkdownMerge.FirstLineTitle` | src/markdown/merge_markdown.py:76-82 | a first-line title is non-empty and at most 100 characters |
| `MarkdownMerge.HeadingLineGivesTitle` | src/markdown/merge_markdown.py:65-68 | a file opening with a level-one heading is titled by its stripped text |
| `MarkdownMerge.LevelOneBeatsEarlierLevelTwo` | src/markdown/merge_markdown.py:65-73 | a level-one heading anywhere beats an earlier level-two one |
| `MarkdownMerge.TitleFallbacks` | src/markdown/merge_markdown.py:84-89 | blank text falls back to the file name; an unreadable file is titled by its bare stem |
| `MarkdownMerge.NoHeadingInBlank` | src/markdown/merge_markdown.py:66-71 | a blank text has no heading of any level |
| `MarkdownMerge.TocPieces` | src/markdown/merge_markdown.py:107-116 | two lines per entry |
| `MarkdownMerge.TocEntriesInOrder` | src/markdown/merge_markdown.py:107-116 | entry `k` is numbered `k + 1`, links to the slug of its title (the listed punctuation, symbols and emoji removed) and is followed by its path line |
| `MarkdownMerge.TocPiecesStep` | src/markdown/merge_markdown.py:107-116 | each entry's lines follow those of the entries before it |
| `MarkdownMerge.TocLinesStep` | src/markdown/merge_markdown.py:105-116 | the same behind the heading line |
| `MarkdownMerge.MarkdownMerger.GenerateTableOfContents` | src/markdown/merge_markdown.py:91-119 | `generate_table_of_contents` computes the table of contents: the empty-list text for no files, else heading, entries and rule |
| `MarkdownMerge.TitlesOf` | src/markdown/merge_markdown.py:112 | one title per file, each that file's |
| `MarkdownMerge.TocOf` | src/markdown/merge_markdown.py:107-116 | one entry per file |
| `MarkdownMerge.StatOf` | src/markdown/merge_markdown.py:239-248 | a file's record names it, carries its 1-based order, size and `count('\n') + 1` lines |
| `MarkdownMerge.MergeStep` | src/markdown/merge_markdown.py:199-259 | a readable file adds its record, lines and size; an unreadable one changes nothing |
| `MarkdownMerge.MergeTotals` | src/markdown/merge_markdown.py:250-251 | the totals are the sums over the records |
| `MarkdownMerge.MergeRecordsNamed` | src/markdown/merge_markdown.py:239-249 | each record names a readable file |
| `MarkdownMerge.MergeRecords` | src/markdown/merge_markdown.py:196-249 | the records are in merge order, and a file has the last record exactly when it could be read |
| `MarkdownMerge.FilePiecesShape` | src/markdown/merge_markdown.py:215-232 | with separators on, the rule precedes exactly the files after the first; each file's text ends with a line break |
| `MarkdownMerge.JoinEndsWithLast` | src/markdown/merge_markdown.py:228-232 | a concatenation ends with its last piece |
| `MarkdownMerge.StatsOfFacts` | src/markdown/merge_markdown.py:173-251 | `file_count` is the file count, the totals are the sums over the records, and the records are the readable files in merge order |
| `MarkdownMerge.MergeRules` | src/markdown/merge_markdown.py:138-300 | a merge needs an existing directory and a successful write; `file_count` counts the files found, sorted by name, and the totals are the sums over the records in merge order; a directory without regular `.md` files never merges |
| `MarkdownMerge.MergedStats` | src/markdown/merge_markdown.py:173-251 | the statistics of a merge are the sums over its records, which are the readable files in merge order |
| `MarkdownMerge.MarkdownMerger.constructor` | src/markdown/merge_markdown.py:18-20 | both counters start at zero |
| `MarkdownMerge.MarkdownMerger.MergeLoop` | src/markdown/merge_markdown.py:196-259 | the file loop builds the pieces and records, and the merger's counters grow by the records and their lines |
| `MarkdownMerge.MarkdownMerger.MergeFiles` | src/markdown/merge_markdown.py:138-300 | `merge_files` computes the merge specification, and its counters change only when files were merged |
| `MarkdownMerge.Slugify` | src/markdown/merge_markdown.py:121-136 | `slugify`; SlugShape, SlugifyIdempotent, SlugDropsSymbol, SlugDropsLeadingSymbol, SlugOfChineseHeading, SlugOfPriceHeading and SlugOfEmojiHeading are about it |
| `MarkdownMerge.IsWordChar` | src/markdown/merge_markdown.py:133 | the `\w` class of the slug pattern: ASCII letters, digits and `_`, and every non-space character beyond ASCII outside IsNonWordSymbol's list; PlainWord, LowerWordPlain, NonWordNotKept and SlugDropsLeadingSymbol are about it |
| `MarkdownMerge.ExtractTitle` | src/markdown/merge_markdown.py:51-89 | `extract_title_from_file` on the file's text; TitleFallbacks, HeadingLineGivesTitle and LevelOneBeatsEarlierLevelTwo are about it |
| `MarkdownMerge.FirstHeading` | src/markdown/merge_markdown.py:65-72 | the multi-line heading search `^#{level}\s+(.+)$`; NoHeadingInBlank and ExtractTitle use it |
| `MarkdownMerge.MergeSpec` | src/markdown/merge_markdown.py:138-300 | `merge_files` and the text it writes; MergeRules, MergedStats and MarkdownMerger.MergeFiles are about it |
| `EpubV1.FirstOpf` | epub_to_markdown_v1.py:58-62 | the first entry in archive order whose name ends in `.opf`, or none |
| `EpubV1.EPUBConverterV1.FindOpf` | epub_to_markdown_v1.py:58-62 | the search loop finds that first entry |
| `EpubV1.ContentFiles` | epub_to_markdown_v1.py:87-90 | no more content files than entries |
| `EpubV1.ContentFilesMembers` | epub_to_markdown_v1.py:87-90 | an entry is a content file exactly when its lower-cased name ends in `.html`, `.xhtml`, `.htm` or `.xml` |
| `EpubV1.EPUBConverterV1.CollectContentFiles` | epub_to_markdown_v1.py:87-90 | the loop gathers exactly the content entries in archive order |
| `EpubV1.StructureRules` | epub_to_markdown_v1.py:41-97 | on success the package is the first `.opf` entry, every entry is counted, the listed files are exactly the first 20 names (all of them when there are fewer), the content files are exactly the HTML/XML entries and the title is the stem; an `.epub` without an `.opf` entry is rejected with 找不到OPF文件 |
| `EpubV1.EPUBConverterV1.ExtractEpubStructure` | epub_to_markdown_v1.py:41-97 | `extract_epub_structure` computes the structure specification: 文件不存在 and 不是EPUB文件 for a missing or non-EPUB path, 损坏的ZIP/EPUB文件 for a `BadZipFile` at opening or at reading the package entry, `解析失败: e` for any other exception there |
| `EpubV1.StructureErrorsByType` | epub_to_markdown_v1.py:53-97 | for a present `.epub`, a `BadZipFile` raised by `ZipFile(...)` or by reading the first package entry (also on the Latin-1 retry) gives 损坏的ZIP/EPUB文件, and only such an exception does; any other exception at those points gives `解析失败: ` with the exception's text |
| `EpubV1.DirectoryNamedEpub` | epub_to_markdown_v1.py:46-53 | a directory named `<stem>.epub` passes the existence and suffix tests, and the `OSError` of opening it is reported as `解析失败: …`, not as a damaged archive |
| `EpubV1.FirstIndex` | epub_to_markdown_v1.py:62 | the first index of a name |
| `EpubV1.FirstIndexAt` | epub_to_markdown_v1.py:58-62 | the first package entry is found first by its name |
| `EpubV1.UpperCaseOpfIgnored` | epub_to_markdown_v1.py:58 | the package test is case-sensitive: an archive whose only package entry is `BOOK.OPF` is rejected |
| `EpubV1.OpfNotContent` | epub_to_markdown_v1.py:58-90 | a package entry is never a content entry |
| `EpubV1.MimetypeKind` | test_sprint_epub_1.py:91-147 | the `mimetype` entry is neither a package nor a content entry |
| `EpubV1.PackageKind` | test_sprint_epub_1.py:91-147 | `content.opf` is a package entry and not a content entry |
| `EpubV1.IsXhtml` | test_sprint_epub_1.py:91-147 | the two chapter entries are content entries and not packages |
| `EpubV1.LastTwoContent` | epub_to_markdown_v1.py:87-90 | of four entries whose last two alone are content, the content files are those two |
| `EpubV1.OpenedStructure` | epub_to_markdown_v1.py:53-90 | an opened `.epub` whose first package entry decodes parses with that entry as package, every entry counted, the first 20 listed, the stem as title and its content entries |
| `EpubV1.SecondIsFirstOpf` | epub_to_markdown_v1.py:58-62 | of four entries, the second is the first package entry when the first is not one |
| `EpubV1.LowerXhtml` | epub_to_markdown_v1.py:58-90 | a name without capitals ending in `.xhtml` is a content entry and not a package entry |
| `EpubV1.FourEntryStructure` | epub_to_markdown_v1.py:41-97 | a four-entry archive whose second entry is the first package and whose last two are the only content parses with all four entries, that package and those two |
| `EpubV1.EpubPathParts` | test_sprint_epub_1.py:91-147 | `<dir>/<stem>.epub` is an EPUB path with that stem |
| `EpubV1.TestArchiveStructure` | test_sprint_epub_1.py:91-147 | the tests' archive parses with four entries, `content.opf` as package, the stem as title and the two chapters as content |
| `EpubV1.NextGt` | epub_to_markdown_v1.py:149 | the next `>` from an index on |
| `EpubV1.StripTags` | epub_to_markdown_v1.py:149 | replacing `<[^>]+>` by a space adds no `>` and keeps a leading one |
| `EpubV1.NextGtShift` | epub_to_markdown_v1.py:149 | the search shifts with a prepended character |
| `EpubV1.StripTagsTagFree` | epub_to_markdown_v1.py:149 | no tag is left after stripping |
| `EpubV1.TagFreeKept` | epub_to_markdown_v1.py:149 | tag-free text is kept as it is |
| `EpubV1.StripTagsIdempotent` | epub_to_markdown_v1.py:149 | stripping twice is stripping once |
| `EpubV1.SquashSpaces` | epub_to_markdown_v1.py:153 | every whitespace run becomes one space |
| `EpubV1.CleanTextShape` | epub_to_markdown_v1.py:149-153 | the clean text is words separated by single spaces, with no whitespace at either end |
| `EpubV1.Preview` | epub_to_markdown_v1.py:159 | the first 500 characters, followed by `...` exactly when the text is longer |
| `EpubV1.ReportedFlags` | epub_to_markdown_v1.py:136-168 | one flag per content entry: reported exactly when its clean text is longer than 10 characters |
| `EpubV1.CountTrue` | epub_to_markdown_v1.py:161 | no more counted than entries |
| `EpubV1.CountTruePrefix` | epub_to_markdown_v1.py:161 | one more reported entry adds one to the count |
| `EpubV1.CountTrueExtremes` | epub_to_markdown_v1.py:161 | zero exactly when none are set and full exactly when all are |
| `EpubV1.ReportedCountCounts` | epub_to_markdown_v1.py:134-168 | `content_count` is zero exactly when no entry is reported and full exactly when all are |
| `EpubV1.FirstFifty` | epub_to_markdown_v1.py:135 | the first 50 content entries, all of them when there are no more |
| `EpubV1.EPUBConverterV1.ExtractEntries` | epub_to_markdown_v1.py:134-168 | the loop produces the entries' pieces and counts the reported ones |
| `EpubV1.ExtractTextRules` | epub_to_markdown_v1.py:99-194 | a successful extraction has a valid structure, counts every content entry, reports at most 50 and no more than there are, and carries the stem as title |
| `EpubV1.EPUBConverterV1.ExtractTextFromEpub` | epub_to_markdown_v1.py:99-194 | `extract_text_from_epub` computes the extraction specification |
| `EpubV1.SuccessCount` | epub_to_markdown_v1.py:235-240 | no more successes than results |
| `EpubV1.SuccessCountAll` | epub_to_markdown_v1.py:235-256 | the success count is the number of results exactly when every extraction succeeded |
| `EpubV1.EPUBConverterV1.constructor` | epub_to_markdown_v1.py:19-22 | all counters start at zero |
| `EpubV1.EPUBConverterV1.ExtractAll` | epub_to_markdown_v1.py:226-243 | when the output directory of some EPUB cannot be created, the exception of the first such EPUB escapes the loop; otherwise the results are `FileResults` of the globbed files, one per EPUB in glob order, the two counters add up to the file count and `successful` counts the successes |
| `EpubV1.EPUBConverterV1.ExtractOne` | epub_to_markdown_v1.py:229-242 | one round of the loop: the exception of the `mkdir` of `output_dir / stem`, which no `try` catches, or else the file's entry: its path, and the outcome of `extract_text_from_epub` on it into that directory |
| `EpubV1.FileRound` | epub_to_markdown_v1.py:229-242 | a round raises exactly when the file's output directory cannot be created, with that error; otherwise it records the file's result |
| `EpubV1.FirstMkdirFailure` | epub_to_markdown_v1.py:226-233 | the first EPUB, in glob order, whose output directory cannot be created: every earlier one's can; none exactly when every one's can |
| `EpubV1.RecordedFailure` | epub_to_markdown_v1.py:99-234 | once the loop has created `output_dir / stem`, the `mkdir` of the same directory in `extract_text_from_epub` succeeds, so a file fails exactly when its structure is rejected or writing its text raises |
| `EpubV1.FileResults` | epub_to_markdown_v1.py:226-243 | the list the loop builds when every output directory is created; one entry per file (`FileResultsSnoc` and `FileResultsAt` are about it) |
| `EpubV1.FileResultsSnoc` | epub_to_markdown_v1.py:226-243 | one more file appends exactly that file's entry to the results so far |
| `EpubV1.FileResultsAt` | epub_to_markdown_v1.py:226-243 | result `k` is file `k`'s path and its extraction into `output_dir / stem` |
| `EpubV1.SuccessCountSnoc` | epub_to_markdown_v1.py:235-238 | one more result raises the success count by one exactly when that extraction succeeded |
| `EpubV1.EPUBConverterV1.ProcessDirectory` | epub_to_markdown_v1.py:196-257 | 输入目录不存在, 输入路径不是目录 and 没有EPUB文件 in that order; otherwise, when the output directory of some EPUB cannot be created, no report but the exception of the first such EPUB; otherwise one result per EPUB in glob order, each that file's extraction into its own `output_dir / stem`, tallies adding up, and success exactly when every extraction succeeded |
| `EpubV1.StructureSpec` | epub_to_markdown_v1.py:41-97 | `extract_epub_structure`; StructureRules, FourEntryStructure, UpperCaseOpfIgnored and TestArchiveStructure are about it; StructureErrorsByType and DirectoryNamedEpub state how its errors follow the exception's type |
| `EpubV1.ExtractTextSpec` | epub_to_markdown_v1.py:99-194 | `extract_text_from_epub` and the text it writes; ExtractTextRules and EPUBConverterV1.ExtractTextFromEpub are about it |
| `EpubV1.CleanText` | epub_to_markdown_v1.py:149-153 | the tag, entity and whitespace clean-up of one content entry; CleanTextShape is about it |
| `JsonValues.NotTextIff` | src/utils/json_utils.py:31-34 | only a non-empty string gets past the `not text or not isinstance(text, str)` guard |
| `JsonValues.DefaultOf` | src/utils/json_utils.py:28-29 | the given default, or `{}` when it is `None` |
| `JsonValues.KeySetMembers` | src/utils/json_utils.py:196 | the key of every entry is among the dictionary's keys |
| `JsonValues.DistinctSnoc` | src/utils/json_utils.py:196 | appending an entry adds its key, and keeps the keys distinct exactly when the key is new |
| `JsonValues.PutKey` | src/utils/json_utils.py:196 | `d[k] = v` with a new key appends the entry |
| `JsonValues.PutKeyEntries` | src/utils/json_utils.py:196 | after `d[k] = v` the dictionary holds `(k, v)`, only entries it held besides, its keys plus `k`, and distinct keys if it had them |
| `JsonValues.DictFromDistinct` | src/utils/json_utils.py:196 | a comprehension over pairs with distinct keys builds exactly those pairs |
| `JsonValues.DictFromKeys` | src/utils/json_utils.py:196 | a comprehension's dictionary has distinct keys, exactly the keys of its pairs |
| `JsonValues.DictFromSubset` | src/utils/json_utils.py:196 | a comprehension's dictionary holds only pairs it was given |
| `JsonValues.DictFromPlain` | src/utils/json_utils.py:196 | string keys and plain values make a plain dictionary |
| `JsonValues.PlainIsDumpable` | src/utils/json_utils.py:208-209 | the standard `json.dumps` accepts every plain value |
| `JsonValues.JsonModule.constructor` | json_safe_wrapper.py:326-330 | before any patch the `json` module binds the standard `loads` and `dumps` and holds no saved original |
| `JsonText.StripBom` | src/utils/json_utils.py:54-55 | a leading byte-order mark is removed and nothing else changes |
| `JsonText.Blank` | src/utils/json_utils.py:94-96 | `s.replace(c, ' ')` turns exactly the occurrences of `c` into spaces |
| `JsonText.BlankControls` | src/utils/json_utils.py:101 | every control character, layout included, becomes a space and nothing else changes, so none is left |
| `JsonText.BlankControlsKeepLayout` | json_safe_wrapper.py:82-91 | control characters other than tab, newline and carriage return become spaces; everything else stays |
| `JsonText.BlankThenBlankControls` | src/utils/json_utils.py:94-101 | the per-character replacements before the regular expression change nothing the expression alone would not |
| `JsonText.BlankThenBlankKeepLayout` | json_safe_wrapper.py:87-91 | the same for the layout-keeping blanking |
| `JsonText.BlankKeepLayoutIdempotent` | json_safe_wrapper.py:87-91 | blanking twice is blanking once |
| `JsonText.FixBackslashesPerPosition` | json_safe_wrapper.py:96-102 | the substitution doubles exactly the backslashes that start a stray escape, position by position |
| `JsonText.DoubleStrayCounts` | json_safe_wrapper.py:96-102 | doubling changes no other character's count |
| `JsonText.DoubleStrayIdentity` | json_safe_wrapper.py:96-102 | the text changes exactly when it holds a stray escape |
| `JsonText.DoubleStrayLength` | json_safe_wrapper.py:96-102 | doubling never shortens the text and lengthens it at a stray escape |
| `JsonText.EvenOutQuotes` | src/utils/json_utils.py:108-113 | a line with an odd number of `"` gets one appended: the result starts with the line and has an even count |
| `JsonText.ParityAcross` | src/utils/json_utils.py:105-117 | a stretch without line breaks moves the quote parity by its number of quotes |
| `JsonText.JoinedLinesEven` | src/utils/json_utils.py:105-117 | joined lines read even exactly when each line has an even number of quotes |
| `JsonText.EvenQuoteLinesMeaning` | src/utils/json_utils.py:105 | the parity reading means every piece of `split('\n')` has an even number of quotes |
| `JsonText.EvenOutLines` | src/utils/json_utils.py:106-113 | each line gets its own quote fix |
| `JsonText.EvenOutEachLineEven` | src/utils/json_utils.py:105-117 | after the fix every line of the text has an even number of quotes |
| `JsonText.AppendKeepsEven` | src/utils/json_utils.py:131-137 | appending text without quotes or line breaks keeps every line even |
| `JsonText.SpacesEnd` | src/utils/json_utils.py:125 | the end of the `\s*` run from an index |
| `JsonText.DropTrailingCommas` | src/utils/json_utils.py:125 | dropping commas before closers never lengthens the text |
| `JsonText.SkipSpacesEven` | src/utils/json_utils.py:125 | skipping whitespace keeps the line parity |
| `JsonText.DropKeepsEven` | src/utils/json_utils.py:125 | dropping trailing commas keeps every line's quotes even |
| `JsonText.DropKeepsCount` | src/utils/json_utils.py:125 | every character other than `,` and whitespace keeps its count |
| `JsonText.DropKeepsChars` | src/utils/json_utils.py:125 | no character is brought in |
| `JsonText.CountRepeat` | src/utils/json_utils.py:132-137 | a run of one character counts only that character |
| `JsonText.AppendClosersBalance` | src/utils/json_utils.py:128-139 | afterwards no opener outnumbers its closer, a balanced text is unchanged, and no quote is added |
| `JsonText.AppendClosersKeepsEven` | src/utils/json_utils.py:128-139 | the suffix keeps every line's quotes even |
| `JsonText.FixBackslashes` | json_safe_wrapper.py:96-102 | the stray-backslash substitution both modules run; FixBackslashesPerPosition and JsonFinalFix.FixBackslashesBreaksEscapedBackslash are about it |
| `JsonText.AppendClosers` | src/utils/json_utils.py:128-139 | appending one closer per unmatched `{` and `[`; AppendClosersBalance and AppendClosersKeepsEven are about it |
| `JsonUtils.DoubleStrayKeeps` | src/utils/json_utils.py:121 | doubling stray backslashes brings in only backslashes and keeps every other count |
| `JsonUtils.DoubleStrayNone` | src/utils/json_utils.py:121 | a text without backslashes is left alone |
| `JsonUtils.CountBlank` | src/utils/json_utils.py:101 | blanking keeps the count of every printable character other than the space |
| `JsonUtils.AppendClosersChars` | src/utils/json_utils.py:128-139 | appending closers adds only `}` and `]` |
| `JsonUtils.RepairText` | src/utils/json_utils.py:53-139 | the repair steps, one reassignment at a time, compute the repair |
| `JsonUtils.ReplaceIllegalChars` | src/utils/json_utils.py:61-98 | the `illegal_chars` loop blanks only control characters, so step 3 ends the same |
| `JsonUtils.EvenOutQuoteLines` | src/utils/json_utils.py:105-113 | the loop gives each line its quote fix |
| `JsonUtils.CloseBrackets` | src/utils/json_utils.py:128-139 | both surpluses are counted before anything is appended |
| `JsonUtils.RepairOfLine` | src/utils/json_utils.py:105-139 | on a control-free text the later steps keep it control-free, with even quotes and no opener outnumbering its closer |
| `JsonUtils.RepairShape` | src/utils/json_utils.py:53-139 | the repaired text is one line with no control character, an even number of quotes, and no more `{` than `}` nor `[` than `]` |
| `JsonUtils.ControlsOnlyBlanked` | src/utils/json_utils.py:262-276 | in a text that is otherwise sound, a NUL or other control character is the only thing repaired: it becomes a space |
| `JsonUtils.SafeJsonLoadsOutcomes` | src/utils/json_utils.py:16-173 | anything but a non-empty string gives the default (`{}` when none is given); a text that parses gives its value; one that does not gives its repair's value, or the default since the fragment search raises and is caught |
| `JsonUtils.ValidateJson` | src/utils/json_utils.py:211-225 | valid exactly when the parser accepts the text; then `safe_json_loads` returns the unrepaired parse, and otherwise the repair's value or `{}` |
| `JsonUtils.Values` | src/utils/json_utils.py:198 | the values of a list of present results, in order |
| `JsonUtils.CleanValueResult` | src/utils/json_utils.py:194-206 | `clean_obj` raises exactly when a dictionary key it meets has no `str()`, and otherwise gives a plain value |
| `JsonUtils.CleanDictResult` | src/utils/json_utils.py:195-196 | the dictionary step of that result |
| `JsonUtils.CleanDictSome` | src/utils/json_utils.py:195-196 | a dictionary whose keys print and values clean is cleaned |
| `JsonUtils.CleanDictPlain` | src/utils/json_utils.py:195-196 | that dictionary cleans to a plain one |
| `JsonUtils.CleanListResult` | src/utils/json_utils.py:197-198 | a list cleans exactly when each item does, to a plain list |
| `JsonUtils.CleanFixesPlain` | src/utils/json_utils.py:194-206 | a plain value is its own cleaning |
| `JsonUtils.CleanDictOfPlain` | src/utils/json_utils.py:195-196 | a plain dictionary whose values clean to themselves is its own cleaning |
| `JsonUtils.CleanIdempotent` | src/utils/json_utils.py:194-206 | cleaning twice is cleaning once |
| `JsonUtils.SafeJsonDumpsSucceeds` | src/utils/json_utils.py:175-209 | under the standard serialiser `safe_json_dumps` fails only on a value it cannot serialise whose dictionary keys do not all have a `str()` |
| `JsonUtils.Repair` | src/utils/json_utils.py:53-139 | the repair `safe_json_loads` applies to a text that fails to parse; its properties are RepairShape, ControlFree, ControlsOnlyBlanked and RepairText |
| `JsonUtils.SafeJsonLoads` | src/utils/json_utils.py:16-173 | `safe_json_loads` with the parser as an oracle; its outcomes are stated by SafeJsonLoadsOutcomes and ValidateJson |
| `JsonUtils.SafeJsonDumps` | src/utils/json_utils.py:175-209 | `safe_json_dumps`, which falls back on `clean_obj`; its outcome under the standard serialiser is SafeJsonDumpsSucceeds |
| `JsonUtils.CleanValue` | src/utils/json_utils.py:194-206 | the cleaning `clean_obj` and the wrapper's `make_serializable` share; its properties are CleanValueResult, CleanDictSome, CleanListResult, CleanedAsPrintable and CleanIdempotent |
| `JsonSafeWrapper.FixBackslashesPlain` | json_safe_wrapper.py:102 | a character other than a backslash passes through stage 2.1 |
| `JsonSafeWrapper.HexFixPlain` | json_safe_wrapper.py:105 | a character other than a backslash passes through stage 2.2 |
| `JsonSafeWrapper.BackslashOfHexDoubled` | json_safe_wrapper.py:96-102 | stage 2.1 doubles the backslash of `\xHH` |
| `JsonSafeWrapper.HexFixAfterDoubled` | json_safe_wrapper.py:105 | stage 2.2 keeps the first of two backslashes and rewrites the `\xHH` the second starts |
| `JsonSafeWrapper.HexEscapeDoubled` | json_safe_wrapper.py:96-105 | as written, `\xHH` becomes an escaped backslash followed by the six characters `u00HH`, not the escape `\u00HH` |
| `JsonSafeWrapper.HexEscapeConverted` | json_safe_wrapper.py:96-105 | with the hexadecimal fix run first, `\xHH` becomes `\u00HH`, which stage 2.1 keeps |
| `JsonSafeWrapper.UnescapedConcat` | json_safe_wrapper.py:111-122 | the escape-aware quote scan of a concatenation continues from the state the first part ends in |
| `JsonSafeWrapper.QuoteFixParity` | json_safe_wrapper.py:108-130 | as written, a line ends with an even count of unescaped quotes exactly when it had one or did not end in a pending backslash |
| `JsonSafeWrapper.QuoteFixMissesPendingEscape` | json_safe_wrapper.py:108-130 | the line `"\` gets a quote appended that is itself escaped, and keeps an odd count |
| `JsonSafeWrapper.IntendedQuoteFixEven` | json_safe_wrapper.py:108-130 | the corrected fix leaves every line with an even count and only appends to it |
| `JsonSafeWrapper.FixQuotesLines` | json_safe_wrapper.py:108-130 | each line gets its own quote fix |
| `JsonSafeWrapper.CountUnescapedQuotes` | json_safe_wrapper.py:111-122 | the inner loop counts exactly the unescaped quotes |
| `JsonSafeWrapper.FixQuoteLines` | json_safe_wrapper.py:108-128 | the outer loop fixes each line and counts one fix per odd line |
| `JsonSafeWrapper.FirstOpener` | json_safe_wrapper.py:155 | the first `{` or `[`, or none |
| `JsonSafeWrapper.LastCloser` | json_safe_wrapper.py:155 | the last `}` or `]`, or none |
| `JsonSafeWrapper.ExtractSpan` | json_safe_wrapper.py:153-157 | a text not opening with a bracket is cut from the first opener to the last closer when one follows the other, and kept otherwise |
| `JsonSafeWrapper.ScanFrom` | json_safe_wrapper.py:163-182 | an unmatched bracket found by the scan is a closer inside the text |
| `JsonSafeWrapper.ScanConcat` | json_safe_wrapper.py:163-182 | scanning a concatenation continues from the first part's stack |
| `JsonSafeWrapper.ClosersEmpty` | json_safe_wrapper.py:185-191 | the closers of an open stack empty it |
| `JsonSafeWrapper.ScanStackOpeners` | json_safe_wrapper.py:163-166 | the stack only ever holds openers |
| `JsonSafeWrapper.CloseOpenStack` | json_safe_wrapper.py:185-191 | appending the closers of the open stack nests the text completely |
| `JsonSafeWrapper.PlusFixes` | json_safe_wrapper.py:173-174 | counting more fixes changes nothing else |
| `JsonSafeWrapper.DeepCleanWithStaged` | json_safe_wrapper.py:68-193 | a non-empty text is staged and then its brackets are checked |
| `JsonSafeWrapper.CheckBracketsOverflow` | json_safe_wrapper.py:172-174 | a stray closer with no frames left overflows |
| `JsonSafeWrapper.CheckBracketsCut` | json_safe_wrapper.py:172-182 | a stray closer is deleted and the cleaning restarts, one more fix counted |
| `JsonSafeWrapper.CheckBracketsOpen` | json_safe_wrapper.py:185-193 | with no stray closer the open brackets are closed, one fix each |
| `JsonSafeWrapper.DeepCleanNested` | json_safe_wrapper.py:68-193 | whatever `_deep_clean_text` returns has well-nested brackets |
| `JsonSafeWrapper.DeepCleanWithNested` | json_safe_wrapper.py:68-193 | the same for any staging function |
| `JsonSafeWrapper.CheckBracketsNested` | json_safe_wrapper.py:163-193 | the bracket step returns only well-nested texts |
| `JsonSafeWrapper.ReplaceControlChars` | json_safe_wrapper.py:82-88 | the replacement loop changes nothing the regular expression at line 91 would not |
| `JsonSafeWrapper.ScanBrackets` | json_safe_wrapper.py:163-182 | the `for` loop computes the scan |
| `JsonSafeWrapper.CloseStack` | json_safe_wrapper.py:185-191 | the `while stack` loop appends the closers in reverse stack order |
| `JsonSafeWrapper.CleanAndEscape` | json_safe_wrapper.py:73-105 | stage 1 and steps 2.1 and 2.2 |
| `JsonSafeWrapper.QuotesAndCommas` | json_safe_wrapper.py:108-137 | steps 2.3 and 2.4, with one fix per odd line |
| `JsonSafeWrapper.CloseCounted` | json_safe_wrapper.py:140-149 | step 2.5, counting the closers added |
| `JsonSafeWrapper.RunStages` | json_safe_wrapper.py:73-160 | stages 1 and 2 and steps 3.1 and 3.2 compute the staging function |
| `JsonSafeWrapper.CleanText` | json_safe_wrapper.py:68-193 | `_deep_clean_text` with `depth` frames left computes the recursive cleaning |
| `JsonSafeWrapper.CloseOrCut` | json_safe_wrapper.py:162-193 | step 3.3 deletes a stray closer and restarts, or closes what is open |
| `JsonSafeWrapper.SamplesOf` | json_safe_wrapper.py:52-58 | one sample per error, in order |
| `JsonSafeWrapper.SamplesSnoc` | json_safe_wrapper.py:52-58 | one more error adds its own sample |
| `JsonSafeWrapper.RecordAllSamples` | json_safe_wrapper.py:39-58 | every error is counted and the last one described, but only the first errors are sampled, until ten are held |
| `JsonSafeWrapper.RecordedKeepsBound` | json_safe_wrapper.py:52-58 | `error_samples` never holds more than ten entries |
| `JsonSafeWrapper.PatchedLoadsRecurse` | json_safe_wrapper.py:221-228 | once `json.loads` is patched, `import json as original_json` gives the patched function back and every non-empty text recurses until the interpreter gives up |
| `JsonSafeWrapper.StandardLoadsOutcomes` | json_safe_wrapper.py:196-277 | unpatched: anything but a non-empty string gives the default; a parse gives its value and records nothing; otherwise one or two errors are recorded and the cleaned text's value or the default returns, unless the cleaning overflows |
| `JsonSafeWrapper.IntendedLoadsParses` | json_safe_wrapper.py:221-228 | with the original parser kept, `loads` returns the value of a text that parses, patched or not, and raises only when the cleaning overflows |
| `JsonSafeWrapper.PatchedDumpsRecurse` | json_safe_wrapper.py:293-316 | a patched `json.dumps` fails on every object |
| `JsonSafeWrapper.StandardDumpsSucceeds` | json_safe_wrapper.py:279-323 | unpatched, `dumps` fails only on an object it cannot serialise whose cleaning meets a key without a `str()`; tuples and sets become lists |
| `JsonSafeWrapper.SafeJson.constructor` | json_safe_wrapper.py:25-36 | the class starts with no errors, no fixes, no last error and no samples |
| `JsonSafeWrapper.SafeJson.ResetStats` | json_safe_wrapper.py:345-351 | `reset_stats` zeroes every counter |
| `JsonSafeWrapper.SafeJson.RecordError` | json_safe_wrapper.py:38-65 | `_record_error` records one error and keeps the sample bound |
| `JsonSafeWrapper.SafeJson.DeepCleanText` | json_safe_wrapper.py:67-193 | the cleaning, with its fixes added to `fixed_count` |
| `JsonSafeWrapper.SafeJson.Loads` | json_safe_wrapper.py:195-277 | `loads` computes the loads specification for the current binding |
| `JsonSafeWrapper.SafeJson.InstallGlobalPatch` | json_safe_wrapper.py:325-333 | both module functions are replaced by the safe ones |
| `JsonSafeWrapper.SafeJson.RunDecorated` | json_safe_wrapper.py:353-375 | the wrapped function runs with both functions patched, and the bindings found are put back |
| `JsonSafeWrapper.FixEscapes` | json_safe_wrapper.py:96-105 | stage 2.1 (stray backslashes) followed by stage 2.2 (`\xHH`), in the order the code runs them; HexEscapeDoubled and CleanAndEscape are about it |
| `JsonSafeWrapper.HexFix` | json_safe_wrapper.py:105 | the `\xHH` to `\u00HH` substitution; HexFixPlain and HexFixAfterDoubled are about it |
| `JsonSafeWrapper.FixQuotesLine` | json_safe_wrapper.py:108-130 | the one-line quote fix as written; QuoteFixParity, QuoteFixMissesPendingEscape and FixQuotesLines are about it |
| `JsonSafeWrapper.FixQuotesLineIntended` | json_safe_wrapper.py:108-130 | the corrected one-line quote fix; IntendedQuoteFixEven is about it |
| `JsonSafeWrapper.FixEscapesIntended` | json_safe_wrapper.py:96-105 | the escape stages with the `\xHH` fix first; HexEscapeConverted is about it |
| `JsonSafeWrapper.DeepClean` | json_safe_wrapper.py:68-193 | `_deep_clean_text` with its recursion bounded by `depth`; DeepCleanNested, StandardLoadsOutcomes and SafeJson.DeepCleanText are about it |
| `JsonSafeWrapper.SafeLoads` | json_safe_wrapper.py:196-277 | `SafeJSON.loads` under a given `json.loads` binding; StandardLoadsOutcomes, PatchedLoadsRecurse and SafeJson.Loads are about it |
| `JsonSafeWrapper.IntendedLoads` | json_safe_wrapper.py:221-228 | `loads` calling the parser saved before patching; IntendedLoadsParses is about it |
| `JsonFinalFix.DeepFix` | src/utils/json_final_fix.py:22-73 | anything falsy becomes the empty string, a truthy non-string comes back as it is, and a non-empty string stays a string |
| `JsonFinalFix.EvenOutLinesCount` | src/utils/json_final_fix.py:52-58 | the per-line quote fix adds no character but `"` |
| `JsonFinalFix.EvenOutEachLineCount` | src/utils/json_final_fix.py:52-58 | the same for the whole text |
| `JsonFinalFix.EvenOutEachLineOfEven` | src/utils/json_final_fix.py:52-58 | a text whose lines all hold an even number of quotes is left alone |
| `JsonFinalFix.DeepFixShape` | src/utils/json_final_fix.py:27-73 | the fixed text holds no control character but layout, an even number of quotes on every line, and no more `{` than `}` nor `[` than `]` |
| `JsonFinalFix.BlankKeepLayoutOfClean` | src/utils/json_final_fix.py:33-40 | blanking leaves a text without stray control characters unchanged |
| `JsonFinalFix.FixBackslashesOfClean` | src/utils/json_final_fix.py:43-49 | the backslash step leaves a text without stray escapes unchanged |
| `JsonFinalFix.DeepFixSoundUnchanged` | src/utils/json_final_fix.py:27-73 | a text with nothing to fix comes back exactly as it was |
| `JsonFinalFix.SoundFrontUnchanged` | src/utils/json_final_fix.py:29-49 | BOM, control and backslash steps change nothing in such a text |
| `JsonFinalFix.SoundBackUnchanged` | src/utils/json_final_fix.py:51-71 | quote, comma and bracket steps change nothing in such a text |
| `JsonFinalFix.BlankControlChars` | src/utils/json_final_fix.py:34-40 | the replacement loop blanks exactly the control characters other than tab, newline and carriage return |
| `JsonFinalFix.DeepFixString` | src/utils/json_final_fix.py:22-73 | the step-by-step method computes `deep_fix_json_string` |
| `JsonFinalFix.FinalLoadsPatchedRecurse` | src/utils/json_final_fix.py:83-87 | once `json.loads` is patched, the cached module hands the patched function back and every non-empty text recurses until the interpreter gives up |
| `JsonFinalFix.FinalLoadsStandardOutcomes` | src/utils/json_final_fix.py:75-107 | unpatched: a non-text gives the default, else the value of the text or of its repair; it raises `re.error` exactly when neither parses, because `(?R)` is not supported by `re` |
| `JsonFinalFix.FinalFix.constructor` | src/utils/json_final_fix.py:10-11 | the module starts with no cached `json` |
| `JsonFinalFix.FinalFix.GetOriginalJson` | src/utils/json_final_fix.py:13-20 | the first call fills the cache with the shared module, patched or not, and every call returns it |
| `JsonFinalFix.FinalFix.SafeJsonLoads` | src/utils/json_final_fix.py:75-107 | `safe_json_loads` computes the loads specification for the current binding |
| `JsonFinalFix.FinalFix.InstallGlobalFix` | src/utils/json_final_fix.py:109-118 | `json.loads` becomes the safe loader, the previous binding is saved and `json.dumps` is untouched |
| `JsonFinalFix.FixBackslashesBreaksEscapedBackslash` | src/utils/json_final_fix.py:49 | the well-escaped text `\\q` becomes `\\\q`, which holds an invalid escape |
| `JsonFinalFix.IntendedBackslashesWellEscaped` | src/utils/json_final_fix.py:43-49 | the corrected step leaves every backslash escaped |
| `JsonFinalFix.IntendedBackslashesLength` | src/utils/json_final_fix.py:43-49 | the corrected step never shortens a text and lengthens every text that is not well escaped |
| `JsonFinalFix.IntendedBackslashesIdentity` | src/utils/json_final_fix.py:43-49 | the corrected step changes a text exactly when it is not well escaped |
| `JsonFinalFix.MatchEnd` | src/utils/json_final_fix.py:95-96 | the closing position found lies after the start and inside the text |
| `JsonFinalFix.Span` | src/utils/json_final_fix.py:95-96 | a match of the recursive pattern at a position ends inside the text |
| `JsonFinalFix.MatchEndCounts` | src/utils/json_final_fix.py:95-96 | the matched stretch ends in the closer and holds exactly the pending number of closers more than openers |
| `JsonFinalFix.FragmentsAreFragments` | src/utils/json_final_fix.py:95-98 | every match found is a balanced bracketed fragment of the text |
| `JsonFinalFix.SpanIsFragment` | src/utils/json_final_fix.py:95-96 | what the pattern matches at a position is such a fragment |
| `JsonFinalFix.Longest` | src/utils/json_final_fix.py:101 | `max(..., key=len)` returns a match at least as long as every other |
| `JsonFinalFix.IntendedFinalLoadsOutcomes` | src/utils/json_final_fix.py:75-107 | with a recursive matcher and the original parser kept, the loader never raises: it gives the value of the text, of its repair, or of a longest fragment, and the default only when the text and its repair fail to parse and there is no fragment or the longest one fails too |
| `JsonFinalFix.DeepFixText` | src/utils/json_final_fix.py:22-73 | the six repair steps of `deep_fix_json_string`; DeepFixShape, SoundText and DeepFixSoundUnchanged are about it |
| `JsonFinalFix.FinalLoads` | src/utils/json_final_fix.py:75-107 | `safe_json_loads` under a given `json.loads` binding; FinalLoadsStandardOutcomes, FinalLoadsPatchedRecurse and FinalFix.SafeJsonLoads are about it |
| `JsonFinalFix.FixBackslashesIntended` | src/utils/json_final_fix.py:43-49 | the backslash step reading each escape whole; IntendedBackslashesWellEscaped, IntendedBackslashesLength and IntendedBackslashesIdentity are about it |
| `JsonFinalFix.FinalLoadsIntended` | src/utils/json_final_fix.py:75-107 | `safe_json_loads` with the original parser, that backslash step and a running fragment search; IntendedFinalLoadsOutcomes and FragmentsAreFragments are about it |
| `FileUtils.Put` | src/utils/file_utils.py:200-205 | one `key: value` of a dictionary display: the pairs keep their length or gain the new pair at the end; PutNewKey and PutExistingKey state where the pair goes |
| `FileUtils.PutNewKey` | src/utils/file_utils.py:200-205 | a dictionary display puts a key not yet present after all the others, with its value |
| `FileUtils.PutExistingKey` | src/utils/file_utils.py:200-205 | a repeated key in a dictionary display keeps the index of its first entry and takes the last value; every other entry keeps its index and value and the length is unchanged |
| `FileUtils.FirstMagic` | src/utils/file_utils.py:207-209 | the magic number found is a prefix of the header, and none found means no entry is |
| `FileUtils.MagicTable` | src/utils/file_utils.py:200-205 | the table has three entries; the ZIP header maps to `.zip` and `.epub` is gone |
| `FileUtils.Take4` | src/utils/file_utils.py:197 | `f.read(4)` gives the first four bytes, or all of a shorter file |
| `FileUtils.ValidateFileTypeIff` | src/utils/file_utils.py:176-213 | a file is accepted by its lower-cased suffix alone; otherwise exactly when it can be read, its header is one of the three magic numbers and that number's extension is expected |
| `FileUtils.MatchHeader` | src/utils/file_utils.py:207-211 | the loop returns whether the first matching entry's extension is expected |
| `FileUtils.ValidateFile` | src/utils/file_utils.py:176-213 | the method computes the validation function |
| `FileUtils.EpubHeaderRejected` | src/utils/file_utils.py:200-209 | an EPUB without the `.epub` suffix is turned down when only `.epub` is expected |
| `FileUtils.IntendedAcceptsEpub` | src/utils/file_utils.py:200-209 | the corrected check accepts all the source accepts, and a ZIP header whenever `.epub` is expected |
| `FileUtils.PathLtIrreflexive` | src/utils/file_utils.py:171 | path order is irreflexive |
| `FileUtils.PathLtTransitive` | src/utils/file_utils.py:171 | path order is transitive |
| `FileUtils.PathLtTotal` | src/utils/file_utils.py:171 | two different paths are ordered exactly one way |
| `FileUtils.InsertPathSorted` | src/utils/file_utils.py:170-171 | inserting into a strictly increasing list keeps it so, adding exactly the new path |
| `FileUtils.SortUniqueSorted` | src/utils/file_utils.py:170-171 | `sorted(set(...))` is strictly increasing and holds exactly the paths given |
| `FileUtils.SortedTail` | src/utils/file_utils.py:170-171 | the tail of a strictly increasing list is strictly increasing and holds the other members |
| `FileUtils.SortedHeads` | src/utils/file_utils.py:170-171 | two strictly increasing lists with the same members start alike |
| `FileUtils.StrictlySortedUnique` | src/utils/file_utils.py:170-171 | a strictly increasing list is fixed by its members, whatever order `set()` gives |
| `FileUtils.RegularOnly` | src/utils/file_utils.py:166 | exactly the listed paths that are regular files |
| `FileUtils.CollectedMembers` | src/utils/file_utils.py:159-167 | a path is gathered exactly when some pattern's glob lists it and it is a regular file |
| `FileUtils.FindFilesResult` | src/utils/file_utils.py:149-173 | a missing directory gives `[]`; otherwise the result is strictly increasing and holds exactly the regular files some pattern matches |
| `FileUtils.FindFiles` | src/utils/file_utils.py:133-173 | the loop-and-sort method computes the specification |
| `FileUtils.ValidateFileType` | src/utils/file_utils.py:176-213 | `validate_file_type` as written; ValidateFileTypeIff and EpubHeaderRejected are about it |
| `FileUtils.ValidateFileTypeIntended` | src/utils/file_utils.py:200-209 | the check with a ZIP header standing for both `.epub` and `.zip`; IntendedAcceptsEpub is about it |
| `FileUtils.FindFilesSpec` | src/utils/file_utils.py:133-173 | `find_files` with the glob and `is_file` as oracles; FindFilesResult and the method FindFiles are about it |
| `GatewayHeartbeat.Shell.constructor` | src/heartbeat/gateway_heartbeat.py:88-93 | the command runner and clock start with no command run and no sleep taken |
| `GatewayHeartbeat.Shell.Run` | src/heartbeat/gateway_heartbeat.py:88-93 | running a command logs it and gives the next answer; nothing is slept |
| `GatewayHeartbeat.Shell.Sleep` | src/heartbeat/gateway_heartbeat.py:187 | `time.sleep` logs the pause and runs no command |
| `GatewayHeartbeat.TargetOf` | src/heartbeat/gateway_heartbeat.py:74-78 | a truthy target is used as given, anything else becomes `#initclawdbot` |
| `GatewayHeartbeat.SendCommandShape` | src/heartbeat/gateway_heartbeat.py:67-83 | the command starts `clawdbot message send`, has `--channel` exactly when the channel is truthy, always has `--target`, and ends with the message and its time stamp joined by ` - ` |
| `GatewayHeartbeat.LowerIs` | src/heartbeat/gateway_heartbeat.py:150 | lower-casing is letter by letter |
| `GatewayHeartbeat.IndicatorLowered` | src/heartbeat/gateway_heartbeat.py:139-150 | each indicator lower-cases to the form the test uses |
| `GatewayHeartbeat.ShowsUpWithIndicators` | src/heartbeat/gateway_heartbeat.py:139-171 | reading the output against the indicators as written is reading it against their lower-case forms |
| `GatewayHeartbeat.OutputDownIff` | src/heartbeat/gateway_heartbeat.py:139-171 | the output reads as down exactly when no indicator occurs and some error word does; such an output never holds `ok` |
| `GatewayHeartbeat.IndicatorReadsUp` | src/heartbeat/gateway_heartbeat.py:149-152 | any indicator found means up |
| `GatewayHeartbeat.RunningReadsUp` | src/heartbeat/gateway_heartbeat.py:143-152 | any output mentioning `running` reads as up |
| `GatewayHeartbeat.NotRunningReadsUp` | src/heartbeat/gateway_heartbeat.py:143-167 | `not running` reads as up, because `running` is an indicator looked for before the error words |
| `GatewayHeartbeat.QuietOutputReadsUp` | src/heartbeat/gateway_heartbeat.py:169-171 | an output with no error word reads as up |
| `GatewayHeartbeat.ReadStatusOutput` | src/heartbeat/gateway_heartbeat.py:149-171 | the two loops compute the classification |
| `GatewayHeartbeat.RestartTrace` | src/heartbeat/gateway_heartbeat.py:195-281 | the restart always begins with the stop command, records no response, and succeeds exactly when the start succeeds and the status check after it reads up |
| `GatewayHeartbeat.RetryFailed` | src/heartbeat/gateway_heartbeat.py:246-264 | a failed retry runs its own commands and sleeps and hands over to the next retry |
| `GatewayHeartbeat.RetryTraceReadsFrom` | src/heartbeat/gateway_heartbeat.py:246-281 | the retries read only the answers to the commands they run |
| `GatewayHeartbeat.FirstSendIgnored` | src/heartbeat/gateway_heartbeat.py:242-243 | the heartbeat comes out the same whatever the first send gave back |
| `GatewayHeartbeat.ThreeRetriesFirstUp` | src/heartbeat/gateway_heartbeat.py:246-256 | a first check that reads up ends the heartbeat with success after one wait |
| `GatewayHeartbeat.ThreeRetriesSecondUp` | src/heartbeat/gateway_heartbeat.py:246-258 | a second check that reads up ends it after two waits |
| `GatewayHeartbeat.ThreeRetriesThirdUp` | src/heartbeat/gateway_heartbeat.py:246-258 | a third check that reads up ends it after three waits |
| `GatewayHeartbeat.ThreeRetriesAllDown` | src/heartbeat/gateway_heartbeat.py:246-281 | three failed checks send one more message, pause, restart, record no response, and give the restart's result |
| `GatewayHeartbeat.DefaultHeartbeat` | src/heartbeat/gateway_heartbeat.py:55-59 | with waits of 30, 40 and 50 seconds the first successful check ends the heartbeat; otherwise exactly one more message goes out and the result is that the restart succeeded and the status after it reads up |
| `GatewayHeartbeat.GatewayHeartbeatMonitor.constructor` | src/heartbeat/gateway_heartbeat.py:39-59 | the monitor keeps its arguments, has no response time and no message id, and the retry waits are 30, 40 and 50 |
| `GatewayHeartbeat.GatewayHeartbeatMonitor.SendTestMessage` | src/heartbeat/gateway_heartbeat.py:63-121 | one send command with the current time is run, and the result is whether it returned code 0 |
| `GatewayHeartbeat.GatewayHeartbeatMonitor.CheckGatewayStatus` | src/heartbeat/gateway_heartbeat.py:123-182 | one status command is run and its answer classified; a failure, timeout or exception reads as down |
| `GatewayHeartbeat.GatewayHeartbeatMonitor.WaitForResponse` | src/heartbeat/gateway_heartbeat.py:184-193 | sleep the given time, then check the status once |
| `GatewayHeartbeat.GatewayHeartbeatMonitor.RestartGateway` | src/heartbeat/gateway_heartbeat.py:195-235 | stop, pause two seconds, start; only the start's code decides, and a timeout or exception on the stop ends it at once as a failure |
| `GatewayHeartbeat.GatewayHeartbeatMonitor.RestartAndCheck` | src/heartbeat/gateway_heartbeat.py:266-281 | the restart and the status check after it follow the restart specification |
| `GatewayHeartbeat.GatewayHeartbeatMonitor.Retry` | src/heartbeat/gateway_heartbeat.py:246-264 | one retry: a response sets the response time and ends the retries, a failure hands over to the next retry |
| `GatewayHeartbeat.GatewayHeartbeatMonitor.RunHeartbeatCheck` | src/heartbeat/gateway_heartbeat.py:237-281 | the full heartbeat runs the commands and sleeps of the heartbeat specification, returns its verdict and records the time of the response seen |
| `GatewayHeartbeat.HeartbeatTrace` | src/heartbeat/gateway_heartbeat.py:237-281 | the command sequence and outcome of `run_heartbeat_check`; DefaultHeartbeat, FirstSendIgnored, the ThreeRetries lemmas, RestartOk and GatewayHeartbeatMonitor.RunHeartbeatCheck are about it |
| `GatewayHeartbeat.RetryTrace` | src/heartbeat/gateway_heartbeat.py:246-281 | the retries and the final restart; RetryTraceReadsFrom, RetryFailed and GatewayHeartbeatMonitor.Retry are about it |
| `GatewayHeartbeat.SendCommand` | src/heartbeat/gateway_heartbeat.py:63-83 | the command `send_test_message` runs; SendCommandShape and GatewayHeartbeatMonitor.SendTestMessage are about it |
| `GatewayHeartbeat.StatusUp` | src/heartbeat/gateway_heartbeat.py:123-182 | what `check_gateway_status` answers for the status command's result; GatewayHeartbeatMonitor.CheckGatewayStatus, WaitForResponse and RestartTrace are about it |
| `Ranges.RangeStepAt` | src/pdf/pdf_chapter_splitter_v2.py:297 | `range(0, total_pages, pages_per_chapter)` has the ceiling of the quotient many values, the k-th being k times the step |
| `Ranges.FixedBounds` | src/pdf/pdf_chapter_splitter_v2.py:296-297 | one boundary per chapter counted by the ceiling division, each a multiple of the chapter size |
| `Ranges.FixedBoundsWellFormed` | src/pdf/pdf_chapter_splitter_v2.py:296-297 | the fixed boundaries are the `range` values, and for a non-empty document they start at 0, increase and stay below the page count |
| `Ranges.SpansOf` | pdf_chapter_detector.py:257-259 | a chapter runs from its boundary to the next one, the last to the page count |
| `Ranges.SpansTile` | pdf_chapter_detector.py:257-259 | such chapters tile the document |
| `Ranges.TilesCover` | pdf_chapter_detector.py:257-259 | every page lies in exactly one chapter |
| `PyText.Pad3Injective` | src/pdf/pdf_chapter_splitter_v2.py:316 | different chapter numbers give different `:03d` numbers |
| `PyText.ThousandsValue` | src/markdown/merge_markdown.py:221 | `{n:,}` read back without its commas is `n` |
| `PyText.StripEmpty` | src/markdown/merge_markdown.py:78 | `strip()` gives the empty text exactly when the text is all whitespace |
| `PyText.StripIdempotent` | src/markdown/merge_markdown.py:80 | stripping twice strips nothing more |
| `PyText.JoinSplit` | src/utils/json_utils.py:105-117 | joining the pieces of `split('\n')` with newlines gives the text back |
| `PyText.SplitJoin` | src/utils/json_utils.py:105-117 | splitting lines joined by a newline none of them holds gives the lines back |
| `PyText.SplitCount` | src/utils/json_utils.py:105 | `split` gives one more piece than there are separators |
| `PyText.JoinConcat` | src/excel/xlsx2md_improved.py:317 | `'\n'.join` of two non-empty line lists is the join of the first, the separator and the join of the second |
| `Ranges.FloorDiv` | src/excel/xlsx2md.py:245 | Python's `//`: the quotient rounded toward negative infinity, for either sign of divisor |
| `Ranges.FloorDivCeil` | src/excel/xlsx2md.py:245 | for a positive page size, `(n + m - 1) // m` is the ceiling of `n / m` |
| `Ranges.NegativeSizeCount` | src/excel/xlsx2md.py:245 | for a negative page size, `(n + m - 1) // m` is 1 for one item and not positive for more |

## Left out

- Library calls are oracles, not models. This covers PyPDF2 reading and writing, pdf2image rasterising, pytesseract OCR, the PIL filters, numpy statistics, pandas I/O, `zipfile`, `json.loads` and `json.dumps` on well-formed input, and `subprocess.run`. Their semantics are not visible from this code.
- File and console output is reduced to what is written where. File contents are kept only where a later step reads them back, as the idempotence checks do. Directory creation is modelled only in the EPUB converter. There a failed `mkdir` inside `extract_text_from_epub` (epub_to_markdown_v1.py:104) is a failed extraction, and a failed per-file `mkdir` in `process_directory` (epub_to_markdown_v1.py:231) is an exception that escapes it (EpubV1.FileRound). Every other `mkdir` of the code is assumed to succeed. Hashing (md5/sha256), logging, `print` and stderr text are not modelled.
- The clock is a parameter: time stamps, timings, `processing_time` fields and `datetime.now()` are values passed in.
- Floating-point heuristics are not modelled, because they depend on library statistics in floating point:
  - the scanned-probability statistics and recommendations of `src/pdf/pdf_ocr_module.py` (`analyze_scanned_document`);
  - the detector's whole-document confidence and text statistics;
  - progress percentages;
  - `get_size_string` in `src/utils/file_utils.py`.
- `str.isspace` and `\s` follow Python's full whitespace set. `str.lower`, `str.isupper`, `str.isdigit` and `\d` are their ASCII versions.
- MarkdownMerge.IsWordChar: Python's `\w` matches `_` and the letters and numerals of Unicode (what `str.isalnum()` accepts). The model matches ASCII letters, digits and `_`, plus every character beyond ASCII that is neither whitespace nor listed by MarkdownMerge.IsNonWordSymbol. The list never names a letter or numeral of Unicode 15.0, so no character Python keeps is dropped. It covers:
  - the Latin-1 and general punctuation, modifier symbols and combining diacritics;
  - currency signs (`€`, `₹`) and the combining marks for symbols (the keycap U+20E3);
  - the symbols of the letterlike block (`™`, `℃`, `№`), but not its letters;
  - arrows, mathematical and technical symbols, control pictures, OCR marks;
  - the parenthesized and circled letters (`ⓐ`), box drawing, shapes, dingbats, Braille;
  - supplemental punctuation (`⸺`), CJK and Kangxi radicals, ideographic description characters;
  - the CJK symbols and punctuation, the kana sound marks, the katakana middle dot `・`;
  - the enclosed CJK letters and CJK compatibility squares (`㈱`, `㎡`), but not their numerals;
  - the hexagrams, private use, variation selectors, and the vertical, compatibility and small forms;
  - the full-width punctuation and symbols, the specials, musical symbols;
  - the game, enclosed-letter, flag-letter, emoji and pictograph blocks;
  - tags and unassigned code points beyond plane 3.
- MarkdownMerge.RemoveSpecial: because of that `\w`, some characters that Python's class drops are kept as word characters:
  - the combining marks of other scripts, such as the vowel signs and viramas of Devanagari (`ि` in `हिन्दी`), Tibetan, Myanmar and Balinese;
  - their punctuation and symbols, such as the Armenian full stop, the Arabic number signs, Syriac marks and Yi radicals;
  - Sutton SignWriting, the legacy block sextants and the Znamenny notation;
  - unassigned code points of planes 0 to 3.
  On text made of ASCII, whitespace, the letters and digits of any script and the listed blocks, it removes exactly what Python's substitution removes. A code point assigned after Unicode 15.0 may also differ.
- MarkdownMerge.Slugify: inherits the `\w` approximation of RemoveSpecial, and its lower-casing maps only `A`-`Z`. Python's `str.lower` also lowers Greek, Cyrillic and full-width capitals.
- MarkdownMerge.RemoveSpecialKeeps, MarkdownMerge.TocEntriesInOrder and MarkdownMerge.MarkdownMerger.GenerateTableOfContents: their anchors are those of Slugify, with the same two approximations.
- MarkdownMerge.ExtractTitle: `str.title()` of the file-name fallback is the parameter `titleCase`, an oracle. Its word-boundary and Unicode case rules are not modelled.
- The other regular expressions of the code are written out as explicit predicates and functions on characters. That includes the `summary` block search ```` ```json\s*(.*?)\s*``` ```` of the Excel converters (ExcelConverter.JsonFenceBlock).
- ExcelConverter.SummaryName: `safe_json_loads(...).get('file_name')` on the block's text is the oracle `fileNameOf`. For the improved converter that oracle is part of the world's JSON library (ExcelImproved.JsonLibrary), which promises only that reading back what its `dumps` wrote gives the summary's `file_name`.
- A pattern with the recursive `(?R)` construct makes Python's `re` raise. Only that outcome is modelled where the code runs such a pattern. `extract_json_from_text` in `src/utils/json_utils.py` is not modelled, since it only wraps such a pattern.
- Recursion into a patched `json.loads` is bounded by a `depth` parameter that stands for the interpreter's recursion limit. Exhausting it is the `RecursionError` outcome.
- `ensure_directory`, `safe_read_file`, `safe_write_file` and `get_file_hash` in `src/utils/file_utils.py` are not modelled: they are file I/O with no logic of their own.
- `convert_directory` of `src/excel/xlsx2md.py` is modelled only as far as its file selection.
- `convert_directory` of `src/excel/xlsx2md_improved.py` is not modelled: it is a loop of `convert_single_file` calls with progress printing.
- The heartbeat monitor leaves out `run_continuous_monitoring` and the message-id parsing of `send_test_message`. The first is an endless loop over the clock; the second parses subprocess output that nothing reads. `message_id` therefore stays as the constructor sets it.
- Every `main()`, argparse block and `test_*` demo function is left out, as are the sample-data generators and `create_sample_files`. The same holds for the thin wrappers: the root `pdf_ocr_module.py`, `check_json_issues.py`, `src/utils/logging_utils.py`, `rickygb.py` and the `__init__.py` re-exports.
- Paths in `src/pdf/pdf_batch_processor.py` are POSIX `pathlib` paths (BatchProcessor.PPath). The POSIX special case of a path that starts with exactly two slashes is not modelled, nor is Windows path syntax.
- BatchProcessor.NotInSubpath: the message of the `ValueError` that `relative_to` raises is written as Python 3.12 words it. Older versions add a second sentence, and `repr` quoting is simplified to single quotes around the path.
- BatchProcessor.PDFBatchProcessor.ProcessDirectory: the `mkdir` and `stat` calls before the `try` (src/pdf/pdf_batch_processor.py:71-94) are assumed to succeed, and writing the report file (:160-163) is not modelled.
- The other tools (the PDF splitters and OCR processor, the root Excel converter and the EPUB converter) join paths with PdfFiles.JoinPath as `dir + "/" + name` and split them with PdfFiles.FileName, without `pathlib`'s normalisation. The two agree for the relative, slash-free names these tools pass.
- MarkdownMerge.MergeFiles: each file's title is read once and shared by the table of contents and the body. The code reads every file twice, so the model assumes both reads give the same text.
- JsonSafeWrapper.SafeJson.DeepCleanText: adds all its fixes to `fixed_count` at the end, where the code adds them step by step. Nothing reads the counter in between.
- SplitterFinal.PDFSplitterFinal.constructor: requires a positive chapter size. With a size of 0 or less, the detector built from it has a non-positive maximum, and its back-fill loop would never end.
- ChapterDetector.SelectChapterBoundaries: requires `max_chapter_pages >= 1`, since with a smaller maximum the back-fill loop of the code never ends.
- ChapterDetector.DetectFromText: requires `max_chapter_pages >= 1` and `(min + max) // 2 >= 1`. A zero step makes the fallback `range` raise, and a negative one, which the code turns into an empty fallback, is excluded too.
- ChapterDetector.AnalyzeDocumentStructure: has the same two requirements as DetectFromText, for the same reasons.
- EpubV1.StructureSpec: the package entry is read once. When decoding it as UTF-8 fails, the code's retry reads the same entry again and decodes it as Latin-1. The model takes that second read to give the same bytes or raise the same exception as the first, so a `Decoded` read stands for either decoding.

## Findings

The operations of the model follow the code as written. Beside each fault below sits a corrected definition with its intended property proved.

| source | as written | input that shows it | evidently intended | confidence | as-written member | corrected member |
|---|---|---|---|---|---|---|
| src/pdf/pdf_ocr_processor.py:143-150 | `extract_text_with_preprocessing` catches its own failures and returns `""`, so the `[OCR失败]` marker is never written | a page whose rasterising raises | that page's failure is marked in the chapter text | not executed | `OcrProcessor.SwallowedFailureUnmarked` | `OcrModule.PreprocessedPageResult` with `OcrProcessor.RaisedFailureMarked` |
| src/pdf/pdf_batch_processor.py:119-152 | a finished file is counted as a success before `relative_to(self.base_output_dir)` runs; when that raises, the `except` branch counts it as a failure too | base `batch_output`, sub-directory `/tmp/out`, one file the splitter splits | each file is counted once, so successes plus failures equal the file count | not executed | `BatchProcessor.AbsoluteSubdirDoubleCounts` | `BatchProcessor.IntendedStepOf` with `BatchProcessor.IntendedTallies` |
| src/pdf/pdf_batch_processor.py:204-216 | `process_file_list` validates the files, then processes a fresh empty temporary directory | a list holding one existing `a.pdf` | the valid files are processed | not executed | `BatchProcessor.FileListNeverProcesses` | `BatchProcessor.FileListIntended` with `BatchProcessor.FileListIntendedProcessesValid` |
| src/excel/xlsx2md.py:293-306 | the already-converted check looks for the file name as a substring of the output | the output for `data.xlsx`, checked for `data.xls` | only this file's own title matches | not executed | `ExcelConverter.CheckMatchesNamePrefix` | `ExcelConverter.CheckIntended` with `ExcelConverter.CheckIntendedExact` |
| src/excel/xlsx2md_improved.py:184-202 | `should_skip_conversion` reads `safe_write_file.__wrapped__`, an attribute that does not exist; the exception is swallowed and the check never skips | any existing output, written by this converter, with `force=False` | an existing conversion of the same file is skipped | not executed | `ExcelImproved.ForceIsIgnored` | `ExcelImproved.SkipIntended` with `ExcelImproved.IntendedSkipsOwnOutput` |
| src/excel/xlsx2md_improved.py:365-375 | cells escape `\|` but not line breaks | a one-column table whose cell is `x` newline `y` | every table row stays on one line | not executed | `ExcelImproved.NewlineCellBreaksRow` | `ExcelImproved.IntendedMarkdown` with `ExcelImproved.IntendedLayout` |
| json_safe_wrapper.py:108-130 | a line with an odd quote count gets `"` appended, even when the line ends in an open backslash that escapes it | the line `"\` | every line ends with an even number of unescaped quotes | not executed | `JsonSafeWrapper.QuoteFixMissesPendingEscape` | `JsonSafeWrapper.FixQuotesLineIntended` with `JsonSafeWrapper.IntendedQuoteFixEven` |
| json_safe_wrapper.py:96-105 | the backslash fix runs before the `\xHH` fix and doubles the backslash, so the `\x` escape turns into literal text | `\x41` | `\x41` becomes the JSON escape `\u0041` | not executed | `JsonSafeWrapper.HexEscapeDoubled` | `JsonSafeWrapper.FixEscapesIntended` with `JsonSafeWrapper.HexEscapeConverted` |
| json_safe_wrapper.py:221-228 | `loads` imports `json` again, so once the patch is installed it calls itself | any non-empty text after `install_global_patch` | the parser saved before patching is called | not executed | `JsonSafeWrapper.PatchedLoadsRecurse` | `JsonSafeWrapper.IntendedLoads` with `JsonSafeWrapper.IntendedLoadsParses` |
| src/utils/json_final_fix.py:13-20 | `get_original_json` imports the shared module, which `install_global_fix` has patched, so `safe_json_loads` calls itself | any non-empty text after `install_global_fix` | the unpatched parser is used | not executed | `JsonFinalFix.FinalLoadsPatchedRecurse` | `JsonFinalFix.FinalLoadsIntended` with `JsonFinalFix.IntendedFinalLoadsOutcomes` |
| src/utils/json_final_fix.py:95-96 | the fragment search uses `(?R)`, which Python's `re` rejects, so when the text and its repair both fail to parse, `re.error` escapes | any text that fails to parse before and after repair | the longest fragment is tried, and failing that the default is returned | not executed | `JsonFinalFix.FinalLoadsStandardOutcomes` | `JsonFinalFix.FinalLoadsIntended` with `JsonFinalFix.FragmentsAreFragments` |
| src/utils/json_final_fix.py:49 | the backslash substitution can match at the second half of an escaped backslash | `\\q` (an escaped backslash, then `q`) becomes `\\\q` | a well-escaped text is left alone | not executed | `JsonFinalFix.FixBackslashesBreaksEscapedBackslash` | `JsonFinalFix.FixBackslashesIntended` with `JsonFinalFix.IntendedBackslashesIdentity` |
| src/utils/file_utils.py:200-209 | `b'PK\x03\x04'` and `b'\x50\x4B\x03\x04'` are the same key, so the later `.zip` entry replaces `.epub` | `book.bin` with a ZIP header, with `['.epub']` expected | an EPUB is recognised by its ZIP header | not executed | `FileUtils.EpubHeaderRejected` | `FileUtils.ValidateFileTypeIntended` with `FileUtils.IntendedAcceptsEpub` |
