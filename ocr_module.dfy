/** `PDFOCR` of `src/pdf/pdf_ocr_module.py`: OCR of single pages and page
    lists, and the image clean-up run before OCR.  The libraries are
    oracles: `raster(p)` is what pdf2image returns for page `p` (`None` when
    it raises), `ocr(img)` is Tesseract's text for an image (`None` when it
    raises) and the PIL filters of a `Filters` value transform an image
    (`None` when they raise).  Images are a mode and a flat list of pixel
    intensities. */
module OcrModule {
  import opened Wrappers
  import opened PyText

  /** A PIL image: its mode (`"L"` for 8-bit grayscale) and its pixels in
      row order. */
  datatype Image = Image(mode: string, pixels: seq<int>)

  /** The PIL operations `preprocess_image` applies, and whether the numpy
      round trip of the binarization stage goes through. */
  datatype Filters = Filters(convertL: Image -> Option<Image>, medianFilter: Image -> Option<Image>,
                             equalize: Image -> Option<Image>, binarizeOk: bool)

  // ---------------------------------------------------------------------
  // Page text

  /** `extract_text_from_page`: "" when OCR is unavailable, the file is
      missing, the page is past the reader's page count (not checked when
      the count cannot be read), rasterizing raises or gives no image, or
      OCR raises; otherwise the stripped OCR text of the page's image. */
  function PageText(available: bool, fileExists: bool, pageCount: Option<nat>, page: int,
                    raster: int -> Option<seq<Image>>, ocr: Image -> Option<string>): string
  {
    if !available || !fileExists then ""
    else if pageCount.Some? && page >= pageCount.value then ""
    else if raster(page).None? || raster(page).value == [] then ""
    else if ocr(raster(page).value[0]).None? then ""
    else Strip(ocr(raster(page).value[0]).value)
  }

  /** A page's text is either "" or the stripped OCR text of its first
      image, and the latter only when every guard passed; whenever every
      guard passes that is what it is.  The text never has whitespace at
      either end. */
  lemma PageTextRules(available: bool, fileExists: bool, pageCount: Option<nat>, page: int,
                      raster: int -> Option<seq<Image>>, ocr: Image -> Option<string>)
    ensures var t := PageText(available, fileExists, pageCount, page, raster, ocr);
      var guards := available && fileExists && (pageCount.None? || page < pageCount.value)
                    && raster(page).Some? && raster(page).value != [] && ocr(raster(page).value[0]).Some?;
      && (t != "" ==> guards)
      && (guards ==> t == Strip(ocr(raster(page).value[0]).value))
      && Strip(t) == t
  {
    var t := PageText(available, fileExists, pageCount, page, raster, ocr);
    if t != "" {
      StripIdempotent(ocr(raster(page).value[0]).value);
    }
  }

  /** `pages_to_process`: every page when no list is given, otherwise the
      listed pages that exist, in the order listed. */
  function PagesToProcess(n: nat, pages: Option<seq<int>>): (r: seq<int>)
    ensures forall i :: 0 <= i < |r| ==> 0 <= r[i] < n
  {
    if pages.None? then seq(n, i requires 0 <= i < n => i)
    else InRange(pages.value, n)
  }

  /** `[p for p in pages if 0 <= p < n]` */
  function InRange(pages: seq<int>, n: nat): (r: seq<int>)
    ensures forall i :: 0 <= i < |r| ==> 0 <= r[i] < n
    ensures |r| <= |pages|
  {
    if pages == [] then []
    else InRange(pages[..|pages| - 1], n)
         + (if 0 <= pages[|pages| - 1] < n then [pages[|pages| - 1]] else [])
  }

  /** A page is kept exactly when it is listed and exists. */
  lemma {:induction false} InRangeMembers(pages: seq<int>, n: nat, p: int)
    ensures p in InRange(pages, n) <==> p in pages && 0 <= p < n
  {
    if pages != [] {
      var init := pages[..|pages| - 1];
      InRangeMembers(init, n, p);
      assert pages == init + [pages[|pages| - 1]];
    }
  }

  /** Without a list every page of the document is processed once, in
      page order; with one, exactly the listed pages that exist are. */
  lemma PagesToProcessMembers(n: nat, pages: Option<seq<int>>, p: int)
    ensures p in PagesToProcess(n, pages) <==> 0 <= p < n && (pages.None? || p in pages.value)
    ensures pages.None? ==>
      (|PagesToProcess(n, pages)| == n && forall i :: 0 <= i < n ==> PagesToProcess(n, pages)[i] == i)
  {
    if pages.Some? {
      InRangeMembers(pages.value, n, p);
    } else if 0 <= p < n {
      assert PagesToProcess(n, pages)[p] == p;
    }
  }

  /** The `results` dict after the loop has stored the pages of `ps`. */
  function ResultsOf(ps: seq<int>, available: bool, fileExists: bool, pageCount: Option<nat>,
                     raster: int -> Option<seq<Image>>, ocr: Image -> Option<string>): map<int, string>
  {
    if ps == [] then map[]
    else ResultsOf(ps[..|ps| - 1], available, fileExists, pageCount, raster, ocr)
           [ps[|ps| - 1] := PageText(available, fileExists, pageCount, ps[|ps| - 1], raster, ocr)]
  }

  /** The results map every page of `ps`, and only those, to its text. */
  lemma {:induction false} ResultsOfContents(ps: seq<int>, available: bool, fileExists: bool, pageCount: Option<nat>,
                                             raster: int -> Option<seq<Image>>, ocr: Image -> Option<string>)
    ensures var m := ResultsOf(ps, available, fileExists, pageCount, raster, ocr);
      && (forall p :: p in m <==> p in ps)
      && (forall p :: p in m ==> m[p] == PageText(available, fileExists, pageCount, p, raster, ocr))
  {
    if ps != [] {
      var init := ps[..|ps| - 1];
      ResultsOfContents(init, available, fileExists, pageCount, raster, ocr);
      assert ps == init + [ps[|ps| - 1]];
    }
  }

  /** `extract_text_from_pdf`: nothing when OCR is unavailable, the file is
      missing or its page count cannot be read; otherwise the text of each
      page processed. */
  function ExtractSpec(available: bool, fileExists: bool, pageCount: Option<nat>, pages: Option<seq<int>>,
                       raster: int -> Option<seq<Image>>, ocr: Image -> Option<string>): map<int, string>
  {
    if !available || !fileExists || pageCount.None? then map[]
    else ResultsOf(PagesToProcess(pageCount.value, pages), available, fileExists, pageCount, raster, ocr)
  }

  /** The pages in the result are exactly the existing pages asked for (all
      of them by default), and each maps to its `extract_text_from_page`
      text. */
  lemma ExtractProperties(available: bool, fileExists: bool, pageCount: Option<nat>, pages: Option<seq<int>>,
                          raster: int -> Option<seq<Image>>, ocr: Image -> Option<string>, p: int)
    requires available && fileExists && pageCount.Some?
    ensures var m := ExtractSpec(available, fileExists, pageCount, pages, raster, ocr);
      && (p in m <==> 0 <= p < pageCount.value && (pages.None? || p in pages.value))
      && (p in m ==> m[p] == PageText(available, fileExists, pageCount, p, raster, ocr))
  {
    PagesToProcessMembers(pageCount.value, pages, p);
    ResultsOfContents(PagesToProcess(pageCount.value, pages), available, fileExists, pageCount, raster, ocr);
  }

  // ---------------------------------------------------------------------
  // Preprocessing

  /** Non-decreasing order. */
  predicate SortedInts(s: seq<int>) {
    forall i, j :: 0 <= i < j < |s| ==> s[i] <= s[j]
  }

  /** `x` put into place in a sorted list. */
  function Insert(x: int, t: seq<int>): seq<int> {
    if t == [] || x <= t[0] then [x] + t else [t[0]] + Insert(x, t[1..])
  }

  lemma {:induction false} InsertFacts(x: int, t: seq<int>)
    requires SortedInts(t)
    ensures SortedInts(Insert(x, t))
    ensures multiset(Insert(x, t)) == multiset(t) + multiset{x} && |Insert(x, t)| == |t| + 1
  {
    if t != [] && x > t[0] {
      InsertFacts(x, t[1..]);
      InsertBound(x, t[1..], t[0]);
      assert t == [t[0]] + t[1..];
      PrependSorted(t[0], Insert(x, t[1..]));
    }
  }

  /** What is inserted into a list bounded below by `b` stays bounded. */
  lemma {:induction false} InsertBound(x: int, t: seq<int>, b: int)
    requires x >= b && forall i :: 0 <= i < |t| ==> t[i] >= b
    ensures forall i :: 0 <= i < |Insert(x, t)| ==> Insert(x, t)[i] >= b
  {
    if t != [] && x > t[0] {
      InsertBound(x, t[1..], b);
    }
  }

  lemma PrependSorted(y: int, r: seq<int>)
    requires SortedInts(r) && forall i :: 0 <= i < |r| ==> y <= r[i]
    ensures SortedInts([y] + r)
  {
    var s := [y] + r;
    forall i, j | 0 <= i < j < |s| ensures s[i] <= s[j] {
      assert s[j] == r[j - 1];
      if i > 0 { assert s[i] == r[i - 1]; }
    }
  }

  /** The pixels in non-decreasing order, as `np.median` sorts them. */
  function SortInts(s: seq<int>): (t: seq<int>)
    ensures SortedInts(t) && multiset(t) == multiset(s) && |t| == |s|
  {
    if s == [] then []
    else
      assert s == [s[0]] + s[1..];
      InsertFacts(s[0], SortInts(s[1..]));
      Insert(s[0], SortInts(s[1..]))
  }

  /** How many of the smallest values of a list of length `n` lie at or
      below the median. */
  function LowCut(n: nat): nat {
    if n % 2 == 1 then n / 2 + 1 else n / 2
  }

  /** Twice the median of a sorted non-empty list. */
  function MiddleSum(t: seq<int>): int
    requires |t| > 0
  {
    if |t| % 2 == 1 then 2 * t[|t| / 2] else t[|t| / 2 - 1] + t[|t| / 2]
  }

  /** Twice `np.median` of a non-empty list: the middle value, or the sum
      of the two middle values for an even length. */
  function Median2(s: seq<int>): int
    requires |s| > 0
  {
    MiddleSum(SortInts(s))
  }

  /** The lower half of a sorted list, up to the median, does not lie above
      it, and what is left is at most half the list. */
  lemma MedianCut(t: seq<int>)
    requires SortedInts(t) && |t| > 0
    ensures LowCut(|t|) <= |t| && 2 * (|t| - LowCut(|t|)) <= |t|
    ensures forall i :: 0 <= i < LowCut(|t|) ==> 2 * t[i] <= MiddleSum(t)
  {
    var h := |t| / 2;
    forall i | 0 <= i < LowCut(|t|) ensures 2 * t[i] <= MiddleSum(t) {
      if |t| % 2 == 1 {
        assert t[i] <= t[h];
      } else {
        assert t[i] <= t[h - 1] <= t[h];
      }
    }
  }

  /** `(img_array > np.median(img_array)).astype(np.uint8) * 255`: white
      exactly where a pixel is strictly above the median.  An empty array
      stays empty. */
  function BinaryPixels(px: seq<int>): (r: seq<int>)
    ensures |r| == |px|
  {
    if px == [] then []
    else
      var m2 := Median2(px);
      seq(|px|, i requires 0 <= i < |px| => if 2 * px[i] > m2 then 255 else 0)
  }

  /** `preprocess_image`: the identity when preprocessing is off;
      otherwise grayscale conversion, then median filter, histogram
      equalization and binarization, each stage falling back to its input
      when it raises.  A failing grayscale conversion, which no inner
      guard catches, returns the original image. */
  function Preprocess(enabled: bool, img: Image, f: Filters): Image {
    if !enabled then img
    else
      var gray := if img.mode != "L" then f.convertL(img) else Some(img);
      if gray.None? then img
      else
        var denoised := if f.medianFilter(gray.value).Some? then f.medianFilter(gray.value).value else gray.value;
        var enhanced := if f.equalize(denoised).Some? then f.equalize(denoised).value else denoised;
        if f.binarizeOk then Image("L", BinaryPixels(enhanced.pixels)) else enhanced
  }

  /** The stages of a successful pass, in order, with each failure falling
      back to the previous stage's image. */
  lemma PreprocessRules(enabled: bool, img: Image, f: Filters)
    ensures !enabled ==> Preprocess(enabled, img, f) == img
    ensures enabled && img.mode != "L" && f.convertL(img).None? ==> Preprocess(enabled, img, f) == img
    ensures enabled && (img.mode == "L" || f.convertL(img).Some?) ==>
      var gray := if img.mode == "L" then img else f.convertL(img).value;
      var denoised := if f.medianFilter(gray).None? then gray else f.medianFilter(gray).value;
      var enhanced := if f.equalize(denoised).None? then denoised else f.equalize(denoised).value;
      Preprocess(enabled, img, f) == if f.binarizeOk then Image("L", BinaryPixels(enhanced.pixels)) else enhanced
  {
  }

  /** Number of white pixels. */
  function Whites(px: seq<int>): (c: nat)
    ensures c <= |px|
  {
    if px == [] then 0 else Whites(px[..|px| - 1]) + (if px[|px| - 1] == 255 then 1 else 0)
  }

  /** Number of pixels `x` with `2 * x > m2`. */
  function Above(s: seq<int>, m2: int): (c: nat)
    ensures c <= |s|
  {
    if s == [] then 0 else (if 2 * s[0] > m2 then 1 else 0) + Above(s[1..], m2)
  }

  lemma {:induction false} AboveConcat(a: seq<int>, b: seq<int>, m2: int)
    ensures Above(a + b, m2) == Above(a, m2) + Above(b, m2)
  {
    if a == [] {
      assert a + b == b;
    } else {
      assert (a + b)[0] == a[0] && (a + b)[1..] == a[1..] + b;
      AboveConcat(a[1..], b, m2);
    }
  }

  lemma {:induction false} AboveInsert(x: int, t: seq<int>, m2: int)
    ensures Above(Insert(x, t), m2) == Above(t, m2) + (if 2 * x > m2 then 1 else 0)
  {
    if t != [] && x > t[0] {
      AboveInsert(x, t[1..], m2);
      assert Insert(x, t) == [t[0]] + Insert(x, t[1..]);
    }
  }

  /** Sorting does not change how many pixels lie above a threshold. */
  lemma {:induction false} AboveSort(s: seq<int>, m2: int)
    ensures Above(SortInts(s), m2) == Above(s, m2)
  {
    if s != [] {
      AboveSort(s[1..], m2);
      AboveInsert(s[0], SortInts(s[1..]), m2);
    }
  }

  /** No pixel of a list lies above a threshold its maximum does not pass. */
  lemma {:induction false} AboveNone(s: seq<int>, m2: int)
    requires forall i :: 0 <= i < |s| ==> 2 * s[i] <= m2
    ensures Above(s, m2) == 0
  {
    if s != [] {
      AboveNone(s[1..], m2);
    }
  }

  /** The white pixels of the binarized list are those above the median. */
  lemma {:induction false} WhitesAbove(px: seq<int>, m2: int)
    ensures Whites(seq(|px|, i requires 0 <= i < |px| => if 2 * px[i] > m2 then 255 else 0)) == Above(px, m2)
  {
    var b := seq(|px|, i requires 0 <= i < |px| => if 2 * px[i] > m2 then 255 else 0);
    if px != [] {
      var init := px[..|px| - 1];
      var b' := seq(|init|, i requires 0 <= i < |init| => if 2 * init[i] > m2 then 255 else 0);
      WhitesAbove(init, m2);
      assert b[..|b| - 1] == b';
      AboveConcat(init, [px[|px| - 1]], m2);
      assert px == init + [px[|px| - 1]];
    }
  }

  /** Binarization makes every pixel black or white, and at most half of
      them white, since white means strictly above the median. */
  lemma BinaryHalf(px: seq<int>)
    ensures forall i :: 0 <= i < |px| ==> BinaryPixels(px)[i] == 0 || BinaryPixels(px)[i] == 255
    ensures 2 * Whites(BinaryPixels(px)) <= |px|
  {
    if px != [] {
      var t := SortInts(px);
      var m2 := MiddleSum(t);
      var cut := LowCut(|t|);
      WhitesAbove(px, m2);
      AboveSort(px, m2);
      MedianCut(t);
      assert t == t[..cut] + t[cut..];
      AboveConcat(t[..cut], t[cut..], m2);
      AboveNone(t[..cut], m2);
    }
  }

  /** `extract_text_with_preprocessing`: "" when OCR is unavailable or
      anything raises (rasterizing, the filters outside their guards, OCR)
      or no image comes back; otherwise the stripped OCR text of the page
      image, preprocessed when preprocessing is on. */
  function PreprocessedPageText(available: bool, enabled: bool, page: int, raster: int -> Option<seq<Image>>,
                                f: Filters, ocr: Image -> Option<string>): string
  {
    if !available then ""
    else if raster(page).None? || raster(page).value == [] then ""
    else
      var img := raster(page).value[0];
      var processed := if enabled then Preprocess(enabled, img, f) else img;
      if ocr(processed).None? then "" else Strip(ocr(processed).value)
  }

  /** The text is "" or the stripped OCR text of the (preprocessed) first
      image; it can never signal a failure other than by being empty. */
  lemma PreprocessedPageTextRules(available: bool, enabled: bool, page: int, raster: int -> Option<seq<Image>>,
                                  f: Filters, ocr: Image -> Option<string>)
    ensures var t := PreprocessedPageText(available, enabled, page, raster, f, ocr);
      && Strip(t) == t
      && (t != "" ==>
            (available && raster(page).Some? && raster(page).value != []
             && ocr(Preprocess(enabled, raster(page).value[0], f)).Some?
             && t == Strip(ocr(Preprocess(enabled, raster(page).value[0], f)).value)))
  {
    var t := PreprocessedPageText(available, enabled, page, raster, f, ocr);
    if t != "" {
      StripIdempotent(ocr(Preprocess(enabled, raster(page).value[0], f)).value);
    }
  }

  /** What `extract_text_with_preprocessing` would report if it let its
      exceptions reach the caller instead of swallowing them: `None` when
      rasterizing or OCR raises, otherwise the text. */
  function PreprocessedPageResult(available: bool, enabled: bool, page: int, raster: int -> Option<seq<Image>>,
                                  f: Filters, ocr: Image -> Option<string>): Option<string>
  {
    if !available then Some("")
    else if raster(page).None? then None
    else if raster(page).value == [] then Some("")
    else
      var img := raster(page).value[0];
      var processed := if enabled then Preprocess(enabled, img, f) else img;
      if ocr(processed).None? then None else Some(Strip(ocr(processed).value))
  }

  /** The swallowing version returns the same text, with every failure
      turned into "". */
  lemma PreprocessedResultAgrees(available: bool, enabled: bool, page: int, raster: int -> Option<seq<Image>>,
                                 f: Filters, ocr: Image -> Option<string>)
    ensures PreprocessedPageText(available, enabled, page, raster, f, ocr)
         == match PreprocessedPageResult(available, enabled, page, raster, f, ocr)
            case None => ""
            case Some(t) => t
    ensures PreprocessedPageResult(available, enabled, page, raster, f, ocr).None? <==>
      available && (raster(page).None? ||
        (raster(page).value != [] &&
         ocr(if enabled then Preprocess(enabled, raster(page).value[0], f) else raster(page).value[0]).None?))
  {
  }

  class PDFOCR {
    const lang: string
    const enablePreprocessing: bool
    const tesseractAvailable: bool
    const pdf2imageAvailable: bool
    const pilAvailable: bool

    /** `__init__` and `_check_dependencies`: one flag per library that
        imports. */
    constructor (lang: string, enablePreprocessing: bool, tesseract: bool, pdf2image: bool, pil: bool)
      ensures this.lang == lang && this.enablePreprocessing == enablePreprocessing
      ensures tesseractAvailable == tesseract && pdf2imageAvailable == pdf2image && pilAvailable == pil
    {
      this.lang := lang;
      this.enablePreprocessing := enablePreprocessing;
      tesseractAvailable := tesseract;
      pdf2imageAvailable := pdf2image;
      pilAvailable := pil;
    }

    /** `is_ocr_available`: all three libraries. */
    predicate IsOcrAvailable() {
      tesseractAvailable && pdf2imageAvailable && pilAvailable
    }

    /** `extract_text_from_pdf`. */
    method ExtractTextFromPdf(fileExists: bool, pageCount: Option<nat>, pages: Option<seq<int>>,
                              raster: int -> Option<seq<Image>>, ocr: Image -> Option<string>)
      returns (results: map<int, string>)
      ensures results == ExtractSpec(IsOcrAvailable(), fileExists, pageCount, pages, raster, ocr)
    {
      if !IsOcrAvailable() || !fileExists || pageCount.None? {
        return map[];
      }
      var totalPages := pageCount.value;
      var pagesToProcess := PagesToProcess(totalPages, pages);
      results := map[];
      var i := 0;
      while i < |pagesToProcess|
        invariant 0 <= i <= |pagesToProcess|
        invariant results == ResultsOf(pagesToProcess[..i], true, fileExists, pageCount, raster, ocr)
      {
        var pageNum := pagesToProcess[i];
        var text := PageText(true, fileExists, pageCount, pageNum, raster, ocr);
        assert pagesToProcess[..i + 1][..i] == pagesToProcess[..i];
        results := results[pageNum := text];
        i := i + 1;
      }
      assert pagesToProcess[..i] == pagesToProcess;
    }
  }
}
