/** `PDFSplitter` of `src/pdf/pdf_chapter_splitter_v1.py`, the first,
    fixed-interval splitter.  `split_pdf` cuts the document every
    `pages_per_chapter` pages; `split_pdf_streaming` first cuts it into
    chunks of `chunk_size` pages and then cuts each chunk the same way.
    The PDF reader is an oracle: `fileExists` says whether the input exists
    and `pageCount` is the reader's page count, `None` when opening or
    reading the PDF raises. */
module SplitterV1 {
  import opened Wrappers
  import opened Ranges
  import opened PdfFiles

  /** One chapter written: the path returned and the pages copied into it. */
  datatype ChapterFile = ChapterFile(path: string, span: Span)

  /** The span of chapter `k` in `split_pdf`:
      `[k * ppc, min((k + 1) * ppc, n))`. */
  function ChapterSpan(n: int, ppc: int, k: int): Span {
    Span(k * ppc, Min((k + 1) * ppc, n))
  }

  /** `(n + ppc - 1) // ppc`, clamped to the number of loop rounds. */
  function NumChapters(n: int, ppc: int): nat
    requires ppc != 0
  {
    Max(0, FloorDiv(n + ppc - 1, ppc)) as nat
  }

  /** The `k`-th chapter file (0-based), named with the 1-based number. */
  function Named(outDir: string, stem: string, k: nat, span: Span): ChapterFile {
    ChapterFile(JoinPath(outDir, ChapterFileName(stem, k + 1)), span)
  }

  /** Chapter files for a list of spans, numbered from 1 in order. */
  function NameAll(outDir: string, stem: string, spans: seq<Span>): (r: seq<ChapterFile>)
    ensures |r| == |spans|
    ensures forall k :: 0 <= k < |r| ==> r[k] == Named(outDir, stem, k, spans[k])
  {
    seq(|spans|, k requires 0 <= k < |spans| => Named(outDir, stem, k, spans[k]))
  }

  lemma NameAllSnoc(outDir: string, stem: string, spans: seq<Span>, s: Span)
    ensures NameAll(outDir, stem, spans + [s])
         == NameAll(outDir, stem, spans) + [Named(outDir, stem, |spans|, s)]
  {
    var a := NameAll(outDir, stem, spans + [s]);
    var b := NameAll(outDir, stem, spans) + [Named(outDir, stem, |spans|, s)];
    assert |a| == |b|;
    forall k | 0 <= k < |a| ensures a[k] == b[k] {
      if k < |spans| { assert (spans + [s])[k] == spans[k]; }
    }
  }

  lemma NameAllEq(outDir: string, stem: string, spans: seq<Span>, files: seq<ChapterFile>)
    requires |files| == |spans|
    requires forall k :: 0 <= k < |files| ==> files[k] == Named(outDir, stem, k, spans[k])
    ensures files == NameAll(outDir, stem, spans)
  {
  }

  // ---------------------------------------------------------------------
  // What split_pdf produces

  /** The spans `split_pdf` writes for an `n`-page PDF. */
  function FixedSplit(n: int, ppc: int): (r: seq<Span>)
    requires ppc != 0
    ensures |r| == NumChapters(n, ppc)
    ensures forall k :: 0 <= k < |r| ==> r[k] == ChapterSpan(n, ppc, k)
  {
    seq(NumChapters(n, ppc), k requires 0 <= k => ChapterSpan(n, ppc, k))
  }

  /** `split_pdf`: nothing for a missing input, a name whose suffix is not
      '.pdf' in some case, an unreadable or zero-page PDF, or a zero chapter
      size (the division by zero is caught); otherwise one chapter file per
      fixed span. */
  function SplitPdfSpec(fileExists: bool, path: string, pageCount: Option<nat>, outDir: string, ppc: int)
    : seq<ChapterFile>
  {
    if !fileExists || !IsPdfPath(path) || pageCount.None? || pageCount.value == 0 || ppc == 0 then []
    else NameAll(outDir, Stem(FileName(path)), FixedSplit(pageCount.value, ppc))
  }

  /** With a positive chapter size, a PDF with pages is cut into
      `ceil(n / ppc)` chapters: chapter `k` holds pages
      `[k * ppc, min((k + 1) * ppc, n))`, the chapters partition the pages in
      order, each has 1 to `ppc` pages, and their file names are distinct. */
  lemma FixedSplitProperties(n: nat, ppc: int)
    requires n >= 1 && ppc >= 1
    ensures |FixedSplit(n, ppc)| == CeilDiv(n, ppc)
    ensures forall k :: 0 <= k < |FixedSplit(n, ppc)| ==> FixedSplit(n, ppc)[k] == FixedSpan(n, ppc, k)
    ensures Tiles(FixedSplit(n, ppc), n)
    ensures forall k :: 0 <= k < |FixedSplit(n, ppc)| ==>
      1 <= FixedSplit(n, ppc)[k].end - FixedSplit(n, ppc)[k].start <= ppc
  {
    var r := FixedSplit(n, ppc);
    var q := CeilDiv(n, ppc);
    FloorDivCeil(n, ppc);
    FixedBoundsWellFormed(n, ppc);
    SpansTile(FixedBounds(n, ppc), n);
    var t := SpansOf(FixedBounds(n, ppc), n);
    forall k | 0 <= k < q ensures r[k] == FixedSpan(n, ppc, k) == t[k] {
      FixedSpansAt(n, ppc, k);
    }
    assert r == t;
    forall k | 0 <= k < q ensures r[k].end - r[k].start <= ppc {
      assert (k + 1) * ppc == k * ppc + ppc;
    }
  }

  /** The chapter file names of `split_pdf` are distinct. */
  lemma NamesDistinct(outDir: string, stem: string, spans: seq<Span>)
    ensures forall i, j :: 0 <= i < j < |spans| ==>
      NameAll(outDir, stem, spans)[i].path != NameAll(outDir, stem, spans)[j].path
  {
    forall i, j | 0 <= i < j < |spans|
      ensures NameAll(outDir, stem, spans)[i].path != NameAll(outDir, stem, spans)[j].path
    {
      ChapterFileNamesDistinct(stem, i + 1, j + 1);
      var x, y := ChapterFileName(stem, i + 1), ChapterFileName(stem, j + 1);
      assert JoinPath(outDir, x)[|outDir| + 1..] == x;
      assert JoinPath(outDir, y)[|outDir| + 1..] == y;
    }
  }

  /** A negative chapter size leaves a PDF of two or more pages without
      chapters, and turns a one-page PDF into one chapter file with no
      page at all. */
  lemma NegativeSizeCount(n: nat, ppc: int)
    requires n >= 1 && ppc < 0
    ensures NumChapters(n, ppc) == (if n == 1 then 1 else 0)
    ensures n == 1 ==> FixedSplit(n, ppc)[0].end < FixedSplit(n, ppc)[0].start
  {
    var k := -ppc;
    var x := 1 - n + k;
    assert FloorDiv(n + ppc - 1, ppc) == x / k;
    assert x == (x / k) * k + x % k && 0 <= x % k < k;
    if n == 1 {
      DivUnique(x, k, 1);
    } else {
      assert x < k;
      if x / k >= 1 { MulMonotone(1, x / k, k); }
    }
  }

  // ---------------------------------------------------------------------
  // What split_pdf_streaming produces

  /** The chapters of one chunk `[c, e)`, from loop round `j` of `m` on:
      round `j` cuts `[c + j * ppc, min(c + j * ppc + ppc, e))` and an
      empty span ends the chunk (the `break`). */
  function ChunkSpans(c: int, e: int, ppc: int, j: int, m: int): seq<Span>
    decreases m - j
  {
    if j >= m then []
    else
      var s := c + j * ppc;
      var t := Min(s + ppc, e);
      if s >= t then [] else [Span(s, t)] + ChunkSpans(c, e, ppc, j + 1, m)
  }

  /** `(pages_in_chunk + ppc - 1) // ppc`, the rounds of a chunk. */
  function ChunkRounds(c: int, e: int, ppc: int): int
    requires ppc != 0
  {
    FloorDiv(e - c + ppc - 1, ppc)
  }

  /** The chapters of the chunks starting at `c`, `c + chunk`, ... below `n`. */
  function Stream(c: int, n: int, chunk: int, ppc: int): seq<Span>
    requires chunk >= 1 && ppc != 0
    decreases n - c
  {
    if c >= n then []
    else
      var e := Min(c + chunk, n);
      ChunkSpans(c, e, ppc, 0, ChunkRounds(c, e, ppc)) + Stream(c + chunk, n, chunk, ppc)
  }

  /** `split_pdf_streaming`: nothing for a missing input or an unreadable or
      zero-page PDF, nor when `chunk_size` is not positive (`range` with step
      0 raises, a negative step gives no chunk) or the chapter size is 0;
      otherwise one chapter file per streamed span, numbered across chunks.
      Unlike `split_pdf` it does not look at the file name's suffix. */
  function StreamingSpec(fileExists: bool, path: string, pageCount: Option<nat>, outDir: string,
                         ppc: int, chunk: int): seq<ChapterFile>
  {
    if !fileExists || pageCount.None? || pageCount.value == 0 || chunk <= 0 || ppc == 0 then []
    else NameAll(outDir, Stem(FileName(path)), Stream(0, pageCount.value, chunk, ppc))
  }

  /** The spans cover `[a, b)` from left to right without gaps or overlap,
      each non-empty. */
  predicate Covers(spans: seq<Span>, a: int, b: int) {
    (spans == [] ==> a == b)
    && (spans != [] ==>
          spans[0].start == a && spans[|spans| - 1].end == b
          && (forall i :: 0 <= i < |spans| ==> spans[i].start < spans[i].end)
          && (forall i :: 0 <= i && i + 1 < |spans| ==> spans[i].end == spans[i + 1].start))
  }

  lemma CoversConcat(x: seq<Span>, y: seq<Span>, a: int, b: int, c: int)
    requires Covers(x, a, b) && Covers(y, b, c)
    ensures Covers(x + y, a, c)
  {
    var z := x + y;
    if x != [] && y != [] {
      forall i | 0 <= i && i + 1 < |z| ensures z[i].end == z[i + 1].start {
        if i + 1 < |x| {
        } else if i + 1 == |x| {
          assert z[i] == x[|x| - 1] && z[i + 1] == y[0];
        } else {
          assert z[i] == y[i - |x|] && z[i + 1] == y[i + 1 - |x|];
        }
      }
    } else if x == [] {
      assert z == y;
    } else {
      assert z == x;
    }
  }

  /** Each span holds 1 to `ppc` pages and lies within `[lo, hi)`. */
  predicate Within(spans: seq<Span>, lo: int, hi: int, ppc: int) {
    forall i :: 0 <= i < |spans| ==>
      lo <= spans[i].start && spans[i].end <= hi && 1 <= spans[i].end - spans[i].start <= ppc
  }

  lemma WithinConcat(x: seq<Span>, y: seq<Span>, lo: int, hi: int, ppc: int)
    requires Within(x, lo, hi, ppc) && Within(y, lo, hi, ppc)
    ensures Within(x + y, lo, hi, ppc)
  {
    forall i | 0 <= i < |x + y| ensures lo <= (x + y)[i].start {
      if i >= |x| { assert (x + y)[i] == y[i - |x|]; }
    }
  }

  lemma WithinWiden(x: seq<Span>, lo: int, lo': int, hi': int, hi: int, ppc: int)
    requires Within(x, lo', hi', ppc) && lo <= lo' && hi' <= hi
    ensures Within(x, lo, hi, ppc)
  {
  }

  /** The fixed chapters from page `c` on: `[c, min(c + ppc, n))`, then on
      from `c + ppc`. */
  function FixedFrom(c: int, n: int, ppc: int): seq<Span>
    requires ppc >= 1
    decreases n - c
  {
    if c >= n then [] else [Span(c, Min(c + ppc, n))] + FixedFrom(c + ppc, n, ppc)
  }

  /** The fixed chapters from `c` cover `[c, n)` in pieces of 1 to `ppc`
      pages. */
  lemma {:induction false} FixedFromCovers(c: int, n: int, ppc: int)
    requires ppc >= 1 && c <= n
    ensures Covers(FixedFrom(c, n, ppc), c, n) && Within(FixedFrom(c, n, ppc), c, n, ppc)
    decreases n - c
  {
    if c < n {
      var t := Min(c + ppc, n);
      FixedFromCovers(t, n, ppc);
      if c + ppc > n {
        assert FixedFrom(c + ppc, n, ppc) == [];
      }
      CoversConcat([Span(c, t)], FixedFrom(c + ppc, n, ppc), c, t, n);
      WithinConcat([Span(c, t)], FixedFrom(c + ppc, n, ppc), c, n, ppc);
    }
  }

  /** Where round `j` of a chunk `[c, e)` starts, compared with the
      chunk's end: before it exactly for the `ceil((e - c) / ppc)` rounds
      the loop makes. */
  lemma RoundStart(c: int, e: int, ppc: int, j: int)
    requires ppc >= 1 && c < e && j >= 0
    ensures j >= ChunkRounds(c, e, ppc) ==> c + j * ppc >= e
    ensures j < ChunkRounds(c, e, ppc) ==> c + j * ppc < e
    ensures c + (j + 1) * ppc == c + j * ppc + ppc
  {
    var m := ChunkRounds(c, e, ppc);
    FloorDivCeil(e - c, ppc);
    assert (j + 1) * ppc == j * ppc + ppc;
    if j >= m {
      MulMonotone(m, j, ppc);
    } else {
      MulMonotone(j, m - 1, ppc);
    }
  }

  /** With a positive chapter size the `break` never fires and the rounds
      of a chunk from `j` on are the fixed chapters of the chunk from round
      `j`'s start. */
  lemma {:induction false} ChunkIsFixed(c: int, e: int, ppc: int, j: int)
    requires ppc >= 1 && c < e && j >= 0
    ensures ChunkSpans(c, e, ppc, j, ChunkRounds(c, e, ppc)) == FixedFrom(c + j * ppc, e, ppc)
    decreases ChunkRounds(c, e, ppc) - j
  {
    RoundStart(c, e, ppc, j);
    if j < ChunkRounds(c, e, ppc) {
      ChunkIsFixed(c, e, ppc, j + 1);
    }
  }

  /** For a positive chapter size each chunk is cut into its fixed
      chapters. */
  lemma StreamFixedChunks(c: int, n: int, chunk: int, ppc: int)
    requires chunk >= 1 && ppc >= 1 && c < n
    ensures Stream(c, n, chunk, ppc)
         == FixedFrom(c, Min(c + chunk, n), ppc) + Stream(c + chunk, n, chunk, ppc)
  {
    ChunkIsFixed(c, Min(c + chunk, n), ppc, 0);
  }

  /** Every streamed chapter from `c` on has 1 to `ppc` pages and together
      they cover `[c, n)` in order. */
  lemma {:induction false} StreamCovers(c: int, n: int, chunk: int, ppc: int)
    requires chunk >= 1 && ppc >= 1 && c <= n
    ensures Covers(Stream(c, n, chunk, ppc), c, n) && Within(Stream(c, n, chunk, ppc), c, n, ppc)
    decreases n - c
  {
    if c < n {
      var e := Min(c + chunk, n);
      StreamFixedChunks(c, n, chunk, ppc);
      FixedFromCovers(c, e, ppc);
      if c + chunk <= n {
        StreamCovers(c + chunk, n, chunk, ppc);
      } else {
        StreamPast(c + chunk, n, chunk, ppc);
      }
      CoverBoth(FixedFrom(c, e, ppc), Stream(c + chunk, n, chunk, ppc), c, e, n, ppc);
    }
  }

  lemma StreamPast(c: int, n: int, chunk: int, ppc: int)
    requires chunk >= 1 && ppc != 0 && c >= n
    ensures Stream(c, n, chunk, ppc) == []
  {
  }

  /** Two consecutive covers make one. */
  lemma CoverBoth(head: seq<Span>, tail: seq<Span>, c: int, e: int, n: int, ppc: int)
    requires c <= e <= n
    requires Covers(head, c, e) && Within(head, c, e, ppc)
    requires Covers(tail, e, n) && Within(tail, e, n, ppc)
    ensures Covers(head + tail, c, n) && Within(head + tail, c, n, ppc)
  {
    CoversConcat(head, tail, c, e, n);
    WithinWiden(head, c, c, e, n, ppc);
    WithinWiden(tail, c, e, n, n, ppc);
    WithinConcat(head, tail, c, n, ppc);
  }

  /** No streamed chapter crosses a chunk edge: its first and last page
      lie in the same chunk. */
  lemma {:induction false} StreamChunkEdges(c: int, n: int, chunk: int, ppc: int)
    requires chunk >= 1 && ppc >= 1 && 0 <= c <= n && c % chunk == 0
    ensures forall i :: 0 <= i < |Stream(c, n, chunk, ppc)| ==>
      Stream(c, n, chunk, ppc)[i].start / chunk == (Stream(c, n, chunk, ppc)[i].end - 1) / chunk
    decreases n - c
  {
    if c < n {
      var e := Min(c + chunk, n);
      StreamFixedChunks(c, n, chunk, ppc);
      var head := FixedFrom(c, e, ppc);
      FixedFromCovers(c, e, ppc);
      var tail := Stream(c + chunk, n, chunk, ppc);
      if c + chunk <= n {
        ModStep(c + chunk, chunk);
        StreamChunkEdges(c + chunk, n, chunk, ppc);
      } else {
        assert tail == [];
      }
      var r := head + tail;
      forall i | 0 <= i < |r| ensures r[i].start / chunk == (r[i].end - 1) / chunk {
        if i < |head| {
          assert r[i] == head[i];
          SameChunk(c, chunk, r[i].start, r[i].end);
        } else {
          assert r[i] == tail[i - |head|];
        }
      }
    }
  }

  /** `(x - p) % p == x % p` */
  lemma ModStep(x: int, p: int)
    requires p >= 1
    ensures (x - p) % p == x % p
  {
    var q := x / p;
    assert x == q * p + x % p && 0 <= x % p < p;
    assert x - p == (q - 1) * p + x % p;
    DivUnique(x - p, p, q - 1);
  }

  /** Two pages of the chunk starting at a multiple `c` of `chunk` lie in
      chunk number `c / chunk`. */
  lemma SameChunk(c: int, chunk: int, x: int, y: int)
    requires chunk >= 1 && c % chunk == 0 && c <= x < y <= c + chunk
    ensures x / chunk == (y - 1) / chunk
  {
    var q := c / chunk;
    assert c == q * chunk + c % chunk;
    assert q * chunk + chunk == c + chunk;
    DivUnique(x, chunk, q);
    DivUnique(y - 1, chunk, q);
  }

  /** A negative chapter size gives no streamed chapter: the first round of
      each chunk hits the `break`. */
  lemma {:induction false} StreamNegative(c: int, n: int, chunk: int, ppc: int)
    requires chunk >= 1 && ppc < 0
    ensures Stream(c, n, chunk, ppc) == []
    decreases n - c
  {
    if c < n {
      StreamNegative(c + chunk, n, chunk, ppc);
    }
  }

  /** `split_pdf_streaming` with a positive chapter size and chunk size:
      its chapters have 1 to `ppc` pages, partition the PDF in order, and
      no chapter crosses a chunk edge. */
  lemma StreamingProperties(n: nat, ppc: int, chunk: int)
    requires n >= 1 && ppc >= 1 && chunk >= 1
    ensures Tiles(Stream(0, n, chunk, ppc), n)
    ensures forall i :: 0 <= i < |Stream(0, n, chunk, ppc)| ==>
      1 <= Stream(0, n, chunk, ppc)[i].end - Stream(0, n, chunk, ppc)[i].start <= ppc
    ensures forall i :: 0 <= i < |Stream(0, n, chunk, ppc)| ==>
      Stream(0, n, chunk, ppc)[i].start / chunk == (Stream(0, n, chunk, ppc)[i].end - 1) / chunk
  {
    StreamCovers(0, n, chunk, ppc);
    StreamChunkEdges(0, n, chunk, ppc);
  }

  // ---------------------------------------------------------------------
  // When streaming and fixed splitting agree

  lemma {:induction false} FixedFromAt(c: int, n: int, ppc: int)
    requires ppc >= 1
    ensures |FixedFrom(c, n, ppc)| == (if c >= n then 0 else CeilDiv(n - c, ppc))
    ensures forall k :: 0 <= k < |FixedFrom(c, n, ppc)| ==>
      FixedFrom(c, n, ppc)[k] == Span(c + k * ppc, Min(c + k * ppc + ppc, n))
    decreases n - c
  {
    if c < n {
      FixedFromAt(c + ppc, n, ppc);
      CeilDivStep(n - c, ppc);
      var r := FixedFrom(c, n, ppc);
      forall k | 1 <= k < |r| ensures r[k] == Span(c + k * ppc, Min(c + k * ppc + ppc, n)) {
        assert r[k] == FixedFrom(c + ppc, n, ppc)[k - 1];
        MulPred(c, k, ppc);
      }
    }
  }

  lemma MulPred(c: int, k: int, ppc: int)
    ensures c + ppc + (k - 1) * ppc == c + k * ppc
  {
  }

  /** The fixed chapters of `[c, e)` followed by those of `[e, n)` are the
      fixed chapters of `[c, n)` when `[c, e)` is a whole number of chapters
      long or reaches the end. */
  lemma {:induction false} FixedFromAppend(c: int, e: int, n: int, ppc: int)
    requires ppc >= 1 && c <= e <= n && (e == n || (e - c) % ppc == 0)
    ensures FixedFrom(c, e, ppc) + FixedFrom(e, n, ppc) == FixedFrom(c, n, ppc)
    decreases e - c
  {
    if e == n {
      assert FixedFrom(n, n, ppc) == [];
    } else if c < e {
      ModSmallNonZero(e - c, ppc);
      ModStep(e - c, ppc);
      assert e - (c + ppc) == e - c - ppc;
      FixedFromAppend(c + ppc, e, n, ppc);
    }
  }

  /** A positive multiple of `p` is at least `p`. */
  lemma ModSmallNonZero(x: int, p: int)
    requires p >= 1 && x > 0 && x % p == 0
    ensures x >= p
  {
    if x < p { DivUnique(x, p, 0); }
  }

  /** Streaming from a chunk start is the fixed split from there when the
      chunk size is a multiple of the chapter size. */
  lemma {:induction false} StreamIsFixed(c: int, n: int, chunk: int, ppc: int)
    requires ppc >= 1 && chunk >= 1 && chunk % ppc == 0
    ensures Stream(c, n, chunk, ppc) == FixedFrom(c, n, ppc)
    decreases n - c
  {
    if c < n {
      var e := Min(c + chunk, n);
      ChunkIsFixed(c, e, ppc, 0);
      StreamIsFixed(c + chunk, n, chunk, ppc);
      if c + chunk < n {
        assert e - c == chunk;
        FixedFromAppend(c, e, n, ppc);
      } else {
        assert Stream(c + chunk, n, chunk, ppc) == [] && FixedFrom(n, n, ppc) == [];
        FixedFromAppend(c, n, n, ppc);
      }
    }
  }

  /** When the chunk size is a multiple of the chapter size, streaming cuts
      exactly the chapters `split_pdf` cuts. */
  lemma StreamingMatchesFixed(n: nat, ppc: int, chunk: int)
    requires n >= 1 && ppc >= 1 && chunk >= 1 && chunk % ppc == 0
    ensures Stream(0, n, chunk, ppc) == FixedSplit(n, ppc)
  {
    StreamIsFixed(0, n, chunk, ppc);
    FixedFromAt(0, n, ppc);
    FloorDivCeil(n, ppc);
    var f := FixedSplit(n, ppc);
    forall k | 0 <= k < |f| ensures f[k] == FixedFrom(0, n, ppc)[k] {
      assert (k + 1) * ppc == k * ppc + ppc;
    }
  }

  /** Otherwise a short chapter closes each chunk: 10 pages with chapters
      of 3 and chunks of 5 stream as 3, 2, 3, 2 pages, where `split_pdf`
      cuts 3, 3, 3, 1. */
  lemma StreamingShortChapters()
    ensures Stream(0, 10, 5, 3) == [Span(0, 3), Span(3, 5), Span(5, 8), Span(8, 10)]
    ensures FixedSplit(10, 3) == [Span(0, 3), Span(3, 6), Span(6, 9), Span(9, 10)]
  {
    assert ChunkRounds(0, 5, 3) == 2;
    assert ChunkRounds(5, 10, 3) == 2;
    assert ChunkSpans(0, 5, 3, 0, 2) == [Span(0, 3), Span(3, 5)];
    assert ChunkSpans(5, 10, 3, 0, 2) == [Span(5, 8), Span(8, 10)];
    assert Stream(10, 10, 5, 3) == [];
    assert NumChapters(10, 3) == 4;
  }

  /** One chunk of the streaming loop: the chunk's rounds, then the
      chunks after it. */
  lemma StreamUnfold(spans: seq<Span>, c: int, n: int, chunk: int, ppc: int)
    requires chunk >= 1 && ppc != 0 && c < n
    ensures spans + Stream(c, n, chunk, ppc)
         == spans + ChunkSpans(c, Min(c + chunk, n), ppc, 0, ChunkRounds(c, Min(c + chunk, n), ppc))
            + Stream(c + chunk, n, chunk, ppc)
  {
  }

  /** One round of the chunk loop that does not `break` moves its chapter
      from the chunk's rounds to the chapters written. */
  lemma ChunkAdvance(spans: seq<Span>, s: Span, c: int, e: int, ppc: int, j: int, m: int,
                     rest: seq<Span>, total: seq<Span>)
    requires j < m && s == Span(c + j * ppc, Min(c + j * ppc + ppc, e)) && s.start < s.end
    requires spans + ChunkSpans(c, e, ppc, j, m) + rest == total
    ensures (spans + [s]) + ChunkSpans(c, e, ppc, j + 1, m) + rest == total
  {
    assert ChunkSpans(c, e, ppc, j, m) == [s] + ChunkSpans(c, e, ppc, j + 1, m);
  }

  /** The chunk loop ends, by its range or by the `break`, with no round
      left to cut. */
  lemma ChunkDone(spans: seq<Span>, c: int, e: int, ppc: int, j: int, m: int, rest: seq<Span>,
                  total: seq<Span>)
    requires j >= m || c + j * ppc >= Min(c + j * ppc + ppc, e)
    requires spans + ChunkSpans(c, e, ppc, j, m) + rest == total
    ensures spans + rest == total
  {
    assert ChunkSpans(c, e, ppc, j, m) == [];
  }

  // ---------------------------------------------------------------------
  // The splitter

  /** The chapter loop of `split_pdf` for an `n`-page PDF. */
  method CutFixed(outDir: string, stem: string, n: nat, ppc: int) returns (chapters: seq<ChapterFile>)
    requires ppc != 0
    ensures chapters == NameAll(outDir, stem, FixedSplit(n, ppc))
  {
    var numChapters := FloorDiv(n + ppc - 1, ppc);
    ghost var fixed := FixedSplit(n, ppc);
    chapters := [];
    var k := 0;
    while k < numChapters
      invariant 0 <= k && (k <= numChapters || k == 0)
      invariant |chapters| == k
      invariant forall i :: 0 <= i < k ==> chapters[i] == Named(outDir, stem, i, fixed[i])
    {
      var startPage := k * ppc;
      var endPage := Min((k + 1) * ppc, n);
      assert Span(startPage, endPage) == fixed[k];
      chapters := chapters + [ChapterFile(JoinPath(outDir, ChapterFileName(stem, k + 1)),
                                          Span(startPage, endPage))];
      k := k + 1;
    }
    NameAllEq(outDir, stem, fixed, chapters);
  }

  /** The chunk and chapter loops of `split_pdf_streaming`. */
  method CutStream(outDir: string, stem: string, n: nat, chunkSize: int, ppc: int)
    returns (chapters: seq<ChapterFile>)
    requires chunkSize >= 1 && ppc != 0
    ensures chapters == NameAll(outDir, stem, Stream(0, n, chunkSize, ppc))
  {
    chapters := [];
    ghost var spans: seq<Span> := [];
    var chapterNum := 1;
    var chunkStart := 0;
    while chunkStart < n
      invariant chunkStart >= 0
      invariant chapterNum == |spans| + 1
      invariant chapters == NameAll(outDir, stem, spans)
      invariant spans + Stream(chunkStart, n, chunkSize, ppc) == Stream(0, n, chunkSize, ppc)
      decreases n - chunkStart
    {
      var chunkEnd := Min(chunkStart + chunkSize, n);
      var chaptersInChunk := FloorDiv(chunkEnd - chunkStart + ppc - 1, ppc);
      ghost var rest := Stream(chunkStart + chunkSize, n, chunkSize, ppc);
      StreamUnfold(spans, chunkStart, n, chunkSize, ppc);
      var j := 0;
      while j < chaptersInChunk
        invariant j >= 0
        invariant chapterNum == |spans| + 1
        invariant chapters == NameAll(outDir, stem, spans)
        invariant spans + ChunkSpans(chunkStart, chunkEnd, ppc, j, chaptersInChunk) + rest
                  == Stream(0, n, chunkSize, ppc)
        decreases chaptersInChunk - j
      {
        var chapterStart := chunkStart + j * ppc;
        var chapterEnd := Min(chapterStart + ppc, chunkEnd);
        if chapterStart >= chapterEnd {
          break;
        }
        var s := Span(chapterStart, chapterEnd);
        NameAllSnoc(outDir, stem, spans, s);
        ChunkAdvance(spans, s, chunkStart, chunkEnd, ppc, j, chaptersInChunk, rest, Stream(0, n, chunkSize, ppc));
        chapters := chapters + [ChapterFile(JoinPath(outDir, ChapterFileName(stem, chapterNum)), s)];
        spans := spans + [s];
        chapterNum := chapterNum + 1;
        j := j + 1;
      }
      ChunkDone(spans, chunkStart, chunkEnd, ppc, j, chaptersInChunk, rest, Stream(0, n, chunkSize, ppc));
      chunkStart := chunkStart + chunkSize;
    }
  }

  class PDFSplitter {
    const pagesPerChapter: int

    /** `__init__`. */
    constructor (pagesPerChapter: int)
      ensures this.pagesPerChapter == pagesPerChapter
    {
      this.pagesPerChapter := pagesPerChapter;
    }

    /** `split_pdf`. */
    method SplitPdf(fileExists: bool, path: string, pageCount: Option<nat>, outDir: string)
      returns (chapters: seq<ChapterFile>)
      ensures chapters == SplitPdfSpec(fileExists, path, pageCount, outDir, pagesPerChapter)
    {
      if !fileExists || !IsPdfPath(path) || pageCount.None? {
        return [];
      }
      var n := pageCount.value;
      if n == 0 || pagesPerChapter == 0 {
        return [];
      }
      var stem := Stem(FileName(path));
      chapters := CutFixed(outDir, stem, n, pagesPerChapter);
    }

    /** `split_pdf_streaming`. */
    method SplitPdfStreaming(fileExists: bool, path: string, pageCount: Option<nat>, outDir: string,
                             chunkSize: int)
      returns (chapters: seq<ChapterFile>)
      ensures chapters == StreamingSpec(fileExists, path, pageCount, outDir, pagesPerChapter, chunkSize)
    {
      if !fileExists || pageCount.None? {
        return [];
      }
      var n := pageCount.value;
      if n == 0 || chunkSize <= 0 || pagesPerChapter == 0 {
        return [];
      }
      var ppc := pagesPerChapter;
      var stem := Stem(FileName(path));
      chapters := CutStream(outDir, stem, n, chunkSize, ppc);
    }
  }
}
