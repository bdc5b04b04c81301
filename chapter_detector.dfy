/** The chapter detector of `pdf_chapter_detector.py`: it scores the text of
    each page against a catalogue of heading patterns, accepts high-scoring
    pages greedily under a minimum/maximum chapter length, back-fills
    boundaries every `max` pages, and turns the boundaries into chapter
    records.  Confidences are kept in tenths: 8, 7 and 6 stand for the
    literals 0.8, 0.7 and 0.6, and 0 for "not a chapter start". */
module ChapterDetector {
  import opened Wrappers
  import opened PyText
  import opened Ranges

  // ---------------------------------------------------------------------
  // The heading catalogue (compiled with IGNORECASE, applied with search)

  datatype Pattern =
    | ChineseChapter   // 第, one or more Chinese numerals or digits, 章
    | ChineseSection   // 第, one or more Chinese numerals or digits, 节
    | ChineseEnum      // one of 零..十 followed by 、
    | NumberMark       // digits followed by '.' or 、
    | LetterDot        // a letter followed by '.'
    | ChapterNumber    // "chapter", whitespace, digits
    | ChapterRoman     // "chapter", whitespace, Roman-numeral letters
    | SectionNumber    // "section", whitespace, digits
    | PartNumber       // "part", whitespace, digits
    | LeadingNumber    // at the very start: whitespace, digits, '.', whitespace
    | LeadingLetter    // at the very start: whitespace, a letter, whitespace

  /** The catalogue in the order the detector tries it. */
  const Catalogue: seq<Pattern> := [ChineseChapter, ChineseSection, ChineseEnum,
    NumberMark, LetterDot, ChapterNumber, ChapterRoman, SectionNumber,
    PartNumber, LeadingNumber, LeadingLetter]

  predicate IsSmallNumeral(c: char) {
    c == '零' || c == '一' || c == '二' || c == '三' || c == '四' || c == '五'
    || c == '六' || c == '七' || c == '八' || c == '九' || c == '十'
  }

  /** The character class of the `第…章` and `第…节` patterns. */
  predicate IsNumeral(c: char) {
    IsSmallNumeral(c) || c == '百' || c == '千' || c == '万' || IsDigit(c)
  }

  /** The letters of `[IVXLCDM]` under IGNORECASE. */
  predicate IsRomanLetter(c: char) {
    var l := LowerChar(c);
    l == 'i' || l == 'v' || l == 'x' || l == 'l' || l == 'c' || l == 'd' || l == 'm'
  }

  /** End of the run of numerals starting at `i`. */
  function NumeralRunEnd(s: string, i: nat): (j: nat)
    requires i <= |s|
    ensures i <= j <= |s| && (j == |s| || !IsNumeral(s[j]))
    ensures forall k :: i <= k < j ==> IsNumeral(s[k])
    decreases |s| - i
  {
    if i < |s| && IsNumeral(s[i]) then NumeralRunEnd(s, i + 1) else i
  }

  /** End of the run of whitespace starting at `i`. */
  function SpaceRunEnd(s: string, i: nat): (j: nat)
    requires i <= |s|
    ensures i <= j <= |s| && (j == |s| || !IsSpace(s[j]))
    ensures forall k :: i <= k < j ==> IsSpace(s[k])
    decreases |s| - i
  {
    if i < |s| && IsSpace(s[i]) then SpaceRunEnd(s, i + 1) else i
  }

  /** End of the run of digits starting at `i`. */
  function DigitRunEnd(s: string, i: nat): (j: nat)
    requires i <= |s|
    ensures i <= j <= |s| && (j == |s| || !IsDigit(s[j]))
    ensures forall k :: i <= k < j ==> IsDigit(s[k])
    decreases |s| - i
  {
    if i < |s| && IsDigit(s[i]) then DigitRunEnd(s, i + 1) else i
  }

  /** `w` (lower case) occurs at `i` when case is ignored. */
  predicate WordAt(s: string, i: nat, w: string)
    decreases |w|
  {
    i + |w| <= |s| && (w == [] || (LowerChar(s[i]) == w[0] && WordAt(s, i + 1, w[1..])))
  }

  /** A keyword, then at least one whitespace character, then a character
      accepted by `digitLike`.  The whitespace run must be maximal because
      no whitespace character is a digit or a Roman-numeral letter. */
  predicate KeywordThen(s: string, i: nat, w: string, roman: bool) {
    WordAt(s, i, w) &&
    var j := SpaceRunEnd(s, i + |w|);
    j > i + |w| && j < |s| && (if roman then IsRomanLetter(s[j]) else IsDigit(s[j]))
  }

  /** Pattern `p` matches `s` starting at index `i`.  For the patterns led by
      `\d+` a match with one digit exists exactly when a longer one does, so
      the one-digit form gives the same `search` result. */
  predicate MatchesAt(p: Pattern, s: string, i: nat)
    requires i <= |s|
  {
    match p
    case ChineseChapter =>
      i < |s| && s[i] == '第' &&
      var j := NumeralRunEnd(s, i + 1); j > i + 1 && j < |s| && s[j] == '章'
    case ChineseSection =>
      i < |s| && s[i] == '第' &&
      var j := NumeralRunEnd(s, i + 1); j > i + 1 && j < |s| && s[j] == '节'
    case ChineseEnum => i + 1 < |s| && IsSmallNumeral(s[i]) && s[i + 1] == '、'
    case NumberMark => i + 1 < |s| && IsDigit(s[i]) && (s[i + 1] == '.' || s[i + 1] == '、')
    case LetterDot => i + 1 < |s| && IsLetter(s[i]) && s[i + 1] == '.'
    case ChapterNumber => KeywordThen(s, i, "chapter", false)
    case ChapterRoman => KeywordThen(s, i, "chapter", true)
    case SectionNumber => KeywordThen(s, i, "section", false)
    case PartNumber => KeywordThen(s, i, "part", false)
    case LeadingNumber =>
      i == 0 &&
      var j := SpaceRunEnd(s, 0); var k := DigitRunEnd(s, j);
      k > j && k + 1 < |s| && s[k] == '.' && IsSpace(s[k + 1])
    case LeadingLetter =>
      i == 0 &&
      var j := SpaceRunEnd(s, 0);
      j + 1 < |s| && IsLetter(s[j]) && IsSpace(s[j + 1])
  }

  /** `pattern.search(s)` found something. */
  predicate Search(p: Pattern, s: string) {
    exists i :: 0 <= i <= |s| && MatchesAt(p, s, i)
  }

  // ---------------------------------------------------------------------
  // Scoring one page

  /** Rule 1: a pattern that occurs in the (stripped) text and also in one
      of its first three lines, each line stripped. */
  predicate PatternNearTop(text: string) {
    var lines := Split(text, '\n');
    exists p :: p in Catalogue && Search(p, text)
      && exists k :: 0 <= k < |lines| && k < 3 && Search(p, Strip(lines[k]))
  }

  /** The number of heading features of a first line (rule 2). */
  function HeadingFeatures(firstLine: string, lineCount: nat): (n: nat)
    ensures n <= 3
  {
    (if firstLine != [] && (IsDigit(firstLine[0]) || IsUpper(firstLine[0])) then 1 else 0)
    + (if '.' !in firstLine then 1 else 0)
    + (if lineCount <= 3 then 1 else 0)
  }

  /** Rule 2: a first line of 6 to 99 characters with two of the three
      heading features. */
  predicate LooksLikeHeading(text: string) {
    var lines := Split(text, '\n');
    var first := Strip(lines[0]);
    5 < |first| < 100 && HeadingFeatures(first, |lines|) >= 2
  }

  const FrontMatterWords: seq<string> := ["目录", "前言", "引言", "摘要", "abstract", "contents"]

  /** Rule 3: one of the front-matter words occurs (case-sensitively). */
  predicate HasFrontMatterWord(text: string) {
    exists w :: w in FrontMatterWords && Contains(text, w)
  }

  /** `_is_chapter_start`: the confidence, in tenths, of the first rule that
      applies to the stripped text, or 0 when none does. */
  function ChapterStartConfidence(text: string, page: int): (c: nat)
    ensures c == 0 || c == 6 || c == 7 || c == 8
  {
    var t := Strip(text);
    if PatternNearTop(t) then 8
    else if LooksLikeHeading(t) then 6
    else if page < 5 && HasFrontMatterWord(t) then 7
    else 0
  }

  /** The rules are tried in order and the first that applies decides: a
      pattern near the top gives 0.8 whatever else holds, the heading shape
      0.6, and the front-matter words 0.7 but only on the first five pages. */
  lemma ChapterStartRules(text: string, page: int)
    ensures ChapterStartConfidence(text, page) == 8 <==> PatternNearTop(Strip(text))
    ensures ChapterStartConfidence(text, page) == 6 <==>
      !PatternNearTop(Strip(text)) && LooksLikeHeading(Strip(text))
    ensures ChapterStartConfidence(text, page) == 7 <==>
      !PatternNearTop(Strip(text)) && !LooksLikeHeading(Strip(text))
      && page < 5 && HasFrontMatterWord(Strip(text))
    ensures ChapterStartConfidence(text, page) == 0 <==>
      !PatternNearTop(Strip(text)) && !LooksLikeHeading(Strip(text))
      && !(page < 5 && HasFrontMatterWord(Strip(text)))
  {
  }

  /** Because `[A-Z]\.` is searched case-insensitively, any first line that
      holds a letter followed by a full stop (an ordinary English sentence)
      already scores 0.8. */
  lemma LetterDotScoresHigh(text: string, i: nat)
    requires var first := Strip(Split(Strip(text), '\n')[0]);
      i + 1 < |first| && IsLetter(first[i]) && first[i + 1] == '.'
    ensures ChapterStartConfidence(text, 0) == 8
  {
    var t := Strip(text);
    var lines := Split(t, '\n');
    var first := Strip(lines[0]);
    assert MatchesAt(LetterDot, first, i);
    JoinSplit(t, '\n');
    FirstPieceOccurs(t, '\n');
    var a := LeadingSpaces(lines[0]);
    assert OccursAt(lines[0], first, a);
    assert t[a + i] == first[i] && t[a + i + 1] == first[i + 1];
    assert MatchesAt(LetterDot, t, a + i);
    assert LetterDot in Catalogue;
  }

  /** The first piece of a split is a prefix of the text. */
  lemma {:induction false} FirstPieceOccurs(s: string, sep: char)
    ensures OccursAt(s, Split(s, sep)[0], 0)
  {
    if s != [] && s[0] != sep {
      FirstPieceOccurs(s[1..], sep);
    }
  }

  /** The front-matter rule only ever fires on the first five pages. */
  lemma FrontMatterOnlyEarly(text: string, page: int)
    requires page >= 5
    ensures ChapterStartConfidence(text, page) != 7
  {
  }

  // ---------------------------------------------------------------------
  // Collecting candidates

  datatype Candidate = Candidate(page: int, confidence: nat)

  /** Pages whose text is empty or strips to fewer than 10 characters are
      skipped before scoring. */
  predicate TooShort(text: string) { text == [] || |Strip(text)| < 10 }

  /** The score a page receives in `detect_from_text`: 0 for a missing or
      too short page, otherwise its chapter-start confidence. */
  function PageScore(pageTexts: map<nat, string>, p: nat): nat {
    if p in pageTexts && !TooShort(pageTexts[p]) then ChapterStartConfidence(pageTexts[p], p) else 0
  }

  /** The scores of pages `0 .. total - 1`. */
  function Scores(pageTexts: map<nat, string>, total: nat): (r: seq<nat>)
    ensures |r| == total && forall p :: 0 <= p < total ==> r[p] == PageScore(pageTexts, p)
  {
    seq(total, p requires 0 <= p => PageScore(pageTexts, p))
  }

  /** The candidates among pages `0 .. n - 1`: the pages with a positive
      score, in page order, which is the order the detector sorts them
      into. */
  function CandidatesUpTo(scores: seq<nat>, n: nat): seq<Candidate>
    requires n <= |scores|
  {
    if n == 0 then []
    else
      var rest := CandidatesUpTo(scores, n - 1);
      if scores[n - 1] > 0 then rest + [Candidate(n - 1, scores[n - 1])] else rest
  }

  /** The candidates are in strictly increasing page order, below `n`, and
      each carries its page's score. */
  lemma {:induction false} CandidatesOrdered(scores: seq<nat>, n: nat)
    requires n <= |scores|
    ensures forall k :: 0 <= k < |CandidatesUpTo(scores, n)| ==>
      (0 <= CandidatesUpTo(scores, n)[k].page < n
       && CandidatesUpTo(scores, n)[k].confidence == scores[CandidatesUpTo(scores, n)[k].page] > 0)
    ensures forall i, j :: 0 <= i < j < |CandidatesUpTo(scores, n)| ==>
      CandidatesUpTo(scores, n)[i].page < CandidatesUpTo(scores, n)[j].page
  {
    if n > 0 {
      CandidatesOrdered(scores, n - 1);
      var rest := CandidatesUpTo(scores, n - 1);
      if scores[n - 1] > 0 {
        var c := Candidate(n - 1, scores[n - 1]);
        var r := rest + [c];
        assert CandidatesUpTo(scores, n) == r;
        forall k | 0 <= k < |r|
          ensures 0 <= r[k].page < n && r[k].confidence == scores[r[k].page] > 0
        {
          if k < |rest| { assert r[k] == rest[k]; } else { assert r[k] == c; }
        }
        forall i, j | 0 <= i < j < |r| ensures r[i].page < r[j].page {
          assert r[i] == rest[i];
          if j < |rest| { assert r[j] == rest[j]; } else { assert r[j] == c; }
        }
      } else {
        assert CandidatesUpTo(scores, n) == rest;
      }
    }
  }

  /** Some candidate is for page `p`. */
  predicate HasPage(r: seq<Candidate>, p: int) {
    exists k :: 0 <= k < |r| && r[k].page == p
  }

  lemma HasPageSnoc(r: seq<Candidate>, c: Candidate, p: int)
    ensures HasPage(r + [c], p) <==> HasPage(r, p) || c.page == p
  {
    var t := r + [c];
    if HasPage(t, p) {
      var k :| 0 <= k < |t| && t[k].page == p;
      if k < |r| { assert r[k] == t[k]; }
    }
    if HasPage(r, p) {
      var k :| 0 <= k < |r| && r[k].page == p;
      assert t[k] == r[k];
    }
    if c.page == p {
      assert t[|r|] == c;
    }
  }

  /** A page is a candidate exactly when its score is positive. */
  lemma {:induction false} CandidateIff(scores: seq<nat>, n: nat, p: nat)
    requires p < n <= |scores|
    ensures HasPage(CandidatesUpTo(scores, n), p) <==> scores[p] > 0
  {
    var rest := CandidatesUpTo(scores, n - 1);
    CandidatesOrdered(scores, n - 1);
    if scores[n - 1] > 0 {
      var c := Candidate(n - 1, scores[n - 1]);
      assert CandidatesUpTo(scores, n) == rest + [c];
      HasPageSnoc(rest, c, p);
    } else {
      assert CandidatesUpTo(scores, n) == rest;
    }
    if p < n - 1 {
      CandidateIff(scores, n - 1, p);
    } else {
      forall k | 0 <= k < |rest| ensures rest[k].page != p {
      }
    }
  }

  /** The pages of the candidates scored above 0.7, in page order. */
  function HighPages(cands: seq<Candidate>): seq<int>
  {
    if cands == [] then []
    else
      var rest := HighPages(cands[..|cands| - 1]);
      var c := cands[|cands| - 1];
      if c.confidence > 7 then rest + [c.page] else rest
  }

  lemma HighPagesStep(cands: seq<Candidate>, i: nat)
    requires i < |cands|
    ensures HighPages(cands[..i + 1])
      == HighPages(cands[..i]) + (if cands[i].confidence > 7 then [cands[i].page] else [])
  {
    assert cands[..i + 1][..i] == cands[..i];
  }

  /** The high-confidence pages keep the candidates' order and range. */
  lemma {:induction false} HighPagesIncreasing(cands: seq<Candidate>, total: int)
    requires forall i, j :: 0 <= i < j < |cands| ==> cands[i].page < cands[j].page
    requires forall k :: 0 <= k < |cands| ==> 0 <= cands[k].page < total
    ensures StrictlyIncreasing(HighPages(cands))
    ensures forall x :: x in HighPages(cands) ==>
      0 <= x < total && (cands != [] ==> x <= cands[|cands| - 1].page)
  {
    if cands != [] {
      var init := cands[..|cands| - 1];
      var c := cands[|cands| - 1];
      HighPagesIncreasing(init, total);
      var rest := HighPages(init);
      forall x | x in rest ensures x < c.page {
        assert init[|init| - 1].page < c.page;
      }
      if c.confidence > 7 {
        var h := rest + [c.page];
        assert HighPages(cands) == h;
        forall i, j | 0 <= i < j < |h| ensures h[i] < h[j] {
          if j == |rest| { assert h[i] in rest; }
        }
      } else {
        assert HighPages(cands) == rest;
      }
    }
  }

  /** A page is a high-confidence page exactly when some candidate for it
      has confidence above 0.7. */
  lemma {:induction false} HighPagesMembers(cands: seq<Candidate>, x: int)
    ensures x in HighPages(cands) <==> exists k :: 0 <= k < |cands| && cands[k].page == x && cands[k].confidence > 7
  {
    if cands != [] {
      var init := cands[..|cands| - 1];
      var c := cands[|cands| - 1];
      HighPagesMembers(init, x);
      if exists k :: 0 <= k < |cands| && cands[k].page == x && cands[k].confidence > 7 {
        var k :| 0 <= k < |cands| && cands[k].page == x && cands[k].confidence > 7;
        if k < |init| { assert init[k] == cands[k]; }
      }
      if exists k :: 0 <= k < |init| && init[k].page == x && init[k].confidence > 7 {
        var k :| 0 <= k < |init| && init[k].page == x && init[k].confidence > 7;
        assert cands[k] == init[k];
      }
    }
  }

  // ---------------------------------------------------------------------
  // Selecting boundaries

  predicate StrictlyIncreasing(s: seq<int>) {
    forall i, j :: 0 <= i < j < |s| ==> s[i] < s[j]
  }

  function Last(s: seq<int>): int
    requires s != []
  {
    s[|s| - 1]
  }

  /** The boundaries kept by the greedy pass over the high-confidence pages:
      a page is kept when its distance from the last kept boundary lies in
      `[minPages, maxPages]`; a rejected page leaves the reference point
      where it was. */
  function Greedy(high: seq<int>, minPages: int, maxPages: int): (s: seq<int>)
    ensures s != [] && s[0] == 0
  {
    if high == [] then [0]
    else
      var s := Greedy(high[..|high| - 1], minPages, maxPages);
      var p := high[|high| - 1];
      if minPages <= p - Last(s) <= maxPages then s + [p] else s
  }

  lemma GreedyStep(high: seq<int>, p: int, minPages: int, maxPages: int)
    ensures Greedy(high + [p], minPages, maxPages)
      == if minPages <= p - Last(Greedy(high, minPages, maxPages)) <= maxPages
         then Greedy(high, minPages, maxPages) + [p] else Greedy(high, minPages, maxPages)
  {
    assert (high + [p])[..|high|] == high;
  }

  /** The back-filled boundaries every `maxPages` pages after `from`, while
      they stay within one chapter length of the end. */
  function Fill(from: int, total: int, maxPages: int): seq<int>
    requires maxPages >= 1
    decreases total - from
  {
    if from + maxPages < total then [from + maxPages] + Fill(from + maxPages, total, maxPages) else []
  }

  /** `sorted(set(xs))` */
  function SortedSet(xs: seq<int>): (r: seq<int>)
    ensures StrictlyIncreasing(r)
    ensures forall x :: x in r <==> x in xs
  {
    if xs == [] then []
    else
      var r := SortedSet(xs[..|xs| - 1]);
      assert forall x :: x in xs <==> x in xs[..|xs| - 1] || x == xs[|xs| - 1];
      Insert(r, xs[|xs| - 1])
  }

  /** Inserts `x` into a strictly increasing sequence unless it is there. */
  function Insert(s: seq<int>, x: int): (r: seq<int>)
    requires StrictlyIncreasing(s)
    ensures StrictlyIncreasing(r)
    ensures forall y :: y in r <==> y in s || y == x
  {
    if s == [] then [x]
    else if x < s[0] then [x] + s
    else if x == s[0] then s
    else
      var t := Insert(s[1..], x);
      assert forall y :: y in s <==> y == s[0] || y in s[1..];
      assert forall y :: y in t ==> s[0] < y by {
        forall y | y in s[1..] ensures s[0] < y {
          var k :| 0 <= k < |s[1..]| && s[1..][k] == y;
          assert s[k + 1] == y;
        }
      }
      var r := [s[0]] + t;
      assert forall i :: 0 < i < |r| ==> r[i] in t;
      r
  }

  /** The boundaries `_select_chapter_boundaries` returns. */
  function SelectSpec(cands: seq<Candidate>, total: int, minPages: int, maxPages: int): seq<int>
    requires maxPages >= 1
  {
    var s := Greedy(HighPages(cands), minPages, maxPages);
    SortedSet(s + Fill(Last(s), total, maxPages))
  }

  /** `_fallback_to_fixed_pages`: `range(0, total, (min + max) // 2)`. */
  function Fallback(total: int, minPages: int, maxPages: int): seq<int>
    requires (minPages + maxPages) / 2 >= 1
  {
    RangeStep(0, total, (minPages + maxPages) / 2)
  }

  /** `_select_chapter_boundaries`, given the candidates in page order. */
  method SelectChapterBoundaries(cands: seq<Candidate>, total: int, minPages: int, maxPages: int)
    returns (bounds: seq<int>)
    requires maxPages >= 1
    ensures bounds == SelectSpec(cands, total, minPages, maxPages)
  {
    var selected := GreedyPass(cands, minPages, maxPages);
    selected := BackFill(selected, total, maxPages);
    bounds := SortedSet(selected);
  }

  /** The first loop of `_select_chapter_boundaries`: starting from page 0,
      each high-confidence candidate at distance `[minPages, maxPages]` from
      the last boundary kept becomes a boundary. */
  method GreedyPass(cands: seq<Candidate>, minPages: int, maxPages: int) returns (selected: seq<int>)
    ensures selected == Greedy(HighPages(cands), minPages, maxPages)
  {
    selected := [0];
    for i := 0 to |cands|
      invariant selected == Greedy(HighPages(cands[..i]), minPages, maxPages)
    {
      var c := cands[i];
      HighPagesStep(cands, i);
      if c.confidence > 7 {
        GreedyStep(HighPages(cands[..i]), c.page, minPages, maxPages);
        var last := selected[|selected| - 1];
        var since := c.page - last;
        if minPages <= since && since <= maxPages {
          selected := selected + [c.page];
        }
      } else {
        assert HighPages(cands[..i + 1]) == HighPages(cands[..i]);
      }
    }
    assert cands[..|cands|] == cands;
  }

  /** The second loop: while the last boundary is more than `maxPages` from
      the end, add one `maxPages` further on. */
  method BackFill(s: seq<int>, total: int, maxPages: int) returns (selected: seq<int>)
    requires maxPages >= 1 && s != []
    ensures selected == s + Fill(Last(s), total, maxPages)
  {
    selected := s;
    var current := s[|s| - 1];
    while current + maxPages < total
      invariant selected + Fill(current, total, maxPages) == s + Fill(Last(s), total, maxPages)
      decreases total - current
    {
      current := current + maxPages;
      selected := selected + [current];
    }
    assert selected + Fill(current, total, maxPages) == selected;
  }

  // ---------------------------------------------------------------------
  // The whole detection

  /** `max(page_texts.keys())` */
  ghost function MaxKey(keys: set<nat>): (m: nat)
    requires keys != {}
    ensures m in keys && forall k :: k in keys ==> k <= m
  {
    var x :| x in keys;
    assert forall k :: k in keys ==> k == x || k in keys - {x};
    if keys - {x} == {} then x
    else
      var r := MaxKey(keys - {x});
      if r > x then r else x
  }

  /** `max(page_texts.keys()) + 1`: one past the largest page number, which
      is not the number of pages in the mapping. */
  ghost function TotalPages(pageTexts: map<nat, string>): nat
    requires pageTexts != map[]
  {
    MaxKey(pageTexts.Keys) + 1
  }

  /** What `detect_from_text` returns. */
  ghost function Detect(pageTexts: map<nat, string>, minPages: int, maxPages: int): seq<int>
    requires maxPages >= 1 && (minPages + maxPages) / 2 >= 1
  {
    if pageTexts == map[] then []
    else DetectWith(Candidates(pageTexts, TotalPages(pageTexts)), TotalPages(pageTexts), minPages, maxPages)
  }

  /** The candidates of a `total`-page text, in page order. */
  function Candidates(pageTexts: map<nat, string>, total: nat): seq<Candidate> {
    CandidatesUpTo(Scores(pageTexts, total), total)
  }

  /** The selection when candidates exist, the fixed-size fallback otherwise. */
  function DetectWith(cands: seq<Candidate>, total: int, minPages: int, maxPages: int): seq<int>
    requires maxPages >= 1 && (minPages + maxPages) / 2 >= 1
  {
    if cands == [] then Fallback(total, minPages, maxPages)
    else SelectSpec(cands, total, minPages, maxPages)
  }

  method MaxPageKey(pageTexts: map<nat, string>) returns (m: nat)
    requires pageTexts != map[]
    ensures m == MaxKey(pageTexts.Keys)
  {
    var rest := pageTexts.Keys;
    var seen: set<nat> := {};
    m := 0;
    while rest != {}
      invariant rest + seen == pageTexts.Keys && rest !! seen
      invariant seen != {} ==> m in seen
      invariant forall k :: k in seen ==> k <= m
      invariant seen == {} ==> m == 0
      decreases |rest|
    {
      var k :| k in rest;
      if seen == {} || k > m { m := k; }
      rest := rest - {k};
      seen := seen + {k};
    }
    var top := MaxKey(pageTexts.Keys);
    assert top <= m && m <= top;
  }

  /** One pass of the detector's page loop: pages without text or with fewer
      than 10 characters after stripping score 0, the others are scored by
      the chapter-start rules. */
  method ScorePage(pageTexts: map<nat, string>, p: nat) returns (c: nat)
    ensures c == PageScore(pageTexts, p)
  {
    c := 0;
    if p in pageTexts {
      var text := pageTexts[p];
      if !(text == [] || |Strip(text)| < 10) {
        c := ChapterStartConfidence(text, p);
      }
    }
  }

  /** The page loop of `detect_from_text`, over pages `0 .. total - 1` in
      increasing order, which is the order the detector sorts its
      candidates into. */
  method CollectCandidates(pageTexts: map<nat, string>, total: nat) returns (cands: seq<Candidate>)
    ensures cands == Candidates(pageTexts, total)
    ensures forall i, j :: 0 <= i < j < |cands| ==> cands[i].page < cands[j].page
    ensures forall k :: 0 <= k < |cands| ==> 0 <= cands[k].page < total
  {
    ghost var scores := Scores(pageTexts, total);
    CandidatesOrdered(scores, total);
    cands := [];
    var p := 0;
    while p < total
      invariant 0 <= p <= total
      invariant cands == CandidatesUpTo(scores, p)
    {
      var c := ScorePage(pageTexts, p);
      if c > 0 {
        cands := cands + [Candidate(p, c)];
      }
      p := p + 1;
    }
  }

  /** `detect_from_text`. */
  method DetectFromText(pageTexts: map<nat, string>, minPages: int, maxPages: int)
    returns (bounds: seq<int>)
    requires maxPages >= 1 && (minPages + maxPages) / 2 >= 1
    ensures bounds == Detect(pageTexts, minPages, maxPages)
    ensures bounds == [] <==> pageTexts == map[]
    ensures pageTexts != map[] ==> WellFormedBounds(bounds, TotalPages(pageTexts))
  {
    if pageTexts == map[] {
      return [];
    }
    var top := MaxPageKey(pageTexts);
    var total := top + 1;
    var cands := CollectCandidates(pageTexts, total);
    if cands == [] {
      bounds := Fallback(total, minPages, maxPages);
    } else {
      bounds := SelectChapterBoundaries(cands, total, minPages, maxPages);
    }
    assert bounds == DetectWith(cands, total, minPages, maxPages);
    DetectWellFormed(cands, total, minPages, maxPages);
  }

  /** What `detect_from_text` returns for a non-empty text starts at page 0,
      strictly increases and stays below one past the largest page key. */
  lemma DetectResultWellFormed(pageTexts: map<nat, string>, minPages: int, maxPages: int)
    requires maxPages >= 1 && (minPages + maxPages) / 2 >= 1 && pageTexts != map[]
    ensures WellFormedBounds(Detect(pageTexts, minPages, maxPages), TotalPages(pageTexts))
  {
    var total := TotalPages(pageTexts);
    CandidatesOrdered(Scores(pageTexts, total), total);
    DetectWellFormed(Candidates(pageTexts, total), total, minPages, maxPages);
  }

  /** With a window `minPages > maxPages` no candidate is ever accepted. */
  lemma {:induction false} GreedyEmptyWindow(high: seq<int>, minPages: int, maxPages: int)
    requires minPages > maxPages
    ensures Greedy(high, minPages, maxPages) == [0]
  {
    if high != [] {
      GreedyEmptyWindow(high[..|high| - 1], minPages, maxPages);
    }
  }

  /** The detected boundaries of a non-empty text start at page 0, strictly
      increase and stay below the page count. */
  lemma DetectWellFormed(cands: seq<Candidate>, total: int, minPages: int, maxPages: int)
    requires maxPages >= 1 && (minPages + maxPages) / 2 >= 1 && total >= 1
    requires forall i, j :: 0 <= i < j < |cands| ==> cands[i].page < cands[j].page
    requires forall k :: 0 <= k < |cands| ==> 0 <= cands[k].page < total
    ensures WellFormedBounds(DetectWith(cands, total, minPages, maxPages), total)
  {
    if cands == [] {
      FallbackWellFormed(total, minPages, maxPages);
    } else {
      SelectWellFormed(cands, total, minPages, maxPages);
    }
  }

  // ---------------------------------------------------------------------
  // What the selection guarantees

  lemma FallbackWellFormed(total: nat, minPages: int, maxPages: int)
    requires total >= 1 && (minPages + maxPages) / 2 >= 1
    ensures WellFormedBounds(Fallback(total, minPages, maxPages), total)
  {
    FixedBoundsWellFormed(total, (minPages + maxPages) / 2);
  }

  /** The shape of the greedy pass: it starts at 0, each later boundary is a
      high-confidence page at distance `[minPages, maxPages]` from its
      predecessor, and it never goes down nor past the last page offered. */
  predicate GreedyShape(s: seq<int>, high: seq<int>, minPages: int, maxPages: int) {
    s != [] && s[0] == 0 && (forall k :: 0 <= k < |s| ==> 0 <= s[k] <= Last(s))
    && (forall k :: 0 < k < |s| ==> s[k] in high)
    && (forall k :: 0 < k < |s| ==> minPages <= s[k] - s[k - 1] <= maxPages)
    && (high != [] ==> Last(s) <= Last(high))
  }

  lemma {:induction false} GreedyFacts(high: seq<int>, minPages: int, maxPages: int)
    requires StrictlyIncreasing(high) && forall x :: x in high ==> x >= 0
    ensures GreedyShape(Greedy(high, minPages, maxPages), high, minPages, maxPages)
  {
    if high != [] {
      var init := high[..|high| - 1];
      var p := high[|high| - 1];
      assert high == init + [p] && p in high;
      assert StrictlyIncreasing(init) && forall x :: x in init ==> 0 <= x < p by {
        forall x | x in init ensures 0 <= x < p {
          var i :| 0 <= i < |init| && init[i] == x;
          assert high[i] == x && x in high;
          assert high[i] < high[|high| - 1];
        }
      }
      GreedyFacts(init, minPages, maxPages);
      GreedyStep(init, p, minPages, maxPages);
      GreedyShapeSnoc(Greedy(init, minPages, maxPages), init, p, minPages, maxPages);
    }
  }

  /** One step of the greedy pass keeps its shape. */
  lemma GreedyShapeSnoc(s: seq<int>, init: seq<int>, p: int, minPages: int, maxPages: int)
    requires GreedyShape(s, init, minPages, maxPages)
    requires p >= 0 && forall x :: x in init ==> x < p
    ensures GreedyShape(if minPages <= p - Last(s) <= maxPages then s + [p] else s,
                        init + [p], minPages, maxPages)
  {
    assert Last(s) <= p by {
      if |s| > 1 { assert s[|s| - 1] in init; }
    }
    if minPages <= p - Last(s) <= maxPages {
      GreedyShapeAppend(s, init, p, minPages, maxPages);
    } else {
      GreedyShapeWiden(s, init, p, minPages, maxPages);
    }
  }

  /** Offering a larger page that is not taken keeps the shape. */
  lemma GreedyShapeWiden(s: seq<int>, init: seq<int>, p: int, minPages: int, maxPages: int)
    requires GreedyShape(s, init, minPages, maxPages) && Last(s) <= p
    ensures GreedyShape(s, init + [p], minPages, maxPages)
  {
    var high := init + [p];
    forall k | 0 < k < |s| ensures s[k] in high {
      assert s[k] in init;
    }
  }

  /** Taking the offered page keeps the shape. */
  lemma GreedyShapeAppend(s: seq<int>, init: seq<int>, p: int, minPages: int, maxPages: int)
    requires GreedyShape(s, init, minPages, maxPages) && Last(s) <= p
    requires minPages <= p - Last(s) <= maxPages
    ensures GreedyShape(s + [p], init + [p], minPages, maxPages)
  {
    AppendBounded(s, p);
    AppendMembers(s, init, p);
    AppendGaps(s, p, minPages, maxPages);
  }

  lemma AppendBounded(s: seq<int>, p: int)
    requires s != [] && (forall k :: 0 <= k < |s| ==> 0 <= s[k] <= Last(s)) && Last(s) <= p
    ensures forall k :: 0 <= k < |s + [p]| ==> 0 <= (s + [p])[k] <= p
  {
    forall k | 0 <= k < |s + [p]| ensures 0 <= (s + [p])[k] <= p {
      if k < |s| { assert (s + [p])[k] == s[k]; }
    }
  }

  lemma AppendMembers(s: seq<int>, init: seq<int>, p: int)
    requires forall k :: 0 < k < |s| ==> s[k] in init
    ensures forall k :: 0 < k < |s + [p]| ==> (s + [p])[k] in init + [p]
  {
    forall k | 0 < k < |s + [p]| ensures (s + [p])[k] in init + [p] {
      if k < |s| {
        var i :| 0 <= i < |init| && init[i] == s[k];
        assert (init + [p])[i] == s[k] == (s + [p])[k];
      }
    }
  }

  lemma AppendGaps(s: seq<int>, p: int, minPages: int, maxPages: int)
    requires s != [] && minPages <= p - Last(s) <= maxPages
    requires forall k :: 0 < k < |s| ==> minPages <= s[k] - s[k - 1] <= maxPages
    ensures forall k :: 0 < k < |s + [p]| ==> minPages <= (s + [p])[k] - (s + [p])[k - 1] <= maxPages
  {
    forall k | 0 < k < |s + [p]| ensures minPages <= (s + [p])[k] - (s + [p])[k - 1] <= maxPages {
      if k < |s| { assert (s + [p])[k] == s[k] && (s + [p])[k - 1] == s[k - 1]; }
    }
  }

  /** `b` is reached from `from` by one or more whole steps of `maxPages`. */
  predicate Synthetic(b: int, from: int, maxPages: int)
    requires maxPages >= 1
    decreases b - from
  {
    b > from && (b - maxPages == from || Synthetic(b - maxPages, from, maxPages))
  }

  lemma {:induction false} SyntheticShift(b: int, from: int, maxPages: int)
    requires maxPages >= 1 && Synthetic(b, from + maxPages, maxPages)
    ensures Synthetic(b, from, maxPages)
    decreases b - from
  {
    if b - maxPages != from + maxPages {
      SyntheticShift(b - maxPages, from, maxPages);
    }
  }

  /** The shape of the back-fill: boundaries `maxPages` apart, starting one
      step after `from`, below `total`, each reached from `from` by whole
      steps, the last one within a step of the end. */
  predicate FillShape(f: seq<int>, from: int, total: int, maxPages: int)
    requires maxPages >= 1
  {
    (f != [] ==> f[0] == from + maxPages)
    && (forall k :: 0 < k < |f| ==> f[k] - f[k - 1] == maxPages)
    && (forall k :: 0 <= k < |f| ==> from < f[k] < total && Synthetic(f[k], from, maxPages))
    && (forall k :: 0 <= k < |f| ==> f[k] <= Last(f))
    && (if f == [] then from + maxPages >= total else Last(f) + maxPages >= total)
  }

  lemma {:induction false} FillFacts(from: int, total: int, maxPages: int)
    requires maxPages >= 1
    ensures FillShape(Fill(from, total, maxPages), from, total, maxPages)
    decreases total - from
  {
    if from + maxPages < total {
      FillFacts(from + maxPages, total, maxPages);
      FillShapeCons(Fill(from + maxPages, total, maxPages), from, total, maxPages);
    }
  }

  /** One more back-filled boundary in front keeps the shape. */
  lemma FillShapeCons(g: seq<int>, from: int, total: int, maxPages: int)
    requires maxPages >= 1 && from + maxPages < total
    requires FillShape(g, from + maxPages, total, maxPages)
    ensures FillShape([from + maxPages] + g, from, total, maxPages)
  {
    var f := [from + maxPages] + g;
    assert Last(f) == if g == [] then from + maxPages else Last(g);
    ConsSynthetic(g, from + maxPages, from, total, maxPages);
    ConsBelowLast(g, from + maxPages);
    ConsSteps(g, from + maxPages, maxPages);
  }

  lemma ConsSynthetic(g: seq<int>, next: int, from: int, total: int, maxPages: int)
    requires maxPages >= 1 && next == from + maxPages < total
    requires forall k :: 0 <= k < |g| ==> next < g[k] < total && Synthetic(g[k], next, maxPages)
    ensures forall k :: 0 <= k < |[next] + g| ==>
      from < ([next] + g)[k] < total && Synthetic(([next] + g)[k], from, maxPages)
  {
    var f := [next] + g;
    forall k | 0 <= k < |f| ensures from < f[k] < total && Synthetic(f[k], from, maxPages) {
      if k > 0 {
        assert f[k] == g[k - 1];
        SyntheticShift(g[k - 1], from, maxPages);
      }
    }
  }

  lemma ConsBelowLast(g: seq<int>, next: int)
    requires forall k :: 0 <= k < |g| ==> next < g[k]
    requires forall k :: 0 <= k < |g| ==> g[k] <= Last(g)
    ensures forall k :: 0 <= k < |[next] + g| ==> ([next] + g)[k] <= Last([next] + g)
  {
    var f := [next] + g;
    forall k | 0 <= k < |f| ensures f[k] <= Last(f) {
      if k > 0 { assert f[k] == g[k - 1]; }
      if g != [] { assert Last(f) == Last(g) && next < g[0]; }
    }
  }

  lemma ConsSteps(g: seq<int>, next: int, maxPages: int)
    requires g != [] ==> g[0] == next + maxPages
    requires forall k :: 0 < k < |g| ==> g[k] - g[k - 1] == maxPages
    ensures forall k :: 0 < k < |[next] + g| ==> ([next] + g)[k] - ([next] + g)[k - 1] == maxPages
  {
    var f := [next] + g;
    forall k | 0 < k < |f| ensures f[k] - f[k - 1] == maxPages {
      if k > 1 { assert f[k] == g[k - 1] && f[k - 1] == g[k - 2]; }
    }
  }

  /** The back-fill shape read as a statement about its elements. */
  lemma FillMembers(f: seq<int>, from: int, total: int, maxPages: int)
    requires maxPages >= 1 && FillShape(f, from, total, maxPages)
    ensures forall x :: x in f ==> from < x < total && Synthetic(x, from, maxPages) && x <= Last(f)
  {
    forall x | x in f ensures from < x < total && Synthetic(x, from, maxPages) && x <= Last(f) {
      var k :| 0 <= k < |f| && f[k] == x;
    }
  }

  /** The list `_select_chapter_boundaries` builds before `sorted(set(...))`:
      it starts at 0, stays in `[0, total)`, ends with its largest element,
      and that element is within `maxPages` of the end. */
  predicate RawShape(xs: seq<int>, total: int, maxPages: int) {
    xs != [] && xs[0] == 0 && (forall x :: x in xs ==> 0 <= x < total)
    && (forall x :: x in xs ==> x <= Last(xs)) && Last(xs) + maxPages >= total
  }

  lemma SelectRaw(cands: seq<Candidate>, total: int, minPages: int, maxPages: int)
    requires maxPages >= 1 && total >= 1
    requires forall i, j :: 0 <= i < j < |cands| ==> cands[i].page < cands[j].page
    requires forall k :: 0 <= k < |cands| ==> 0 <= cands[k].page < total
    ensures RawShape(Greedy(HighPages(cands), minPages, maxPages)
                     + Fill(Last(Greedy(HighPages(cands), minPages, maxPages)), total, maxPages),
                     total, maxPages)
  {
    var high := HighPages(cands);
    HighPagesIncreasing(cands, total);
    GreedyFacts(high, minPages, maxPages);
    var s := Greedy(high, minPages, maxPages);
    FillFacts(Last(s), total, maxPages);
    var f := Fill(Last(s), total, maxPages);
    FillMembers(f, Last(s), total, maxPages);
    var xs := s + f;
    assert f != [] ==> Last(xs) == Last(f) && f[0] <= Last(f);
    assert f == [] ==> Last(xs) == Last(s);
    forall x | x in xs ensures 0 <= x < total && x <= Last(xs) {
      if x in s {
        var k :| 0 <= k < |s| && s[k] == x;
        if k > 0 { assert s[k] in high; }
        assert s[0] <= x <= Last(s);
      }
    }
  }

  /** `_select_chapter_boundaries` returns boundaries that start at 0,
      strictly increase and stay below `total`; the last one lies within
      `maxPages` of the end; every one other than 0 is either an accepted
      high-confidence page or a back-filled one. */
  lemma SelectWellFormed(cands: seq<Candidate>, total: int, minPages: int, maxPages: int)
    requires maxPages >= 1 && total >= 1
    requires forall i, j :: 0 <= i < j < |cands| ==> cands[i].page < cands[j].page
    requires forall k :: 0 <= k < |cands| ==> 0 <= cands[k].page < total
    ensures WellFormedBounds(SelectSpec(cands, total, minPages, maxPages), total)
    ensures Last(SelectSpec(cands, total, minPages, maxPages)) + maxPages >= total
    ensures forall x :: x in SelectSpec(cands, total, minPages, maxPages) ==>
      (x == 0 || x in HighPages(cands)
       || Synthetic(x, Last(Greedy(HighPages(cands), minPages, maxPages)), maxPages))
  {
    var high := HighPages(cands);
    var s := Greedy(high, minPages, maxPages);
    var f := Fill(Last(s), total, maxPages);
    var xs := s + f;
    SelectRaw(cands, total, minPages, maxPages);
    GreedyFacts(high, minPages, maxPages) by { HighPagesIncreasing(cands, total); }
    FillFacts(Last(s), total, maxPages);
    FillMembers(f, Last(s), total, maxPages);
    var b := SortedSet(xs);
    assert b == SelectSpec(cands, total, minPages, maxPages);
    assert 0 in xs;
    var z :| 0 <= z < |b| && b[z] == 0;
    assert b[0] == 0 by {
      assert b[0] in xs;
      assert b[0] <= b[z];
    }
    forall i | 0 <= i < |b| ensures b[i] < total {
      assert b[i] in xs;
    }
    assert Last(xs) in b;
    var w :| 0 <= w < |b| && b[w] == Last(xs);
    assert Last(b) >= Last(xs) by {
      assert b[w] <= b[|b| - 1];
    }
    forall x | x in b
      ensures x == 0 || x in high || Synthetic(x, Last(s), maxPages)
    {
      assert x in xs;
      if x in s {
        var k :| 0 <= k < |s| && s[k] == x;
        if k > 0 { assert s[k] in high; }
      }
    }
  }

  /** Only pattern pages are accepted: every boundary other than 0 and the
      back-filled ones is a page whose text passed the length filter and
      matched a heading pattern near its top (score 0.8), because only those
      pass the `> 0.7` filter. */
  lemma AcceptedArePatternPages(pageTexts: map<nat, string>, minPages: int, maxPages: int, x: int)
    requires maxPages >= 1 && (minPages + maxPages) / 2 >= 1 && pageTexts != map[]
    requires Candidates(pageTexts, TotalPages(pageTexts)) != []
    requires x in Detect(pageTexts, minPages, maxPages) && x != 0
    requires !Synthetic(x, Last(Greedy(HighPages(Candidates(pageTexts, TotalPages(pageTexts))),
                                       minPages, maxPages)), maxPages)
    ensures 0 <= x && x in pageTexts && !TooShort(pageTexts[x])
    ensures PatternNearTop(Strip(pageTexts[x]))
  {
    var total := TotalPages(pageTexts);
    var scores := Scores(pageTexts, total);
    var cands := Candidates(pageTexts, total);
    CandidatesOrdered(scores, total);
    assert Detect(pageTexts, minPages, maxPages) == SelectSpec(cands, total, minPages, maxPages);
    SelectWellFormed(cands, total, minPages, maxPages);
    HighPagesMembers(cands, x);
    var k :| 0 <= k < |cands| && cands[k].page == x && cands[k].confidence > 7;
    assert 0 <= x < total && scores[x] == PageScore(pageTexts, x) > 7;
    var text := pageTexts[x];
    ChapterStartRules(text, x);
  }

  /** The nine-page sample of the source: pages 0, 3 and 6 open with
      第…章 (0.8) and page 1 holds 引言 (0.7).  Under the defaults (5, 50)
      pages 0 and 3 are too close to the start, page 6 is accepted, and no
      back-fill is needed: the boundaries are [0, 6]. */
  lemma SampleSelection()
    ensures SelectSpec([Candidate(0, 8), Candidate(1, 7), Candidate(3, 8), Candidate(6, 8)], 9, 5, 50) == [0, 6]
  {
    SampleHigh();
    SampleGreedy();
    assert Fill(6, 9, 50) == [];
    assert [0, 6] + [] == [0, 6];
    SortedSetOfIncreasing([0, 6]);
  }

  lemma SampleHigh()
    ensures HighPages([Candidate(0, 8), Candidate(1, 7), Candidate(3, 8), Candidate(6, 8)]) == [0, 3, 6]
  {
    var c1 := [Candidate(0, 8)];
    var c2 := c1 + [Candidate(1, 7)];
    var c3 := c2 + [Candidate(3, 8)];
    var c4 := c3 + [Candidate(6, 8)];
    assert c1[..0] == [] && c2[..1] == c1 && c3[..2] == c2 && c4[..3] == c3;
    assert HighPages(c2) == [0];
    assert HighPages(c4) == [0, 3, 6];
    assert c4 == [Candidate(0, 8), Candidate(1, 7), Candidate(3, 8), Candidate(6, 8)];
  }

  lemma SampleGreedy()
    ensures Greedy([0, 3, 6], 5, 50) == [0, 6]
  {
    var h1 := [0];
    var h2 := h1 + [3];
    var h3 := h2 + [6];
    assert h1[..0] == [] && h2[..1] == h1 && h3[..2] == h2;
    assert Greedy(h2, 5, 50) == [0];
    assert h3 == [0, 3, 6];
  }

  /** `sorted(set(xs))` of a strictly increasing sequence is the sequence. */
  lemma {:induction false} SortedSetOfIncreasing(xs: seq<int>)
    requires StrictlyIncreasing(xs)
    ensures SortedSet(xs) == xs
  {
    if xs != [] {
      var init := xs[..|xs| - 1];
      var x := xs[|xs| - 1];
      assert StrictlyIncreasing(init);
      SortedSetOfIncreasing(init);
      forall y | y in init ensures y < x {
        var i :| 0 <= i < |init| && init[i] == y;
        assert xs[i] == y;
      }
      InsertAtEnd(init, x);
      assert init + [x] == xs;
    }
  }

  /** Inserting an element larger than all others appends it. */
  lemma {:induction false} InsertAtEnd(s: seq<int>, x: int)
    requires StrictlyIncreasing(s) && forall y :: y in s ==> y < x
    ensures Insert(s, x) == s + [x]
  {
    if s != [] {
      assert s[0] in s;
      assert forall y :: y in s[1..] ==> y in s;
      InsertAtEnd(s[1..], x);
      assert [s[0]] + (s[1..] + [x]) == s + [x];
    }
  }

  /** Every chapter `[b[k], b[k + 1])` has between `lo` and `hi` pages and
      the last one, `[Last(b), total)`, between 1 and `hi`. */
  predicate ChapterSizesWithin(b: seq<int>, total: int, lo: int, hi: int) {
    b != [] && GapsWithin(b, lo, hi) && 1 <= total - Last(b) <= hi
  }

  /** With `1 <= minPages <= maxPages`, every chapter the detector produces
      has between `minPages` and `maxPages` pages, except the last, which has
      between 1 and `maxPages`. */
  lemma ChapterLengthsBounded(pageTexts: map<nat, string>, minPages: int, maxPages: int)
    requires 1 <= minPages <= maxPages && pageTexts != map[]
    ensures ChapterSizesWithin(Detect(pageTexts, minPages, maxPages), TotalPages(pageTexts), minPages, maxPages)
  {
    var total := TotalPages(pageTexts);
    var scores := Scores(pageTexts, total);
    var cands := CandidatesUpTo(scores, total);
    if cands == [] {
      var size := (minPages + maxPages) / 2;
      FixedBoundsWellFormed(total, size);
      FallbackGaps(total, size);
    } else {
      CandidatesOrdered(scores, total);
      SelectSizes(cands, total, minPages, maxPages);
    }
  }

  /** The chapter-size guarantee for the selection path. */
  lemma SelectSizes(cands: seq<Candidate>, total: int, minPages: int, maxPages: int)
    requires 1 <= minPages <= maxPages && total >= 1
    requires forall i, j :: 0 <= i < j < |cands| ==> cands[i].page < cands[j].page
    requires forall k :: 0 <= k < |cands| ==> 0 <= cands[k].page < total
    ensures ChapterSizesWithin(SelectSpec(cands, total, minPages, maxPages), total, minPages, maxPages)
  {
    var high := HighPages(cands);
    var s := Greedy(high, minPages, maxPages);
    var f := Fill(Last(s), total, maxPages);
    var xs := s + f;
    SelectRaw(cands, total, minPages, maxPages);
    GreedyFacts(high, minPages, maxPages) by { HighPagesIncreasing(cands, total); }
    FillFacts(Last(s), total, maxPages);
    ConcatGaps(s, f, minPages, maxPages);
    GapsIncreasing(xs, minPages);
    SortedSetOfIncreasing(xs);
    assert SelectSpec(cands, total, minPages, maxPages) == xs;
    assert Last(xs) in xs;
  }

  /** Consecutive differences all lie in `[lo, hi]`. */
  predicate GapsWithin(xs: seq<int>, lo: int, hi: int) {
    forall k :: 0 < k < |xs| ==> lo <= xs[k] - xs[k - 1] <= hi
  }

  lemma ConcatGaps(s: seq<int>, f: seq<int>, lo: int, hi: int)
    requires s != [] && GapsWithin(s, lo, hi) && lo <= hi
    requires forall k :: 0 < k < |f| ==> f[k] - f[k - 1] == hi
    requires f != [] ==> f[0] == Last(s) + hi
    ensures GapsWithin(s + f, lo, hi)
  {
    var xs := s + f;
    forall k | 0 < k < |xs| ensures lo <= xs[k] - xs[k - 1] <= hi {
      if k < |s| { assert xs[k] == s[k] && xs[k - 1] == s[k - 1]; }
      else if k == |s| { assert xs[k] == f[0] && xs[k - 1] == Last(s); }
      else { assert xs[k] == f[k - |s|] && xs[k - 1] == f[k - 1 - |s|]; }
    }
  }

  lemma GapsIncreasing(xs: seq<int>, minPages: int)
    requires minPages >= 1
    requires forall k :: 0 < k < |xs| ==> minPages <= xs[k] - xs[k - 1]
    ensures StrictlyIncreasing(xs)
  {
    forall i, j | 0 <= i < j < |xs| ensures xs[i] < xs[j] {
      GapsStep(xs, minPages, i, j);
    }
  }

  lemma {:induction false} GapsStep(xs: seq<int>, minPages: int, i: int, j: int)
    requires minPages >= 1
    requires forall k :: 0 < k < |xs| ==> minPages <= xs[k] - xs[k - 1]
    requires 0 <= i < j < |xs|
    ensures xs[i] < xs[j]
    decreases j - i
  {
    if j > i + 1 { GapsStep(xs, minPages, i, j - 1); }
  }

  /** The fixed fallback steps by exactly `size` and ends within one step of
      the end. */
  lemma FallbackGaps(total: nat, size: nat)
    requires size >= 1 && total >= 1
    ensures ChapterSizesWithin(FixedBounds(total, size), total, size, size)
  {
    var b := FixedBounds(total, size);
    var q := CeilDiv(total, size);
    CeilDivStep(total, size);
    forall k | 0 < k < |b| ensures b[k] - b[k - 1] == size {
      assert k * size == (k - 1) * size + size;
    }
    assert Last(b) == (q - 1) * size;
    assert q * size == (q - 1) * size + size;
  }

  // ---------------------------------------------------------------------
  // The structure report

  datatype SplitMethod = Smart | Fixed

  datatype ChapterInfo = ChapterInfo(number: nat, startPage: int, endPage: int, pageCount: int, title: string)

  datatype Structure = Structure(totalPages: nat, detectedChapters: nat, boundaries: seq<int>,
                                 detectionMethod: SplitMethod, chapters: seq<ChapterInfo>)

  /** The chapter title: the first line of the start page, stripped and cut
      to 50 characters, or 未知章节 when the start page has no text. */
  function ChapterTitle(pageTexts: map<nat, string>, start: int): string {
    if start >= 0 && start in pageTexts then Take(Strip(Split(pageTexts[start], '\n')[0]), 50)
    else "未知章节"
  }

  method FirstLineTitle(pageTexts: map<nat, string>, start: int) returns (t: string)
    ensures t == ChapterTitle(pageTexts, start)
  {
    if start >= 0 && start in pageTexts {
      var lines := Split(pageTexts[start], '\n');
      t := Take(Strip(lines[0]), 50);
    } else {
      t := "未知章节";
    }
  }

  /** The chapter records for boundaries `bounds` of a `total`-page text:
      record `i` covers span `i`, is numbered from 1, counts its pages and
      carries its start page's title. */
  function ChapterRecords(pageTexts: map<nat, string>, bounds: seq<int>, total: int): (r: seq<ChapterInfo>)
    ensures |r| == |bounds|
    ensures forall i :: 0 <= i < |r| ==>
      r[i] == ChapterInfo(i + 1, SpansOf(bounds, total)[i].start, SpansOf(bounds, total)[i].end,
                          SpansOf(bounds, total)[i].end - SpansOf(bounds, total)[i].start,
                          ChapterTitle(pageTexts, SpansOf(bounds, total)[i].start))
  {
    var spans := SpansOf(bounds, total);
    seq(|bounds|, i requires 0 <= i < |bounds| =>
      ChapterInfo(i + 1, spans[i].start, spans[i].end, spans[i].end - spans[i].start,
                  ChapterTitle(pageTexts, spans[i].start)))
  }

  /** The spans the records cover. */
  function RecordSpans(chapters: seq<ChapterInfo>): (r: seq<Span>)
    ensures |r| == |chapters|
    ensures forall i :: 0 <= i < |r| ==> r[i] == Span(chapters[i].startPage, chapters[i].endPage)
  {
    seq(|chapters|, i requires 0 <= i < |chapters| => Span(chapters[i].startPage, chapters[i].endPage))
  }

  /** The records of well-formed boundaries tile the document: every page
      lies in exactly one chapter, chapters are numbered 1, 2, ... in page
      order and each has a positive page count. */
  lemma ChapterRecordsTile(pageTexts: map<nat, string>, bounds: seq<int>, total: int)
    requires WellFormedBounds(bounds, total)
    ensures Tiles(RecordSpans(ChapterRecords(pageTexts, bounds, total)), total)
    ensures forall i :: 0 <= i < |bounds| ==>
      ChapterRecords(pageTexts, bounds, total)[i].number == i + 1
      && ChapterRecords(pageTexts, bounds, total)[i].pageCount >= 1
  {
    SpansTile(bounds, total);
    assert RecordSpans(ChapterRecords(pageTexts, bounds, total)) == SpansOf(bounds, total);
  }

  /** The loop of `analyze_document_structure` that builds one record per
      boundary. */
  method BuildRecords(pageTexts: map<nat, string>, bounds: seq<int>, total: int)
    returns (chapters: seq<ChapterInfo>)
    ensures chapters == ChapterRecords(pageTexts, bounds, total)
  {
    ghost var records := ChapterRecords(pageTexts, bounds, total);
    ghost var spans := SpansOf(bounds, total);
    chapters := [];
    for i := 0 to |bounds|
      invariant |chapters| == i
      invariant forall k :: 0 <= k < i ==> chapters[k] == records[k]
    {
      var start := bounds[i];
      var end := if i + 1 < |bounds| then bounds[i + 1] else total;
      assert spans[i] == Span(start, end);
      var title := FirstLineTitle(pageTexts, start);
      chapters := chapters + [ChapterInfo(i + 1, start, end, end - start, title)];
    }
    assert chapters == records;
  }

  /** `analyze_document_structure`, without the floating-point statistics and
      confidence. */
  method AnalyzeDocumentStructure(pageTexts: map<nat, string>, minPages: int, maxPages: int)
    returns (r: Result<Structure>)
    requires maxPages >= 1 && (minPages + maxPages) / 2 >= 1
    ensures r.Err? <==> pageTexts == map[]
    ensures r.Ok? ==>
      r.value.totalPages == TotalPages(pageTexts)
      && r.value.boundaries == Detect(pageTexts, minPages, maxPages)
      && r.value.detectedChapters == |r.value.boundaries|
      && (r.value.detectionMethod == Smart <==> |r.value.boundaries| > 1)
      && r.value.chapters == ChapterRecords(pageTexts, r.value.boundaries, r.value.totalPages)
      && Tiles(RecordSpans(r.value.chapters), r.value.totalPages)
  {
    if pageTexts == map[] {
      return Err("无页面文本");
    }
    var top := MaxPageKey(pageTexts);
    var total := top + 1;
    var bounds := DetectFromText(pageTexts, minPages, maxPages);
    var chapters := BuildRecords(pageTexts, bounds, total);
    ChapterRecordsTile(pageTexts, bounds, total);
    r := Ok(Structure(total, |bounds|, bounds, if |bounds| > 1 then Smart else Fixed, chapters));
  }
}
