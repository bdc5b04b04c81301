/** `MarkdownMerger` of `src/markdown/merge_markdown.py`: finds the `.md`
    files of a directory, orders them by lower-cased name, picks a title for
    each, builds a table of contents with slug anchors, and concatenates the
    files under per-file headings with running totals.  The file system is
    the `MergeWorld` oracle. */
module MarkdownMerge {
  import opened Wrappers
  import opened PyText
  import opened PdfFiles
  import opened MarkdownTable

  // ---------------------------------------------------------------------
  // File order (`find_markdown_files`)

  /** The sort key: the file name, lower-cased. */
  function SortKey(path: string): string { Lower(FileName(path)) }

  /** No file comes after one whose key is greater. */
  predicate SortedByName(fs: seq<string>) {
    forall i :: 0 <= i < |fs| - 1 ==> !StrLt(SortKey(fs[i + 1]), SortKey(fs[i]))
  }

  /** Inserting after every file with a key that is not greater, as a
      stable sort does. */
  function InsertByName(f: string, s: seq<string>): (r: seq<string>)
    ensures |r| == |s| + 1
    ensures r[0] == f || (s != [] && r[0] == s[0])
    ensures multiset(r) == multiset(s) + multiset{f}
  {
    if s == [] then [f]
    else if StrLt(SortKey(f), SortKey(s[0])) then [f] + s
    else
      assert s == [s[0]] + s[1..];
      [s[0]] + InsertByName(f, s[1..])
  }

  /** `md_files.sort(key=lambda x: x.name.lower())` */
  function SortByName(fs: seq<string>): (r: seq<string>)
    ensures multiset(r) == multiset(fs)
  {
    if fs == [] then []
    else
      assert fs == fs[..|fs| - 1] + [fs[|fs| - 1]];
      InsertByName(fs[|fs| - 1], SortByName(fs[..|fs| - 1]))
  }

  /** A file whose key is not above the first key of a sorted list keeps
      it sorted when put in front. */
  lemma SortedCons(x: string, t: seq<string>)
    requires SortedByName(t)
    requires t != [] ==> !StrLt(SortKey(t[0]), SortKey(x))
    ensures SortedByName([x] + t)
  {
    var r := [x] + t;
    forall i | 0 <= i < |r| - 1 ensures !StrLt(SortKey(r[i + 1]), SortKey(r[i])) {
      if i > 0 {
        assert r[i] == t[i - 1] && r[i + 1] == t[i];
      }
    }
  }

  lemma {:induction false} InsertKeepsSorted(f: string, s: seq<string>)
    requires SortedByName(s)
    ensures SortedByName(InsertByName(f, s))
  {
    if s == [] {
    } else if StrLt(SortKey(f), SortKey(s[0])) {
      StrLtAsymmetric(SortKey(f), SortKey(s[0]));
      SortedCons(f, s);
    } else {
      var tail := InsertByName(f, s[1..]);
      assert SortedByName(s[1..]) by {
        forall i | 0 <= i < |s[1..]| - 1 ensures !StrLt(SortKey(s[1..][i + 1]), SortKey(s[1..][i])) {
          assert s[1..][i] == s[i + 1] && s[1..][i + 1] == s[i + 2];
        }
      }
      InsertKeepsSorted(f, s[1..]);
      assert tail[0] == f || tail[0] == s[1];
      SortedCons(s[0], tail);
    }
  }

  /** The files come out ordered by lower-cased name and are the same files
      as went in. */
  lemma {:induction false} SortByNameSorted(fs: seq<string>)
    ensures SortedByName(SortByName(fs)) && multiset(SortByName(fs)) == multiset(fs)
  {
    if fs != [] {
      SortByNameSorted(fs[..|fs| - 1]);
      InsertKeepsSorted(fs[|fs| - 1], SortByName(fs[..|fs| - 1]));
    }
  }

  /** `[f]` when `f` has key `k`, `[]` otherwise. */
  function Keyed(f: string, k: string): seq<string> {
    if SortKey(f) == k then [f] else []
  }

  /** The files of `fs` whose key is `k`, in their order in `fs`. */
  function WithKey(fs: seq<string>, k: string): (r: seq<string>)
    ensures |r| <= |fs|
  {
    if fs == [] then [] else Keyed(fs[0], k) + WithKey(fs[1..], k)
  }

  lemma ConcatAssoc<T>(x: seq<T>, y: seq<T>, z: seq<T>)
    ensures x + (y + z) == (x + y) + z
  {
  }

  lemma ConcatEmpty<T>(x: seq<T>)
    ensures [] + x == x && x + [] == x
  {
  }

  lemma ConcatTail<T>(a: seq<T>, b: seq<T>)
    requires a != []
    ensures (a + b)[0] == a[0] && (a + b)[1..] == a[1..] + b
  {
  }

  lemma ConcatIndex<T>(a: seq<T>, b: seq<T>, i: nat)
    requires i < |a| + |b|
    ensures (a + b)[i] == if i < |a| then a[i] else b[i - |a|]
  {
  }

  lemma {:induction false} WithKeyConcat(a: seq<string>, b: seq<string>, k: string)
    ensures WithKey(a + b, k) == WithKey(a, k) + WithKey(b, k)
  {
    if a == [] {
      assert a + b == b;
    } else {
      var x, y, z := Keyed(a[0], k), WithKey(a[1..], k), WithKey(b, k);
      assert WithKey(a, k) == x + y;
      assert WithKey(a + b, k) == x + WithKey(a[1..] + b, k) by { ConcatTail(a, b); }
      assert WithKey(a[1..] + b, k) == y + z by { WithKeyConcat(a[1..], b, k); }
      ConcatAssoc(x, y, z);
    }
  }

  lemma SortedTail(s: seq<string>)
    requires s != [] && SortedByName(s)
    ensures SortedByName(s[1..])
  {
    forall i | 0 <= i < |s[1..]| - 1 ensures !StrLt(SortKey(s[1..][i + 1]), SortKey(s[1..][i])) {
      assert s[1..][i] == s[i + 1] && s[1..][i + 1] == s[i + 2];
    }
  }

  /** In a sorted list that starts above `k`, no file has key `k`. */
  lemma {:induction false} NoKeyBelowFirst(s: seq<string>, k: string)
    requires s != [] && SortedByName(s) && StrLt(k, SortKey(s[0]))
    ensures WithKey(s, k) == []
  {
    StrLtIrreflexive(k);
    assert Keyed(s[0], k) == [];
    if |s| == 1 {
      assert WithKey(s[1..], k) == [];
    } else {
      var k0, k1 := SortKey(s[0]), SortKey(s[1]);
      assert !StrLt(k1, k0);
      if k0 != k1 {
        StrLtTotal(k0, k1);
        StrLtTransitive(k, k0, k1);
      }
      SortedTail(s);
      assert s[1..][0] == s[1];
      NoKeyBelowFirst(s[1..], k);
    }
  }

  /** Inserting into a sorted list puts the new file after every file of
      the same key. */
  lemma {:induction false} InsertWithKey(f: string, s: seq<string>, k: string)
    requires SortedByName(s)
    ensures WithKey(InsertByName(f, s), k) == WithKey(s, k) + Keyed(f, k)
  {
    if s == [] {
      assert InsertByName(f, s) == [f];
      WithKeyOne(f, k);
      ConcatEmpty(Keyed(f, k));
    } else if StrLt(SortKey(f), SortKey(s[0])) {
      InsertInFront(f, s, k);
    } else {
      SortedTail(s);
      InsertWithKey(f, s[1..], k);
      InsertBehind(f, s, k);
    }
  }

  /** A file inserted behind the first of a list keeps its place among the
      files of its key when it does so in the rest of the list. */
  lemma InsertBehind(f: string, s: seq<string>, k: string)
    requires s != [] && !StrLt(SortKey(f), SortKey(s[0]))
    requires WithKey(InsertByName(f, s[1..]), k) == WithKey(s[1..], k) + Keyed(f, k)
    ensures WithKey(InsertByName(f, s), k) == WithKey(s, k) + Keyed(f, k)
  {
    var t := InsertByName(f, s[1..]);
    assert InsertByName(f, s) == [s[0]] + t;
    var x, y, z := Keyed(s[0], k), WithKey(s[1..], k), Keyed(f, k);
    assert WithKey(s, k) == x + y;
    assert WithKey([s[0]] + t, k) == x + WithKey(t, k) by { ConcatTail([s[0]], t); }
    ConcatAssoc(x, y, z);
  }

  lemma WithKeyOne(f: string, k: string)
    ensures WithKey([f], k) == Keyed(f, k)
  {
    assert WithKey([f], k) == Keyed(f, k) + WithKey([], k) by { ConcatTail([f], []); }
  }

  /** A file put in front of a sorted list whose first key is above its own
      still comes after every file of its key: there is none. */
  lemma InsertInFront(f: string, s: seq<string>, k: string)
    requires s != [] && SortedByName(s) && StrLt(SortKey(f), SortKey(s[0]))
    ensures WithKey(InsertByName(f, s), k) == WithKey(s, k) + Keyed(f, k)
  {
    assert InsertByName(f, s) == [f] + s;
    assert WithKey([f] + s, k) == Keyed(f, k) + WithKey(s, k) by { ConcatTail([f], s); }
    if SortKey(f) == k {
      NoKeyBelowFirst(s, k);
      ConcatEmpty(Keyed(f, k));
    } else {
      ConcatEmpty(WithKey(s, k));
    }
  }

  /** The sort is stable: the files of one key come out in glob order. */
  lemma {:induction false} SortByNameStable(fs: seq<string>, k: string)
    ensures WithKey(SortByName(fs), k) == WithKey(fs, k)
  {
    if fs != [] {
      var init, last := fs[..|fs| - 1], fs[|fs| - 1];
      assert WithKey(fs, k) == WithKey(init, k) + Keyed(last, k) by {
        assert fs == init + [last];
        WithKeyConcat(init, [last], k);
        WithKeyOne(last, k);
      }
      assert SortByName(fs) == InsertByName(last, SortByName(init));
      assert WithKey(SortByName(fs), k) == WithKey(SortByName(init), k) + Keyed(last, k) by {
        SortByNameSorted(init);
        InsertWithKey(last, SortByName(init), k);
      }
      SortByNameStable(init, k);
    }
  }

  /** The glob's results that are regular files, in glob order. */
  function RegularFiles(globbed: seq<string>, isFile: string -> bool, j: nat): (r: seq<string>)
    requires j <= |globbed|
    ensures forall f :: f in r <==> f in globbed[..j] && isFile(f)
  {
    if j == 0 then []
    else
      var r := RegularFiles(globbed, isFile, j - 1) + (if isFile(globbed[j - 1]) then [globbed[j - 1]] else []);
      assert globbed[..j] == globbed[..j - 1] + [globbed[j - 1]];
      r
  }

  // ---------------------------------------------------------------------
  // Slugs (`slugify`)

  /** Characters beyond ASCII that Python's `\w` does not match, because
      they are neither letters nor characters with a numeric value (as of
      Unicode 15.0), block by block: the Latin-1 controls, punctuation and
      symbols (but not `ª`, `²`, `³`, `µ`, `¹`, `º` and the vulgar
      fractions), the modifier symbols and combining diacritics, general
      punctuation, currency signs, the combining marks for symbols, the
      symbols of the letterlike block (but not its letters, such as `ℂ`,
      `Ω` or `ℓ`), arrows, mathematical and technical symbols, control
      pictures and OCR marks, the parenthesized and circled letters (but
      not the circled and parenthesized digits before them), box drawing,
      shapes, dingbats (but not the circled digits), Braille, supplemental
      punctuation (but not the vertical tilde `ⸯ`), the CJK and Kangxi
      radicals and ideographic description characters, the CJK symbols
      and punctuation (but not `々`, `〆`, `〇` and the other ideographic
      letters and numerals of that block), the kana sound marks, the
      katakana double hyphen and middle dot, the enclosed CJK letters and
      the CJK compatibility squares (but not their circled and
      parenthesized numerals), the hexagrams, private use, the variation
      selectors with the vertical, half-mark, compatibility and small
      forms, the full-width punctuation and symbols, the specials, the
      musical and Tai Xuan Jing symbols, the game, enclosed-letter, flag,
      emoji and pictograph blocks, and everything from the end of CJK
      extension H on: tags, the variation selector supplement and
      unassigned code points.  The ranges, in increasing order, are
      searched as a tree on the code point. */
  predicate IsNonWordSymbol(c: char) {
    var x := c as int;
    if x < 0x2E00 then
      if x < 0x2108 then
        if x < 0x2C2 then
          if x < 0xBB then
            (0x80 <= x <= 0xA9) || (0xAB <= x <= 0xB1) || x == 0xB4 || (0xB6 <= x <= 0xB8)
          else
            x == 0xBB || x == 0xBF || x == 0xD7 || x == 0xF7
        else
          if x < 0x2EF then
            (0x2C2 <= x <= 0x2C5) || (0x2D2 <= x <= 0x2DF) || (0x2E5 <= x <= 0x2EB) || x == 0x2ED
          else
            (0x2EF <= x <= 0x36F) || (0x200B <= x <= 0x206F) || (0x20A0 <= x <= 0x2101) || (0x2103 <= x <= 0x2106)
      else
        if x < 0x213A then
          if x < 0x2125 then
            (0x2108 <= x <= 0x2109) || x == 0x2114 || (0x2116 <= x <= 0x2118) || (0x211E <= x <= 0x2123)
          else
            x == 0x2125 || x == 0x2127 || x == 0x2129 || x == 0x212E
        else
          if x < 0x2190 then
            (0x213A <= x <= 0x213B) || (0x2140 <= x <= 0x2144) || (0x214A <= x <= 0x214D) || x == 0x214F
          else
            (0x2190 <= x <= 0x245F) || (0x249C <= x <= 0x24E9) || (0x2500 <= x <= 0x2775) || (0x2794 <= x <= 0x2BFF)
    else
      if x < 0x4DC0 then
        if x < 0x30A0 then
          if x < 0x302A then
            (0x2E00 <= x <= 0x2E2E) || (0x2E30 <= x <= 0x2FDF) || (0x2FF0 <= x <= 0x3004) || (0x3008 <= x <= 0x3020)
          else
            (0x302A <= x <= 0x3030) || (0x3036 <= x <= 0x3037) || (0x303D <= x <= 0x303F) || (0x3099 <= x <= 0x309C)
        else
          if x < 0x3250 then
            x == 0x30A0 || x == 0x30FB || (0x3200 <= x <= 0x321F) || (0x322A <= x <= 0x3247)
          else
            x == 0x3250 || (0x3260 <= x <= 0x327F) || (0x328A <= x <= 0x32B0) || (0x32C0 <= x <= 0x33FF)
      else
        if x < 0x1D000 then
          if x < 0xFF1A then
            (0x4DC0 <= x <= 0x4DFF) || (0xE000 <= x <= 0xF8FF) || (0xFE00 <= x <= 0xFE6F) || (0xFF00 <= x <= 0xFF0F)
          else
            (0xFF1A <= x <= 0xFF20) || (0xFF3B <= x <= 0xFF40) || (0xFF5B <= x <= 0xFF65) || (0xFFE0 <= x <= 0xFFFF)
        else
          if x < 0x323B0 then
            (0x1D000 <= x <= 0x1D24F) || (0x1D300 <= x <= 0x1D35F) || (0x1F000 <= x <= 0x1F0FF) || (0x1F10D <= x <= 0x1FAFF)
          else
            (0x323B0 <= x <= 0x10FFFF)
  }

  /** `\w` on text: ASCII letters, digits and `_`, and every character
      beyond ASCII that is neither whitespace nor one of the characters
      above, which covers the letters and digits of every script (CJK
      ideographs, kana, full-width letters and digits among them). */
  predicate IsWordChar(c: char) {
    IsLetter(c) || IsDigit(c) || c == '_' || (c as int >= 128 && !IsSpace(c) && !IsNonWordSymbol(c))
  }

  /** The characters `[\s_-]+` runs are made of. */
  predicate IsRunChar(c: char) { IsSpace(c) || c == '_' || c == '-' }

  /** The characters `[^\w\s-]` does not match. */
  predicate IsKept(c: char) { IsWordChar(c) || IsSpace(c) || c == '-' }

  /** The characters a slug is made of. */
  predicate IsSlugChar(c: char) { c == '-' || (IsWordChar(c) && c != '_' && !IsUpper(c)) }

  predicate NoUpper(s: string) { forall i :: 0 <= i < |s| ==> !IsUpper(s[i]) }

  predicate AllKept(s: string) { forall i :: 0 <= i < |s| ==> IsKept(s[i]) }

  predicate AllSlugChars(s: string) { forall i :: 0 <= i < |s| ==> IsSlugChar(s[i]) }

  predicate NoDoubleDash(s: string) { forall i :: 0 <= i < |s| - 1 ==> !(s[i] == '-' && s[i + 1] == '-') }

  /** `re.sub(r'[^\w\s-]', '', s)` */
  function RemoveSpecial(s: string): (r: string)
    ensures AllKept(r)
    ensures NoUpper(s) ==> NoUpper(r)
  {
    if s == [] then []
    else
      var rest := RemoveSpecial(s[1..]);
      assert NoUpper(s) ==> NoUpper(s[1..]) by {
        if NoUpper(s) { forall i | 0 <= i < |s[1..]| ensures !IsUpper(s[1..][i]) { assert s[1..][i] == s[i + 1]; } }
      }
      Kept(s[0]) + rest
  }

  /** What `re.sub(r'[^\w\s-]', '', ...)` leaves of one character. */
  function Kept(c: char): (r: string)
    ensures AllKept(r) && (NoUpper([c]) ==> NoUpper(r))
  {
    if IsKept(c) then [c] else []
  }

  /** `re.sub(r'[\s_-]+', '-', s)`, with `inRun` telling whether a run is
      already open: every run becomes one `-`. */
  function Collapse(inRun: bool, s: string): (r: string)
    ensures NoDoubleDash(r)
    ensures inRun && r != [] ==> r[0] != '-'
    ensures AllKept(s) && NoUpper(s) ==> AllSlugChars(r)
    decreases |s|
  {
    if s == [] then []
    else
      assert AllKept(s) && NoUpper(s) ==> AllKept(s[1..]) && NoUpper(s[1..]) by {
        if AllKept(s) && NoUpper(s) {
          forall i | 0 <= i < |s[1..]| ensures IsKept(s[1..][i]) && !IsUpper(s[1..][i]) { assert s[1..][i] == s[i + 1]; }
        }
      }
      if IsRunChar(s[0]) then
        var rest := Collapse(true, s[1..]);
        if inRun then rest else "-" + rest
      else [s[0]] + Collapse(false, s[1..])
  }

  function LeadingDashes(s: string): (k: nat)
    ensures k <= |s| && (k == |s| || s[k] != '-')
    ensures forall i :: 0 <= i < k ==> s[i] == '-'
  {
    if s != [] && s[0] == '-' then 1 + LeadingDashes(s[1..]) else 0
  }

  function TrailingDashEnd(s: string): (e: nat)
    ensures e <= |s| && (e == 0 || s[e - 1] != '-')
  {
    if s != [] && s[|s| - 1] == '-' then TrailingDashEnd(s[..|s| - 1]) else |s|
  }

  /** `s.strip('-')` */
  function StripDashes(s: string): (r: string)
    ensures r == [] || (r[0] != '-' && r[|r| - 1] != '-')
  {
    var a := LeadingDashes(s);
    if a == |s| then [] else
      TrailingDashPast(s, a);
      s[a..TrailingDashEnd(s)]
  }

  lemma {:induction false} TrailingDashPast(s: string, k: nat)
    requires k < |s| && s[k] != '-'
    ensures TrailingDashEnd(s) > k
  {
    if s[|s| - 1] == '-' {
      TrailingDashPast(s[..|s| - 1], k);
    }
  }

  /** `slugify`: lower-case, drop characters other than word characters,
      whitespace and `-`, turn each run of whitespace, `_` and `-` into one
      `-`, and strip `-` from both ends. */
  function Slugify(text: string): string {
    StripDashes(Collapse(false, RemoveSpecial(Lower(text))))
  }

  /** The shape every slug has. */
  predicate IsSlug(r: string) {
    AllSlugChars(r) && NoDoubleDash(r) && (r == [] || (r[0] != '-' && r[|r| - 1] != '-'))
  }

  lemma StripKeepsSlug(c: string)
    requires AllSlugChars(c) && NoDoubleDash(c)
    ensures IsSlug(StripDashes(c))
  {
    var r := StripDashes(c);
    var a := LeadingDashes(c);
    if a < |c| {
      TrailingDashPast(c, a);
      assert forall i :: 0 <= i < |r| ==> r[i] == c[a + i];
    }
  }

  /** A slug holds no whitespace, no `_`, no capital letter and no `--`, and
      neither starts nor ends with `-`. */
  lemma SlugShape(text: string)
    ensures IsSlug(Slugify(text))
    ensures forall i :: 0 <= i < |Slugify(text)| ==> !IsSpace(Slugify(text)[i]) && Slugify(text)[i] != '_'
  {
    var l := Lower(text);
    assert NoUpper(l);
    StripKeepsSlug(Collapse(false, RemoveSpecial(l)));
  }

  /** A slug that is already in slug shape is kept as it is by each step. */
  lemma {:induction false} CollapseKeepsSlug(inRun: bool, s: string)
    requires AllSlugChars(s) && NoDoubleDash(s)
    requires inRun ==> s == [] || s[0] != '-'
    ensures Collapse(inRun, s) == s
    decreases |s|
  {
    if s != [] {
      assert AllSlugChars(s[1..]) && NoDoubleDash(s[1..]) by {
        assert forall i :: 0 <= i < |s[1..]| ==> s[1..][i] == s[i + 1];
      }
      CollapseKeepsSlug(s[0] == '-', s[1..]);
      assert [s[0]] + s[1..] == s;
    }
  }

  lemma {:induction false} RemoveSpecialKeeps(s: string)
    requires AllSlugChars(s)
    ensures RemoveSpecial(s) == s
  {
    if s != [] {
      assert AllSlugChars(s[1..]) by {
        assert forall i :: 0 <= i < |s[1..]| ==> s[1..][i] == s[i + 1];
      }
      RemoveSpecialKeeps(s[1..]);
      assert [s[0]] + s[1..] == s;
    }
  }

  /** Slugifying a slug changes nothing, so an anchor made from a heading's
      slug is stable. */
  lemma SlugifyIdempotent(text: string)
    ensures Slugify(Slugify(text)) == Slugify(text)
  {
    SlugShape(text);
    var s := Slugify(text);
    assert Lower(s) == s;
    RemoveSpecialKeeps(s);
    CollapseKeepsSlug(false, s);
    assert LeadingDashes(s) == 0;
    assert s == [] || TrailingDashEnd(s) == |s|;
  }

  /** Characters that pass through every step of the slug unchanged. */
  predicate PlainWord(w: string) {
    forall i :: 0 <= i < |w| ==> IsWordChar(w[i]) && w[i] != '_' && !IsUpper(w[i])
  }

  lemma {:induction false} RemoveSpecialConcat(a: string, b: string)
    ensures RemoveSpecial(a + b) == RemoveSpecial(a) + RemoveSpecial(b)
  {
    if a == [] {
      assert a + b == b;
    } else {
      var ab := a + b;
      assert ab[0] == a[0] && ab[1..] == a[1..] + b;
      var h := Kept(a[0]);
      assert RemoveSpecial(ab) == h + RemoveSpecial(a[1..] + b);
      assert RemoveSpecial(a) == h + RemoveSpecial(a[1..]);
      RemoveSpecialConcat(a[1..], b);
      Regroup(h, RemoveSpecial(a[1..]), RemoveSpecial(b));
    }
  }

  lemma Regroup(x: string, y: string, z: string)
    ensures x + (y + z) == (x + y) + z
  {
  }

  lemma {:induction false} RemoveSpecialPlain(w: string)
    requires PlainWord(w)
    ensures RemoveSpecial(w) == w
  {
    if w != [] {
      assert PlainWord(w[1..]) by { forall i | 0 <= i < |w[1..]| ensures w[1..][i] == w[i + 1] { } }
      RemoveSpecialPlain(w[1..]);
    }
  }

  lemma {:induction false} CollapsePlain(inRun: bool, w: string)
    requires PlainWord(w)
    ensures w != [] ==> Collapse(inRun, w) == w
  {
    if |w| > 1 {
      assert PlainWord(w[1..]) by { forall i | 0 <= i < |w[1..]| ensures w[1..][i] == w[i + 1] { } }
      CollapsePlain(false, w[1..]);
    }
  }

  /** Stripping dashes keeps a text that neither starts nor ends with one,
      and removes one dash put before it. */
  lemma StripUndashed(w: string)
    requires w != [] && w[0] != '-' && w[|w| - 1] != '-'
    ensures StripDashes(w) == w && StripDashes("-" + w) == w
  {
    assert LeadingDashes(w) == 0 && TrailingDashEnd(w) == |w|;
    var d := "-" + w;
    assert d[1..] == w;
    assert LeadingDashes(d) == 1 && TrailingDashEnd(d) == |d|;
  }

  lemma LowerAfter(c: char, w: string)
    requires !IsUpper(c)
    ensures Lower([c, ' '] + w) == [c, ' '] + Lower(w)
  {
    var t := [c, ' '] + w;
    assert forall i :: 0 <= i < |t| ==> t[i] == (if i == 0 then c else if i == 1 then ' ' else w[i - 2]);
  }

  /** Lower-casing word characters other than `_` gives characters that
      pass through the slug unchanged. */
  lemma LowerWordPlain(w: string)
    requires forall i :: 0 <= i < |w| ==> IsWordChar(w[i]) && w[i] != '_'
    ensures PlainWord(Lower(w))
  {
  }

  lemma PlainNoDash(w: string)
    requires w != [] && PlainWord(w)
    ensures w[0] != '-' && w[|w| - 1] != '-'
  {
    assert IsWordChar(w[0]) && IsWordChar(w[|w| - 1]);
  }

  /** A punctuation or symbol character beyond ASCII that is not
      whitespace is one `[^\w\s-]` matches. */
  lemma NonWordNotKept(c: char)
    requires IsNonWordSymbol(c) && !IsSpace(c)
    ensures !IsKept(c)
  {
  }

  lemma SymbolRemoved(c: char)
    requires !IsKept(c)
    ensures RemoveSpecial([c]) == []
  {
    assert [c][1..] == [];
  }

  /** Two words with a punctuation or symbol character between them slug
      to the two words run together. */
  lemma SlugDropsSymbol(a: string, c: char, b: string)
    requires a != [] && PlainWord(a) && PlainWord(b) && IsNonWordSymbol(c) && !IsSpace(c)
    ensures Slugify(a + [c] + b) == a + b
  {
    var t := a + [c] + b;
    assert Lower(t) == t by {
      assert forall i :: 0 <= i < |t| ==> t[i] == (if i < |a| then a[i] else if i == |a| then c else b[i - |a| - 1]);
      LowerUnchanged(t);
    }
    NonWordNotKept(c);
    InnerSymbolRemoved(a, c, b);
    var u := a + b;
    assert PlainWord(u) by {
      assert forall i :: 0 <= i < |u| ==> u[i] == (if i < |a| then a[i] else b[i - |a|]);
    }
    CollapsePlain(false, u);
    PlainNoDash(u);
    StripUndashed(u);
  }

  /** A symbol and a space before a word are dropped, the space being
      folded into a leading `-` that is stripped. */
  lemma SlugDropsLeadingSymbol(c: char, w: string)
    requires w != [] && IsNonWordSymbol(c) && !IsSpace(c)
    requires forall i :: 0 <= i < |w| ==> IsWordChar(w[i]) && w[i] != '_'
    ensures Slugify([c, ' '] + w) == Lower(w)
  {
    NonWordNotKept(c);
    var lw := Lower(w);
    LowerAfter(c, w);
    LowerWordPlain(w);
    LeadingSymbolRemoved(c, lw);
    CollapseLeadingSpace(lw);
    PlainNoDash(lw);
    StripUndashed(lw);
  }

  lemma InnerSymbolRemoved(a: string, c: char, b: string)
    requires PlainWord(a) && PlainWord(b) && !IsKept(c)
    ensures RemoveSpecial(a + [c] + b) == a + b
  {
    SymbolRemoved(c);
    RemoveSpecialPlain(a);
    RemoveSpecialPlain(b);
    RemovedBetween(a, [c], b);
  }

  /** Removing special characters around a piece that vanishes entirely. */
  lemma RemovedBetween(a: string, m: string, b: string)
    requires RemoveSpecial(a) == a && RemoveSpecial(m) == [] && RemoveSpecial(b) == b
    ensures RemoveSpecial(a + m + b) == a + b
  {
    RemoveSpecialThree(a, m, b);
    assert a + [] == a;
  }

  /** Removing special characters from three pieces in a row. */
  lemma RemoveSpecialThree(a: string, m: string, b: string)
    ensures RemoveSpecial(a + m + b) == RemoveSpecial(a) + RemoveSpecial(m) + RemoveSpecial(b)
  {
    RemoveSpecialConcat(a + m, b);
    RemoveSpecialConcat(a, m);
  }

  lemma LeadingSymbolRemoved(c: char, w: string)
    requires PlainWord(w) && !IsKept(c)
    ensures RemoveSpecial([c, ' '] + w) == [' '] + w
  {
    RemoveSpecialConcat([c, ' '], w);
    RemoveSpecialPlain(w);
    RemoveSpecialConcat([c], [' ']);
    SymbolRemoved(c);
    assert [c] + [' '] == [c, ' '];
    assert [' '][1..] == [] && IsKept(' ');
  }

  lemma CollapseLeadingSpace(w: string)
    requires w != [] && PlainWord(w)
    ensures Collapse(false, [' '] + w) == "-" + w
  {
    CollapsePlain(true, w);
    assert ([' '] + w)[1..] == w;
  }

  /** A Chinese heading loses its full-width colon: `第一章：概述` has the
      anchor `第一章概述`. */
  lemma SlugOfChineseHeading()
    ensures Slugify("第一章：概述") == "第一章概述"
  {
    var a, b := "第一章", "概述";
    assert a + ['：'] + b == "第一章：概述";
    assert a + b == "第一章概述";
    SlugDropsSymbol(a, '：', b);
  }

  /** A currency sign ending a heading is dropped: `价格€` has the anchor
      `价格`. */
  lemma SlugOfPriceHeading()
    ensures Slugify("价格€") == "价格"
  {
    assert "价格" + ['€'] + "" == "价格€";
    SlugDropsSymbol("价格", '€', "");
  }

  /** An emoji before a word is dropped with the space after it: `📄 Guide`
      has the anchor `guide`. */
  lemma SlugOfEmojiHeading()
    ensures Slugify("📄 Guide") == "guide"
  {
    assert ['📄', ' '] + "Guide" == "📄 Guide";
    assert Lower("Guide") == "guide";
    SlugDropsLeadingSymbol('📄', "Guide");
  }

  // ---------------------------------------------------------------------
  // Titles (`extract_title_from_file`)

  /** Where the whitespace run starting at `i` ends. */
  function SpaceRunEnd(s: string, i: nat): (e: nat)
    requires i <= |s|
    ensures i <= e <= |s| && (e < |s| ==> !IsSpace(s[e]))
    ensures forall k :: i <= k < e ==> IsSpace(s[k])
    decreases |s| - i
  {
    if i < |s| && IsSpace(s[i]) then SpaceRunEnd(s, i + 1) else i
  }

  /** Where the line holding index `i` ends. */
  function LineEnd(s: string, i: nat): (e: nat)
    requires i <= |s|
    ensures i <= e <= |s| && (e < |s| ==> s[e] == '\n')
    ensures forall k :: i <= k < e ==> s[k] != '\n'
    decreases |s| - i
  {
    if i < |s| && s[i] != '\n' then LineEnd(s, i + 1) else i
  }

  predicate LineStart(s: string, p: nat) { p == 0 || (0 < p <= |s| && s[p - 1] == '\n') }

  /** Some index in `[a, e)` holds whitespace other than a line break. */
  predicate InlineSpaceIn(s: string, a: nat, e: nat)
    requires e <= |s|
  {
    exists k :: a <= k < e && s[k] != '\n'
  }

  /** The stripped group of `^#{level}\s+(.+)$` matched at line start `p`,
      when it matches there.  `\s+` may run across line breaks; when it
      runs to the end of the text the match backtracks onto a whitespace
      character, and the stripped group is then empty. */
  function HeadingAt(s: string, p: nat, level: nat): Option<string>
    requires p <= |s|
  {
    var q := p + level;
    if !(q <= |s| && s[p..q] == Repeat('#', level)) then None
    else
      var e := SpaceRunEnd(s, q);
      if e == q then None
      else if e < |s| then Some(Strip(s[e..LineEnd(s, e)]))
      else if InlineSpaceIn(s, q + 1, e) then Some("")
      else None
  }

  /** `re.search(r'^#{level}\s+(.+)$', s, re.MULTILINE)` from index `p`. */
  function FirstHeading(s: string, level: nat, p: nat): Option<string>
    requires p <= |s|
    decreases |s| - p
  {
    if LineStart(s, p) && HeadingAt(s, p, level).Some? then HeadingAt(s, p, level)
    else if p == |s| then None
    else FirstHeading(s, level, p + 1)
  }

  /** `re.sub(r'^#+\s*', '', line)` */
  function DropHashes(line: string): string {
    var k := HashRun(line, 0);
    if k == 0 then line else line[SpaceRunEnd(line, k)..]
  }

  function HashRun(s: string, i: nat): (e: nat)
    requires i <= |s|
    ensures i <= e <= |s|
    decreases |s| - i
  {
    if i < |s| && s[i] == '#' then HashRun(s, i + 1) else i
  }

  /** The first line that is not blank once its marks are dropped, cut to
      100 characters. */
  function FirstLineTitle(lines: seq<string>): (r: Option<string>)
    ensures r.Some? ==> 0 < |r.value| <= 100
  {
    if lines == [] then None
    else
      var clean := DropHashes(Strip(lines[0]));
      if Strip(lines[0]) != "" && clean != "" then Some(Take(clean, 100))
      else FirstLineTitle(lines[1..])
  }

  datatype Title = Title(title: string, source: string)

  const FromHeading1 := "一级标题"
  const FromHeading2 := "二级标题"
  const FromFirstLine := "第一行"
  const FromFileName := "文件名"
  const FromUnreadable := "文件名（错误）"

  /** `extract_title_from_file` on the file's text (`None` when reading it
      raises); `titleCase` is `str.title`. */
  function ExtractTitle(content: Option<string>, stem: string, titleCase: string -> string): Title {
    if content.None? then Title(stem, FromUnreadable)
    else
      var c := content.value;
      if FirstHeading(c, 1, 0).Some? then Title(FirstHeading(c, 1, 0).value, FromHeading1)
      else if FirstHeading(c, 2, 0).Some? then Title(FirstHeading(c, 2, 0).value, FromHeading2)
      else if FirstLineTitle(Split(Strip(c), '\n')).Some? then
        Title(FirstLineTitle(Split(Strip(c), '\n')).value, FromFirstLine)
      else Title(titleCase(ReplaceChar(ReplaceChar(stem, '_', " "), '-', " ")), FromFileName)
  }

  /** A file that opens with a level-one heading is titled by its text. */
  lemma HeadingLineGivesTitle(t: string, rest: string, stem: string, titleCase: string -> string)
    requires t != [] && !IsSpace(t[0]) && '\n' !in t
    ensures ExtractTitle(Some("# " + t + "\n" + rest), stem, titleCase) == Title(Strip(t), FromHeading1)
  {
    var s := "# " + t + "\n" + rest;
    assert s[0..1] == Repeat('#', 1);
    assert IsSpace(s[1]) && !IsSpace(s[2]);
    assert SpaceRunEnd(s, 1) == 2 by {
      assert SpaceRunEnd(s, 2) == 2;
    }
    LineEndAt(s, 2, |t|);
    assert s[2..2 + |t|] == t;
    assert HeadingAt(s, 0, 1) == Some(Strip(t));
    assert FirstHeading(s, 1, 0) == Some(Strip(t));
  }

  lemma {:induction false} LineEndAt(s: string, i: nat, n: nat)
    requires i + n < |s| && s[i + n] == '\n' && forall k :: i <= k < i + n ==> s[k] != '\n'
    ensures LineEnd(s, i) == i + n
    decreases n
  {
    if n > 0 {
      LineEndAt(s, i + 1, n - 1);
    }
  }

  /** A level-one heading anywhere beats an earlier level-two one: "## a\n# b"
      is titled "b". */
  lemma LevelOneBeatsEarlierLevelTwo(stem: string, titleCase: string -> string)
    ensures ExtractTitle(Some("## a\n# b"), stem, titleCase) == Title("b", FromHeading1)
  {
    var s := "## a\n# b";
    assert HeadingAt(s, 0, 1).None? by {
      assert s[0..1] == Repeat('#', 1);
      assert SpaceRunEnd(s, 1) == 1;
    }
    assert !LineStart(s, 1) && !LineStart(s, 2) && !LineStart(s, 3) && !LineStart(s, 4);
    assert LineStart(s, 5) && s[5..6] == Repeat('#', 1);
    assert SpaceRunEnd(s, 6) == 7 by {
      assert SpaceRunEnd(s, 7) == 7;
    }
    assert LineEnd(s, 7) == 8 by {
      assert LineEnd(s, 8) == 8;
    }
    assert s[7..8] == "b";
    assert Strip("b") == "b" by {
      assert LeadingSpaces("b") == 0 && TrailingEnd("b") == 1;
    }
    assert FirstHeading(s, 1, 5) == Some("b");
    assert FirstHeading(s, 1, 4) == Some("b");
    assert FirstHeading(s, 1, 3) == Some("b");
    assert FirstHeading(s, 1, 2) == Some("b");
    assert FirstHeading(s, 1, 1) == Some("b");
  }

  /** Blank or mark-only text falls back to the file name; an unreadable
      file is titled by its bare stem. */
  lemma TitleFallbacks(c: string, stem: string, titleCase: string -> string)
    requires forall i :: 0 <= i < |c| ==> IsSpace(c[i])
    ensures ExtractTitle(Some(c), stem, titleCase).source == FromFileName
    ensures ExtractTitle(None, stem, titleCase) == Title(stem, FromUnreadable)
  {
    NoHeadingInBlank(c, 1, 0);
    NoHeadingInBlank(c, 2, 0);
    StripEmpty(c);
    assert Split(Strip(c), '\n') == [""];
    assert FirstLineTitle([""]) == None by {
      StripEmpty("");
      assert [""][1..] == [];
    }
  }

  lemma {:induction false} NoHeadingInBlank(c: string, level: nat, p: nat)
    requires p <= |c| && level >= 1
    requires forall i :: 0 <= i < |c| ==> IsSpace(c[i])
    ensures FirstHeading(c, level, p).None?
    decreases |c| - p
  {
    if p + level <= |c| {
      assert c[p..p + level][0] == c[p];
      assert c[p..p + level] != Repeat('#', level);
    }
    if p < |c| {
      NoHeadingInBlank(c, level, p + 1);
    }
  }

  // ---------------------------------------------------------------------
  // Table of contents (`generate_table_of_contents`)

  datatype TocEntry = TocEntry(title: string, relPath: string)

  /** `f"{i}. **[{title}](#{self.slugify(title)})**  \n"` */
  function EntryLine(i: nat, e: TocEntry): string {
    Dec(i) + ". **[" + e.title + "](#" + Slugify(e.title) + ")**  \n"
  }

  function PathLine(e: TocEntry): string { "   `" + e.relPath + "`  \n" }

  /** The lines of the first `j` entries. */
  function TocPieces(es: seq<TocEntry>, j: nat): (r: seq<string>)
    requires j <= |es|
    ensures |r| == 2 * j
  {
    if j == 0 then [] else TocPieces(es, j - 1) + [EntryLine(j, es[j - 1]), PathLine(es[j - 1])]
  }

  const EmptyToc := "## 目录\n\n（无Markdown文件）\n\n"

  /** What `generate_table_of_contents` returns. */
  function Toc(es: seq<TocEntry>): string {
    if es == [] then EmptyToc else Join(["## 📚 目录\n\n"] + TocPieces(es, |es|) + ["\n---\n\n"], "")
  }

  /** Entry `k` is numbered `k + 1`, links to the slug of its title and is
      followed by its path line. */
  lemma {:induction false} TocEntriesInOrder(es: seq<TocEntry>, j: nat, k: nat)
    requires k < j <= |es|
    ensures TocPieces(es, j)[2 * k] == EntryLine(k + 1, es[k])
    ensures TocPieces(es, j)[2 * k + 1] == PathLine(es[k])
  {
    var prev, last := TocPieces(es, j - 1), [EntryLine(j, es[j - 1]), PathLine(es[j - 1])];
    TocPiecesStep(es, j - 1);
    ConcatIndex(prev, last, 2 * k);
    ConcatIndex(prev, last, 2 * k + 1);
    if k < j - 1 {
      TocEntriesInOrder(es, j - 1, k);
      assert TocPieces(es, j)[2 * k] == prev[2 * k];
      assert TocPieces(es, j)[2 * k + 1] == prev[2 * k + 1];
    } else {
      assert k + 1 == j && |prev| == 2 * k;
      assert TocPieces(es, j)[2 * k] == last[0];
      assert TocPieces(es, j)[2 * k + 1] == last[1];
    }
  }

  /** The pieces of one more entry follow those of the entries before it. */
  lemma TocPiecesStep(es: seq<TocEntry>, i: nat)
    requires i < |es|
    ensures TocPieces(es, i + 1) == TocPieces(es, i) + [EntryLine(i + 1, es[i]), PathLine(es[i])]
  {
  }

  /** The same, behind a heading line. */
  lemma TocLinesStep(heading: string, es: seq<TocEntry>, i: nat)
    requires i < |es|
    ensures [heading] + TocPieces(es, i) + [EntryLine(i + 1, es[i]), PathLine(es[i])]
         == [heading] + TocPieces(es, i + 1)
  {
    TocPiecesStep(es, i);
  }

  // ---------------------------------------------------------------------
  // Merging (`merge_files`)

  /** A file as the merge reads it. */
  datatype FileRead = Read(content: string, size: nat) | ReadFailed(error: string)

  /** The file system and the clock: whether the directory exists and is
      one, what the glob gives, which paths are regular files, each file's
      read, the paths relative to the directory, `str.title`, the three
      time readings and the elapsed-time text, and the write error, if
      any. */
  datatype MergeWorld = MergeWorld(dirExists: bool, isDir: bool, globbed: seq<string>, isFile: string -> bool,
                                   read: string -> FileRead, rel: string -> string, titleCase: string -> string,
                                   headerTime: string, footerTime: string, elapsed: string,
                                   writeError: Option<string>)

  datatype FileStat = FileStat(file: string, relativePath: string, title: string, titleSource: string,
                               size: nat, lines: nat, order: nat)

  datatype MergeStats = MergeStats(fileCount: nat, filesProcessed: seq<FileStat>, totalLines: nat, totalSize: nat)

  datatype MergeResult =
    | RaisedFileNotFound(message: string)
    | RaisedValueError(message: string)
    | Failed(error: string)
    | Merged(stats: MergeStats, output: string)

  const NoMarkdownFiles := "没有找到.md文件"

  /** `content.count('\n') + 1` */
  function FileLines(content: string): nat { Count(content, '\n') + 1 }

  function TitleOf(path: string, w: MergeWorld): Title {
    ExtractTitle(if w.read(path).Read? then Some(w.read(path).content) else None, Stem(FileName(path)), w.titleCase)
  }

  const Rule := Repeat('=', 80)

  /** The pieces one file adds (`i` is its 1-based position) and its record
      when it was read. */
  function FilePieces(i: nat, path: string, t: Title, w: MergeWorld, addSeparators: bool): seq<string> {
    match w.read(path)
    case ReadFailed(e) =>
      ["## ❌ 文件处理失败: " + FileName(path) + "\n\n", "错误: " + e + "\n\n", "---\n\n"]
    case Read(c, size) =>
      (if addSeparators && i > 1 then ["\n" + Rule + "\n\n"] else [])
      + ["## 📝 " + t.title + "\n\n", "**文件**: `" + w.rel(path) + "`  \n",
         "**大小**: " + Thousands(size) + " 字节  \n", "**行数**: " + Dec(FileLines(c)) + " 行  \n",
         "**标题来源**: " + t.source + "  \n", "**合并顺序**: 第 " + Dec(i) + " 个文件  \n\n", "---\n\n", c]
      + (if EndsWith(c, "\n") then [] else ["\n"])
  }

  function StatOf(i: nat, path: string, t: Title, w: MergeWorld): (r: FileStat)
    requires w.read(path).Read?
    ensures r.file == path && r.order == i
    ensures r.size == w.read(path).size && r.lines == FileLines(w.read(path).content)
  {
    FileStat(path, w.rel(path), t.title, t.source, w.read(path).size, FileLines(w.read(path).content), i)
  }

  /** The records and totals after the first `j` files. */
  datatype Progress = Progress(processed: seq<FileStat>, lines: nat, size: nat)

  /** The document pieces of the first `j` files. */
  function BodyPieces(files: seq<string>, titles: seq<Title>, w: MergeWorld, addSeparators: bool, j: nat): seq<string>
    requires j <= |files| == |titles|
  {
    if j == 0 then [] else BodyPieces(files, titles, w, addSeparators, j - 1) + FilePieces(j, files[j - 1], titles[j - 1], w, addSeparators)
  }

  /** One file's turn of the loop: when it could be read, its record, its
      line count and its size. */
  function MergeStep(p: Progress, i: nat, f: string, t: Title, w: MergeWorld): (r: Progress)
    ensures w.read(f).Read? ==> r.processed == p.processed + [StatOf(i, f, t, w)]
                                && r.lines == p.lines + FileLines(w.read(f).content) && r.size == p.size + w.read(f).size
    ensures w.read(f).ReadFailed? ==> r.processed == p.processed && r.lines == p.lines && r.size == p.size
  {
    if w.read(f).Read? then
      Progress(p.processed + [StatOf(i, f, t, w)], p.lines + FileLines(w.read(f).content), p.size + w.read(f).size)
    else p
  }

  function MergeBody(files: seq<string>, titles: seq<Title>, w: MergeWorld, j: nat): Progress
    requires j <= |files| == |titles|
  {
    if j == 0 then Progress([], 0, 0)
    else MergeStep(MergeBody(files, titles, w, j - 1), j, files[j - 1], titles[j - 1], w)
  }

  function SumLines(stats: seq<FileStat>): nat {
    if stats == [] then 0 else SumLines(stats[..|stats| - 1]) + stats[|stats| - 1].lines
  }

  function SumSizes(stats: seq<FileStat>): nat {
    if stats == [] then 0 else SumSizes(stats[..|stats| - 1]) + stats[|stats| - 1].size
  }

  /** The totals are the sums over the records of the files read. */
  lemma {:induction false} MergeTotals(files: seq<string>, titles: seq<Title>, w: MergeWorld, j: nat)
    requires j <= |files| == |titles|
    ensures var p := MergeBody(files, titles, w, j);
      p.lines == SumLines(p.processed) && p.size == SumSizes(p.processed)
  {
    if j > 0 {
      MergeTotals(files, titles, w, j - 1);
      var p := MergeBody(files, titles, w, j - 1);
      var f := files[j - 1];
      var q := MergeBody(files, titles, w, j);
      assert q == MergeStep(p, j, f, titles[j - 1], w);
      if w.read(f).Read? {
        var st := StatOf(j, f, titles[j - 1], w);
        assert q.processed == p.processed + [st];
        assert q.processed[..|q.processed| - 1] == p.processed;
        assert SumLines(q.processed) == SumLines(p.processed) + st.lines;
        assert SumSizes(q.processed) == SumSizes(p.processed) + st.size;
      }
    }
  }

  /** Each record names a file that could be read and its 1-based position
      in the merge. */
  predicate RecordsNamed(files: seq<string>, w: MergeWorld, stats: seq<FileStat>, j: nat)
    requires j <= |files|
  {
    forall k :: 0 <= k < |stats| ==>
      (1 <= stats[k].order <= j && stats[k].file == files[stats[k].order - 1] && w.read(stats[k].file).Read?)
  }

  /** The records are in merge order. */
  predicate RecordsAscending(stats: seq<FileStat>) {
    forall k :: 0 <= k < |stats| - 1 ==> stats[k].order < stats[k + 1].order
  }

  predicate RecordsInOrder(files: seq<string>, w: MergeWorld, stats: seq<FileStat>, j: nat)
    requires j <= |files|
  {
    RecordsNamed(files, w, stats, j) && RecordsAscending(stats)
  }

  /** The records of the first `j` files name files that could be read. */
  lemma {:induction false} MergeRecordsNamed(files: seq<string>, titles: seq<Title>, w: MergeWorld, j: nat)
    requires j <= |files| == |titles|
    ensures var ps := MergeBody(files, titles, w, j).processed;
      |ps| <= j && RecordsNamed(files, w, ps, j)
  {
    if j > 0 {
      MergeRecordsNamed(files, titles, w, j - 1);
      var p := MergeBody(files, titles, w, j - 1);
      var f := files[j - 1];
      var q := MergeStep(p, j, f, titles[j - 1], w);
      assert MergeBody(files, titles, w, j) == q;
      var ps, qs := p.processed, q.processed;
      if w.read(f).Read? {
        var st := StatOf(j, f, titles[j - 1], w);
        assert qs == ps + [st];
        forall k | 0 <= k < |qs|
          ensures 1 <= qs[k].order <= j && qs[k].file == files[qs[k].order - 1] && w.read(qs[k].file).Read?
        {
          if k < |ps| { assert qs[k] == ps[k]; } else { assert qs[k] == st; }
        }
      } else {
        assert qs == ps;
      }
    }
  }

  /** The records are in merge order, and the `j`-th file has the last
      record exactly when it could be read. */
  lemma {:induction false} MergeRecords(files: seq<string>, titles: seq<Title>, w: MergeWorld, j: nat)
    requires j <= |files| == |titles|
    ensures var ps := MergeBody(files, titles, w, j).processed;
      && |ps| <= j && RecordsInOrder(files, w, ps, j)
      && (j > 0 ==> (w.read(files[j - 1]).Read? <==> |ps| > 0 && ps[|ps| - 1].order == j))
  {
    MergeRecordsNamed(files, titles, w, j);
    if j > 0 {
      MergeRecords(files, titles, w, j - 1);
      MergeRecordsNamed(files, titles, w, j - 1);
      var p := MergeBody(files, titles, w, j - 1);
      var f := files[j - 1];
      var q := MergeStep(p, j, f, titles[j - 1], w);
      assert MergeBody(files, titles, w, j) == q;
      var ps, qs := p.processed, q.processed;
      if w.read(f).Read? {
        var st := StatOf(j, f, titles[j - 1], w);
        assert qs == ps + [st];
        forall k | 0 <= k < |qs| - 1 ensures qs[k].order < qs[k + 1].order {
          assert qs[k] == ps[k];
          if k + 1 < |ps| { assert qs[k + 1] == ps[k + 1]; } else { assert qs[k + 1] == st; }
        }
      } else {
        assert qs == ps;
        assert |ps| > 0 ==> ps[|ps| - 1].order <= j - 1;
      }
    }
  }

  /** With separators on, the rule precedes exactly the files after the
      first that could be read; each such file's text is followed by a line
      break unless it already ends with one. */
  lemma FilePiecesShape(i: nat, path: string, t: Title, w: MergeWorld, addSeparators: bool)
    requires w.read(path).Read?
    ensures var ps := FilePieces(i, path, t, w, addSeparators);
      && (ps[0] == "\n" + Rule + "\n\n" <==> addSeparators && i > 1)
      && EndsWith(Join(ps, ""), "\n")
  {
    var c := w.read(path).content;
    var ps := FilePieces(i, path, t, w, addSeparators);
    assert ("## 📝 " + t.title + "\n\n")[0] == '#';
    assert ("\n" + Rule + "\n\n")[0] == '\n';
    JoinEndsWithLast(ps);
    if EndsWith(c, "\n") {
      assert ps[|ps| - 1] == c;
    } else {
      assert ps[|ps| - 1] == "\n";
    }
  }

  lemma {:induction false} JoinEndsWithLast(ps: seq<string>)
    requires |ps| >= 1
    ensures EndsWith(Join(ps, ""), ps[|ps| - 1])
  {
    if |ps| > 1 {
      JoinEndsWithLast(ps[1..]);
      var j := Join(ps[1..], "");
      assert Join(ps, "") == ps[0] + "" + j;
      assert (ps[0] + "" + j)[|ps[0] + "" + j| - |ps[|ps| - 1]|..] == j[|j| - |ps[|ps| - 1]|..];
    }
  }

  function HeaderPieces(inputDir: string, n: nat, time: string): seq<string> {
    ["# 📄 合并Markdown文档\n\n", "**来源目录**: `" + inputDir + "`  \n", "**生成时间**: " + time + "  \n",
     "**文件数量**: " + Dec(n) + "  \n\n", "---\n\n"]
  }

  function FooterPieces(n: nat, lines: nat, size: nat, time: string, elapsed: string): seq<string> {
    ["\n" + Rule + "\n\n", "## 📊 合并统计\n\n", "**总文件数**: " + Dec(n) + "  \n",
     "**总行数**: " + Thousands(lines) + "  \n", "**总大小**: " + Thousands(size) + " 字节  \n",
     "**生成时间**: " + time + "  \n", "**处理耗时**: " + elapsed + " 秒  \n\n"]
  }

  /** Each file's title, read once for the table of contents and the
      file's heading alike. */
  function TitlesOf(files: seq<string>, w: MergeWorld): (r: seq<Title>)
    ensures |r| == |files| && forall i :: 0 <= i < |files| ==> r[i] == TitleOf(files[i], w)
  {
    seq(|files|, i requires 0 <= i < |files| => TitleOf(files[i], w))
  }

  function TocOf(files: seq<string>, titles: seq<Title>, w: MergeWorld): (r: seq<TocEntry>)
    requires |titles| == |files|
    ensures |r| == |files|
  {
    seq(|files|, i requires 0 <= i < |files| => TocEntry(titles[i].title, w.rel(files[i])))
  }

  /** What `merge_files` returns, and the text it writes. */
  function MergeSpec(inputDir: string, outputFile: string, w: MergeWorld, includeToc: bool, addSeparators: bool)
    : MergeResult
  {
    if !w.dirExists then RaisedFileNotFound("输入目录不存在: " + inputDir)
    else if !w.isDir then RaisedValueError("输入路径不是目录: " + inputDir)
    else
      var files := SortByName(RegularFiles(w.globbed, w.isFile, |w.globbed|));
      if files == [] then Failed(NoMarkdownFiles)
      else
        var titles := TitlesOf(files, w);
        var body := MergeBody(files, titles, w, |files|);
        if w.writeError.Some? then Failed(w.writeError.value)
        else Merged(StatsOf(files, w),
                    Join(MergedPieces(inputDir, files, titles, w, includeToc,
                                      BodyPieces(files, titles, w, addSeparators, |files|), body), ""))
  }

  /** The statistics of merging `files`. */
  function StatsOf(files: seq<string>, w: MergeWorld): MergeStats {
    var body := MergeBody(files, TitlesOf(files, w), w, |files|);
    MergeStats(|files|, body.processed, body.lines, body.size)
  }

  /** The statistics count the files, sum the records' lines and sizes, and
      the records are the readable files in merge order. */
  lemma StatsOfFacts(files: seq<string>, w: MergeWorld)
    ensures var st := StatsOf(files, w);
      st.fileCount == |files|
      && st.totalLines == SumLines(st.filesProcessed)
      && st.totalSize == SumSizes(st.filesProcessed)
      && RecordsInOrder(files, w, st.filesProcessed, |files|)
  {
    var titles := TitlesOf(files, w);
    MergeTotals(files, titles, w, |files|);
    MergeRecords(files, titles, w, |files|);
  }

  /** The merged document: header, the table of contents when asked for,
      the files' pieces, and the totals. */
  function MergedPieces(inputDir: string, files: seq<string>, titles: seq<Title>, w: MergeWorld, includeToc: bool,
                        pieces: seq<string>, body: Progress): seq<string>
    requires |titles| == |files|
  {
    HeaderPieces(inputDir, |files|, w.headerTime)
    + (if includeToc then [Toc(TocOf(files, titles, w))] else [])
    + pieces
    + FooterPieces(|files|, body.lines, body.size, w.footerTime, w.elapsed)
  }

  lemma {:induction false} NoRegularFiles(globbed: seq<string>, isFile: string -> bool, j: nat)
    requires j <= |globbed|
    requires forall f :: f in globbed ==> !isFile(f)
    ensures RegularFiles(globbed, isFile, j) == []
  {
    if j > 0 {
      NoRegularFiles(globbed, isFile, j - 1);
      assert globbed[j - 1] in globbed;
    }
  }

  /** `file_count` is the number of files found, in name order; the
      totals are sums over the records, which are the files that could be
      read, in merge order; a missing or empty directory never merges. */
  lemma MergeRules(inputDir: string, outputFile: string, w: MergeWorld, includeToc: bool, addSeparators: bool)
    ensures var r := MergeSpec(inputDir, outputFile, w, includeToc, addSeparators);
      var files := SortByName(RegularFiles(w.globbed, w.isFile, |w.globbed|));
      && (r.Merged? ==> w.dirExists && w.isDir && w.writeError.None? && r.stats.fileCount == |files| > 0
                        && multiset(files) == multiset(RegularFiles(w.globbed, w.isFile, |w.globbed|))
                        && SortedByName(files)
                        && r.stats.totalLines == SumLines(r.stats.filesProcessed)
                        && r.stats.totalSize == SumSizes(r.stats.filesProcessed)
                        && RecordsInOrder(files, w, r.stats.filesProcessed, |files|))
      && (w.dirExists && w.isDir && (forall f :: f in w.globbed ==> !w.isFile(f)) ==> r == Failed(NoMarkdownFiles))
  {
    var found := RegularFiles(w.globbed, w.isFile, |w.globbed|);
    SortByNameSorted(found);
    MergedStats(inputDir, outputFile, w, includeToc, addSeparators);
    if forall f :: f in w.globbed ==> !w.isFile(f) {
      NoRegularFiles(w.globbed, w.isFile, |w.globbed|);
      assert w.globbed[..|w.globbed|] == w.globbed;
    }
  }

  /** The statistics of a merge are the sums over its records, which are
      the readable files in merge order. */
  lemma MergedStats(inputDir: string, outputFile: string, w: MergeWorld, includeToc: bool, addSeparators: bool)
    ensures var r := MergeSpec(inputDir, outputFile, w, includeToc, addSeparators);
      var files := SortByName(RegularFiles(w.globbed, w.isFile, |w.globbed|));
      r.Merged? ==> r.stats.fileCount == |files| > 0
                    && r.stats.totalLines == SumLines(r.stats.filesProcessed)
                    && r.stats.totalSize == SumSizes(r.stats.filesProcessed)
                    && RecordsInOrder(files, w, r.stats.filesProcessed, |files|)
  {
    var files := SortByName(RegularFiles(w.globbed, w.isFile, |w.globbed|));
    StatsOfFacts(files, w);
  }

  class MarkdownMerger {
    var fileCount: nat
    var totalLines: nat

    constructor ()
      ensures fileCount == 0 && totalLines == 0
    {
      fileCount := 0;
      totalLines := 0;
    }

    /** `find_markdown_files`: the glob's regular files, ordered by
        lower-cased name. */
    method FindMarkdownFiles(globbed: seq<string>, isFile: string -> bool) returns (files: seq<string>)
      ensures files == SortByName(RegularFiles(globbed, isFile, |globbed|))
    {
      var mdFiles: seq<string> := [];
      for i := 0 to |globbed|
        invariant mdFiles == RegularFiles(globbed, isFile, i)
      {
        if isFile(globbed[i]) {
          mdFiles := mdFiles + [globbed[i]];
        }
      }
      files := SortByName(mdFiles);
    }

    /** `generate_table_of_contents` */
    method GenerateTableOfContents(es: seq<TocEntry>) returns (r: string)
      ensures r == Toc(es)
    {
      if es == [] {
        return EmptyToc;
      }
      var tocLines := ["## 📚 目录\n\n"];
      for i := 0 to |es|
        invariant tocLines == ["## 📚 目录\n\n"] + TocPieces(es, i)
      {
        TocLinesStep("## 📚 目录\n\n", es, i);
        tocLines := tocLines + [EntryLine(i + 1, es[i]), PathLine(es[i])];
      }
      r := Join(tocLines + ["\n---\n\n"], "");
    }

    /** The file loop of `merge_files`, which also advances the merger's
        own counters. */
    method MergeLoop(files: seq<string>, titles: seq<Title>, w: MergeWorld, addSeparators: bool)
      returns (pieces: seq<string>, p: Progress)
      requires |titles| == |files|
      modifies this
      ensures pieces == BodyPieces(files, titles, w, addSeparators, |files|)
      ensures p == MergeBody(files, titles, w, |files|)
      ensures fileCount == old(fileCount) + |p.processed| && totalLines == old(totalLines) + p.lines
    {
      pieces, p := [], Progress([], 0, 0);
      for i := 0 to |files|
        invariant pieces == BodyPieces(files, titles, w, addSeparators, i)
        invariant p == MergeBody(files, titles, w, i)
        invariant fileCount == old(fileCount) + |p.processed| && totalLines == old(totalLines) + p.lines
      {
        var f := files[i];
        var r := w.read(f);
        if r.Read? {
          fileCount := fileCount + 1;
          totalLines := totalLines + FileLines(r.content);
        }
        pieces := pieces + FilePieces(i + 1, f, titles[i], w, addSeparators);
        p := MergeStep(p, i + 1, f, titles[i], w);
      }
    }

    /** `merge_files` */
    method MergeFiles(inputDir: string, outputFile: string, w: MergeWorld, includeToc: bool, addSeparators: bool)
      returns (r: MergeResult)
      modifies this
      ensures r == MergeSpec(inputDir, outputFile, w, includeToc, addSeparators)
      ensures var files := SortByName(RegularFiles(w.globbed, w.isFile, |w.globbed|));
        if w.dirExists && w.isDir && files != [] then
          var body := MergeBody(files, TitlesOf(files, w), w, |files|);
          fileCount == old(fileCount) + |body.processed| && totalLines == old(totalLines) + body.lines
        else fileCount == old(fileCount) && totalLines == old(totalLines)
    {
      if !w.dirExists {
        return RaisedFileNotFound("输入目录不存在: " + inputDir);
      }
      if !w.isDir {
        return RaisedValueError("输入路径不是目录: " + inputDir);
      }
      var files := FindMarkdownFiles(w.globbed, w.isFile);
      if files == [] {
        return Failed(NoMarkdownFiles);
      }
      var titles := TitlesOf(files, w);
      var tocPart: seq<string> := [];
      if includeToc {
        var toc := GenerateTableOfContents(TocOf(files, titles, w));
        tocPart := [toc];
      }
      var pieces, body := MergeLoop(files, titles, w, addSeparators);
      var output := HeaderPieces(inputDir, |files|, w.headerTime) + tocPart + pieces
        + FooterPieces(|files|, body.lines, body.size, w.footerTime, w.elapsed);
      if w.writeError.Some? {
        return Failed(w.writeError.value);
      }
      assert output == MergedPieces(inputDir, files, titles, w, includeToc, pieces, body);
      r := Merged(MergeStats(|files|, body.processed, body.lines, body.size), Join(output, ""));
    }
  }
}
