/** What every PDF tool of the repository knows about its input: the page
    texts a PDF reader extracts, file names split the way Python's `pathlib`
    splits them, and the names given to chapter files. */
module PdfFiles {
  import opened Wrappers
  import opened PyText

  /** A PDF as its reader sees it: the extracted text of each page, `None`
      where extraction raises. */
  datatype PdfDoc = PdfDoc(pages: seq<Option<string>>)

  /** `s.rfind(c)`: the last index holding `c`, or -1. */
  function RFind(s: string, c: char): (i: int)
    ensures -1 <= i < |s|
    ensures i >= 0 ==> s[i] == c
    ensures forall k :: i < k < |s| ==> s[k] != c
  {
    if s == [] then -1
    else if s[|s| - 1] == c then |s| - 1
    else RFind(s[..|s| - 1], c)
  }

  /** `Path(path).name`: what follows the last '/'. */
  function FileName(path: string): (name: string)
    ensures '/' !in name
    ensures EndsWith(path, name)
  {
    var i := RFind(path, '/');
    var name := path[i + 1..];
    assert path[|path| - |name|..] == name;
    assert '/' !in name by {
      forall k | 0 <= k < |name| ensures name[k] != '/' {
        assert name[k] == path[i + 1 + k];
      }
    }
    name
  }

  /** `Path.suffix` of a file name: from its last '.' on, unless that dot
      opens the name or ends it. */
  function Suffix(name: string): string {
    var i := RFind(name, '.');
    if 0 < i < |name| - 1 then name[i..] else ""
  }

  /** `Path.stem` of a file name: the name without its suffix. */
  function Stem(name: string): string {
    var i := RFind(name, '.');
    if 0 < i < |name| - 1 then name[..i] else name
  }

  /** A file name is its stem followed by its suffix, and a non-empty
      suffix is a dot and at least one more character. */
  lemma StemSuffix(name: string)
    ensures Stem(name) + Suffix(name) == name
    ensures Suffix(name) != "" ==> |Suffix(name)| >= 2 && Suffix(name)[0] == '.' && Stem(name) != ""
  {
  }

  /** The test every tool applies to an input: `path.suffix.lower() == '.pdf'`. */
  predicate IsPdfName(name: string) {
    Lower(Suffix(name)) == ".pdf"
  }

  predicate IsPdfPath(path: string) {
    IsPdfName(FileName(path))
  }

  /** A name passes the '.pdf' test exactly when it has something before a
      final '.', 'p', 'd', 'f' in any case. */
  lemma PdfNameIff(name: string)
    ensures IsPdfName(name) <==>
      |name| > 4 && name[|name| - 4] == '.' && Lower(name[|name| - 3..]) == "pdf"
  {
    var n := |name|;
    var i := RFind(name, '.');
    if IsPdfName(name) {
      assert |Suffix(name)| == 4;
      assert i == n - 4;
      assert name[i..][1..] == name[n - 3..];
      assert Lower(name[i..]) == [LowerChar(name[i])] + Lower(name[n - 3..]);
    }
    if n > 4 && name[n - 4] == '.' && Lower(name[n - 3..]) == "pdf" {
      var t := name[n - 3..];
      assert LowerChar(t[0]) == 'p' && LowerChar(t[1]) == 'd' && LowerChar(t[2]) == 'f';
      assert i == n - 4;
      assert name[i..] == ['.'] + t;
      assert Lower(name[i..]) == [LowerChar('.')] + Lower(t);
    }
  }

  /** `Path(dir) / name` */
  function JoinPath(dir: string, name: string): string {
    dir + "/" + name
  }

  /** An index holding `c` with no `c` after it is what `rfind` finds. */
  lemma RFindAt(s: string, c: char, i: nat)
    requires i < |s| && s[i] == c && forall k :: i < k < |s| ==> s[k] != c
    ensures RFind(s, c) == i
  {
  }

  /** The name of `dir/name` is `name` when `name` has no '/'. */
  lemma FileNameJoin(dir: string, name: string)
    requires '/' !in name
    ensures FileName(JoinPath(dir, name)) == name
  {
    var path := JoinPath(dir, name);
    forall k | |dir| < k < |path| ensures path[k] != '/' {
      assert path[k] == name[k - |dir| - 1];
    }
    RFindAt(path, '/', |dir|);
    assert path[|dir| + 1..] == name;
  }

  /** A non-empty stem followed by a dot and a dot-free extension splits
      back into the two. */
  lemma StemSuffixOf(stem: string, ext: string)
    requires stem != [] && |ext| >= 2 && ext[0] == '.' && '.' !in ext[1..]
    ensures Suffix(stem + ext) == ext && Stem(stem + ext) == stem
  {
    var name := stem + ext;
    forall k | |stem| < k < |name| ensures name[k] != '.' {
      assert name[k] == ext[1..][k - |stem| - 1];
    }
    RFindAt(name, '.', |stem|);
    assert name[|stem|..] == ext && name[..|stem|] == stem;
  }

  /** `f"{stem}_chapter_{k:03d}.pdf"`, the name of the `k`-th chapter file. */
  function ChapterFileName(stem: string, k: nat): string {
    stem + "_chapter_" + Pad3(k) + ".pdf"
  }

  /** A chapter file name passes the '.pdf' test and its stem is the
      input's stem with the chapter suffix. */
  lemma ChapterFileNameParts(stem: string, k: nat)
    ensures Suffix(ChapterFileName(stem, k)) == ".pdf"
    ensures Stem(ChapterFileName(stem, k)) == stem + "_chapter_" + Pad3(k)
    ensures IsPdfName(ChapterFileName(stem, k))
  {
    var name := ChapterFileName(stem, k);
    var n := |name|;
    assert name[n - 4..] == ".pdf";
    assert name[n - 4] == '.' && name[n - 3] == 'p' && name[n - 2] == 'd' && name[n - 1] == 'f';
    assert RFind(name, '.') == n - 4;
    assert name[..n - 4] == stem + "_chapter_" + Pad3(k);
  }

  /** Different chapters of the same input get different file names. */
  lemma ChapterFileNamesDistinct(stem: string, a: nat, b: nat)
    requires a != b
    ensures ChapterFileName(stem, a) != ChapterFileName(stem, b)
  {
    var x, y := ChapterFileName(stem, a), ChapterFileName(stem, b);
    var m := |stem + "_chapter_"|;
    if x == y {
      assert x[m..|x| - 4] == Pad3(a);
      assert y[m..|y| - 4] == Pad3(b);
      Pad3Injective(a, b);
    }
  }

  /** `dir.glob("*" + suffix)` over a directory's entry names: those ending
      in `suffix`, in that exact case, in directory order. */
  function Glob(entries: seq<string>, suffix: string): (r: seq<string>)
    ensures |r| <= |entries|
    ensures forall i :: 0 <= i < |r| ==> EndsWith(r[i], suffix)
  {
    if entries == [] then []
    else Glob(entries[..|entries| - 1], suffix)
         + (if EndsWith(entries[|entries| - 1], suffix) then [entries[|entries| - 1]] else [])
  }

  /** A name is picked up exactly when it is listed and ends in the
      suffix. */
  lemma {:induction false} GlobMembers(entries: seq<string>, suffix: string, name: string)
    ensures name in Glob(entries, suffix) <==> name in entries && EndsWith(name, suffix)
  {
    if entries != [] {
      var init := entries[..|entries| - 1];
      GlobMembers(init, suffix, name);
      assert entries == init + [entries[|entries| - 1]];
    }
  }
}
