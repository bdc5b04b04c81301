/** `EPUBConverterV1` of `epub_to_markdown_v1.py`: reads an EPUB as a ZIP
    archive, picks its package (`.opf`) entry and its content entries, and
    extracts a plain-text preview of each content entry by stripping tags
    and collapsing whitespace.  The archive is an oracle: whether opening
    it raises, and which exception; its entry names in archive order; and
    per entry the decoded text or the exception reading it raises;
    `html.unescape` is a function parameter. */
module EpubV1 {
  import opened Wrappers
  import opened PyText
  import opened PdfFiles

  /** Reading one entry: its text (UTF-8, or Latin-1 when that fails, which
      it never does), a `zipfile.BadZipFile` (a bad CRC-32 or a bad local
      header), or any other exception.  Each carries `str(e)`. */
  datatype EntryRead = Decoded(text: string) | BadZip(error: string) | ReadError(error: string)

  datatype Archive = Archive(names: seq<string>, read: string -> EntryRead)

  /** `zipfile.ZipFile(path)`: a file that is not a ZIP archive raises
      `zipfile.BadZipFile`; any other failure (a directory, an unreadable
      file) raises something else, an `OSError` mostly. */
  datatype OpenedArchive = NotZip | OpenFailed(error: string) | Opened(archive: Archive)

  // ---------------------------------------------------------------------
  // Structure (`extract_epub_structure`)

  /** `f.endswith('.opf')`: case-sensitive. */
  predicate IsOpfName(f: string) { EndsWith(f, ".opf") }

  /** `any(file.lower().endswith(ext) for ext in content_exts)` */
  predicate IsContentName(f: string) {
    var l := Lower(f);
    EndsWith(l, ".html") || EndsWith(l, ".xhtml") || EndsWith(l, ".htm") || EndsWith(l, ".xml")
  }

  /** The index of the first `.opf` entry, or -1. */
  function FirstOpf(names: seq<string>, i: nat): (k: int)
    requires i <= |names|
    ensures k == -1 || (i <= k < |names| && IsOpfName(names[k]))
    ensures forall m :: i <= m < (if k == -1 then |names| else k) ==> !IsOpfName(names[m])
    decreases |names| - i
  {
    if i == |names| then -1
    else if IsOpfName(names[i]) then i
    else FirstOpf(names, i + 1)
  }

  /** The content entries among the first `j` names, in archive order. */
  function ContentFiles(names: seq<string>, j: nat): (r: seq<string>)
    requires j <= |names|
    ensures |r| <= j
  {
    if j == 0 then []
    else ContentFiles(names, j - 1) + (if IsContentName(names[j - 1]) then [names[j - 1]] else [])
  }

  /** The content files are exactly the content entries, in any number. */
  lemma {:induction false} ContentFilesMembers(names: seq<string>, j: nat)
    requires j <= |names|
    ensures forall f :: f in ContentFiles(names, j) <==> f in names[..j] && IsContentName(f)
  {
    if j > 0 {
      ContentFilesMembers(names, j - 1);
      assert names[..j] == names[..j - 1] + [names[j - 1]];
    }
  }

  datatype Structure = Structure(epubFile: string, opfFile: string, fileCount: nat, files: seq<string>,
                                 title: string, extractedFrom: string, contentFiles: seq<string>)

  const TitleFromFileName := "文件名"

  const DamagedArchive := "损坏的ZIP/EPUB文件"

  function ParseFailed(e: string): string { "解析失败: " + e }

  /** What `extract_epub_structure` returns for an input that is present or
      not, and the outcome of opening it.  The handlers choose the message
      by the exception's type: `zipfile.BadZipFile`, whether opening or
      reading the package entry raised it, is a damaged archive; anything
      else is a parse failure quoting the exception. */
  function StructureSpec(path: string, present: bool, zip: OpenedArchive): Result<Structure> {
    if !present then Err("文件不存在")
    else if Lower(Suffix(FileName(path))) != ".epub" then Err("不是EPUB文件")
    else match zip
      case NotZip => Err(DamagedArchive)
      case OpenFailed(e) => Err(ParseFailed(e))
      case Opened(archive) =>
      var names := archive.names;
      var k := FirstOpf(names, 0);
      if k == -1 then Err("找不到OPF文件")
      else match archive.read(names[k])
        case BadZip(_) => Err(DamagedArchive)
        case ReadError(e) => Err(ParseFailed(e))
        case Decoded(_) =>
          Ok(Structure(path, names[k], |names|, names[..if |names| < 20 then |names| else 20],
                       Stem(FileName(path)), TitleFromFileName, ContentFiles(names, |names|)))
  }

  /** On success the package entry is the first name ending in `.opf`, every
      entry is counted, at most 20 are listed, and the content files are
      exactly the entries with an HTML or XML extension in any case; an
      archive with no `.opf` name is rejected. */
  lemma StructureRules(path: string, present: bool, zip: OpenedArchive)
    ensures var r := StructureSpec(path, present, zip);
      && (r.Ok? ==>
            (&& present && zip.Opened?
             && var names := zip.archive.names;
             && r.value.opfFile in names && IsOpfName(r.value.opfFile)
             && (forall n :: 0 <= n < FirstIndex(names, r.value.opfFile) ==> !IsOpfName(names[n]))
             && r.value.fileCount == |names| && r.value.files == names[..if |names| < 20 then |names| else 20]
             && (forall f :: f in r.value.contentFiles <==> f in names && IsContentName(f))
             && r.value.title == Stem(FileName(path))))
      && ((present && Lower(Suffix(FileName(path))) == ".epub" && zip.Opened?
           && (forall m :: 0 <= m < |zip.archive.names| ==> !IsOpfName(zip.archive.names[m])))
          ==> r == Err("找不到OPF文件"))
  {
    if present && zip.Opened? {
      var names := zip.archive.names;
      WholePrefix(names);
      ContentFilesMembers(names, |names|);
      var k := FirstOpf(names, 0);
      if k >= 0 {
        FirstIndexAt(names, k);
      }
    }
  }

  /** For a present `.epub` input the error follows the exception's type:
      a `zipfile.BadZipFile`, raised by opening the archive or by reading
      its first package entry, is reported as a damaged archive, and that
      is the only way to get that report; any other exception at those two
      points is a parse failure quoting it. */
  lemma StructureErrorsByType(path: string, zip: OpenedArchive)
    requires Lower(Suffix(FileName(path))) == ".epub"
    ensures var r := StructureSpec(path, true, zip);
      && (zip.NotZip? ==> r == Err(DamagedArchive))
      && (zip.OpenFailed? ==> r == Err(ParseFailed(zip.error)))
      && (zip.Opened? && FirstOpf(zip.archive.names, 0) != -1 ==>
            var e := zip.archive.read(zip.archive.names[FirstOpf(zip.archive.names, 0)]);
            && (e.BadZip? ==> r == Err(DamagedArchive))
            && (e.ReadError? ==> r == Err(ParseFailed(e.error))))
      && (r == Err(DamagedArchive) ==>
            || zip.NotZip?
            || (&& zip.Opened? && FirstOpf(zip.archive.names, 0) != -1
                && zip.archive.read(zip.archive.names[FirstOpf(zip.archive.names, 0)]).BadZip?))
  {
    assert ParseFailed("")[0] != DamagedArchive[0];
    assert "找不到OPF文件"[0] != DamagedArchive[0];
  }

  /** A directory named `<stem>.epub` passes the existence and suffix
      tests; opening it raises `IsADirectoryError`, an `OSError`, which is
      reported as a parse failure and not as a damaged archive. */
  lemma DirectoryNamedEpub(dir: string, stem: string, e: string)
    requires stem != [] && '/' !in stem && '.' !in stem
    ensures StructureSpec(JoinPath(dir, stem + ".epub"), true, OpenFailed(e)) == Err(ParseFailed(e))
    ensures StructureSpec(JoinPath(dir, stem + ".epub"), true, OpenFailed(e)) != Err(DamagedArchive)
  {
    EpubPathParts(dir, stem);
    assert ParseFailed(e)[0] != DamagedArchive[0];
  }

  /** The first index of `x` in `xs`, or `|xs|`. */
  function FirstIndex<T(==)>(xs: seq<T>, x: T): (i: nat)
    ensures i <= |xs| && (i < |xs| ==> xs[i] == x) && forall m :: 0 <= m < i ==> xs[m] != x
  {
    if xs == [] || xs[0] == x then 0 else 1 + FirstIndex(xs[1..], x)
  }

  /** An entry none of whose predecessors is a package entry is found
      first by its name. */
  lemma FirstIndexAt(names: seq<string>, k: nat)
    requires k < |names| && IsOpfName(names[k]) && forall m :: 0 <= m < k ==> !IsOpfName(names[m])
    ensures FirstIndex(names, names[k]) == k
  {
  }

  /** `ys` is a prefix of `xs`. */
  predicate IsPrefix<T(==)>(xs: seq<T>, ys: seq<T>) { |ys| <= |xs| && xs[..|ys|] == ys }

  /** An opened `.epub` whose first package entry decodes parses with
      that entry, all its entries counted, the first 20 listed and its
      content entries. */
  lemma OpenedStructure(path: string, a: Archive)
    requires Lower(Suffix(FileName(path))) == ".epub"
    requires FirstOpf(a.names, 0) != -1 && a.read(a.names[FirstOpf(a.names, 0)]).Decoded?
    ensures var names, k := a.names, FirstOpf(a.names, 0);
      StructureSpec(path, true, Opened(a))
        == Ok(Structure(path, names[k], |names|, names[..if |names| < 20 then |names| else 20],
                        Stem(FileName(path)), TitleFromFileName, ContentFiles(names, |names|)))
  {
  }

  /** The second of four entries is the first package entry when the first
      is not one. */
  lemma SecondIsFirstOpf(names: seq<string>)
    requires |names| == 4 && !IsOpfName(names[0]) && IsOpfName(names[1])
    ensures FirstOpf(names, 0) == 1
  {
    assert FirstOpf(names, 1) == 1;
  }

  /** An archive of four entries whose second is the first package entry
      and whose last two are its only content entries. */
  lemma FourEntryStructure(path: string, names: seq<string>, read: string -> EntryRead)
    requires Lower(Suffix(FileName(path))) == ".epub"
    requires |names| == 4 && !IsOpfName(names[0]) && IsOpfName(names[1]) && read(names[1]).Decoded?
    requires !IsContentName(names[0]) && !IsContentName(names[1]) && IsContentName(names[2]) && IsContentName(names[3])
    ensures StructureSpec(path, true, Opened(Archive(names, read)))
      == Ok(Structure(path, names[1], 4, names, Stem(FileName(path)), TitleFromFileName, names[2..]))
  {
    var a := Archive(names, read);
    SecondIsFirstOpf(names);
    OpenedStructure(path, a);
    var listed := names[..if |names| < 20 then |names| else 20];
    WholePrefix(names);
    assert listed == names;
    LastTwoContent(names);
    var t := Stem(FileName(path));
    assert StructureSpec(path, true, Opened(a))
      == Ok(Structure(path, names[1], 4, listed, t, TitleFromFileName, ContentFiles(names, 4)));
  }

  /** The prefix as long as the sequence is the sequence. */
  lemma WholePrefix<T>(xs: seq<T>)
    ensures xs[..|xs|] == xs
  {
  }

  lemma LastTwoContent(names: seq<string>)
    requires |names| == 4 && !IsContentName(names[0]) && !IsContentName(names[1])
    requires IsContentName(names[2]) && IsContentName(names[3])
    ensures ContentFiles(names, 4) == names[2..]
  {
    assert ContentFiles(names, 2) == [];
    assert ContentFiles(names, 3) == [names[2]];
    assert ContentFiles(names, 4) == [names[2], names[3]] == names[2..];
  }

  /** The archive the tests build, `<dir>/<stem>.epub` holding a
      `mimetype` entry, `content.opf` and two chapters, parses with four
      entries, `content.opf` as its package, the stem as its title and the
      two chapters as its content. */
  lemma TestArchiveStructure(dir: string, stem: string, read: string -> EntryRead)
    requires stem != [] && '/' !in stem && '.' !in stem && read("content.opf").Decoded?
    ensures var names := ["mimetype", "content.opf", "chapter1.xhtml", "chapter2.xhtml"];
      StructureSpec(JoinPath(dir, stem + ".epub"), true, Opened(Archive(names, read)))
        == Ok(Structure(JoinPath(dir, stem + ".epub"), "content.opf", 4, names, stem, TitleFromFileName,
                        ["chapter1.xhtml", "chapter2.xhtml"]))
  {
    var names := ["mimetype", "content.opf", "chapter1.xhtml", "chapter2.xhtml"];
    EpubPathParts(dir, stem);
    MimetypeKind();
    PackageKind();
    IsXhtml("chapter1.xhtml");
    IsXhtml("chapter2.xhtml");
    assert names[0] == "mimetype" && names[1] == "content.opf";
    assert names[2] == "chapter1.xhtml" && names[3] == "chapter2.xhtml";
    FourEntryStructure(JoinPath(dir, stem + ".epub"), names, read);
  }

  /** `<dir>/<stem>.epub` is an `.epub` file with that stem. */
  lemma EpubPathParts(dir: string, stem: string)
    requires stem != [] && '/' !in stem && '.' !in stem
    ensures Lower(Suffix(FileName(JoinPath(dir, stem + ".epub")))) == ".epub"
    ensures Stem(FileName(JoinPath(dir, stem + ".epub"))) == stem
  {
    var name := stem + ".epub";
    assert '/' !in name by {
      forall k | 0 <= k < |name| ensures name[k] != '/' {
        if k < |stem| { assert name[k] == stem[k]; } else { assert name[k] == ".epub"[k - |stem|]; }
      }
    }
    FileNameJoin(dir, name);
    assert '.' !in ".epub"[1..];
    StemSuffixOf(stem, ".epub");
    LowerUnchanged(".epub");
  }

  lemma MimetypeKind()
    ensures !IsContentName("mimetype") && !IsOpfName("mimetype")
  {
    LowerUnchanged("mimetype");
  }

  lemma PackageKind()
    ensures !IsContentName("content.opf") && IsOpfName("content.opf")
  {
    OpfNotContent("content.opf");
  }

  /** A package entry is never a content entry: its lower-cased name ends
      in 'f', which no content extension does. */
  lemma OpfNotContent(f: string)
    requires IsOpfName(f)
    ensures !IsContentName(f)
  {
    var l := Lower(f);
    assert l[|l| - 1] == LowerChar(f[|f| - 1]) == 'f';
  }

  lemma IsXhtml(f: string)
    requires f == "chapter1.xhtml" || f == "chapter2.xhtml"
    ensures IsContentName(f) && !IsOpfName(f)
  {
    assert forall k :: 0 <= k < |f| ==> !IsUpper(f[k]);
    assert f[|f| - 6..] == ".xhtml";
    LowerXhtml(f);
  }

  /** A name without capitals that ends in `.xhtml` is a content entry and
      not a package entry. */
  lemma LowerXhtml(f: string)
    requires forall k :: 0 <= k < |f| ==> !IsUpper(f[k])
    requires EndsWith(f, ".xhtml")
    ensures IsContentName(f) && !IsOpfName(f)
  {
    LowerUnchanged(f);
    assert f[|f| - 1] == 'l';
  }

  /** The package test is case-sensitive: an archive whose only package
      entry is `BOOK.OPF` is rejected. */
  lemma UpperCaseOpfIgnored(path: string, read: string -> EntryRead)
    requires Lower(Suffix(FileName(path))) == ".epub"
    ensures StructureSpec(path, true, Opened(Archive(["BOOK.OPF"], read))) == Err("找不到OPF文件")
  {
    assert !IsOpfName("BOOK.OPF");
  }

  // ---------------------------------------------------------------------
  // Text cleaning (`extract_text_from_epub`)

  /** The first index from `i` on holding '>', or `|s|`. */
  function NextGt(s: string, i: nat): (k: nat)
    requires i <= |s|
    ensures i <= k <= |s| && (k < |s| ==> s[k] == '>')
    ensures forall m :: i <= m < k ==> s[m] != '>'
    decreases |s| - i
  {
    if i == |s| || s[i] == '>' then i else NextGt(s, i + 1)
  }

  /** A tag of `<[^>]+>` starts at the head of `s`. */
  predicate TagAtHead(s: string) {
    |s| >= 1 && s[0] == '<' && 1 < NextGt(s, 1) < |s|
  }

  /** `re.sub(r'<[^>]+>', ' ', s)`: each tag, leftmost first, becomes one
      space. */
  function StripTags(s: string): (r: string)
    ensures (forall m :: 0 <= m < |s| ==> s[m] != '>') ==> forall m :: 0 <= m < |r| ==> r[m] != '>'
    ensures s != [] && s[0] == '>' ==> r != [] && r[0] == '>'
    decreases |s|
  {
    if s == [] then []
    else if TagAtHead(s) then " " + StripTags(s[NextGt(s, 1) + 1..])
    else
      assert (forall m :: 0 <= m < |s| ==> s[m] != '>') ==> forall m :: 0 <= m < |s[1..]| ==> s[1..][m] != '>' by {
        assert forall m :: 0 <= m < |s[1..]| ==> s[1..][m] == s[m + 1];
      }
      [s[0]] + StripTags(s[1..])
  }

  /** No tag is left: every '<' is followed by no '>' at all, or by '>' at
      once (`<>` is not a tag). */
  predicate TagFree(r: string) {
    forall i :: 0 <= i < |r| && r[i] == '<' ==> NextGt(r, i + 1) == |r| || NextGt(r, i + 1) == i + 1
  }

  lemma {:induction false} NextGtShift(c: char, t: string, i: nat)
    requires i <= |t|
    ensures NextGt([c] + t, i + 1) == NextGt(t, i) + 1
    decreases |t| - i
  {
    assert ([c] + t)[i + 1..] == t[i..];
    if i < |t| && t[i] != '>' {
      assert ([c] + t)[i + 1] == t[i];
      NextGtShift(c, t, i + 1);
    }
  }

  /** A '<' that opens no tag is followed, after stripping, by no '>' at
      all or by '>' at once. */
  lemma UntaggedOpening(s: string)
    requires s != [] && s[0] == '<' && !TagAtHead(s)
    ensures var t := StripTags(s[1..]); NextGt(t, 0) == |t| || NextGt(t, 0) == 0
  {
    var rest := s[1..];
    if NextGt(s, 1) == |s| {
      assert forall m :: 0 <= m < |rest| ==> rest[m] == s[m + 1];
    } else {
      assert rest[0] == '>';
    }
  }

  /** Stripping leaves no tag behind. */
  lemma {:induction false} StripTagsTagFree(s: string)
    ensures TagFree(StripTags(s))
    decreases |s|
  {
    if s != [] {
      var rest := if TagAtHead(s) then s[NextGt(s, 1) + 1..] else s[1..];
      var c := if TagAtHead(s) then ' ' else s[0];
      StripTagsTagFree(rest);
      var t := StripTags(rest);
      var r := StripTags(s);
      assert r == [c] + t;
      forall i | 0 <= i < |r| && r[i] == '<' ensures NextGt(r, i + 1) == |r| || NextGt(r, i + 1) == i + 1 {
        if i == 0 {
          NextGtShift(c, t, 0);
          UntaggedOpening(s);
        } else {
          assert r[i] == t[i - 1];
          NextGtShift(c, t, i);
          assert NextGt(t, i) == |t| || NextGt(t, i) == i;
        }
      }
    }
  }

  /** Text that holds no tag is kept as it is, so stripping twice is
      stripping once. */
  lemma {:induction false} TagFreeKept(s: string)
    requires TagFree(s)
    ensures StripTags(s) == s
    decreases |s|
  {
    if s != [] {
      assert !TagAtHead(s);
      assert TagFree(s[1..]) by {
        forall i | 0 <= i < |s[1..]| && s[1..][i] == '<'
          ensures NextGt(s[1..], i + 1) == |s[1..]| || NextGt(s[1..], i + 1) == i + 1
        {
          assert s[1..] + [] == s[1..] && s == [s[0]] + s[1..];
          NextGtShift(s[0], s[1..], i + 1);
        }
      }
      TagFreeKept(s[1..]);
      assert s == [s[0]] + s[1..];
    }
  }

  lemma StripTagsIdempotent(s: string)
    ensures StripTags(StripTags(s)) == StripTags(s)
  {
    StripTagsTagFree(s);
    TagFreeKept(StripTags(s));
  }

  /** `re.sub(r'\s+', ' ', s)`, with `inRun` telling whether a run is
      already open. */
  function SquashSpaces(inRun: bool, s: string): (r: string)
    ensures forall i :: 0 <= i < |r| && IsSpace(r[i]) ==> r[i] == ' ' && (i + 1 < |r| ==> !IsSpace(r[i + 1]))
    ensures inRun && r != [] ==> !IsSpace(r[0])
    decreases |s|
  {
    if s == [] then []
    else if IsSpace(s[0]) then
      var rest := SquashSpaces(true, s[1..]);
      if inRun then rest else " " + rest
    else [s[0]] + SquashSpaces(false, s[1..])
  }

  /** The text a content entry reduces to. */
  function CleanText(content: string, unescape: string -> string): string {
    Strip(SquashSpaces(false, unescape(StripTags(content))))
  }

  /** Clean text is one line of words separated by single spaces. */
  lemma CleanTextShape(content: string, unescape: string -> string)
    ensures var r := CleanText(content, unescape);
      && (forall i :: 0 <= i < |r| && IsSpace(r[i]) ==> r[i] == ' ' && i + 1 < |r| && !IsSpace(r[i + 1]))
      && (r == [] || (!IsSpace(r[0]) && !IsSpace(r[|r| - 1])))
  {
    var q := SquashSpaces(false, unescape(StripTags(content)));
    var r := Strip(q);
    var a := LeadingSpaces(q);
    assert forall i :: 0 <= i < |r| ==> r[i] == q[a + i];
  }

  /** The preview printed for a reported entry. */
  function Preview(text: string): (r: string)
    ensures |r| <= 503
    ensures StartsWith(r, Take(text, 500))
    ensures |text| <= 500 ==> r == text
    ensures |text| > 500 ==> r == text[..500] + "..."
  {
    assert StartsWith(Take(text, 500) + (if |text| > 500 then "..." else ""), Take(text, 500)) by {
      assert (Take(text, 500) + (if |text| > 500 then "..." else ""))[..|Take(text, 500)|] == Take(text, 500);
    }
    Take(text, 500) + (if |text| > 500 then "..." else "")
  }

  /** An entry's text is reported when it is longer than 10 characters. */
  predicate Reported(e: EntryRead, unescape: string -> string) {
    e.Decoded? && |CleanText(e.text, unescape)| > 10
  }

  /** The pieces of an entry whose read raised: `except Exception` catches
      a `zipfile.BadZipFile` too. */
  function FailedPieces(i: nat, f: string, err: string): seq<string> {
    ["## 文件 " + Dec(i) + ": " + f + " (处理失败)\n", "错误: " + err + "\n\n"]
  }

  /** The pieces content entry `f`, the `i`-th, adds to the extract. */
  function EntryPieces(i: nat, f: string, e: EntryRead, unescape: string -> string): seq<string> {
    match e
    case BadZip(err) => FailedPieces(i, f, err)
    case ReadError(err) => FailedPieces(i, f, err)
    case Decoded(c) =>
      var t := CleanText(c, unescape);
      if |t| > 10 then
        ["## 文件 " + Dec(i) + ": " + f + "\n", "长度: " + Dec(|t|) + " 字符\n", Repeat('-', 40) + "\n", Preview(t), "\n\n"]
      else []
  }

  /** The extract's pieces and the reported count after the first `j`
      content entries. */
  function ExtractPieces(files: seq<string>, a: Archive, unescape: string -> string, j: nat): seq<string>
    requires j <= |files|
  {
    if j == 0 then [] else ExtractPieces(files, a, unescape, j - 1) + EntryPieces(j, files[j - 1], a.read(files[j - 1]), unescape)
  }

  /** Which content entries are reported. */
  function ReportedFlags(files: seq<string>, a: Archive, unescape: string -> string): (r: seq<bool>)
    ensures |r| == |files| && forall k :: 0 <= k < |files| ==> r[k] == Reported(a.read(files[k]), unescape)
  {
    seq(|files|, k requires 0 <= k < |files| => Reported(a.read(files[k]), unescape))
  }

  function CountTrue(bs: seq<bool>): (n: nat)
    ensures n <= |bs|
  {
    if bs == [] then 0 else CountTrue(bs[..|bs| - 1]) + (if bs[|bs| - 1] then 1 else 0)
  }

  /** Counting one more flag adds one exactly when it is set. */
  lemma CountTruePrefix(bs: seq<bool>, i: nat)
    requires i < |bs|
    ensures CountTrue(bs[..i + 1]) == CountTrue(bs[..i]) + (if bs[i] then 1 else 0)
  {
    assert bs[..i + 1][..i] == bs[..i];
  }

  /** The count is zero exactly when no flag is set, and full exactly when
      every flag is. */
  lemma {:induction false} CountTrueExtremes(bs: seq<bool>)
    ensures CountTrue(bs) == 0 <==> forall k :: 0 <= k < |bs| ==> !bs[k]
    ensures CountTrue(bs) == |bs| <==> forall k :: 0 <= k < |bs| ==> bs[k]
  {
    if bs != [] {
      var init := bs[..|bs| - 1];
      CountTrueExtremes(init);
      assert forall k :: 0 <= k < |init| ==> init[k] == bs[k];
    }
  }

  /** The first 50 content entries, the only ones read. */
  function FirstFifty(files: seq<string>): (r: seq<string>)
    ensures |r| <= 50 && IsPrefix(files, r) && (|files| <= 50 ==> r == files)
  {
    if |files| <= 50 then files else files[..50]
  }

  function ExtractHeader(s: Structure, name: string, time: string): seq<string> {
    ["# EPUB文本提取 - " + s.title + "\n", "源文件: " + name + "\n", "提取时间: " + time + "\n",
     "文件数量: " + Dec(s.fileCount) + "\n", "内容文件: " + Dec(|s.contentFiles|) + "\n", Repeat('=', 80) + "\n\n"]
  }

  datatype TextResult =
    | TextFailed(error: string)
    | TextDone(epubFile: string, outputFile: string, output: string, processed: nat, totalContentFiles: nat,
               title: string)

  /** The world `extract_text_from_epub` sees: whether the input present,
      the archive, `html.unescape`, the clock, and the errors creating the
      output directory or writing the output raise, if any. */
  datatype EpubWorld = EpubWorld(present: bool, archive: OpenedArchive, unescape: string -> string, time: string,
                                 mkdirError: Option<string>, writeError: Option<string>)

  /** What `extract_text_from_epub` returns, and the text it writes. */
  function ExtractTextSpec(path: string, outputDir: string, w: EpubWorld): TextResult {
    if w.mkdirError.Some? then TextFailed(w.mkdirError.value)
    else match StructureSpec(path, w.present, w.archive)
      case Err(e) => TextFailed(e)
      case Ok(s) =>
        var files := FirstFifty(s.contentFiles);
        var text := Join(ExtractHeader(s, FileName(path), w.time) + ExtractPieces(files, w.archive.archive, w.unescape, |files|), "");
        if w.writeError.Some? then TextFailed(w.writeError.value)
        else TextDone(path, JoinPath(outputDir, Stem(FileName(path)) + "_extracted.txt"), text,
                      CountTrue(ReportedFlags(files, w.archive.archive, w.unescape)), |s.contentFiles|, s.title)
  }

  /** At most 50 entries are reported, only entries whose clean text is
      longer than 10 characters count, and every content entry is counted
      in the total. */
  lemma ExtractTextRules(path: string, outputDir: string, w: EpubWorld)
    ensures var r := ExtractTextSpec(path, outputDir, w);
      r.TextDone? ==> && StructureSpec(path, w.present, w.archive).Ok?
                      && r.totalContentFiles == |StructureSpec(path, w.present, w.archive).value.contentFiles|
                      && r.processed <= 50 && r.processed <= r.totalContentFiles
                      && r.title == Stem(FileName(path))
  {
    var st := StructureSpec(path, w.present, w.archive);
    if w.mkdirError.None? && st.Ok? && w.writeError.None? {
      StructureRules(path, w.present, w.archive);
      var files := FirstFifty(st.value.contentFiles);
      assert |files| <= 50 && |files| <= |st.value.contentFiles|;
      assert ExtractTextSpec(path, outputDir, w).processed == CountTrue(ReportedFlags(files, w.archive.archive, w.unescape));
    }
  }

  /** No entry is counted exactly when none is reported, and all are
      counted exactly when all are. */
  lemma ReportedCountCounts(files: seq<string>, a: Archive, unescape: string -> string)
    ensures CountTrue(ReportedFlags(files, a, unescape)) == 0 <==>
      forall k :: 0 <= k < |files| ==> !Reported(a.read(files[k]), unescape)
    ensures CountTrue(ReportedFlags(files, a, unescape)) == |files| <==>
      forall k :: 0 <= k < |files| ==> Reported(a.read(files[k]), unescape)
  {
    CountTrueExtremes(ReportedFlags(files, a, unescape));
  }

  // ---------------------------------------------------------------------
  // Directories (`process_directory`)

  /** `process_directory`'s answers. `DirectoryRaised` stands for the
      exception of a per-file `mkdir` escaping it: no report is returned. */
  datatype DirectoryReport =
    | DirectoryFailed(error: string)
    | DirectoryRaised(error: string)
    | DirectoryDone(totalFiles: nat, successful: nat, failed: nat, fileResults: seq<(string, TextResult)>,
                    success: bool)

  /** The EPUBs `process_directory` picks up: `*.epub`, then `*.EPUB`. */
  function EpubFiles(entries: seq<string>): seq<string> {
    Glob(entries, ".epub") + Glob(entries, ".EPUB")
  }

  /** The number of results whose extraction succeeded. */
  function SuccessCount(results: seq<(string, TextResult)>): (n: nat)
    ensures n <= |results|
  {
    if results == [] then 0
    else SuccessCount(results[..|results| - 1]) + (if results[|results| - 1].1.TextDone? then 1 else 0)
  }

  /** One more result adds one to the count exactly when it succeeded. */
  lemma SuccessCountSnoc(results: seq<(string, TextResult)>, x: (string, TextResult))
    ensures SuccessCount(results + [x]) == SuccessCount(results) + (if x.1.TextDone? then 1 else 0)
  {
    assert (results + [x])[..|results|] == results;
  }

  /** Every extraction succeeded exactly when the success count is the
      number of results. */
  lemma {:induction false} SuccessCountAll(results: seq<(string, TextResult)>)
    ensures SuccessCount(results) == |results| <==> forall k :: 0 <= k < |results| ==> results[k].1.TextDone?
  {
    if results != [] {
      var init := results[..|results| - 1];
      SuccessCountAll(init);
      assert forall k :: 0 <= k < |init| ==> init[k] == results[k];
    }
  }

  /** What `process_directory` records for the EPUB named `name`: its
      path, and the extraction into its own directory `output_dir / stem`
      under the world that file sees. */
  function FileResult(inputDir: string, outputDir: string, name: string, worlds: string -> EpubWorld)
    : (string, TextResult)
  {
    var path := JoinPath(inputDir, name);
    (path, ExtractTextSpec(path, JoinPath(outputDir, Stem(name)), worlds(path)))
  }

  /** Whether `output_dir / stem` cannot be created for the EPUB named
      `name`. The loop creates it outside any `try`, before calling
      `extract_text_from_epub`, which creates the same directory again. */
  predicate MkdirRaises(inputDir: string, name: string, worlds: string -> EpubWorld) {
    worlds(JoinPath(inputDir, name)).mkdirError.Some?
  }

  /** The first EPUB from index `i` on whose output directory cannot be
      created, if any. */
  function FirstMkdirFailure(inputDir: string, files: seq<string>, worlds: string -> EpubWorld, i: nat)
    : (r: Option<nat>)
    requires i <= |files|
    ensures r.Some? ==> i <= r.value < |files| && MkdirRaises(inputDir, files[r.value], worlds)
    ensures r.Some? ==> forall k :: i <= k < r.value ==> !MkdirRaises(inputDir, files[k], worlds)
    ensures r.None? <==> forall k :: i <= k < |files| ==> !MkdirRaises(inputDir, files[k], worlds)
    decreases |files| - i
  {
    if i == |files| then None
    else if MkdirRaises(inputDir, files[i], worlds) then Some(i)
    else FirstMkdirFailure(inputDir, files, worlds, i + 1)
  }

  /** One round of the loop: the `mkdir` raises, or the file's result is
      recorded. */
  datatype Round = Raised(error: string) | Recorded(entry: (string, TextResult))

  function FileRound(inputDir: string, outputDir: string, name: string, worlds: string -> EpubWorld): (r: Round)
    ensures r.Raised? <==> MkdirRaises(inputDir, name, worlds)
    ensures r.Raised? ==> r.error == worlds(JoinPath(inputDir, name)).mkdirError.value
    ensures r.Recorded? ==> r.entry == FileResult(inputDir, outputDir, name, worlds)
  {
    var w := worlds(JoinPath(inputDir, name));
    if w.mkdirError.Some? then Raised(w.mkdirError.value)
    else Recorded(FileResult(inputDir, outputDir, name, worlds))
  }

  /** When the loop's own `mkdir` succeeded, the one inside
      `extract_text_from_epub` cannot fail: a file's extraction then fails
      exactly when its structure is rejected or writing the output raises. */
  lemma RecordedFailure(inputDir: string, outputDir: string, name: string, worlds: string -> EpubWorld)
    requires !MkdirRaises(inputDir, name, worlds)
    ensures var path := JoinPath(inputDir, name);
      FileResult(inputDir, outputDir, name, worlds).1.TextFailed? <==>
        StructureSpec(path, worlds(path).present, worlds(path).archive).Err? || worlds(path).writeError.Some?
  {
  }

  /** The results of `process_directory` for the EPUBs `files`, in order,
      when every output directory is created. */
  function FileResults(inputDir: string, outputDir: string, files: seq<string>, worlds: string -> EpubWorld)
    : (r: seq<(string, TextResult)>)
    ensures |r| == |files|
  {
    if files == [] then []
    else FileResults(inputDir, outputDir, files[..|files| - 1], worlds)
         + [FileResult(inputDir, outputDir, files[|files| - 1], worlds)]
  }

  /** One more file adds its result at the end. */
  lemma FileResultsSnoc(inputDir: string, outputDir: string, files: seq<string>, worlds: string -> EpubWorld, i: nat)
    requires i < |files|
    ensures FileResults(inputDir, outputDir, files[..i + 1], worlds)
         == FileResults(inputDir, outputDir, files[..i], worlds) + [FileResult(inputDir, outputDir, files[i], worlds)]
  {
    assert files[..i + 1][..i] == files[..i];
  }

  /** Result `k` is file `k`'s. */
  lemma {:induction false} FileResultsAt(inputDir: string, outputDir: string, files: seq<string>,
                                         worlds: string -> EpubWorld, k: nat)
    requires k < |files|
    ensures FileResults(inputDir, outputDir, files, worlds)[k] == FileResult(inputDir, outputDir, files[k], worlds)
  {
    if k < |files| - 1 {
      FileResultsAt(inputDir, outputDir, files[..|files| - 1], worlds, k);
    }
  }

  class EPUBConverterV1 {
    var totalFiles: nat
    var successful: nat
    var failed: nat

    constructor ()
      ensures totalFiles == 0 && successful == 0 && failed == 0
    {
      totalFiles, successful, failed := 0, 0, 0;
    }

    /** `extract_epub_structure` */
    method ExtractEpubStructure(path: string, present: bool, zip: OpenedArchive) returns (r: Result<Structure>)
      ensures r == StructureSpec(path, present, zip)
    {
      if !present {
        return Err("文件不存在");
      }
      if Lower(Suffix(FileName(path))) != ".epub" {
        return Err("不是EPUB文件");
      }
      if zip.NotZip? {
        return Err(DamagedArchive);
      }
      if zip.OpenFailed? {
        return Err(ParseFailed(zip.error));
      }
      var names := zip.archive.names;
      var k := FindOpf(names);
      if k == -1 {
        return Err("找不到OPF文件");
      }
      var opf := zip.archive.read(names[k]);
      if opf.BadZip? {
        return Err(DamagedArchive);
      }
      if opf.ReadError? {
        return Err(ParseFailed(opf.error));
      }
      var contentFiles := CollectContentFiles(names);
      r := Ok(Structure(path, names[k], |names|, names[..if |names| < 20 then |names| else 20],
                        Stem(FileName(path)), TitleFromFileName, contentFiles));
    }

    /** The loop looking for the first `.opf` entry. */
    method FindOpf(names: seq<string>) returns (k: int)
      ensures k == FirstOpf(names, 0)
    {
      k := -1;
      var i := 0;
      while i < |names|
        invariant 0 <= i <= |names|
        invariant FirstOpf(names, 0) == FirstOpf(names, i)
      {
        if IsOpfName(names[i]) {
          return i;
        }
        i := i + 1;
      }
    }

    /** The loop gathering the content entries. */
    method CollectContentFiles(names: seq<string>) returns (contentFiles: seq<string>)
      ensures contentFiles == ContentFiles(names, |names|)
    {
      contentFiles := [];
      for i := 0 to |names|
        invariant contentFiles == ContentFiles(names, i)
      {
        if IsContentName(names[i]) {
          contentFiles := contentFiles + [names[i]];
        }
      }
    }

    /** The loop over the first 50 content entries. */
    method ExtractEntries(files: seq<string>, a: Archive, unescape: string -> string)
      returns (pieces: seq<string>, contentCount: nat)
      ensures pieces == ExtractPieces(files, a, unescape, |files|)
      ensures contentCount == CountTrue(ReportedFlags(files, a, unescape))
    {
      pieces, contentCount := [], 0;
      ghost var flags := ReportedFlags(files, a, unescape);
      for i := 0 to |files|
        invariant pieces == ExtractPieces(files, a, unescape, i)
        invariant contentCount == CountTrue(flags[..i])
      {
        CountTruePrefix(flags, i);
        var e := a.read(files[i]);
        pieces := pieces + EntryPieces(i + 1, files[i], e, unescape);
        if Reported(e, unescape) {
          contentCount := contentCount + 1;
        }
      }
      assert flags[..|files|] == flags;
    }

    /** `extract_text_from_epub` */
    method ExtractTextFromEpub(path: string, outputDir: string, w: EpubWorld) returns (r: TextResult)
      ensures r == ExtractTextSpec(path, outputDir, w)
    {
      if w.mkdirError.Some? {
        return TextFailed(w.mkdirError.value);
      }
      var structure := ExtractEpubStructure(path, w.present, w.archive);
      if structure.Err? {
        return TextFailed(structure.error);
      }
      var s := structure.value;
      var files := FirstFifty(s.contentFiles);
      var pieces, contentCount := ExtractEntries(files, w.archive.archive, w.unescape);
      var text := Join(ExtractHeader(s, FileName(path), w.time) + pieces, "");
      if w.writeError.Some? {
        return TextFailed(w.writeError.value);
      }
      r := TextDone(path, JoinPath(outputDir, Stem(FileName(path)) + "_extracted.txt"), text, contentCount,
                    |s.contentFiles|, s.title);
    }

    /** The loop over the directory's EPUB files: each is extracted into
        its own output directory and counted as a success or a failure. */
    method ExtractAll(inputDir: string, outputDir: string, files: seq<string>, worlds: string -> EpubWorld)
      returns (raised: Option<string>, results: seq<(string, TextResult)>, ok: nat, bad: nat)
      ensures var f := FirstMkdirFailure(inputDir, files, worlds, 0);
        raised == if f.Some? then Some(worlds(JoinPath(inputDir, files[f.value])).mkdirError.value) else None
      ensures raised.None? ==> results == FileResults(inputDir, outputDir, files, worlds)
      ensures raised.None? ==> ok == SuccessCount(results) && ok + bad == |files|
    {
      ok, bad := 0, 0;
      results := [];
      for i := 0 to |files|
        invariant FirstMkdirFailure(inputDir, files, worlds, 0) == FirstMkdirFailure(inputDir, files, worlds, i)
        invariant results == FileResults(inputDir, outputDir, files[..i], worlds)
        invariant |results| == i && ok + bad == i && ok == SuccessCount(results)
      {
        var round := ExtractOne(inputDir, outputDir, files[i], worlds);
        if round.Raised? {
          return Some(round.error), results, ok, bad;
        }
        var entry := round.entry;
        SuccessCountSnoc(results, entry);
        if entry.1.TextDone? {
          ok := ok + 1;
        } else {
          bad := bad + 1;
        }
        FileResultsSnoc(inputDir, outputDir, files, worlds, i);
        results := results + [entry];
      }
      raised := None;
      assert files[..|files|] == files;
    }

    /** One round of that loop: the file's path and its extraction into
        `output_dir / stem`. */
    method ExtractOne(inputDir: string, outputDir: string, name: string, worlds: string -> EpubWorld)
      returns (round: Round)
      ensures round == FileRound(inputDir, outputDir, name, worlds)
    {
      var path := JoinPath(inputDir, name);
      var fileOutputDir := JoinPath(outputDir, Stem(name));
      var w := worlds(path);
      if w.mkdirError.Some? {
        return Raised(w.mkdirError.value);
      }
      var result := ExtractTextFromEpub(path, fileOutputDir, w);
      round := Recorded((path, result));
    }

    /** `process_directory`: the three directory errors, then one result
        per EPUB, in glob order, which is that file's extraction into
        `output_dir / stem`; the run succeeds exactly when none failed. */
    method ProcessDirectory(inputDir: string, outputDir: string, dirExists: bool, isDir: bool, entries: seq<string>,
                            worlds: string -> EpubWorld) returns (r: DirectoryReport)
      ensures !dirExists ==> r == DirectoryFailed("输入目录不存在")
      ensures dirExists && !isDir ==> r == DirectoryFailed("输入路径不是目录")
      ensures dirExists && isDir && EpubFiles(entries) == [] ==> r == DirectoryFailed("没有EPUB文件")
      ensures dirExists && isDir && EpubFiles(entries) != [] ==>
        var files := EpubFiles(entries);
        var f := FirstMkdirFailure(inputDir, files, worlds, 0);
        f.Some? ==> r == DirectoryRaised(worlds(JoinPath(inputDir, files[f.value])).mkdirError.value)
      ensures dirExists && isDir && EpubFiles(entries) != [] ==>
        var files := EpubFiles(entries);
        FirstMkdirFailure(inputDir, files, worlds, 0).None? ==>
        && r.DirectoryDone?
        && r.totalFiles == |files| == |r.fileResults|
        && (forall i :: 0 <= i < |files| ==> r.fileResults[i] == FileResult(inputDir, outputDir, files[i], worlds))
        && r.successful == SuccessCount(r.fileResults) && r.successful + r.failed == r.totalFiles
        && (r.success <==> r.failed == 0)
        && (r.success <==> forall i :: 0 <= i < |files| ==> r.fileResults[i].1.TextDone?)
    {
      if !dirExists {
        return DirectoryFailed("输入目录不存在");
      }
      if !isDir {
        return DirectoryFailed("输入路径不是目录");
      }
      var files := EpubFiles(entries);
      if files == [] {
        return DirectoryFailed("没有EPUB文件");
      }
      var raised, results, ok, bad := ExtractAll(inputDir, outputDir, files, worlds);
      if raised.Some? {
        return DirectoryRaised(raised.value);
      }
      SuccessCountAll(results);
      forall k | 0 <= k < |files|
        ensures results[k] == FileResult(inputDir, outputDir, files[k], worlds)
      {
        FileResultsAt(inputDir, outputDir, files, worlds, k);
      }
      r := DirectoryDone(|files|, ok, bad, results, bad == 0);
    }
  }
}
