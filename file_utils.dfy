/** `src/utils/file_utils.py`: `validate_file_type`, which accepts a file
    by its suffix or else by the magic number its first bytes hold, and
    `find_files`, which gathers the regular files a set of glob patterns
    finds, without duplicates and in path order.  The file system is given
    as the bytes a read returns and as glob and `is_file` oracles. */
module FileUtils {
  import opened Wrappers
  import opened PyText
  import opened PdfFiles

  // ---------------------------------------------------------------------
  // `validate_file_type`

  newtype byte = x: int | 0 <= x < 256

  /** `b'%PDF'`, the header a PDF file opens with (section 7.5.2 of
      ISO 32000-1). */
  const PdfMagic: seq<byte> := [0x25, 0x50, 0x44, 0x46]

  /** `b'PK\x03\x04'`, the local file header signature of a ZIP archive
      (section 4.3.7 of the PKWARE APPNOTE), which an EPUB is. */
  const ZipMagic: seq<byte> := [0x50, 0x4B, 0x03, 0x04]

  /** `b'\xD0\xCF\x11\xE0'`, the start of an OLE2 compound file. */
  const OleMagic: seq<byte> := [0xD0, 0xCF, 0x11, 0xE0]

  /** The dictionary display as written: `b'\x50\x4B\x03\x04'` is the same
      key as `b'PK\x03\x04'`. */
  const MagicDisplay: seq<(seq<byte>, string)> :=
    [(PdfMagic, ".pdf"), (ZipMagic, ".epub"), (ZipMagic, ".zip"), (OleMagic, ".xls")]

  /** `d[k] = v` on a dictionary of magic numbers: an existing key keeps
      its place and takes the new value, a new key goes last. */
  function Put(entries: seq<(seq<byte>, string)>, k: seq<byte>, v: string): (r: seq<(seq<byte>, string)>)
    ensures |r| == |entries| || r == entries + [(k, v)]
  {
    if entries == [] then [(k, v)]
    else if entries[0].0 == k then [(k, v)] + entries[1..]
    else [entries[0]] + Put(entries[1..], k, v)
  }

  /** `d[k] = v` with a key not yet present appends the pair. */
  lemma {:induction false} PutNewKey(entries: seq<(seq<byte>, string)>, k: seq<byte>, v: string)
    requires forall i :: 0 <= i < |entries| ==> entries[i].0 != k
    ensures Put(entries, k, v) == entries + [(k, v)]
  {
    if entries != [] {
      PutNewKey(entries[1..], k, v);
    }
  }

  /** `d[k] = v` with a key already present at index `i` (its first
      entry): the entry at `i` takes the new value and every other entry
      stays where and what it was. */
  lemma {:induction false} PutExistingKey(entries: seq<(seq<byte>, string)>, k: seq<byte>, v: string, i: nat)
    requires i < |entries| && entries[i].0 == k
    requires forall j :: 0 <= j < i ==> entries[j].0 != k
    ensures |Put(entries, k, v)| == |entries|
    ensures Put(entries, k, v)[i] == (k, v)
    ensures forall j :: 0 <= j < |entries| && j != i ==> Put(entries, k, v)[j] == entries[j]
  {
    if i > 0 {
      PutExistingKey(entries[1..], k, v, i - 1);
      var r := Put(entries[1..], k, v);
      assert Put(entries, k, v) == [entries[0]] + r;
      forall j | 0 <= j < |entries| && j != i
        ensures Put(entries, k, v)[j] == entries[j]
      {
        if j > 0 {
          assert Put(entries, k, v)[j] == r[j - 1];
        }
      }
    }
  }

  /** A dictionary display: its pairs put in one after the other. */
  function DictOf(pairs: seq<(seq<byte>, string)>): seq<(seq<byte>, string)>
    decreases |pairs|
  {
    if pairs == [] then []
    else Put(DictOf(pairs[..|pairs| - 1]), pairs[|pairs| - 1].0, pairs[|pairs| - 1].1)
  }

  /** `bytes.startswith(magic)` */
  predicate BytesStartWith(s: seq<byte>, p: seq<byte>) {
    |p| <= |s| && s[..|p|] == p
  }

  /** The first entry, in dictionary order, whose key the header starts
      with, and its extension. */
  function FirstMagic(table: seq<(seq<byte>, string)>, header: seq<byte>): (r: Option<string>)
    ensures r.Some? ==> exists k :: 0 <= k < |table| && table[k].1 == r.value && BytesStartWith(header, table[k].0)
    ensures r.None? ==> forall k :: 0 <= k < |table| ==> !BytesStartWith(header, table[k].0)
  {
    if table == [] then None
    else if BytesStartWith(header, table[0].0) then Some(table[0].1)
    else
      var r := FirstMagic(table[1..], header);
      assert forall k :: 1 <= k < |table| ==> table[k] == table[1..][k - 1];
      r
  }

  /** The table keeps three entries: the ZIP header is mapped to '.zip',
      and '.epub' is gone. */
  lemma MagicTable()
    ensures DictOf(MagicDisplay) == [(PdfMagic, ".pdf"), (ZipMagic, ".zip"), (OleMagic, ".xls")]
  {
    var d := MagicDisplay;
    assert PdfMagic != ZipMagic && PdfMagic != OleMagic && ZipMagic != OleMagic by {
      assert PdfMagic[0] != ZipMagic[0] && PdfMagic[0] != OleMagic[0] && ZipMagic[0] != OleMagic[0];
    }
    assert d[..0] == [];
    assert DictOf(d[..1]) == [(PdfMagic, ".pdf")] by { assert d[..1][..0] == d[..0]; }
    assert DictOf(d[..2]) == [(PdfMagic, ".pdf"), (ZipMagic, ".epub")] by {
      assert d[..2][..1] == d[..1];
      assert Put([(PdfMagic, ".pdf")], ZipMagic, ".epub") == [(PdfMagic, ".pdf")] + Put([], ZipMagic, ".epub");
    }
    assert DictOf(d[..3]) == [(PdfMagic, ".pdf"), (ZipMagic, ".zip")] by {
      assert d[..3][..2] == d[..2];
      var e := [(PdfMagic, ".pdf"), (ZipMagic, ".epub")];
      assert e[1..] == [(ZipMagic, ".epub")];
      assert Put(e, ZipMagic, ".zip") == [e[0]] + Put(e[1..], ZipMagic, ".zip");
    }
    assert Put([(PdfMagic, ".pdf"), (ZipMagic, ".zip")], OleMagic, ".xls")
        == [(PdfMagic, ".pdf")] + ([(ZipMagic, ".zip")] + Put([], OleMagic, ".xls")) by {
      var e := [(PdfMagic, ".pdf"), (ZipMagic, ".zip")];
      assert e[1..] == [(ZipMagic, ".zip")] && e[1..][1..] == [];
    }
    assert d[..4][..3] == d[..3];
    assert d[..4] == d;
  }

  /** `file_path.suffix.lower()` */
  function Extension(path: string): string {
    Lower(Suffix(FileName(path)))
  }

  /** `validate_file_type(file_path, expected_extensions)`.  `read` is
      what opening the file and reading it gives, `None` when either
      raises (the bare `except` turns that into `False`). */
  function ValidateFileType(path: string, expected: seq<string>, read: Option<seq<byte>>): bool {
    if Extension(path) in expected then true
    else if read.None? then false
    else match FirstMagic(DictOf(MagicDisplay), Take4(read.value))
      case Some(ext) => ext in expected
      case None => false
  }

  /** `f.read(4)` */
  function Take4(bytes: seq<byte>): (h: seq<byte>)
    ensures |h| == if |bytes| < 4 then |bytes| else 4
    ensures h == bytes[..|h|]
  {
    if |bytes| < 4 then bytes else bytes[..4]
  }

  /** A file is accepted by its suffix alone, whatever reading it would
      give; otherwise exactly when it could be read, its first four bytes
      are one of the three magic numbers, and the extension that number
      stands for is expected.  '.epub' is never one of them. */
  lemma ValidateFileTypeIff(path: string, expected: seq<string>, read: Option<seq<byte>>)
    ensures Extension(path) in expected ==> ValidateFileType(path, expected, read)
    ensures Extension(path) !in expected ==>
      (ValidateFileType(path, expected, read) <==>
        && read.Some? && |read.value| >= 4
        && (|| (read.value[..4] == PdfMagic && ".pdf" in expected)
            || (read.value[..4] == ZipMagic && ".zip" in expected)
            || (read.value[..4] == OleMagic && ".xls" in expected)))
  {
    MagicTable();
    if read.Some? {
      var h := Take4(read.value);
      var t := DictOf(MagicDisplay);
      if |read.value| >= 4 {
        assert BytesStartWith(h, PdfMagic) <==> h == PdfMagic;
        assert BytesStartWith(h, ZipMagic) <==> h == ZipMagic;
        assert BytesStartWith(h, OleMagic) <==> h == OleMagic;
        assert FirstMagic(t[2..], h) == (if h == OleMagic then Some(".xls") else None) by {
          assert t[2..][1..] == [];
        }
        assert FirstMagic(t[1..], h) == (if h == ZipMagic then Some(".zip") else FirstMagic(t[2..], h)) by {
          assert t[1..][1..] == t[2..];
        }
      } else {
        assert !BytesStartWith(h, PdfMagic) && !BytesStartWith(h, ZipMagic) && !BytesStartWith(h, OleMagic);
        assert FirstMagic(t, h) == None;
      }
    }
  }

  /** The magic-number loop of `validate_file_type`, after the suffix test
      failed: the first key the header starts with decides. */
  method MatchHeader(table: seq<(seq<byte>, string)>, header: seq<byte>, expected: seq<string>) returns (ok: bool)
    ensures ok == (FirstMagic(table, header).Some? && FirstMagic(table, header).value in expected)
  {
    for k := 0 to |table|
      invariant FirstMagic(table, header) == FirstMagic(table[k..], header)
    {
      assert table[k..][1..] == table[k + 1..];
      var entry := table[k];
      if BytesStartWith(header, entry.0) {
        return entry.1 in expected;
      }
    }
    return false;
  }

  /** `validate_file_type` as the source runs it. */
  method ValidateFile(path: string, expected: seq<string>, read: Option<seq<byte>>) returns (ok: bool)
    ensures ok == ValidateFileType(path, expected, read)
  {
    var extension := Extension(path);
    if extension in expected {
      return true;
    }
    if read.None? {
      return false;
    }
    var header := Take4(read.value);
    ok := MatchHeader(DictOf(MagicDisplay), header, expected);
  }

  /** An EPUB whose name does not end in '.epub' is turned down when only
      '.epub' is expected: its header finds '.zip'. */
  lemma EpubHeaderRejected(path: string, rest: seq<byte>)
    requires Extension(path) != ".epub"
    ensures !ValidateFileType(path, [".epub"], Some(ZipMagic + rest))
  {
    assert (ZipMagic + rest)[..4] == ZipMagic;
    ValidateFileTypeIff(path, [".epub"], Some(ZipMagic + rest));
  }

  /** `validate_file_type` as evidently intended: a ZIP header stands for
      both an EPUB and a ZIP archive. */
  function ValidateFileTypeIntended(path: string, expected: seq<string>, read: Option<seq<byte>>): bool {
    if Extension(path) in expected then true
    else if read.None? then false
    else
      var h := Take4(read.value);
      || (h == PdfMagic && ".pdf" in expected)
      || (h == ZipMagic && (".epub" in expected || ".zip" in expected))
      || (h == OleMagic && ".xls" in expected)
  }

  /** The intended check accepts everything the source accepts, and a
      ZIP-headed file whenever '.epub' is expected. */
  lemma IntendedAcceptsEpub(path: string, expected: seq<string>, read: Option<seq<byte>>)
    ensures ValidateFileType(path, expected, read) ==> ValidateFileTypeIntended(path, expected, read)
    ensures ".epub" in expected && read.Some? && BytesStartWith(read.value, ZipMagic) ==>
      ValidateFileTypeIntended(path, expected, read)
  {
    ValidateFileTypeIff(path, expected, read);
  }

  // ---------------------------------------------------------------------
  // `find_files`

  /** A path as its parts: `Path('a/b/c.pdf').parts == ('a', 'b', 'c.pdf')`. */
  type Path = seq<string>

  /** `Path.__lt__`: the parts compared as a list of strings. */
  predicate PathLt(a: Path, b: Path)
    decreases |a|
  {
    b != [] && (a == [] || StrLt(a[0], b[0]) || (a[0] == b[0] && PathLt(a[1..], b[1..])))
  }

  lemma {:induction false} PathLtIrreflexive(a: Path)
    ensures !PathLt(a, a)
    decreases |a|
  {
    if a != [] {
      StrLtIrreflexive(a[0]);
      PathLtIrreflexive(a[1..]);
    }
  }

  lemma {:induction false} PathLtTransitive(a: Path, b: Path, c: Path)
    requires PathLt(a, b) && PathLt(b, c)
    ensures PathLt(a, c)
    decreases |a|
  {
    if a != [] {
      if StrLt(a[0], b[0]) && StrLt(b[0], c[0]) {
        StrLtTransitive(a[0], b[0], c[0]);
      } else if a[0] == b[0] && b[0] == c[0] {
        PathLtTransitive(a[1..], b[1..], c[1..]);
      }
    }
  }

  /** Two different paths are ordered one way or the other, never both. */
  lemma {:induction false} PathLtTotal(a: Path, b: Path)
    ensures a != b ==> PathLt(a, b) || PathLt(b, a)
    ensures !(PathLt(a, b) && PathLt(b, a))
    decreases |a|
  {
    if a != [] && b != [] {
      if a[0] == b[0] {
        assert a == [a[0]] + a[1..] && b == [b[0]] + b[1..];
        PathLtTotal(a[1..], b[1..]);
        StrLtIrreflexive(a[0]);
      } else {
        StrLtTotal(a[0], b[0]);
        if StrLt(a[0], b[0]) { StrLtAsymmetric(a[0], b[0]); }
      }
    }
  }

  /** Strictly increasing: sorted with no path twice. */
  predicate StrictlySorted(s: seq<Path>) {
    forall i, j :: 0 <= i < j < |s| ==> PathLt(s[i], s[j])
  }

  /** Putting a path into a strictly sorted list it may already be in. */
  function InsertPath(x: Path, s: seq<Path>): seq<Path>
    decreases |s|
  {
    if s == [] then [x]
    else if x == s[0] then s
    else if PathLt(x, s[0]) then [x] + s
    else [s[0]] + InsertPath(x, s[1..])
  }

  /** `sorted(set(paths))` */
  function SortUnique(paths: seq<Path>): seq<Path>
    decreases |paths|
  {
    if paths == [] then [] else InsertPath(paths[|paths| - 1], SortUnique(paths[..|paths| - 1]))
  }

  lemma {:induction false} InsertPathSorted(x: Path, s: seq<Path>)
    requires StrictlySorted(s)
    ensures StrictlySorted(InsertPath(x, s))
    ensures forall y :: y in InsertPath(x, s) <==> y == x || y in s
    decreases |s|
  {
    if s != [] && x != s[0] && !PathLt(x, s[0]) {
      var tail := s[1..];
      assert StrictlySorted(tail) by {
        forall i, j | 0 <= i < j < |tail| ensures PathLt(tail[i], tail[j]) { assert PathLt(s[i + 1], s[j + 1]); }
      }
      InsertPathSorted(x, tail);
      PathLtTotal(x, s[0]);
      var ins := InsertPath(x, tail);
      var r := [s[0]] + ins;
      assert forall y :: y in s <==> y == s[0] || y in tail;
      forall i, j | 0 <= i < j < |r| ensures PathLt(r[i], r[j]) {
        if i == 0 {
          assert r[j] in ins;
          if r[j] != x {
            var k :| 0 <= k < |tail| && tail[k] == r[j];
            assert PathLt(s[0], s[k + 1]);
          }
        } else {
          assert r[i] == ins[i - 1] && r[j] == ins[j - 1];
        }
      }
    } else if s != [] && x != s[0] {
      var r := [x] + s;
      forall i, j | 0 <= i < j < |r| ensures PathLt(r[i], r[j]) {
        if i == 0 {
          if j > 1 { PathLtTransitive(x, s[0], s[j - 1]); }
        } else {
          assert r[i] == s[i - 1] && r[j] == s[j - 1];
        }
      }
    }
  }

  /** The sorted list is strictly increasing and holds exactly the paths
      given. */
  lemma {:induction false} SortUniqueSorted(paths: seq<Path>)
    ensures StrictlySorted(SortUnique(paths))
    ensures forall y :: y in SortUnique(paths) <==> y in paths
    decreases |paths|
  {
    if paths != [] {
      var init := paths[..|paths| - 1];
      SortUniqueSorted(init);
      InsertPathSorted(paths[|paths| - 1], SortUnique(init));
      assert paths == init + [paths[|paths| - 1]];
    }
  }

  /** Dropping the first path of a strictly increasing list leaves one
      that holds every other member. */
  lemma SortedTail(a: seq<Path>)
    requires StrictlySorted(a) && a != []
    ensures StrictlySorted(a[1..])
    ensures forall y :: y in a[1..] <==> y in a && y != a[0]
  {
    var t := a[1..];
    forall p, q | 0 <= p < q < |t| ensures PathLt(t[p], t[q]) { assert PathLt(a[p + 1], a[q + 1]); }
    forall y ensures y in t <==> y in a && y != a[0] {
      if y in t {
        var p :| 0 <= p < |t| && t[p] == y;
        assert PathLt(a[0], a[p + 1]);
        PathLtIrreflexive(y);
      }
      assert a == [a[0]] + t;
    }
  }

  /** Two strictly increasing lists with the same members start alike: the
      first of each is below every other member. */
  lemma SortedHeads(a: seq<Path>, b: seq<Path>)
    requires StrictlySorted(a) && StrictlySorted(b) && a != [] && b != []
    requires forall y :: y in a <==> y in b
    ensures a[0] == b[0]
  {
    assert a[0] in b && b[0] in a;
    var i :| 0 <= i < |a| && a[i] == b[0];
    var j :| 0 <= j < |b| && b[j] == a[0];
    if i > 0 && j > 0 {
      assert PathLt(a[0], b[0]) && PathLt(b[0], a[0]);
      PathLtTotal(a[0], b[0]);
    } else if i > 0 {
      assert PathLt(b[0], b[j]);
      PathLtIrreflexive(b[0]);
    }
  }

  /** A strictly increasing list is fixed by its members: whatever order
      `set()` produces, the sort gives the same list. */
  lemma {:induction false} StrictlySortedUnique(a: seq<Path>, b: seq<Path>)
    requires StrictlySorted(a) && StrictlySorted(b)
    requires forall y :: y in a <==> y in b
    ensures a == b
    decreases |a|
  {
    if b != [] {
      assert b[0] in b;
    }
    if a != [] {
      assert a[0] in b;
      SortedHeads(a, b);
      SortedTail(a);
      SortedTail(b);
      StrictlySortedUnique(a[1..], b[1..]);
      assert a == [a[0]] + a[1..] && b == [b[0]] + b[1..];
    }
  }

  /** `patterns` is a single pattern or a list of them. */
  datatype Patterns = One(pattern: string) | Many(patterns: seq<string>)

  /** `if isinstance(patterns, str): patterns = [patterns]` */
  function PatternList(p: Patterns): seq<string> {
    match p
    case One(pattern) => [pattern]
    case Many(patterns) => patterns
  }

  /** `directory.rglob(pattern)` when `recursive`, `directory.glob(pattern)`
      otherwise, as the paths listed. */
  type Globber = (string, bool) -> seq<Path>

  /** `[f for f in files if f.is_file()]` */
  function RegularOnly(files: seq<Path>, isFile: Path -> bool): (r: seq<Path>)
    ensures forall f :: f in r <==> f in files && isFile(f)
    decreases |files|
  {
    if files == [] then []
    else
      var r := RegularOnly(files[..|files| - 1], isFile);
      assert files == files[..|files| - 1] + [files[|files| - 1]];
      r + (if isFile(files[|files| - 1]) then [files[|files| - 1]] else [])
  }

  /** `found_files` after the loop has run over `patterns`. */
  function Collected(patterns: seq<string>, recursive: bool, glob: Globber, isFile: Path -> bool): seq<Path>
    decreases |patterns|
  {
    if patterns == [] then []
    else Collected(patterns[..|patterns| - 1], recursive, glob, isFile)
         + RegularOnly(glob(patterns[|patterns| - 1], recursive), isFile)
  }

  /** `find_files(directory, patterns, recursive)`; `dirExists` is
      `directory_path.exists()`. */
  function FindFilesSpec(dirExists: bool, patterns: Patterns, recursive: bool, glob: Globber, isFile: Path -> bool): seq<Path> {
    if !dirExists then [] else SortUnique(Collected(PatternList(patterns), recursive, glob, isFile))
  }

  /** A path is gathered exactly when some pattern's glob lists it and it
      is a regular file. */
  lemma {:induction false} CollectedMembers(patterns: seq<string>, recursive: bool, glob: Globber, isFile: Path -> bool, y: Path)
    ensures y in Collected(patterns, recursive, glob, isFile) <==>
      exists k :: 0 <= k < |patterns| && y in glob(patterns[k], recursive) && isFile(y)
    decreases |patterns|
  {
    if patterns != [] {
      var init := patterns[..|patterns| - 1];
      CollectedMembers(init, recursive, glob, isFile, y);
      assert forall k :: 0 <= k < |init| ==> init[k] == patterns[k];
    }
  }

  /** A missing directory gives `[]`; otherwise the result is strictly
      increasing in path order and holds exactly the regular files some
      pattern matches. */
  lemma FindFilesResult(dirExists: bool, patterns: Patterns, recursive: bool, glob: Globber, isFile: Path -> bool)
    ensures !dirExists ==> FindFilesSpec(dirExists, patterns, recursive, glob, isFile) == []
    ensures StrictlySorted(FindFilesSpec(dirExists, patterns, recursive, glob, isFile))
    ensures forall y :: y in FindFilesSpec(dirExists, patterns, recursive, glob, isFile) <==>
      dirExists && exists k :: 0 <= k < |PatternList(patterns)| && y in glob(PatternList(patterns)[k], recursive) && isFile(y)
  {
    var ps := PatternList(patterns);
    SortUniqueSorted(Collected(ps, recursive, glob, isFile));
    forall y ensures y in Collected(ps, recursive, glob, isFile) <==>
      exists k :: 0 <= k < |ps| && y in glob(ps[k], recursive) && isFile(y)
    {
      CollectedMembers(ps, recursive, glob, isFile, y);
    }
  }

  /** `find_files` as the source runs it: the list grows pattern by
      pattern, then is de-duplicated and sorted. */
  method FindFiles(dirExists: bool, patterns: Patterns, recursive: bool, glob: Globber, isFile: Path -> bool)
    returns (found: seq<Path>)
    ensures found == FindFilesSpec(dirExists, patterns, recursive, glob, isFile)
  {
    if !dirExists {
      return [];
    }
    var ps := PatternList(patterns);
    found := [];
    for k := 0 to |ps|
      invariant found == Collected(ps[..k], recursive, glob, isFile)
    {
      var files := glob(ps[k], recursive);
      files := RegularOnly(files, isFile);
      found := found + files;
      assert ps[..k + 1][..k] == ps[..k];
    }
    assert ps[..|ps|] == ps;
    found := SortUnique(found);
  }
}
