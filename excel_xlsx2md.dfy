/** `ExcelToMarkdownConverter` of `src/excel/xlsx2md.py`: reads every sheet
    of a workbook, trying a second reading engine when the first fails, and
    writes one Markdown document of pipe tables, paged by
    `max_rows_per_page`, unless the output already holds a conversion of
    the same file.  The spreadsheet library is an oracle: `open(engine)` is
    what opening the workbook with that engine gives (`None` when it
    raises), one `SheetRead` per sheet. */
module ExcelConverter {
  import opened Wrappers
  import opened PyText
  import opened PdfFiles
  import opened MarkdownTable

  const Openpyxl := "openpyxl"
  const Xlrd := "xlrd"

  /** `Path(file_path).suffix.lower()` */
  function Extension(path: string): string {
    Lower(Suffix(FileName(path)))
  }

  /** `get_engine_for_file`: xlrd for an '.xls' file when xlrd imports,
      openpyxl for everything else. */
  function GetEngineForFile(path: string, xlrdImportable: bool): (engine: string)
    ensures engine == Xlrd <==> Extension(path) == ".xls" && xlrdImportable
    ensures engine == Openpyxl <==> !(Extension(path) == ".xls" && xlrdImportable)
  {
    if Extension(path) == ".xlsx" then Openpyxl
    else if Extension(path) == ".xls" then (if xlrdImportable then Xlrd else Openpyxl)
    else Openpyxl
  }

  /** The engines `read_excel_file` tries, in order: both, xlrd first only
      for '.xls'. */
  function EnginesToTry(path: string): (r: seq<string>)
    ensures |r| == 2 && r[0] != r[1] && Openpyxl in r && Xlrd in r
    ensures r[0] == Xlrd <==> Extension(path) == ".xls"
  {
    if Extension(path) == ".xlsx" then [Openpyxl, Xlrd]
    else if Extension(path) == ".xls" then [Xlrd, Openpyxl]
    else [Openpyxl, Xlrd]
  }

  /** One sheet as the reader gives it: its name, the table read as text
      (`None` when that read raises) and the table of the retry with
      `dtype=object`. */
  datatype SheetRead = SheetRead(name: string, asText: Option<Frame>, asObject: Option<Frame>)

  datatype Sheet = Sheet(name: string, frame: Frame)

  /** A sheet that cannot be read either way becomes an empty table. */
  function FrameOf(s: SheetRead): Frame {
    if s.asText.Some? then s.asText.value
    else if s.asObject.Some? then s.asObject.value
    else Table([], [])
  }

  function SheetsOf(sheetReads: seq<SheetRead>): (r: seq<Sheet>)
    ensures |r| == |sheetReads|
    ensures forall i :: 0 <= i < |r| ==> r[i] == Sheet(sheetReads[i].name, FrameOf(sheetReads[i]))
  {
    seq(|sheetReads|, i requires 0 <= i < |sheetReads| => Sheet(sheetReads[i].name, FrameOf(sheetReads[i])))
  }

  /** What `read_excel_file` returns: the sheets of the first engine that
      opens the workbook, none when both fail. */
  function ReadSpec(engines: seq<string>, open: string -> Option<seq<SheetRead>>): seq<Sheet> {
    if engines == [] then []
    else if open(engines[0]).Some? then SheetsOf(open(engines[0]).value)
    else ReadSpec(engines[1..], open)
  }

  /** The preferred engine wins when it opens the workbook; the other one
      is used only when it fails; nothing is read when both fail. */
  lemma ReadRules(path: string, open: string -> Option<seq<SheetRead>>)
    ensures var es := EnginesToTry(path);
      && (open(es[0]).Some? ==> ReadSpec(es, open) == SheetsOf(open(es[0]).value))
      && (open(es[0]).None? && open(es[1]).Some? ==> ReadSpec(es, open) == SheetsOf(open(es[1]).value))
      && (open(es[0]).None? && open(es[1]).None? ==> ReadSpec(es, open) == [])
  {
    var es := EnginesToTry(path);
    assert es[1..][1..] == [];
    assert ReadSpec(es[1..], open) == if open(es[1]).Some? then SheetsOf(open(es[1]).value) else ReadSpec([], open);
  }

  // ---------------------------------------------------------------------
  // Idempotence check

  /** The source-name patterns `check_if_already_converted` looks for. */
  function Patterns(name: string): seq<string> {
    [ "源文件: `" + name + "`",
      "**源文件:** `" + name + "`",
      "Excel文件转换结果: " + name,
      "# Excel文件转换结果: " + name,
      "文件名称: " + name,
      "**文件名称:** " + name ]
  }

  /** Some pattern of `pats` occurs in `c`. */
  predicate AnyIn(c: string, pats: seq<string>) {
    exists i :: 0 <= i < |pats| && Contains(c, pats[i])
  }

  /** Some line of `lines` contains the name or the stem. */
  predicate AnyLineNames(lines: seq<string>, name: string, stem: string) {
    exists i :: 0 <= i < |lines| && (Contains(lines[i], name) || Contains(lines[i], stem))
  }

  const SummaryKey := "\"file_name\":"

  // ---------------------------------------------------------------------
  // The summary block: `re.search(r'```json\s*(.*?)\s*```', c, re.DOTALL)`

  /** Three backticks begin at `p`. */
  predicate FenceAt(s: string, p: nat) {
    p + 3 <= |s| && s[p] == '`' && s[p + 1] == '`' && s[p + 2] == '`'
  }

  /** "```json" begins at `i`. */
  predicate OpenFenceAt(s: string, i: nat) {
    FenceAt(s, i) && i + 7 <= |s| && s[i + 3] == 'j' && s[i + 4] == 's' && s[i + 5] == 'o' && s[i + 6] == 'n'
  }

  predicate NoFence(s: string) { forall p :: 0 <= p < |s| ==> !FenceAt(s, p) }

  predicate NoOpenFence(s: string) { forall i :: 0 <= i < |s| ==> !OpenFenceAt(s, i) }

  /** Where the whitespace run starting at `i` ends: a greedy `\s*`. */
  function SpaceEnd(s: string, i: nat): (e: nat)
    requires i <= |s|
    ensures i <= e <= |s| && (e == |s| || !IsSpace(s[e]))
    ensures forall k :: i <= k < e ==> IsSpace(s[k])
    decreases |s| - i
  {
    if i < |s| && IsSpace(s[i]) then SpaceEnd(s, i + 1) else i
  }

  /** The end of the lazy group `(.*?)` that starts at `g`: the first end
      from which the closing `\s*` reaches three backticks, `None` when
      there is none. */
  function GroupEnd(s: string, g: nat): (r: Option<nat>)
    requires g <= |s|
    ensures r.Some? ==> g <= r.value <= |s| && FenceAt(s, SpaceEnd(s, r.value))
    ensures forall k :: g <= k <= |s| && (r.None? || k < r.value) ==> !FenceAt(s, SpaceEnd(s, k))
    decreases |s| - g
  {
    if FenceAt(s, SpaceEnd(s, g)) then Some(g)
    else if g == |s| then None
    else GroupEnd(s, g + 1)
  }

  /** The group of the leftmost match that starts at `i` or later. */
  function SearchFrom(s: string, i: nat): Option<string>
    requires i <= |s|
    decreases |s| - i
  {
    if i + 7 > |s| then None
    else
      var a := SpaceEnd(s, i + 7);
      if OpenFenceAt(s, i) && GroupEnd(s, a).Some? then Some(s[a..GroupEnd(s, a).value])
      else SearchFrom(s, i + 1)
  }

  /** `group(1)` of `re.search(r'```json\s*(.*?)\s*```', s, re.DOTALL)`,
      `None` without a match.  A backtick is not whitespace, so the opening
      `\s*` never gives back what it took, and the closing one takes the
      whole run in front of the backticks. */
  function JsonFenceBlock(s: string): Option<string> { SearchFrom(s, 0) }

  /** The `file_name` the summary block gives: `fileNameOf(b)` is the
      `file_name` string of `safe_json_loads(b, default={})`, `None` when
      there is none or looking it up raises. */
  function SummaryName(fileNameOf: string -> Option<string>, c: string): Option<string> {
    match JsonFenceBlock(c)
    case None => None
    case Some(b) => fileNameOf(b)
  }

  /** What `'\n'.join` makes of the lines `p` stands for followed by a
      summary block holding `d`. */
  function Fenced(p: string, d: string): string {
    p + "\n" + ("```json" + "\n" + (d + "\n" + "```"))
  }

  lemma FencedChars(p: string, d: string)
    ensures var s, o := Fenced(p, d), |p| + 1;
      && |s| == o + 12 + |d|
      && (forall k :: 0 <= k < |p| ==> s[k] == p[k])
      && s[|p|] == '\n'
      && s[o] == '`' && s[o + 1] == '`' && s[o + 2] == '`'
      && s[o + 3] == 'j' && s[o + 4] == 's' && s[o + 5] == 'o' && s[o + 6] == 'n' && s[o + 7] == '\n'
      && (forall k :: 0 <= k < |d| ==> s[o + 8 + k] == d[k])
      && s[o + 8 + |d|] == '\n' && FenceAt(s, o + 9 + |d|)
  {
    var tail := d + "\n" + "```";
    var mid := "```json" + "\n" + tail;
    assert forall k :: 0 <= k < |d| ==> tail[k] == d[k];
    assert forall k :: 0 <= k < |tail| ==> mid[8 + k] == tail[k];
  }

  /** Before the block's own fence there is no opening fence when `p` holds
      none, and after it there is none when `d` holds no backtick fence. */
  lemma {:induction false} FencedOpenings(p: string, d: string, i: nat)
    requires NoOpenFence(p) && NoFence(d)
    ensures OpenFenceAt(Fenced(p, d), i) <==> i == |p| + 1
  {
    var s, o := Fenced(p, d), |p| + 1;
    FencedChars(p, d);
    if i + 7 <= |p| {
      assert !OpenFenceAt(p, i);
    } else if o + 8 <= i < o + 8 + |d| {
      if i + 2 < o + 8 + |d| {
        assert !FenceAt(d, i - o - 8);
      }
    }
  }

  /** A whitespace run of one character ends after it. */
  lemma SpaceEndOne(s: string, i: nat)
    requires i + 1 < |s| && IsSpace(s[i]) && !IsSpace(s[i + 1])
    ensures SpaceEnd(s, i) == i + 1
  {
  }

  /** No whitespace run inside `d` leads to three backticks. */
  lemma FencedNoCloseInside(p: string, d: string, k: nat)
    requires d != [] && !IsSpace(d[|d| - 1]) && NoFence(d)
    requires |p| + 9 <= k < |p| + 9 + |d|
    ensures !FenceAt(Fenced(p, d), SpaceEnd(Fenced(p, d), k))
  {
    var s, o := Fenced(p, d), |p| + 1;
    var c := o + 8 + |d|;
    FencedChars(p, d);
    var q := SpaceEnd(s, k);
    if q + 2 < c {
      assert !FenceAt(d, q - o - 8);
    }
  }

  /** The opening `\s*` of the summary block takes just its line break. */
  lemma FencedOpen(p: string, d: string)
    requires d != [] && !IsSpace(d[0])
    ensures SpaceEnd(Fenced(p, d), |p| + 8) == |p| + 9
  {
    FencedChars(p, d);
    SpaceEndOne(Fenced(p, d), |p| + 8);
  }

  /** From the end of `d` the closing `\s*` reaches the closing fence. */
  lemma FencedCloses(p: string, d: string)
    ensures FenceAt(Fenced(p, d), SpaceEnd(Fenced(p, d), |p| + 9 + |d|))
  {
    FencedChars(p, d);
    SpaceEndOne(Fenced(p, d), |p| + 9 + |d|);
  }

  /** The lazy group that starts at the first character of `d` ends where
      `d` does. */
  lemma FencedGroup(p: string, d: string)
    requires d != [] && !IsSpace(d[|d| - 1]) && NoFence(d)
    ensures GroupEnd(Fenced(p, d), |p| + 9) == Some(|p| + 9 + |d|)
  {
    var s, c := Fenced(p, d), |p| + 9 + |d|;
    assert |s| == c + 4 by { FencedChars(p, d); }
    FencedCloses(p, d);
    var g := GroupEnd(s, |p| + 9);
    if g.Some? && g.value < c {
      FencedNoCloseInside(p, d, g.value);
    }
  }

  /** The group between the block's fences is `d`. */
  lemma FencedSlice(p: string, d: string)
    ensures Fenced(p, d)[|p| + 9..|p| + 9 + |d|] == d
  {
    FencedChars(p, d);
  }

  /** Searching from `i` finds what searching from `o` does when no
      opening fence lies between. */
  lemma {:induction false} SearchSkips(s: string, i: nat, o: nat)
    requires i <= o <= |s|
    requires forall j: nat :: i <= j < o ==> !OpenFenceAt(s, j)
    ensures SearchFrom(s, i) == SearchFrom(s, o)
    decreases o - i
  {
    if i < o {
      assert !OpenFenceAt(s, i);
      SearchSkips(s, i + 1, o);
    }
  }

  /** A text whose part before the summary block holds no "```json", and
      whose JSON `d` starts and ends with a non-blank and holds no "```",
      has exactly one opening fence, the block's, and the regex gives
      back `d`. */
  lemma FencedBlock(p: string, d: string)
    requires NoOpenFence(p)
    requires d != [] && !IsSpace(d[0]) && !IsSpace(d[|d| - 1]) && NoFence(d)
    ensures forall i: nat :: OpenFenceAt(Fenced(p, d), i) <==> i == |p| + 1
    ensures JsonFenceBlock(Fenced(p, d)) == Some(d)
  {
    var s, o := Fenced(p, d), |p| + 1;
    forall i: nat ensures OpenFenceAt(s, i) <==> i == o { FencedOpenings(p, d, i); }
    FencedChars(p, d);
    SearchSkips(s, 0, o);
    FencedOpen(p, d);
    FencedGroup(p, d);
    FencedSlice(p, d);
  }

  /** `check_if_already_converted`.  `content` is the output file's text
      (`None` when reading it raises), of which the first 10000 characters
      are searched; `fileNameOf` is as for `SummaryName`. */
  function CheckSpec(outputExists: bool, content: Option<string>, name: string, stem: string,
                     fileNameOf: string -> Option<string>): bool
  {
    if !outputExists || content.None? then false
    else
      var c := Take(content.value, 10000);
      AnyIn(c, Patterns(name))
      || (stem != "" && Contains(c, stem) && AnyLineNames(Take20(Split(c, '\n')), name, stem))
      || (Contains(c, SummaryKey) && SummaryName(fileNameOf, c) == Some(name))
  }

  /** `lines[:20]` */
  function Take20(lines: seq<string>): (r: seq<string>)
    ensures |r| <= 20 && |r| <= |lines| && r == lines[..|r|]
  {
    if |lines| <= 20 then lines else lines[..20]
  }

  /** `check_if_already_converted` with its pattern and line loops. */
  method CheckIfAlreadyConverted(outputExists: bool, content: Option<string>, name: string, stem: string,
                                 fileNameOf: string -> Option<string>)
    returns (converted: bool)
    ensures converted == CheckSpec(outputExists, content, name, stem, fileNameOf)
  {
    if !outputExists {
      return false;
    }
    if content.None? {
      return false;
    }
    var c := Take(content.value, 10000);
    var patterns := Patterns(name);
    for i := 0 to |patterns|
      invariant !AnyIn(c, patterns[..i])
    {
      if Contains(c, patterns[i]) {
        assert Contains(c, patterns[i]);
        return true;
      }
      assert !AnyIn(c, patterns[..i + 1]) by {
        var pre := patterns[..i + 1];
        forall j | 0 <= j < i + 1 ensures !Contains(c, pre[j]) {
          if j < i { assert pre[j] == patterns[..i][j]; }
        }
      }
    }
    assert patterns[..|patterns|] == patterns;
    if stem != "" && Contains(c, stem) {
      var lines := Take20(Split(c, '\n'));
      for i := 0 to |lines|
        invariant !AnyLineNames(lines[..i], name, stem)
      {
        if Contains(lines[i], name) || Contains(lines[i], stem) {
          return true;
        }
        assert !AnyLineNames(lines[..i + 1], name, stem) by {
          var pre := lines[..i + 1];
          forall j | 0 <= j < i + 1 ensures !(Contains(pre[j], name) || Contains(pre[j], stem)) {
            if j < i { assert pre[j] == lines[..i][j]; }
          }
        }
      }
      assert lines[..|lines|] == lines;
    }
    if Contains(c, SummaryKey) {
      var found := SummaryName(fileNameOf, c);
      if found == Some(name) {
        return true;
      }
    }
    return false;
  }

  /** The check never fires without an output file. */
  lemma CheckNeedsOutput(content: Option<string>, name: string, stem: string, fileNameOf: string -> Option<string>)
    ensures !CheckSpec(false, content, name, stem, fileNameOf)
  {
  }

  /** A document that opens with this converter's title for `name` is
      recognised as a conversion of `name`. */
  lemma CheckFindsTitle(content: string, name: string, stem: string, fileNameOf: string -> Option<string>)
    requires StartsWith(content, Title(name)) && |Title(name)| <= 10000
    ensures CheckSpec(true, Some(content), name, stem, fileNameOf)
  {
    var c := Take(content, 10000);
    var p := Patterns(name)[2];
    assert Title(name) == "# " + p;
    assert c[..|Title(name)|] == content[..|Title(name)|];
    assert OccursAt(c, p, 2) by {
      assert c[2..2 + |p|] == Title(name)[2..];
    }
    ContainsAt(c, p);
  }

  // ---------------------------------------------------------------------
  // Conversion

  /** The first line of every document this converter writes. */
  function Title(name: string): string {
    "# Excel文件转换结果: " + name
  }

  datatype SheetInfo = SheetInfo(name: string, rows: nat, columns: nat, columnNames: seq<string>)

  /** The JSON summary at the end of the document; `json.dumps` of it is the
      `dumps` oracle. */
  datatype Summary = Summary(fileName: string, fileHash: string, totalSheets: nat,
                             conversionTime: string, sheetsInfo: seq<SheetInfo>)

  function InfoOf(s: Sheet): SheetInfo {
    SheetInfo(s.name, |s.frame.rows|, |s.frame.columns|, s.frame.columns)
  }

  function SummaryOf(name: string, hash: string, time: string, sheets: seq<Sheet>): (r: Summary)
    ensures r.totalSheets == |sheets| == |r.sheetsInfo|
    ensures forall i :: 0 <= i < |sheets| ==> r.sheetsInfo[i] == InfoOf(sheets[i])
  {
    Summary(name, hash, |sheets|, time, seq(|sheets|, i requires 0 <= i < |sheets| => InfoOf(sheets[i])))
  }

  /** The lines that open the document. */
  function HeadLines(name: string, inputPath: string, time: string, hash: string, sheetCount: nat): seq<string> {
    [Title(name), "**源文件:** `" + inputPath + "`", "**转换时间:** " + time, "**Sheet页数量:** " + Dec(sheetCount)]
    + (if hash != "" then ["**文件哈希:** `" + hash + "`"] else [])
    + ["", "---", ""]
  }

  /** The section of one sheet given its pages. */
  function SheetSection(s: Sheet, pages: seq<string>): seq<string> {
    ["## 📄 Sheet: " + s.name, "**行数:** " + Dec(|s.frame.rows|) + ", **列数:** " + Dec(|s.frame.columns|), ""]
    + pages + ["---", ""]
  }

  /** The sections of the first `j` sheets, or the error paging raised. */
  function Sections(sheets: seq<Sheet>, m: int, j: nat): Result<seq<string>>
    requires j <= |sheets|
  {
    if j == 0 then Ok([])
    else match Sections(sheets, m, j - 1)
      case Err(e) => Err(e)
      case Ok(prev) =>
        match PagesSpec(sheets[j - 1].frame, sheets[j - 1].name, m)
        case Err(e) => Err(e)
        case Ok(pages) => Ok(prev + SheetSection(sheets[j - 1], pages))
  }

  /** The whole document, or the error raised while building it. */
  function DocumentSpec(name: string, inputPath: string, time: string, hash: string, sheets: seq<Sheet>,
                        m: int, dumps: Summary -> string): Result<string>
  {
    match Sections(sheets, m, |sheets|)
    case Err(e) => Err(e)
    case Ok(body) =>
      Ok(Join(HeadLines(name, inputPath, time, hash, |sheets|) + body
              + ["## 📊 文件摘要", "```json", dumps(SummaryOf(name, hash, time, sheets)), "```"], "\n"))
  }

  /** What `convert_single_file` returns and, when it writes, the text it
      writes. */
  datatype Conversion = Conversion(ok: bool, written: Option<string>)

  /** `convert_single_file`; `writeOk` says whether writing the output
      succeeds. */
  function ConvertSpec(m: int, inputPath: string, force: bool, outputExists: bool, outputContent: Option<string>,
                       open: string -> Option<seq<SheetRead>>, hash: string, time: string,
                       dumps: Summary -> string, fileNameOf: string -> Option<string>, writeOk: bool): Conversion
  {
    var name := FileName(inputPath);
    if !force && CheckSpec(outputExists, outputContent, name, Stem(name), fileNameOf) then Conversion(true, None)
    else
      var sheets := ReadSpec(EnginesToTry(inputPath), open);
      if sheets == [] then Conversion(false, None)
      else match DocumentSpec(name, inputPath, time, hash, sheets, m, dumps)
        case Err(_) => Conversion(false, None)
        case Ok(doc) => if writeOk then Conversion(true, Some(doc)) else Conversion(false, None)
  }

  /** A written document starts with the title naming its input. */
  lemma DocumentStartsWithTitle(name: string, inputPath: string, time: string, hash: string, sheets: seq<Sheet>,
                                m: int, dumps: Summary -> string)
    requires DocumentSpec(name, inputPath, time, hash, sheets, m, dumps).Ok?
    ensures StartsWith(DocumentSpec(name, inputPath, time, hash, sheets, m, dumps).value, Title(name))
  {
    var body := Sections(sheets, m, |sheets|).value;
    var lines := HeadLines(name, inputPath, time, hash, |sheets|) + body
                 + ["## 📊 文件摘要", "```json", dumps(SummaryOf(name, hash, time, sheets)), "```"];
    assert lines[0] == Title(name);
    assert Join(lines, "\n") == lines[0] + "\n" + Join(lines[1..], "\n");
  }

  /** Converting a file whose output already holds a conversion of it does
      not write, and a second conversion of a file this converter wrote
      (with a name of reasonable length) is skipped. */
  lemma ConvertIsIdempotent(m: int, inputPath: string, outputContent: Option<string>,
                            open: string -> Option<seq<SheetRead>>, hash: string, time: string,
                            dumps: Summary -> string, fileNameOf: string -> Option<string>,
                            open2: string -> Option<seq<SheetRead>>, hash2: string, time2: string)
    requires |Title(FileName(inputPath))| <= 10000
    requires ConvertSpec(m, inputPath, true, true, outputContent, open, hash, time, dumps, fileNameOf, true).written.Some?
    ensures var doc := ConvertSpec(m, inputPath, true, true, outputContent, open, hash, time, dumps, fileNameOf, true).written;
      ConvertSpec(m, inputPath, false, true, doc, open2, hash2, time2, dumps, fileNameOf, false) == Conversion(true, None)
  {
    var name := FileName(inputPath);
    var sheets := ReadSpec(EnginesToTry(inputPath), open);
    DocumentStartsWithTitle(name, inputPath, time, hash, sheets, m, dumps);
    var doc := DocumentSpec(name, inputPath, time, hash, sheets, m, dumps).value;
    CheckFindsTitle(doc, name, Stem(name), fileNameOf);
  }

  /** The check matches names as substrings: the title of a conversion of
      "data.xlsx" is taken for a conversion of "data.xls". */
  lemma CheckMatchesNamePrefix(fileNameOf: string -> Option<string>)
    ensures CheckSpec(true, Some(Title("data.xlsx")), "data.xls", "data", fileNameOf)
  {
    var c := Title("data.xlsx");
    var p := Patterns("data.xls")[2];
    assert Take(c, 10000) == c;
    assert OccursAt(c, p, 2);
    ContainsAt(c, p);
  }

  /** The check as intended: the output's first line is exactly this
      file's title. */
  function CheckIntended(outputExists: bool, content: Option<string>, name: string): bool {
    outputExists && content.Some? && Split(content.value, '\n')[0] == Title(name)
  }

  /** The intended check still recognises this converter's own output, and
      never takes the output of a differently named file for it. */
  lemma CheckIntendedExact(name: string, other: string, content: string, inputPath: string, time: string,
                           hash: string, sheets: seq<Sheet>, m: int, dumps: Summary -> string)
    requires '\n' !in name && '\n' !in other
    ensures CheckIntended(true, Some(Title(name)), name)
    ensures other != name ==> !CheckIntended(true, Some(Title(other)), name)
    ensures DocumentSpec(name, inputPath, time, hash, sheets, m, dumps).Ok? ==>
      CheckIntended(true, Some(DocumentSpec(name, inputPath, time, hash, sheets, m, dumps).value), name)
  {
    SplitNoSeparator(Title(name), '\n');
    SplitNoSeparator(Title(other), '\n');
    if other != name {
      assert Title(other)[|Title("")|..] == other;
      assert Title(name)[|Title("")|..] == name;
    }
    var r := DocumentSpec(name, inputPath, time, hash, sheets, m, dumps);
    if r.Ok? {
      var body := Sections(sheets, m, |sheets|).value;
      var lines := HeadLines(name, inputPath, time, hash, |sheets|) + body
                   + ["## 📊 文件摘要", "```json", dumps(SummaryOf(name, hash, time, sheets)), "```"];
      assert lines[0] == Title(name);
      assert r.value == Title(name) + "\n" + Join(lines[1..], "\n");
      SplitAfterPiece(Title(name), '\n', Join(lines[1..], "\n"));
    }
  }

  // ---------------------------------------------------------------------
  // Directories

  /** `convert_directory`'s file list: the '.xlsx' entries, then '.xls',
      '.xlsm' and '.xlsb', each in directory order. */
  function ExcelFiles(entries: seq<string>): seq<string> {
    Glob(entries, ".xlsx") + Glob(entries, ".xls") + Glob(entries, ".xlsm") + Glob(entries, ".xlsb")
  }

  /** A listed name is picked up exactly when it has one of the four
      extensions, in that exact case. */
  lemma ExcelFilesMembers(entries: seq<string>, name: string)
    ensures name in ExcelFiles(entries) <==>
      name in entries && (EndsWith(name, ".xlsx") || EndsWith(name, ".xls")
                          || EndsWith(name, ".xlsm") || EndsWith(name, ".xlsb"))
  {
    GlobMembers(entries, ".xlsx", name);
    GlobMembers(entries, ".xls", name);
    GlobMembers(entries, ".xlsm", name);
    GlobMembers(entries, ".xlsb", name);
  }

  class ExcelToMarkdownConverter {
    const chunkSize: int
    const maxRowsPerPage: int

    constructor (chunkSize: int, maxRowsPerPage: int)
      ensures this.chunkSize == chunkSize && this.maxRowsPerPage == maxRowsPerPage
    {
      this.chunkSize := chunkSize;
      this.maxRowsPerPage := maxRowsPerPage;
    }

    /** `read_excel_file` */
    method ReadExcelFile(path: string, open: string -> Option<seq<SheetRead>>) returns (sheets: seq<Sheet>)
      ensures sheets == ReadSpec(EnginesToTry(path), open)
    {
      var engines := EnginesToTry(path);
      var i := 0;
      while i < |engines|
        invariant 0 <= i <= |engines|
        invariant ReadSpec(engines[i..], open) == ReadSpec(engines, open)
      {
        var book := open(engines[i]);
        if book.Some? {
          sheets := ReadSheets(book.value);
          return;
        }
        assert engines[i..][1..] == engines[i + 1..];
        i := i + 1;
      }
      sheets := [];
    }

    /** The sheet loop of `read_excel_file`. */
    method ReadSheets(sheetReads: seq<SheetRead>) returns (sheets: seq<Sheet>)
      ensures sheets == SheetsOf(sheetReads)
    {
      sheets := [];
      for j := 0 to |sheetReads|
        invariant |sheets| == j
        invariant forall k :: 0 <= k < j ==> sheets[k] == Sheet(sheetReads[k].name, FrameOf(sheetReads[k]))
      {
        var sheet := Sheet(sheetReads[j].name, FrameOf(sheetReads[j]));
        sheets := sheets + [sheet];
      }
    }

    /** `convert_single_file` */
    method ConvertSingleFile(inputPath: string, force: bool, outputExists: bool, outputContent: Option<string>,
                             open: string -> Option<seq<SheetRead>>, hash: string, time: string,
                             dumps: Summary -> string, fileNameOf: string -> Option<string>, writeOk: bool)
      returns (r: Conversion)
      ensures r == ConvertSpec(maxRowsPerPage, inputPath, force, outputExists, outputContent, open, hash, time,
                               dumps, fileNameOf, writeOk)
    {
      var name := FileName(inputPath);
      if !force {
        var converted := CheckIfAlreadyConverted(outputExists, outputContent, name, Stem(name), fileNameOf);
        if converted {
          return Conversion(true, None);
        }
      }
      var sheets := ReadExcelFile(inputPath, open);
      if sheets == [] {
        return Conversion(false, None);
      }
      var sections := BuildSections(sheets, maxRowsPerPage);
      if sections.Err? {
        return Conversion(false, None);
      }
      var body := sections.value;
      var lines := HeadLines(name, inputPath, time, hash, |sheets|) + body
        + ["## 📊 文件摘要", "```json", dumps(SummaryOf(name, hash, time, sheets)), "```"];
      if !writeOk {
        return Conversion(false, None);
      }
      r := Conversion(true, Some(Join(lines, "\n")));
    }
  }

  /** The sheet loop of `convert_single_file`: each sheet's heading and
      pages, stopping at the first sheet whose paging raises. */
  method BuildSections(sheets: seq<Sheet>, m: int) returns (r: Result<seq<string>>)
    ensures r == Sections(sheets, m, |sheets|)
  {
    var body: seq<string> := [];
    for j := 0 to |sheets|
      invariant Sections(sheets, m, j) == Ok(body)
    {
      var pages := ProcessLargeDataframe(sheets[j].frame, sheets[j].name, m);
      if pages.Err? {
        assert Sections(sheets, m, j + 1) == Err(pages.error);
        SectionsErr(sheets, m, j + 1, |sheets|);
        return Err(pages.error);
      }
      body := body + SheetSection(sheets[j], pages.value);
    }
    r := Ok(body);
  }

  /** Once a sheet's paging raises, the document fails. */
  lemma {:induction false} SectionsErr(sheets: seq<Sheet>, m: int, j: nat, k: nat)
    requires j <= k <= |sheets| && Sections(sheets, m, j).Err?
    ensures Sections(sheets, m, k) == Sections(sheets, m, j)
    decreases k - j
  {
    if j < k {
      SectionsErr(sheets, m, j + 1, k);
    }
  }
}
