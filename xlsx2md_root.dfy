/** The first `ExcelToMarkdownConverter`, `xlsx2md.py` at the top of the
    repository.  It shares the table rendering and pagination of
    `src/excel/xlsx2md.py` (the same code, modelled in `MarkdownTable`) and
    the layout of the document and of each sheet's section, but reads with
    openpyxl only, has no hash line, no idempotence check, and a smaller
    summary.  The workbook reader is an oracle: `None` when opening the
    workbook raises, and per sheet `None` when reading that sheet raises. */
module RootExcelConverter {
  import opened Wrappers
  import opened PyText
  import opened PdfFiles
  import opened MarkdownTable
  import opened ExcelConverter

  /** One sheet as openpyxl gives it; `frame` is `None` when reading it
      raises. */
  datatype SheetAttempt = SheetAttempt(name: string, frame: Option<Frame>)

  /** Every sheet of the workbook reads. */
  predicate AllRead(book: seq<SheetAttempt>) {
    forall i :: 0 <= i < |book| ==> book[i].frame.Some?
  }

  /** What `read_excel_file` returns: all sheets, or none at all when the
      workbook or any one sheet fails to read. */
  function RootReadSpec(book: Option<seq<SheetAttempt>>): (r: seq<Sheet>)
    ensures r != [] ==> book.Some? && AllRead(book.value) && |r| == |book.value|
    ensures book.Some? && AllRead(book.value) ==>
      |r| == |book.value| && forall i :: 0 <= i < |r| ==> r[i] == Sheet(book.value[i].name, book.value[i].frame.value)
    ensures book.None? || !AllRead(book.value) ==> r == []
  {
    if book.None? || !AllRead(book.value) then []
    else seq(|book.value|, i requires 0 <= i < |book.value| => Sheet(book.value[i].name, book.value[i].frame.value))
  }

  /** The summary's `sheets_info` holds rows, columns and column names per
      sheet, and nothing else is recorded but the file name and the sheet
      count. */
  datatype RootSummary = RootSummary(fileName: string, totalSheets: nat, sheetsInfo: seq<SheetInfo>)

  function RootSummaryOf(name: string, sheets: seq<Sheet>): (r: RootSummary)
    ensures r.fileName == name
    ensures r.totalSheets == |sheets| == |r.sheetsInfo|
    ensures forall i :: 0 <= i < |sheets| ==>
      r.sheetsInfo[i] == SheetInfo(sheets[i].name, |sheets[i].frame.rows|, |sheets[i].frame.columns|, sheets[i].frame.columns)
  {
    RootSummary(name, |sheets|, seq(|sheets|, i requires 0 <= i < |sheets| => InfoOf(sheets[i])))
  }

  /** The root summary is the later one without hash and time. */
  lemma RootSummaryIsSummaryWithoutHash(name: string, hash: string, time: string, sheets: seq<Sheet>)
    ensures var s := SummaryOf(name, hash, time, sheets);
      RootSummaryOf(name, sheets) == RootSummary(s.fileName, s.totalSheets, s.sheetsInfo)
  {
  }

  /** The document `convert_single_file` writes. */
  function RootDocument(name: string, inputPath: string, time: string, sheets: seq<Sheet>, m: int,
                        dumps: RootSummary -> string): Result<string>
  {
    match Sections(sheets, m, |sheets|)
    case Err(e) => Err(e)
    case Ok(body) =>
      Ok(Join(HeadLines(name, inputPath, time, "", |sheets|) + body
              + ["## 📊 文件摘要", "```json", dumps(RootSummaryOf(name, sheets)), "```"], "\n"))
  }

  /** `convert_single_file`: false when nothing was read, when paging a
      sheet raises or when writing fails; otherwise the document is written. */
  function RootConvertSpec(m: int, inputPath: string, book: Option<seq<SheetAttempt>>, time: string,
                           dumps: RootSummary -> string, writeOk: bool): Conversion
  {
    var sheets := RootReadSpec(book);
    if sheets == [] then Conversion(false, None)
    else match RootDocument(FileName(inputPath), inputPath, time, sheets, m, dumps)
      case Err(_) => Conversion(false, None)
      case Ok(doc) => if writeOk then Conversion(true, Some(doc)) else Conversion(false, None)
  }

  /** One unreadable sheet fails the whole file; a workbook that reads,
      pages and is written produces a document naming its input first. */
  lemma RootConvertRules(m: int, inputPath: string, book: Option<seq<SheetAttempt>>, time: string,
                         dumps: RootSummary -> string, writeOk: bool)
    ensures book.None? || !AllRead(book.value) || book.value == [] ==>
      RootConvertSpec(m, inputPath, book, time, dumps, writeOk) == Conversion(false, None)
    ensures RootConvertSpec(m, inputPath, book, time, dumps, writeOk).ok <==>
      RootConvertSpec(m, inputPath, book, time, dumps, writeOk).written.Some?
    ensures RootConvertSpec(m, inputPath, book, time, dumps, writeOk).ok ==>
      writeOk && StartsWith(RootConvertSpec(m, inputPath, book, time, dumps, writeOk).written.value,
                            Title(FileName(inputPath)))
  {
    var sheets := RootReadSpec(book);
    var name := FileName(inputPath);
    if sheets != [] && Sections(sheets, m, |sheets|).Ok? {
      var lines := HeadLines(name, inputPath, time, "", |sheets|) + Sections(sheets, m, |sheets|).value
                   + ["## 📊 文件摘要", "```json", dumps(RootSummaryOf(name, sheets)), "```"];
      assert lines[0] == Title(name);
      assert Join(lines, "\n") == lines[0] + "\n" + Join(lines[1..], "\n");
    }
  }

  /** `convert_directory`'s file list: the '.xlsx' entries, then the '.xls'
      ones. */
  function RootExcelFiles(entries: seq<string>): seq<string> {
    Glob(entries, ".xlsx") + Glob(entries, ".xls")
  }

  /** A listed name is converted exactly when it ends in '.xlsx' or '.xls',
      in that case; '.xlsm' and '.xlsb' workbooks are not picked up. */
  lemma RootExcelFilesMembers(entries: seq<string>, name: string)
    ensures name in RootExcelFiles(entries) <==> name in entries && (EndsWith(name, ".xlsx") || EndsWith(name, ".xls"))
    ensures EndsWith(name, ".xlsm") || EndsWith(name, ".xlsb") ==> name !in RootExcelFiles(entries)
  {
    GlobMembers(entries, ".xlsx", name);
    GlobMembers(entries, ".xls", name);
    if EndsWith(name, ".xlsm") || EndsWith(name, ".xlsb") {
      assert name[|name| - 1] != 'x' && name[|name| - 1] != 's';
    }
  }

  class RootExcelToMarkdownConverter {
    const chunkSize: int
    const maxRowsPerPage: int

    constructor (chunkSize: int, maxRowsPerPage: int)
      ensures this.chunkSize == chunkSize && this.maxRowsPerPage == maxRowsPerPage
    {
      this.chunkSize := chunkSize;
      this.maxRowsPerPage := maxRowsPerPage;
    }

    /** `read_excel_file` */
    method ReadExcelFile(book: Option<seq<SheetAttempt>>) returns (sheets: seq<Sheet>)
      ensures sheets == RootReadSpec(book)
    {
      if book.None? {
        return [];
      }
      var attempts := book.value;
      sheets := [];
      for i := 0 to |attempts|
        invariant |sheets| == i && AllRead(attempts[..i])
        invariant forall k :: 0 <= k < i ==> sheets[k] == Sheet(attempts[k].name, attempts[k].frame.value)
      {
        if attempts[i].frame.None? {
          assert !AllRead(attempts);
          return [];
        }
        sheets := sheets + [Sheet(attempts[i].name, attempts[i].frame.value)];
        assert AllRead(attempts[..i + 1]) by {
          var pre := attempts[..i + 1];
          forall k | 0 <= k < i + 1 ensures pre[k].frame.Some? {
            if k < i { assert pre[k] == attempts[..i][k]; }
          }
        }
      }
      assert attempts[..|attempts|] == attempts;
    }

    /** `convert_single_file` */
    method ConvertSingleFile(inputPath: string, book: Option<seq<SheetAttempt>>, time: string,
                             dumps: RootSummary -> string, writeOk: bool) returns (r: Conversion)
      ensures r == RootConvertSpec(maxRowsPerPage, inputPath, book, time, dumps, writeOk)
    {
      var sheets := ReadExcelFile(book);
      if sheets == [] {
        return Conversion(false, None);
      }
      var name := FileName(inputPath);
      var sections := BuildSections(sheets, maxRowsPerPage);
      if sections.Err? {
        return Conversion(false, None);
      }
      var lines := HeadLines(name, inputPath, time, "", |sheets|) + sections.value
        + ["## 📊 文件摘要", "```json", dumps(RootSummaryOf(name, sheets)), "```"];
      if !writeOk {
        return Conversion(false, None);
      }
      r := Conversion(true, Some(Join(lines, "\n")));
    }

    /** `convert_directory`: one result per selected file, in glob order,
        given by the `convert` oracle for that file's path. */
    method ConvertDirectory(inputDir: string, entries: seq<string>, convert: string -> bool)
      returns (results: seq<(string, bool)>)
      ensures var files := RootExcelFiles(entries);
        |results| == |files| &&
        forall i :: 0 <= i < |files| ==> results[i] == (files[i], convert(JoinPath(inputDir, files[i])))
    {
      var files := RootExcelFiles(entries);
      results := [];
      for i := 0 to |files|
        invariant |results| == i
        invariant forall k :: 0 <= k < i ==> results[k] == (files[k], convert(JoinPath(inputDir, files[k])))
      {
        var success := convert(JoinPath(inputDir, files[i]));
        results := results + [(files[i], success)];
      }
    }
  }
}
