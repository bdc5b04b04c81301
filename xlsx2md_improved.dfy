/** The improved `ExcelToMarkdownConverter` of
    `src/excel/xlsx2md_improved.py`: the same engine order as
    `src/excel/xlsx2md.py`, but a sheet that fails to read becomes an empty
    table and a workbook no engine opens raises; its own, simpler table
    writer (pipes escaped, line breaks not); pages headed by their row range;
    per-sheet statistics; and a summary with totals.  The libraries are the
    fields of a `World`. */
module ExcelImproved {
  import opened Wrappers
  import opened PyText
  import opened Ranges
  import opened PdfFiles
  import opened MarkdownTable
  import EC = ExcelConverter
  import R = RootExcelConverter

  // ---------------------------------------------------------------------
  // Tables (`_df_to_markdown_simple`)

  const EmptyTable := "*空表格*"

  /** A cell as `_df_to_markdown_simple` writes it: "" for a missing value,
      otherwise the text with `|` escaped, and nothing else. */
  function SimpleCellText(c: Cell): string {
    if c.None? then "" else EscapePipes(c.value)
  }

  function SimpleDataLine(row: seq<Cell>): string {
    RowLine(seq(|row|, i requires 0 <= i < |row| => SimpleCellText(row[i])))
  }

  /** Header, separator and the first `j` row lines. */
  function SimpleLines(t: Frame, j: nat): seq<string>
    requires j <= |t.rows|
  {
    [RowLine(t.columns), SeparatorLine(|t.columns|)]
    + seq(j, i requires 0 <= i < j => SimpleDataLine(t.rows[i]))
  }

  /** What `_df_to_markdown_simple` returns. */
  function SimpleMarkdown(t: Frame): string {
    if IsEmpty(t) then EmptyTable else Join(SimpleLines(t, |t.rows|), "\n")
  }

  /** Escaping pipes leaves no unescaped `|` and adds no line break. */
  lemma {:induction false} EscapePipesSafe(s: string)
    ensures NoDelims(EscapePipes(s))
    ensures '\n' !in s ==> '\n' !in EscapePipes(s)
  {
    if s != [] {
      EscapePipesSafe(s[1..]);
      var head := if s[0] == '|' then "\\|" else [s[0]];
      assert EscapePipes(s) == head + EscapePipes(s[1..]);
      forall p: char ensures Delims(p, EscapePipes(s)) == 0 {
        DelimsConcat(p, head, EscapePipes(s[1..]));
        if s[0] == '|' {
          assert head[1..] == "|";
        }
      }
    }
  }

  /** A line-free table (header and cells) renders as its header, a
      separator of one `---` per column, and one line of one cell per column
      for each row, in order. */
  lemma SimpleLayout(t: Frame)
    requires !IsEmpty(t)
    requires forall c :: 0 <= c < |t.columns| ==> '\n' !in t.columns[c]
    requires forall i, c :: 0 <= i < |t.rows| && 0 <= c < |t.rows[i]| && t.rows[i][c].Some? ==>
      '\n' !in t.rows[i][c].value
    ensures var ls := Split(SimpleMarkdown(t), '\n');
      && |ls| == |t.rows| + 2
      && ls[0] == RowLine(t.columns)
      && ls[1] == SeparatorLine(|t.columns|) && Delims(' ', ls[1]) == |t.columns| + 1
      && forall i :: 0 <= i < |t.rows| ==>
           ls[2 + i] == SimpleDataLine(t.rows[i]) && Delims(' ', ls[2 + i]) == |t.columns| + 1
  {
    var k := |t.columns|;
    var lines := SimpleLines(t, |t.rows|);
    SeparatorCells(k);
    JoinNoBreak(t.columns);
    forall i | 0 <= i < |t.rows| ensures Delims(' ', SimpleDataLine(t.rows[i])) == k + 1
      && '\n' !in SimpleDataLine(t.rows[i])
    {
      var row := t.rows[i];
      var vs := seq(|row|, c requires 0 <= c < |row| => SimpleCellText(row[c]));
      forall c | 0 <= c < |row| ensures NoDelims(vs[c]) && '\n' !in vs[c] {
        if row[c].Some? { EscapePipesSafe(row[c].value); }
      }
      RowLineCells(vs);
    }
    forall j | 0 <= j < |lines| ensures '\n' !in lines[j] {
      if j >= 2 { assert lines[j] == SimpleDataLine(t.rows[j - 2]); }
    }
    SplitJoin(lines, '\n');
  }

  /** The one-column table whose only cell is "x\ny". */
  function BrokenCellTable(): Frame {
    Table(["a"], [[Some("x\ny")]])
  }

  lemma BrokenCellText()
    ensures SimpleMarkdown(BrokenCellTable()) == "| a |" + ['\n'] + ("| --- |" + ['\n'] + ("| x" + ['\n'] + "y |"))
  {
    var t := BrokenCellTable();
    assert EscapePipes("x\ny") == "x\ny" by {
      assert "x\ny"[1..] == "\ny" && "\ny"[1..] == "y" && "y"[1..] == [];
    }
    assert SimpleDataLine(t.rows[0]) == "| x\ny |";
    assert SeparatorLine(1) == "| --- |";
    assert RowLine(t.columns) == "| a |" by {
      assert Join(["a"], " | ") == "a";
    }
    var ls := SimpleLines(t, 1);
    assert ls == ["| a |", "| --- |", "| x\ny |"];
    assert Join(ls, "\n") == ls[0] + "\n" + (ls[1] + "\n" + Join(ls[2..], "\n")) by {
      assert ls[1..][1..] == ls[2..];
    }
  }

  /** A line break inside a cell is written as it is and breaks the row: the
      one-column table whose cell is "x\ny" comes out as four lines, the
      third of which, "| x", is not a row of one cell. */
  lemma NewlineCellBreaksRow()
    ensures Split(SimpleMarkdown(BrokenCellTable()), '\n') == ["| a |", "| --- |", "| x", "y |"]
    ensures Delims(' ', "| x") == 1
  {
    BrokenCellText();
    var a, b, c, d := "| a |", "| --- |", "| x", "y |";
    SplitNoSeparator(d, '\n');
    var cd := c + ['\n'] + d;
    SplitAfterPiece(c, '\n', d);
    assert Split(cd, '\n') == [c, d];
    var bcd := b + ['\n'] + cd;
    SplitAfterPiece(b, '\n', cd);
    assert Split(bcd, '\n') == [b, c, d];
    SplitAfterPiece(a, '\n', bcd);
    assert Split(a + ['\n'] + bcd, '\n') == [a, b, c, d];
    assert c[1..] == " x" && c[1..][1..] == "x" && c[1..][1..][1..] == [];
  }

  /** The table as intended: cells escaped as `src/excel/xlsx2md.py` does,
      line breaks included. */
  function IntendedMarkdown(t: Frame): string {
    if IsEmpty(t) then EmptyTable
    else Join([RowLine(t.columns), SeparatorLine(|t.columns|)]
              + seq(|t.rows|, i requires 0 <= i < |t.rows| => DataLine(t.rows[i])), "\n")
  }

  /** With cells escaped fully, whatever the cells hold, every row is one
      line of one cell per column. */
  lemma IntendedLayout(t: Frame)
    requires !IsEmpty(t)
    requires forall c :: 0 <= c < |t.columns| ==> '\n' !in t.columns[c]
    ensures var ls := Split(IntendedMarkdown(t), '\n');
      && |ls| == |t.rows| + 2
      && ls[0] == RowLine(t.columns)
      && Delims(' ', ls[1]) == |t.columns| + 1
      && forall i :: 0 <= i < |t.rows| ==>
           ls[2 + i] == DataLine(t.rows[i]) && Delims(' ', ls[2 + i]) == |t.columns| + 1
  {
    var k := |t.columns|;
    var lines := [RowLine(t.columns), SeparatorLine(k)]
      + seq(|t.rows|, i requires 0 <= i < |t.rows| => DataLine(t.rows[i]));
    SeparatorCells(k);
    JoinNoBreak(t.columns);
    forall j | 0 <= j < |lines| ensures '\n' !in lines[j] {
      if j >= 2 { DataLineCells(t.rows[j - 2]); }
    }
    forall i | 0 <= i < |t.rows| ensures Delims(' ', DataLine(t.rows[i])) == k + 1 {
      DataLineCells(t.rows[i]);
    }
    SplitJoin(lines, '\n');
  }

  // ---------------------------------------------------------------------
  // Pages (`_dataframe_to_markdown`)

  /** `f"### 第 {page + 1} 页 ({start_idx + 1}-{end_idx} 行)"` */
  function PageTitle(page: nat, start: nat, end: int): string {
    "### 第 " + Dec(page + 1) + " 页 (" + Dec(start + 1) + "-" + IntDec(end) + " 行)"
  }

  /** The four lines of page `p`. */
  function PageBlock(t: Frame, m: nat, p: nat): seq<string> {
    var s := PageSpan(|t.rows|, m, p);
    [PageTitle(p, s.start, s.end), "", SimpleMarkdown(PageOf(t, m, p)), ""]
  }

  /** The lines of the first `j` pages. */
  function PageBlocks(t: Frame, m: nat, j: nat): (r: seq<string>)
    ensures |r| == 4 * j
  {
    if j == 0 then [] else PageBlocks(t, m, j - 1) + PageBlock(t, m, j - 1)
  }

  /** What `_dataframe_to_markdown` returns, or the error it raises.  A
      negative page size gives `(rows + m - 1) // m` pages: one for a
      single row, titled with the row range `1-m` and showing the empty
      `df.iloc[0:m]`, and none for more rows. */
  function DataframeMarkdownSpec(t: Frame, m: int): Result<string> {
    if IsEmpty(t) then Ok(EmptyTable)
    else if |t.rows| <= m then Ok(SimpleMarkdown(t))
    else if m == 0 then Err(DivisionByZero)
    else if m < 0 then
      if |t.rows| == 1 then Ok(Join([PageTitle(0, 0, m), "", EmptyTable, ""], "\n")) else Ok("")
    else Ok(Join(PageBlocks(t, m, CeilDiv(|t.rows|, m)), "\n"))
  }

  /** A negative page size renders a table of two or more rows as
      nothing, and a one-row table as one page titled `1-m` that shows the
      empty-table marker. */
  lemma NegativePageSize(t: Frame, m: int)
    requires !IsEmpty(t) && m < 0
    ensures |t.rows| >= 2 ==> DataframeMarkdownSpec(t, m) == Ok("")
    ensures |t.rows| == 1 ==>
      DataframeMarkdownSpec(t, m) == Ok("### 第 1 页 (1--" + Dec(-m) + " 行)" + "\n" + "\n" + EmptyTable + "\n")
  {
    if |t.rows| == 1 {
      var ps := [PageTitle(0, 0, m), "", EmptyTable, ""];
      assert ps[1..] == ["", EmptyTable, ""] && ps[1..][1..] == [EmptyTable, ""] && ps[1..][1..][1..] == [""];
      assert Join(ps[1..][1..], "\n") == EmptyTable + "\n";
      assert Join(ps[1..], "\n") == "\n" + EmptyTable + "\n";
      assert Join(ps, "\n") == PageTitle(0, 0, m) + "\n" + "\n" + EmptyTable + "\n";
      assert Dec(0 + 1) == "1" && IntDec(m) == "-" + Dec(-m);
      assert PageTitle(0, 0, m) == "### 第 1 页 (1--" + Dec(-m) + " 行)";
      assert DataframeMarkdownSpec(t, m) == Ok(Join(ps, "\n"));
    }
  }

  /** A non-empty table starts with its header line, never with the
      empty-table marker. */
  lemma SimpleMarkdownNotEmpty(t: Frame)
    requires !IsEmpty(t)
    ensures SimpleMarkdown(t) != EmptyTable
  {
    var ls := SimpleLines(t, |t.rows|);
    assert SimpleMarkdown(t) == ls[0] + "\n" + Join(ls[1..], "\n");
    assert SimpleMarkdown(t)[0] == '|';
  }

  /** Page `p` of the first `ceil(rows / m)` is titled with its 1-based
      number and rows `p * m + 1` to `min((p + 1) * m, rows)`. */
  lemma PageTitleAt(t: Frame, m: nat, p: nat)
    requires m >= 1 && p < CeilDiv(|t.rows|, m)
    ensures PageBlock(t, m, p)[0] == PageTitle(p, p * m, Min(p * m + m, |t.rows|))
  {
    PageStart(|t.rows|, m, p + 1);
    assert p + 1 - 1 == p;
  }

  /** A table longer than `m >= 1` rows is split into `ceil(rows / m)`
      pages; page `p` is titled with its 1-based number and its row range,
      holds between one and `m` rows, shows a table rather than the
      empty-table marker, and the pages together hold every row once, in
      order. */
  lemma PagedTitles(t: Frame, m: nat)
    requires !IsEmpty(t) && |t.rows| > m >= 1
    ensures var q := CeilDiv(|t.rows|, m);
      && q >= 2
      && DataframeMarkdownSpec(t, m) == Ok(Join(PageBlocks(t, m, q), "\n"))
      && PagedRows(t.rows, m, q) == t.rows
      && forall p :: 0 <= p < q ==>
           && PageBlock(t, m, p)[0] == PageTitle(p, p * m, Min(p * m + m, |t.rows|))
           && 1 <= |PageOf(t, m, p).rows| <= m
           && PageBlock(t, m, p)[2] != EmptyTable
  {
    var q := CeilDiv(|t.rows|, m);
    AllPagesCover(t, m);
    forall p | 0 <= p < q
      ensures PageBlock(t, m, p)[0] == PageTitle(p, p * m, Min(p * m + m, |t.rows|))
      ensures PageBlock(t, m, p)[2] != EmptyTable
    {
      PageTitleAt(t, m, p);
      SimpleMarkdownNotEmpty(PageOf(t, m, p));
    }
  }

  // ---------------------------------------------------------------------
  // Sheets and document (`_generate_markdown`, `_create_summary`)

  /** `"**列名**: " + ", ".join(f"`{col}`" for col in df.columns)` */
  function ColumnList(columns: seq<string>): string {
    "**列名**: " + Join(seq(|columns|, i requires 0 <= i < |columns| => "`" + columns[i] + "`"), ", ")
  }

  /** The section of one sheet, given its rendered table. */
  function SheetLines(s: EC.Sheet, table: string): seq<string> {
    ["## 📄 " + s.name, "", "*行数*: " + Thousands(|s.frame.rows|) + " | *列数*: " + Thousands(|s.frame.columns|), ""]
    + (if |s.frame.columns| <= 20 then [ColumnList(s.frame.columns), ""] else [])
    + (if !IsEmpty(s.frame) then [table] else [])
    + [""]
  }

  /** The statistics line always follows the heading; the column list is
      there exactly for at most 20 columns and the table exactly for a
      non-empty sheet. */
  lemma SheetLinesRules(s: EC.Sheet, table: string)
    ensures var ls := SheetLines(s, table);
      && |ls| == 5 + (if |s.frame.columns| <= 20 then 2 else 0) + (if !IsEmpty(s.frame) then 1 else 0)
      && ls[0] == "## 📄 " + s.name
      && (|s.frame.columns| <= 20 ==> ls[4] == ColumnList(s.frame.columns))
      && (!IsEmpty(s.frame) ==> ls[|ls| - 2] == table)
      && ls[|ls| - 1] == ""
  {
  }

  /** The section of one sheet, or the error paging it raised. */
  function SheetBlock(s: EC.Sheet, m: int): Result<seq<string>> {
    if IsEmpty(s.frame) then Ok(SheetLines(s, ""))
    else match DataframeMarkdownSpec(s.frame, m)
      case Err(e) => Err(e)
      case Ok(table) => Ok(SheetLines(s, table))
  }

  /** The section of each sheet, as a function of the sheet. */
  function BlockOf(m: int): EC.Sheet -> Result<seq<string>> {
    s => SheetBlock(s, m)
  }

  /** The sections of the first `j` sheets, each made by `block`; the
      first sheet that fails ends them. */
  function SheetBlocksWith(sheets: seq<EC.Sheet>, block: EC.Sheet -> Result<seq<string>>, j: nat): Result<seq<string>>
    requires j <= |sheets|
  {
    if j == 0 then Ok([])
    else match SheetBlocksWith(sheets, block, j - 1)
      case Err(e) => Err(e)
      case Ok(prev) =>
        match block(sheets[j - 1])
        case Err(e) => Err(e)
        case Ok(b) => Ok(prev + b)
  }

  /** The sections of the first `j` sheets. */
  function SheetBlocks(sheets: seq<EC.Sheet>, m: int, j: nat): Result<seq<string>>
    requires j <= |sheets|
  {
    SheetBlocksWith(sheets, BlockOf(m), j)
  }

  lemma {:induction false} SheetBlocksErr(sheets: seq<EC.Sheet>, block: EC.Sheet -> Result<seq<string>>, j: nat, k: nat)
    requires j <= k <= |sheets| && SheetBlocksWith(sheets, block, j).Err?
    ensures SheetBlocksWith(sheets, block, k) == SheetBlocksWith(sheets, block, j)
    decreases k - j
  {
    if j < k {
      SheetBlocksErr(sheets, block, j + 1, k);
    }
  }

  /** `sum(len(df) for df in sheets.values())` */
  function TotalRows(sheets: seq<EC.Sheet>): nat {
    if sheets == [] then 0 else TotalRows(sheets[..|sheets| - 1]) + |sheets[|sheets| - 1].frame.rows|
  }

  /** `sum(len(df.columns) for df in sheets.values())` */
  function TotalColumns(sheets: seq<EC.Sheet>): nat {
    if sheets == [] then 0 else TotalColumns(sheets[..|sheets| - 1]) + |sheets[|sheets| - 1].frame.columns|
  }

  /** One more sheet whose section is made extends the sections. */
  lemma SheetBlocksStep(sheets: seq<EC.Sheet>, block: EC.Sheet -> Result<seq<string>>, j: nat, body: seq<string>, b: seq<string>)
    requires j < |sheets| && SheetBlocksWith(sheets, block, j) == Ok(body) && block(sheets[j]) == Ok(b)
    ensures SheetBlocksWith(sheets, block, j + 1) == Ok(body + b)
  {
  }

  /** A sheet whose section fails ends all the sections with its error. */
  lemma SheetBlocksFail(sheets: seq<EC.Sheet>, block: EC.Sheet -> Result<seq<string>>, j: nat, body: seq<string>)
    requires j < |sheets| && SheetBlocksWith(sheets, block, j) == Ok(body) && block(sheets[j]).Err?
    ensures SheetBlocksWith(sheets, block, |sheets|) == Err(block(sheets[j]).error)
  {
    SheetBlocksErr(sheets, block, j + 1, |sheets|);
  }

  /** The totals add up over any split of the sheets. */
  lemma {:induction false} TotalsConcat(a: seq<EC.Sheet>, b: seq<EC.Sheet>)
    ensures TotalRows(a + b) == TotalRows(a) + TotalRows(b)
    ensures TotalColumns(a + b) == TotalColumns(a) + TotalColumns(b)
    decreases |b|
  {
    if b == [] {
      assert a + b == a;
    } else {
      TotalsConcat(a, b[..|b| - 1]);
      assert (a + b)[..|a + b| - 1] == a + b[..|b| - 1];
    }
  }

  /** Every sheet's rows and columns are within the totals, and the totals
      are zero exactly when every sheet is. */
  lemma {:induction false} TotalsBound(sheets: seq<EC.Sheet>, i: nat)
    requires i < |sheets|
    ensures |sheets[i].frame.rows| <= TotalRows(sheets)
    ensures |sheets[i].frame.columns| <= TotalColumns(sheets)
    decreases |sheets|
  {
    if i < |sheets| - 1 {
      var init := sheets[..|sheets| - 1];
      TotalsBound(init, i);
      assert init[i] == sheets[i];
    }
  }

  /** The JSON summary `_create_summary` builds. */
  datatype ImprovedSummary = ImprovedSummary(fileName: string, filePath: string, fileHash: string,
                                             conversionTime: string, totalSheets: nat, totalRows: nat,
                                             totalColumns: nat, sheetsInfo: seq<EC.SheetInfo>)

  function CreateSummary(name: string, path: string, hash: string, time: string, sheets: seq<EC.Sheet>)
    : (r: ImprovedSummary)
    ensures r.fileName == name && r.totalSheets == |sheets| == |r.sheetsInfo|
    ensures r.totalRows == TotalRows(sheets) && r.totalColumns == TotalColumns(sheets)
    ensures forall i :: 0 <= i < |sheets| ==> r.sheetsInfo[i] == EC.InfoOf(sheets[i])
  {
    ImprovedSummary(name, path, hash, time, |sheets|, TotalRows(sheets), TotalColumns(sheets),
                    seq(|sheets|, i requires 0 <= i < |sheets| => EC.InfoOf(sheets[i])))
  }

  /** The lines before the first sheet. */
  function HeaderLines(stem: string, name: string, time: string, hash: string, sheets: seq<EC.Sheet>): seq<string> {
    ["# Excel转Markdown - " + stem, "", "**源文件**: `" + name + "`", "**转换时间**: " + time,
     "**文件哈希**: " + hash, "",
     "**总sheet页**: " + Dec(|sheets|), "**总行数**: " + Thousands(TotalRows(sheets)),
     "**总列数**: " + Thousands(TotalColumns(sheets)), ""]
  }

  /** `safe_json_dumps` of a summary, and for a text the `file_name`
      string of what `safe_json_loads` makes of it (`None` when it has none
      or looking it up raises). */
  datatype SummaryJson = SummaryJson(dumps: ImprovedSummary -> string, fileNameOf: string -> Option<string>)

  /** What the JSON library guarantees: `json.dumps` of a dict is text in
      braces, and loading that text gives the dict back, so its
      `file_name` is the summary's. */
  ghost predicate RoundTrips(j: SummaryJson) {
    forall v :: BracedNaming(j, v)
  }

  predicate BracedNaming(j: SummaryJson, v: ImprovedSummary) {
    var t := j.dumps(v);
    |t| >= 2 && t[0] == '{' && t[|t| - 1] == '}' && j.fileNameOf(t) == Some(v.fileName)
  }

  /** A JSON library: `loads(dumps(v))` names the file `v` names. */
  type JsonLibrary = j: SummaryJson | RoundTrips(j)
    witness SummaryJson((v: ImprovedSummary) => "{" + v.fileName + "}", (t: string) => if |t| >= 2 then Some(t[1..|t| - 1]) else None)

  /** The libraries and the file system as `convert_single_file` sees
      them: whether the input and output exist, the output's text (`None`
      when reading it raises), the workbook per engine, the file hash, the
      two clock readings, the JSON library, and whether writing
      succeeds. */
  datatype World = World(inputExists: bool, outputExists: bool, outputContent: Option<string>,
                         open: string -> Option<seq<R.SheetAttempt>>, hash: string,
                         time: string, summaryTime: string, json: JsonLibrary, writeOk: bool)

  /** The lines of the document before the summary's JSON block. */
  function LinesBeforeSummary(inputPath: string, w: World, sheets: seq<EC.Sheet>, body: seq<string>): seq<string> {
    var name := FileName(inputPath);
    HeaderLines(Stem(name), name, w.time, w.hash, sheets) + body + ["---", "### 文件摘要"]
  }

  /** The summary's JSON text. */
  function SummaryText(inputPath: string, w: World, sheets: seq<EC.Sheet>): string {
    w.json.dumps(CreateSummary(FileName(inputPath), inputPath, w.hash, w.summaryTime, sheets))
  }

  /** What `_generate_markdown` returns, or the error paging raised. */
  function GenerateSpec(inputPath: string, w: World, sheets: seq<EC.Sheet>, m: int): Result<string> {
    match SheetBlocks(sheets, m, |sheets|)
    case Err(e) => Err(e)
    case Ok(body) =>
      Ok(Join(LinesBeforeSummary(inputPath, w, sheets, body) + ["```json", SummaryText(inputPath, w, sheets), "```"],
              "\n"))
  }

  /** No "```json" comes before the summary block and no "```" inside its
      JSON; this fails only when a file name, sheet name, column or cell
      holds backticks. */
  predicate FenceFree(inputPath: string, w: World, sheets: seq<EC.Sheet>, m: int) {
    SheetBlocks(sheets, m, |sheets|).Ok? ==>
      && EC.NoOpenFence(Join(LinesBeforeSummary(inputPath, w, sheets, SheetBlocks(sheets, m, |sheets|).value), "\n"))
      && EC.NoFence(SummaryText(inputPath, w, sheets))
  }

  /** A generated document has exactly one "```json" fence, the summary's;
      the summary regex gives back the summary's JSON, and loading it
      names the input file. */
  lemma GeneratedSummaryBlock(inputPath: string, w: World, sheets: seq<EC.Sheet>, m: int)
    requires GenerateSpec(inputPath, w, sheets, m).Ok? && FenceFree(inputPath, w, sheets, m)
    ensures var doc := GenerateSpec(inputPath, w, sheets, m).value;
      var before := Join(LinesBeforeSummary(inputPath, w, sheets, SheetBlocks(sheets, m, |sheets|).value), "\n");
      && (forall i: nat :: EC.OpenFenceAt(doc, i) <==> i == |before| + 1)
      && EC.JsonFenceBlock(doc) == Some(SummaryText(inputPath, w, sheets))
      && EC.SummaryName(w.json.fileNameOf, doc) == Some(FileName(inputPath))
  {
    var lines := LinesBeforeSummary(inputPath, w, sheets, SheetBlocks(sheets, m, |sheets|).value);
    var d := SummaryText(inputPath, w, sheets);
    var v := CreateSummary(FileName(inputPath), inputPath, w.hash, w.summaryTime, sheets);
    assert BracedNaming(w.json, v);
    assert SheetBlocks(sheets, m, |sheets|).Ok?;
    assert EC.NoOpenFence(Join(lines, "\n")) && EC.NoFence(d);
    assert d != [] && d[0] == '{' && d[|d| - 1] == '}';
    assert !IsSpace('{') && !IsSpace('}');
    JoinConcat(lines, ["```json", d, "```"], "\n");
    assert Join(["```json", d, "```"], "\n") == "```json" + "\n" + (d + "\n" + "```") by {
      var tail := ["```json", d, "```"];
      assert tail[1..] == [d, "```"] && tail[1..][1..] == ["```"];
      assert Join(tail[1..], "\n") == d + "\n" + "```";
      assert Join(tail, "\n") == "```json" + "\n" + Join(tail[1..], "\n");
    }
    EC.FencedBlock(Join(lines, "\n"), d);
  }

  // ---------------------------------------------------------------------
  // Reading (`read_excel_file`)

  /** A sheet that fails to read is an empty table. */
  function SheetsOrEmpty(book: seq<R.SheetAttempt>): (r: seq<EC.Sheet>)
    ensures |r| == |book|
    ensures forall i :: 0 <= i < |book| ==>
      r[i] == EC.Sheet(book[i].name, if book[i].frame.Some? then book[i].frame.value else Table([], []))
  {
    seq(|book|, i requires 0 <= i < |book| =>
      EC.Sheet(book[i].name, if book[i].frame.Some? then book[i].frame.value else Table([], [])))
  }

  /** The `ValueError` raised when no engine opens the workbook. */
  function ReadError(name: string): string { "无法读取Excel文件: " + name }

  function ImprovedReadSpec(name: string, engines: seq<string>, open: string -> Option<seq<R.SheetAttempt>>)
    : Result<seq<EC.Sheet>>
  {
    if engines == [] then Err(ReadError(name))
    else if open(engines[0]).Some? then Ok(SheetsOrEmpty(open(engines[0]).value))
    else ImprovedReadSpec(name, engines[1..], open)
  }

  /** Reading raises exactly when neither engine opens the workbook, and
      otherwise gives every sheet of the first that does. */
  lemma ImprovedReadRules(path: string, open: string -> Option<seq<R.SheetAttempt>>)
    ensures var es := EC.EnginesToTry(path);
      var r := ImprovedReadSpec(FileName(path), es, open);
      && (r.Err? <==> open(es[0]).None? && open(es[1]).None?)
      && (r.Err? ==> r.error == ReadError(FileName(path)))
      && (open(es[0]).Some? ==> r == Ok(SheetsOrEmpty(open(es[0]).value)))
      && (open(es[0]).None? && open(es[1]).Some? ==> r == Ok(SheetsOrEmpty(open(es[1]).value)))
  {
    var es := EC.EnginesToTry(path);
    assert es[1..][1..] == [];
    assert ImprovedReadSpec(FileName(path), es[1..], open)
        == if open(es[1]).Some? then Ok(SheetsOrEmpty(open(es[1]).value))
           else ImprovedReadSpec(FileName(path), [], open);
  }

  // ---------------------------------------------------------------------
  // The idempotence check (`should_skip_conversion`)

  /** Neither definition of `safe_write_file` the module can import (the
      one in `src/utils/file_utils.py` and the fallback) is a decorated
      function, so it has no `__wrapped__` attribute. */
  const SafeWriteFileHasWrapped := false

  /** The check given whether the attribute lookup succeeds: the output's
      summary block names the input file.  A failed lookup or read raises,
      which the check catches and answers false. */
  function SkipCheck(outputExists: bool, wrappedPresent: bool, content: Option<string>,
                     fileNameOf: string -> Option<string>, name: string): bool
  {
    outputExists && wrappedPresent && content.Some? && EC.SummaryName(fileNameOf, content.value) == Some(name)
  }

  /** `should_skip_conversion` as written. */
  function ShouldSkipConversion(outputExists: bool, content: Option<string>, fileNameOf: string -> Option<string>,
                                name: string): bool
  {
    SkipCheck(outputExists, SafeWriteFileHasWrapped, content, fileNameOf, name)
  }

  /** `convert_single_file`; `wrappedPresent` selects the check as written
      (`SafeWriteFileHasWrapped`) or as intended (`true`). */
  function ImprovedConvertSpec(m: int, inputPath: string, force: bool, w: World, wrappedPresent: bool): EC.Conversion {
    var name := FileName(inputPath);
    if !w.inputExists then EC.Conversion(false, None)
    else if !force && SkipCheck(w.outputExists, wrappedPresent, w.outputContent, w.json.fileNameOf, name) then
      EC.Conversion(true, None)
    else match ImprovedReadSpec(name, EC.EnginesToTry(inputPath), w.open)
      case Err(_) => EC.Conversion(false, None)
      case Ok(sheets) =>
        if sheets == [] then EC.Conversion(false, None)
        else match GenerateSpec(inputPath, w, sheets, m)
          case Err(_) => EC.Conversion(false, None)
          case Ok(doc) => if w.writeOk then EC.Conversion(true, Some(doc)) else EC.Conversion(false, None)
  }

  /** As written the check never fires, so `force` makes no difference and
      an existing conversion is always redone. */
  lemma ForceIsIgnored(m: int, inputPath: string, w: World)
    ensures forall outputExists, content, fileNameOf, name ::
      !ShouldSkipConversion(outputExists, content, fileNameOf, name)
    ensures ImprovedConvertSpec(m, inputPath, false, w, SafeWriteFileHasWrapped)
         == ImprovedConvertSpec(m, inputPath, true, w, SafeWriteFileHasWrapped)
  {
  }

  /** The check as intended: a missing output is never skipped, and an
      existing one exactly when its summary names the input. */
  function SkipIntended(outputExists: bool, content: Option<string>, fileNameOf: string -> Option<string>,
                        name: string): (r: bool)
    ensures r <==> outputExists && content.Some? && EC.SummaryName(fileNameOf, content.value) == Some(name)
  {
    SkipCheck(outputExists, true, content, fileNameOf, name)
  }

  /** With the intended check, converting again over a document this
      converter wrote is skipped unless forced, provided the workbook's
      names and cells hold no backtick fences and the same JSON library
      reads the summary back. */
  lemma IntendedSkipsOwnOutput(m: int, inputPath: string, w: World, w2: World)
    requires ImprovedConvertSpec(m, inputPath, true, w, true).written.Some?
    requires FenceFree(inputPath, w, ImprovedReadSpec(FileName(inputPath), EC.EnginesToTry(inputPath), w.open).value, m)
    requires w2.inputExists && w2.outputExists && w2.json == w.json
    requires w2.outputContent == ImprovedConvertSpec(m, inputPath, true, w, true).written
    ensures SkipIntended(w2.outputExists, w2.outputContent, w2.json.fileNameOf, FileName(inputPath))
    ensures ImprovedConvertSpec(m, inputPath, false, w2, true) == EC.Conversion(true, None)
  {
    var sheets := ImprovedReadSpec(FileName(inputPath), EC.EnginesToTry(inputPath), w.open).value;
    GeneratedSummaryBlock(inputPath, w, sheets, m);
  }

  /** A missing input, a workbook no engine opens, one without sheets, a
      paging error and a failed write all answer false; a true answer
      always comes with the written document except when skipping. */
  lemma ImprovedConvertRules(m: int, inputPath: string, force: bool, w: World, wrappedPresent: bool)
    ensures var name := FileName(inputPath);
      var r := ImprovedConvertSpec(m, inputPath, force, w, wrappedPresent);
      && (!w.inputExists ==> r == EC.Conversion(false, None))
      && (w.inputExists && (force || !SkipCheck(w.outputExists, wrappedPresent, w.outputContent, w.json.fileNameOf, name))
          ==> (r.ok <==> r.written.Some?))
      && (ImprovedReadSpec(name, EC.EnginesToTry(inputPath), w.open).Err? && (force || !wrappedPresent) ==> !r.ok)
      && (!w.writeOk && (force || !wrappedPresent) ==> !r.ok)
  {
  }

  /** The fallback `ProgressTracker`, used when the utilities cannot be
      imported. */
  class ProgressTracker {
    var total: int
    var description: string
    var current: int

    constructor (total: int, description: string)
      ensures this.total == total && this.description == description && current == 0
    {
      this.total := total;
      this.description := description;
      current := 0;
    }

    method Update(increment: int)
      modifies this
      ensures current == old(current) + increment
      ensures total == old(total) && description == old(description)
    {
      current := current + increment;
    }
  }

  class ExcelToMarkdownConverter {
    const chunkSize: int
    const maxRowsPerPage: int

    constructor (chunkSize: int, maxRowsPerPage: int)
      ensures this.chunkSize == chunkSize && this.maxRowsPerPage == maxRowsPerPage
    {
      this.chunkSize := chunkSize;
      this.maxRowsPerPage := maxRowsPerPage;
    }

    /** `read_excel_file` */
    method ReadExcelFile(path: string, open: string -> Option<seq<R.SheetAttempt>>) returns (r: Result<seq<EC.Sheet>>)
      ensures r == ImprovedReadSpec(FileName(path), EC.EnginesToTry(path), open)
    {
      var engines := EC.EnginesToTry(path);
      var name := FileName(path);
      var i := 0;
      while i < |engines|
        invariant 0 <= i <= |engines|
        invariant ImprovedReadSpec(name, engines[i..], open) == ImprovedReadSpec(name, engines, open)
      {
        var book := open(engines[i]);
        if book.Some? {
          var sheets := ReadSheets(book.value);
          return Ok(sheets);
        }
        assert engines[i..][1..] == engines[i + 1..];
        i := i + 1;
      }
      r := Err(ReadError(name));
    }

    /** The sheet loop of `read_excel_file`. */
    method ReadSheets(book: seq<R.SheetAttempt>) returns (sheets: seq<EC.Sheet>)
      ensures sheets == SheetsOrEmpty(book)
    {
      sheets := [];
      for j := 0 to |book|
        invariant |sheets| == j
        invariant forall k :: 0 <= k < j ==> sheets[k] == SheetsOrEmpty(book)[k]
      {
        var frame: Frame := if book[j].frame.Some? then book[j].frame.value else Table([], []);
        sheets := sheets + [EC.Sheet(book[j].name, frame)];
      }
    }

    /** `_df_to_markdown_simple` */
    method DfToMarkdownSimple(t: Frame) returns (r: string)
      ensures r == SimpleMarkdown(t)
    {
      if IsEmpty(t) {
        return EmptyTable;
      }
      var lines := [RowLine(t.columns), SeparatorLine(|t.columns|)];
      for i := 0 to |t.rows|
        invariant lines == SimpleLines(t, i)
      {
        var rowLine := SimpleDataLine(t.rows[i]);
        lines := lines + [rowLine];
      }
      r := Join(lines, "\n");
    }

    /** `_dataframe_to_markdown` */
    method DataframeToMarkdown(t: Frame) returns (r: Result<string>)
      ensures r == DataframeMarkdownSpec(t, maxRowsPerPage)
    {
      var m := maxRowsPerPage;
      if IsEmpty(t) {
        return Ok(EmptyTable);
      }
      var totalRows := |t.rows|;
      if totalRows <= m {
        var simple := DfToMarkdownSimple(t);
        return Ok(simple);
      }
      if m == 0 {
        return Err(DivisionByZero);
      }
      var numPages := FloorDiv(totalRows + m - 1, m);
      if m < 0 {
        NegativeSizeCount(totalRows, m);
        if numPages <= 0 {
          return Ok(Join([], "\n"));
        }
        var endIdx := Min(m, totalRows);
        var table := DfToMarkdownSimple(ILoc(t, 0, endIdx));
        return Ok(Join([PageTitle(0, 0, endIdx), "", table, ""], "\n"));
      }
      FloorDivCeil(totalRows, m);
      var result: seq<string> := [];
      for page := 0 to numPages
        invariant result == PageBlocks(t, m, page)
      {
        var s := PageSpan(totalRows, m, page);
        var table := DfToMarkdownSimple(PageOf(t, m, page));
        result := result + [PageTitle(page, s.start, s.end), "", table, ""];
      }
      r := Ok(Join(result, "\n"));
    }

    /** The sheet loop of `_generate_markdown`, which also advances a
        progress tracker once per sheet. */
    method SheetSections(sheets: seq<EC.Sheet>) returns (r: Result<seq<string>>)
      ensures r == SheetBlocks(sheets, maxRowsPerPage, |sheets|)
    {
      var progress := new ProgressTracker(|sheets|, "处理sheet页");
      var body: seq<string> := [];
      ghost var block := BlockOf(maxRowsPerPage);
      for j := 0 to |sheets|
        invariant SheetBlocksWith(sheets, block, j) == Ok(body)
        invariant progress.current == j
      {
        var section := SheetSection(sheets[j], block);
        if section.Err? {
          SheetBlocksFail(sheets, block, j, body);
          return Err(section.error);
        }
        SheetBlocksStep(sheets, block, j, body, section.value);
        body := body + section.value;
        progress.Update(1);
      }
      r := Ok(body);
    }

    /** The lines `_generate_markdown` adds for one sheet. */
    method SheetSection(s: EC.Sheet, ghost block: EC.Sheet -> Result<seq<string>>) returns (r: Result<seq<string>>)
      requires block == BlockOf(maxRowsPerPage)
      ensures r == block(s)
    {
      var table := "";
      if !IsEmpty(s.frame) {
        var rendered := DataframeToMarkdown(s.frame);
        if rendered.Err? {
          return Err(rendered.error);
        }
        table := rendered.value;
      }
      r := Ok(SheetLines(s, table));
    }

    /** `_generate_markdown` */
    method GenerateMarkdown(inputPath: string, w: World, sheets: seq<EC.Sheet>) returns (r: Result<string>)
      ensures r == GenerateSpec(inputPath, w, sheets, maxRowsPerPage)
    {
      var name := FileName(inputPath);
      var sections := SheetSections(sheets);
      if sections.Err? {
        return Err(sections.error);
      }
      var summary := CreateSummary(name, inputPath, w.hash, w.summaryTime, sheets);
      var lines := HeaderLines(Stem(name), name, w.time, w.hash, sheets) + sections.value
        + ["---", "### 文件摘要"] + ["```json", w.json.dumps(summary), "```"];
      r := Ok(Join(lines, "\n"));
    }

    /** `convert_single_file` as written. */
    method ConvertSingleFile(inputPath: string, force: bool, w: World) returns (r: EC.Conversion)
      ensures r == ImprovedConvertSpec(maxRowsPerPage, inputPath, force, w, SafeWriteFileHasWrapped)
    {
      var name := FileName(inputPath);
      if !w.inputExists {
        return EC.Conversion(false, None);
      }
      if !force && ShouldSkipConversion(w.outputExists, w.outputContent, w.json.fileNameOf, name) {
        return EC.Conversion(true, None);
      }
      var sheets := ReadExcelFile(inputPath, w.open);
      if sheets.Err? || sheets.value == [] {
        return EC.Conversion(false, None);
      }
      var doc := GenerateMarkdown(inputPath, w, sheets.value);
      if doc.Err? || !w.writeOk {
        return EC.Conversion(false, None);
      }
      r := EC.Conversion(true, Some(doc.value));
    }
  }
}
