/** The pipe tables the Excel converters write (the layout of the GitHub
    Flavored Markdown tables extension): a header line, a separator line of
    `---` cells and one line per data row, every line of the form
    `| c1 | c2 | ... | ck |`.  A sheet is a rectangular table of cells read
    as text; a cell the reader left empty (`None`/`NaN`) is `None`. */
module MarkdownTable {
  import opened Wrappers
  import opened PyText
  import opened Ranges

  type Cell = Option<string>

  datatype Table = Table(columns: seq<string>, rows: seq<seq<Cell>>)

  /** Every row has one cell per column, as in a DataFrame. */
  predicate Rectangular(t: Table) {
    forall i :: 0 <= i < |t.rows| ==> |t.rows[i]| == |t.columns|
  }

  type Frame = t: Table | Rectangular(t) witness Table([], [])

  /** `df.empty`: no rows or no columns. */
  predicate IsEmpty(t: Table) { |t.rows| == 0 || |t.columns| == 0 }

  // ---------------------------------------------------------------------
  // Cell escaping

  /** `s.replace(c, r)` for a single character `c`. */
  function ReplaceChar(s: string, c: char, r: string): string {
    if s == [] then [] else (if s[0] == c then r else [s[0]]) + ReplaceChar(s[1..], c, r)
  }

  lemma {:induction false} ReplaceCharConcat(a: string, b: string, c: char, r: string)
    ensures ReplaceChar(a + b, c, r) == ReplaceChar(a, c, r) + ReplaceChar(b, c, r)
  {
    if a != [] {
      assert (a + b)[1..] == a[1..] + b;
      ReplaceCharConcat(a[1..], b, c, r);
    } else {
      assert a + b == b;
    }
  }

  /** `str(value).replace("|", "\\|").replace("\n", "<br>")` */
  function EscapeCell(s: string): string {
    ReplaceChar(ReplaceChar(s, '|', "\\|"), '\n', "<br>")
  }

  /** `str(value).replace("|", "\\|")` alone. */
  function EscapePipes(s: string): string {
    ReplaceChar(s, '|', "\\|")
  }

  /** The number of `|` in `s` that are not escaped by a preceding
      backslash, `prev` being the character before `s`: the cell delimiters
      of a table line. */
  function Delims(prev: char, s: string): nat
    decreases |s|
  {
    if s == [] then 0
    else (if s[0] == '|' && prev != '\\' then 1 else 0) + Delims(s[0], s[1..])
  }

  function LastOr(prev: char, s: string): char {
    if s == [] then prev else s[|s| - 1]
  }

  lemma {:induction false} DelimsConcat(prev: char, a: string, b: string)
    ensures Delims(prev, a + b) == Delims(prev, a) + Delims(LastOr(prev, a), b)
    decreases |a|
  {
    if a != [] {
      assert (a + b)[1..] == a[1..] + b;
      DelimsConcat(a[0], a[1..], b);
      assert LastOr(a[0], a[1..]) == LastOr(prev, a);
    } else {
      assert a + b == b;
    }
  }

  /** `s` holds no cell delimiter wherever it stands. */
  predicate NoDelims(s: string) {
    forall p: char :: Delims(p, s) == 0
  }

  /** An escaped cell holds no line break and no unescaped `|`, so it stays
      one cell of one line. */
  lemma {:induction false} EscapeCellSafe(s: string)
    ensures '\n' !in EscapeCell(s) && NoDelims(EscapeCell(s))
  {
    if s != [] {
      EscapeCellSafe(s[1..]);
      var head := if s[0] == '|' then "\\|" else [s[0]];
      assert ReplaceChar(s, '|', "\\|") == head + ReplaceChar(s[1..], '|', "\\|");
      ReplaceCharConcat(head, ReplaceChar(s[1..], '|', "\\|"), '\n', "<br>");
      var e := ReplaceChar(head, '\n', "<br>");
      assert EscapeCell(s) == e + EscapeCell(s[1..]);
      assert e == (if s[0] == '|' then "\\|" else if s[0] == '\n' then "<br>" else [s[0]]) by {
        if s[0] == '|' {
          assert head[1..] == "|";
          assert ReplaceChar(head[1..], '\n', "<br>") == "|";
        }
      }
      forall p: char ensures Delims(p, EscapeCell(s)) == 0 {
        DelimsConcat(p, e, EscapeCell(s[1..]));
        if s[0] == '|' {
          assert e[1..] == "|";
        } else if s[0] == '\n' {
          assert e[1..] == "br>" && e[1..][1..] == "r>" && e[1..][1..][1..] == ">";
        }
      }
    }
  }

  /** Only pipes are escaped, so a line break survives in the cell. */
  lemma EscapePipesKeepsBreaks()
    ensures EscapePipes("a\nb") == "a\nb"
  {
    assert "a\nb"[1..] == "\nb" && "\nb"[1..] == "b" && "b"[1..] == [];
  }

  /** What a row shows for a cell: "" when empty, else the escaped text. */
  function CellText(c: Cell): (r: string)
    ensures '\n' !in r && NoDelims(r)
  {
    if c.None? then "" else (EscapeCellSafe(c.value); EscapeCell(c.value))
  }

  // ---------------------------------------------------------------------
  // Lines

  /** `"| " + " | ".join(values) + " |"` */
  function RowLine(values: seq<string>): string {
    "| " + Join(values, " | ") + " |"
  }

  /** The separator line: one `---` per column. */
  function SeparatorLine(k: nat): string {
    RowLine(seq(k, _ => "---"))
  }

  /** The line of one data row. */
  function DataLine(row: seq<Cell>): string {
    RowLine(seq(|row|, i requires 0 <= i < |row| => CellText(row[i])))
  }

  lemma {:induction false} JoinDelims(p: char, values: seq<string>)
    requires |values| >= 1
    requires forall i :: 0 <= i < |values| ==> NoDelims(values[i])
    ensures Delims(p, Join(values, " | ")) == |values| - 1
    decreases |values|
  {
    if |values| > 1 {
      var rest := Join(values[1..], " | ");
      assert values[0] + " | " + rest == values[0] + (" | " + rest);
      DelimsConcat(p, values[0], " | " + rest);
      assert Delims(p, values[0]) == 0;
      var q := LastOr(p, values[0]);
      assert (" | " + rest)[1..] == "| " + rest && ("| " + rest)[1..] == " " + rest
          && (" " + rest)[1..] == rest;
      assert Delims(q, " | " + rest) == Delims(' ', "| " + rest);
      assert Delims(' ', "| " + rest) == 1 + Delims('|', " " + rest);
      assert Delims('|', " " + rest) == Delims(' ', rest);
      JoinDelims(' ', values[1..]);
    } else {
      assert Delims(p, values[0]) == 0;
    }
  }

  lemma {:induction false} JoinNoBreak(values: seq<string>)
    requires forall i :: 0 <= i < |values| ==> '\n' !in values[i]
    ensures '\n' !in Join(values, " | ")
  {
    if |values| > 1 {
      JoinNoBreak(values[1..]);
    }
  }

  /** A row line of `k >= 1` delimiter-free values has `k + 1` delimiters,
      so it is a row of exactly `k` cells, and it is one line. */
  lemma RowLineCells(values: seq<string>)
    requires |values| >= 1
    requires forall i :: 0 <= i < |values| ==> NoDelims(values[i]) && '\n' !in values[i]
    ensures Delims(' ', RowLine(values)) == |values| + 1
    ensures '\n' !in RowLine(values)
  {
    var j := Join(values, " | ");
    assert RowLine(values) == "| " + (j + " |");
    DelimsConcat(' ', "| ", j + " |");
    assert ("| ")[1..] == " ";
    DelimsConcat(' ', j, " |");
    JoinDelims(' ', values);
    assert (" |")[1..] == "|";
    JoinNoBreak(values);
  }

  /** The separator has one `---` cell per column. */
  lemma SeparatorCells(k: nat)
    requires k >= 1
    ensures Delims(' ', SeparatorLine(k)) == k + 1 && '\n' !in SeparatorLine(k)
  {
    var vs := seq(k, _ => "---");
    forall i | 0 <= i < k ensures NoDelims(vs[i]) && '\n' !in vs[i] {
      assert vs[i] == "---";
      forall p: char ensures Delims(p, vs[i]) == 0 {
        assert vs[i][1..] == "--" && vs[i][1..][1..] == "-";
      }
    }
    RowLineCells(vs);
  }

  /** Every data row of a table renders as one line of one cell per
      column. */
  lemma DataLineCells(row: seq<Cell>)
    requires |row| >= 1
    ensures Delims(' ', DataLine(row)) == |row| + 1 && '\n' !in DataLine(row)
  {
    RowLineCells(seq(|row|, i requires 0 <= i < |row| => CellText(row[i])));
  }

  // ---------------------------------------------------------------------
  // Row pagination

  /** Rows `[k * m, min((k + 1) * m, n))` of `n` rows. */
  function PageSpan(n: nat, m: nat, k: nat): (s: Span)
    ensures 0 <= s.start <= s.end <= n
  {
    Span(Min(k * m, n), Min(k * m + m, n))
  }

  /** The rows of page `k`. */
  function PageRows<T>(rows: seq<T>, m: nat, k: nat): seq<T> {
    var s := PageSpan(|rows|, m, k);
    rows[s.start..s.end]
  }

  /** Page `k` of a frame: the same columns and the rows of its span. */
  function PageOf(t: Frame, m: nat, k: nat): (p: Frame)
    ensures p.columns == t.columns && p.rows == PageRows(t.rows, m, k)
  {
    var s := PageSpan(|t.rows|, m, k);
    var p := Table(t.columns, t.rows[s.start..s.end]);
    assert forall i :: 0 <= i < |p.rows| ==> p.rows[i] == t.rows[s.start + i];
    p
  }

  /** The rows of the first `j` pages, in order. */
  function PagedRows<T>(rows: seq<T>, m: nat, j: nat): seq<T> {
    if j == 0 then [] else PagedRows(rows, m, j - 1) + PageRows(rows, m, j - 1)
  }

  /** The `ceil(n / m)` pages cover the rows once each, in order; each has
      between one and `m` rows and starts where the previous one ended. */
  lemma {:induction false} PagesCover<T>(rows: seq<T>, m: nat, j: nat)
    requires m >= 1 && j <= CeilDiv(|rows|, m)
    ensures PagedRows(rows, m, j) == rows[..Min(j * m, |rows|)]
  {
    if j > 0 {
      PagesCover(rows, m, j - 1);
      var n := |rows|;
      PageStart(n, m, j);
      var b, e := (j - 1) * m, Min(j * m, n);
      assert rows[..b] + rows[b..e] == rows[..e];
    }
  }

  /** Page `j - 1` of the first `ceil(n / m)` starts inside the rows and
      ends where `j` pages end. */
  lemma PageStart(n: nat, m: nat, j: nat)
    requires m >= 1 && 1 <= j <= CeilDiv(n, m)
    ensures (j - 1) * m < n && Min((j - 1) * m, n) == (j - 1) * m
    ensures PageSpan(n, m, j - 1) == Span((j - 1) * m, Min(j * m, n))
  {
    MulMonotone(j - 1, CeilDiv(n, m) - 1, m);
    assert (j - 1) * m + m == j * m;
  }

  /** Stated for the whole table: the pages together are its rows, and
      each page has between one and `m` rows. */
  lemma AllPagesCover(t: Frame, m: nat)
    requires m >= 1
    ensures PagedRows(t.rows, m, CeilDiv(|t.rows|, m)) == t.rows
    ensures forall k :: 0 <= k < CeilDiv(|t.rows|, m) ==> 1 <= |PageOf(t, m, k).rows| <= m
  {
    var n := |t.rows|;
    var q := CeilDiv(n, m);
    PagesCover(t.rows, m, q);
    forall k | 0 <= k < q ensures 1 <= |PageOf(t, m, k).rows| <= m {
      MulMonotone(k, q - 1, m);
    }
  }

  // ---------------------------------------------------------------------
  // Rendering a sheet (`dataframe_to_markdown_table`)

  /** `str(ZeroDivisionError)` for `//` by zero on integers. */
  const DivisionByZero := "integer division or modulo by zero"

  /** `f"*页面 {page_num}/{total_pages}*"` */
  function PageMark(pageNum: nat, totalPages: nat): (r: string)
    ensures |r| > 0 && r[0] == '*'
  {
    "*页面 " + Dec(pageNum) + "/" + Dec(totalPages) + "*"
  }

  /** The title lines: the sheet name and, on a page of several, the page
      mark, then a blank line; none without a sheet name. */
  function Heading(sheet: string, pageNum: nat, totalPages: nat): seq<string> {
    if sheet == "" then []
    else ["## 📋 " + sheet] + (if totalPages > 1 then [PageMark(pageNum, totalPages)] else []) + [""]
  }

  /** The lines of a non-empty table. */
  function TableLines(t: Frame, sheet: string, pageNum: nat, totalPages: nat): seq<string> {
    Heading(sheet, pageNum, totalPages)
    + [RowLine(t.columns), SeparatorLine(|t.columns|)]
    + seq(|t.rows|, i requires 0 <= i < |t.rows| => DataLine(t.rows[i]))
    + [""]
  }

  /** `dataframe_to_markdown_table`. */
  function DataframeToMarkdownTable(t: Frame, sheet: string, pageNum: nat, totalPages: nat): string {
    if IsEmpty(t) then "### " + sheet + " (空表格)\n\n"
    else Join(TableLines(t, sheet, pageNum, totalPages), "\n")
  }

  /** A non-empty table (with line-free sheet and column names) renders as
      its title lines, the header line, a separator with one `---` cell per
      column, one line of one cell per column for each row in order, and a
      final empty line; the page mark is the second line exactly when a
      sheet name is given and there are several pages. */
  lemma TableLayout(t: Frame, sheet: string, pageNum: nat, totalPages: nat)
    requires !IsEmpty(t) && '\n' !in sheet
    requires forall c :: 0 <= c < |t.columns| ==> '\n' !in t.columns[c]
    ensures var ls := Split(DataframeToMarkdownTable(t, sheet, pageNum, totalPages), '\n');
      var h := |Heading(sheet, pageNum, totalPages)|;
      && |ls| == h + |t.rows| + 3
      && ls[h] == RowLine(t.columns)
      && ls[h + 1] == SeparatorLine(|t.columns|) && Delims(' ', ls[h + 1]) == |t.columns| + 1
      && (forall i :: 0 <= i < |t.rows| ==>
            ls[h + 2 + i] == DataLine(t.rows[i]) && Delims(' ', ls[h + 2 + i]) == |t.columns| + 1)
      && ls[|ls| - 1] == ""
      && (ls[1] == PageMark(pageNum, totalPages) <==> sheet != "" && totalPages > 1)
  {
    var lines := TableLines(t, sheet, pageNum, totalPages);
    TableLinesNoBreak(t, sheet, pageNum, totalPages);
    SplitJoin(lines, '\n');
    TableLinesLayout(t, sheet, pageNum, totalPages);
    PageMarkLine(t, sheet, pageNum, totalPages);
  }

  /** The lines themselves, before they are joined. */
  lemma TableLinesLayout(t: Frame, sheet: string, pageNum: nat, totalPages: nat)
    requires !IsEmpty(t)
    ensures var ls := TableLines(t, sheet, pageNum, totalPages);
      var h := |Heading(sheet, pageNum, totalPages)|;
      && |ls| == h + |t.rows| + 3
      && ls[h] == RowLine(t.columns)
      && ls[h + 1] == SeparatorLine(|t.columns|) && Delims(' ', ls[h + 1]) == |t.columns| + 1
      && (forall i :: 0 <= i < |t.rows| ==>
            ls[h + 2 + i] == DataLine(t.rows[i]) && Delims(' ', ls[h + 2 + i]) == |t.columns| + 1)
      && ls[|ls| - 1] == ""
  {
    SeparatorCells(|t.columns|);
    forall i | 0 <= i < |t.rows| ensures Delims(' ', DataLine(t.rows[i])) == |t.columns| + 1 {
      DataLineCells(t.rows[i]);
    }
  }

  /** The page mark is the second line exactly when a sheet name is given
      and there are several pages. */
  lemma PageMarkLine(t: Frame, sheet: string, pageNum: nat, totalPages: nat)
    ensures var ls := TableLines(t, sheet, pageNum, totalPages);
      ls[1] == PageMark(pageNum, totalPages) <==> sheet != "" && totalPages > 1
  {
    if sheet == "" {
      var lines := TableLines(t, sheet, pageNum, totalPages);
      assert lines[1] == SeparatorLine(|t.columns|);
      assert SeparatorLine(|t.columns|)[0] == '|';
    }
  }

  lemma TableLinesNoBreak(t: Frame, sheet: string, pageNum: nat, totalPages: nat)
    requires !IsEmpty(t) && '\n' !in sheet
    requires forall c :: 0 <= c < |t.columns| ==> '\n' !in t.columns[c]
    ensures forall j :: 0 <= j < |TableLines(t, sheet, pageNum, totalPages)| ==>
      '\n' !in TableLines(t, sheet, pageNum, totalPages)[j]
  {
    var lines := TableLines(t, sheet, pageNum, totalPages);
    var h := |Heading(sheet, pageNum, totalPages)|;
    SeparatorCells(|t.columns|);
    JoinNoBreak(t.columns);
    forall j | 0 <= j < |lines| ensures '\n' !in lines[j] {
      if h + 2 <= j < |lines| - 1 {
        DataLineCells(t.rows[j - h - 2]);
      }
    }
  }

  /** A pipe in a column name is not escaped: one column named "a|b"
      renders as a header line of two cells. */
  lemma HeaderPipeSplitsColumn()
    ensures Delims(' ', RowLine(["a|b"])) == 3
  {
    var l := RowLine(["a|b"]);
    assert l == "| a|b |";
    assert l[1..] == " a|b |" && l[1..][1..] == "a|b |" && l[1..][1..][1..] == "|b |";
    assert l[1..][1..][1..][1..] == "b |" && l[1..][1..][1..][1..][1..] == " |";
    assert l[1..][1..][1..][1..][1..][1..] == "|";
  }

  // ---------------------------------------------------------------------
  // Pagination (`process_large_dataframe`)

  /** Page `k` of `q`, rendered. */
  function PageMarkdown(t: Frame, sheet: string, m: nat, q: nat, k: nat): string {
    DataframeToMarkdownTable(PageOf(t, m, k), sheet, k + 1, q)
  }

  /** The first `j` of the `q` pages of a table paged `m` rows at a time. */
  function RenderedPages(t: Frame, sheet: string, m: nat, q: nat, j: nat): (r: seq<string>)
    ensures |r| == j
    ensures forall k :: 0 <= k < j ==> r[k] == PageMarkdown(t, sheet, m, q, k)
  {
    if j == 0 then [] else RenderedPages(t, sheet, m, q, j - 1) + [PageMarkdown(t, sheet, m, q, j - 1)]
  }

  /** A slice bound as `df.iloc[a:b]` reads it on `n` rows: a negative
      bound counts from the end, and every bound is clipped to the rows. */
  function SliceIndex(i: int, n: nat): (r: nat)
    ensures r <= n
  {
    if i < 0 then Max(0, n + i) else Min(i, n)
  }

  /** `df.iloc[a:b]`: the same columns and the rows of the slice, none
      when it ends before it starts. */
  function ILoc(t: Frame, a: int, b: int): Frame {
    var i, j := SliceIndex(a, |t.rows|), SliceIndex(b, |t.rows|);
    Table(t.columns, t.rows[i..Max(i, j)])
  }

  /** What `process_large_dataframe` returns, or the error it raises.  A
      negative page size gives `(rows + m - 1) // m` pages, which is one
      for a single row (`df.iloc[0:m]`, which holds none of it) and no
      page at all for more rows. */
  function PagesSpec(t: Frame, sheet: string, m: int): Result<seq<string>> {
    if IsEmpty(t) || |t.rows| <= m then Ok([DataframeToMarkdownTable(t, sheet, 1, 1)])
    else if m == 0 then Err(DivisionByZero)
    else if m < 0 then
      if |t.rows| == 1 then Ok([DataframeToMarkdownTable(Table(t.columns, []), sheet, 1, 1)]) else Ok([])
    else var q := CeilDiv(|t.rows|, m); Ok(RenderedPages(t, sheet, m, q, q))
  }

  /** `process_large_dataframe` with `max_rows_per_page == m`. */
  method ProcessLargeDataframe(t: Frame, sheet: string, m: int) returns (r: Result<seq<string>>)
    ensures r == PagesSpec(t, sheet, m)
  {
    if IsEmpty(t) {
      return Ok([DataframeToMarkdownTable(t, sheet, 1, 1)]);
    }
    var totalRows := |t.rows|;
    if totalRows <= m {
      return Ok([DataframeToMarkdownTable(t, sheet, 1, 1)]);
    }
    if m == 0 {
      return Err(DivisionByZero);
    }
    var numPages := FloorDiv(totalRows + m - 1, m);
    if m < 0 {
      NegativeSizeCount(totalRows, m);
      if numPages <= 0 {
        return Ok([]);
      }
      var pageDf := ILoc(t, 0, Min(m, totalRows));
      return Ok([DataframeToMarkdownTable(pageDf, sheet, 1, numPages)]);
    }
    var pages: seq<string> := [];
    FloorDivCeil(totalRows, m);
    for page := 0 to numPages
      invariant pages == RenderedPages(t, sheet, m, numPages, page)
    {
      var pageMd := PageMarkdown(t, sheet, m, numPages, page);
      pages := pages + [pageMd];
    }
    r := Ok(pages);
  }

  /** A table of at most `m` rows (or an empty one) is one page; a longer
      one is `ceil(rows / m)` pages, page `k` being rows
      `[k * m, min((k + 1) * m, rows))` marked `k + 1` of that count, which
      together hold every row once in order; paging by 0 rows raises. */
  lemma PaginationProperties(t: Frame, sheet: string, m: int)
    ensures IsEmpty(t) || |t.rows| <= m ==> PagesSpec(t, sheet, m) == Ok([DataframeToMarkdownTable(t, sheet, 1, 1)])
    ensures !IsEmpty(t) && m == 0 ==> PagesSpec(t, sheet, m) == Err(DivisionByZero)
    ensures !IsEmpty(t) && |t.rows| > m >= 1 ==>
      var q := CeilDiv(|t.rows|, m);
      && PagesSpec(t, sheet, m).Ok? && |PagesSpec(t, sheet, m).value| == q >= 2
      && PagedRows(t.rows, m, q) == t.rows
      && forall k :: 0 <= k < q ==>
           PagesSpec(t, sheet, m).value[k] == PageMarkdown(t, sheet, m, q, k)
           && PageOf(t, m, k).rows == PageRows(t.rows, m, k) && 1 <= |PageOf(t, m, k).rows| <= m
    ensures !IsEmpty(t) && m < 0 && |t.rows| >= 2 ==> PagesSpec(t, sheet, m) == Ok([])
    ensures !IsEmpty(t) && m < 0 && |t.rows| == 1 ==> PagesSpec(t, sheet, m) == Ok(["### " + sheet + " (空表格)\n\n"])
  {
    if !IsEmpty(t) && |t.rows| > m >= 1 {
      AllPagesCover(t, m);
    }
  }
}
