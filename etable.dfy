/**
 * The table renderer: column definitions, the per-cell pipeline that turns
 * key/value rows into a matrix of display strings, the header and column
 * offset bookkeeping of rendering, the per-cell style choice, and the CSV
 * export.
 *
 * Tables and columns are values: every builder returns a modified copy.
 * Strings are sequences of characters, one character standing for one byte
 * and one rune (Go measures widths with byte length but truncates by rune
 * count; the two agree on single-byte text).
 */
module ETable {
  import opened Wrappers
  import Styles

  /** A row maps column keys to raw values; a key may be missing. */
  type TableRow = map<string, string>

  datatype TableAlignment = Left | Right | Center

  /** A column definition. maxWidth -1 (or any value <= 0) means unbounded. */
  datatype TableColumn = TableColumn(
    key: string,
    title: string,
    active: bool,
    maxWidth: int,
    alignment: TableAlignment,
    emptyString: string,
    valueFunc: string -> string,
    styleFunc: (Styles.Style, string) -> Styles.Style)
  {
    /** Sets the width beyond which values are truncated; nothing else changes. */
    function WithMaxWidth(w: int): (c: TableColumn)
      ensures c.maxWidth == w
      ensures c.key == key && c.title == title && c.active == active && c.alignment == alignment
      ensures c.emptyString == emptyString && c.valueFunc == valueFunc && c.styleFunc == styleFunc
    {
      this.(maxWidth := w)
    }

    /** Sets the alignment; nothing else changes. */
    function WithAlignment(a: TableAlignment): (c: TableColumn)
      ensures c.alignment == a
      ensures c.key == key && c.title == title && c.active == active && c.maxWidth == maxWidth
      ensures c.emptyString == emptyString && c.valueFunc == valueFunc && c.styleFunc == styleFunc
    {
      this.(alignment := a)
    }

    /** Shows or hides the column; nothing else changes. */
    function WithActive(a: bool): (c: TableColumn)
      ensures c.active == a
      ensures c.key == key && c.title == title && c.maxWidth == maxWidth && c.alignment == alignment
      ensures c.emptyString == emptyString && c.valueFunc == valueFunc && c.styleFunc == styleFunc
    {
      this.(active := a)
    }

    /** Sets the replacement for empty values; nothing else changes. */
    function WithEmptyString(s: string): (c: TableColumn)
      ensures c.emptyString == s
      ensures c.key == key && c.title == title && c.active == active && c.maxWidth == maxWidth
      ensures c.alignment == alignment && c.valueFunc == valueFunc && c.styleFunc == styleFunc
    {
      this.(emptyString := s)
    }

    /** Sets the value transformation; nothing else changes. */
    function WithValueFunc(f: string -> string): (c: TableColumn)
      ensures c.valueFunc == f
      ensures c.key == key && c.title == title && c.active == active && c.maxWidth == maxWidth
      ensures c.alignment == alignment && c.emptyString == emptyString && c.styleFunc == styleFunc
    {
      this.(valueFunc := f)
    }

    /** Sets the style selection; nothing else changes. */
    function WithStyleFunc(f: (Styles.Style, string) -> Styles.Style): (c: TableColumn)
      ensures c.styleFunc == f
      ensures c.key == key && c.title == title && c.active == active && c.maxWidth == maxWidth
      ensures c.alignment == alignment && c.emptyString == emptyString && c.valueFunc == valueFunc
    {
      this.(styleFunc := f)
    }
  }

  /** A new column: shown, left-aligned, unbounded, no empty replacement, identity callbacks. */
  function NewTableColumn(key: string, title: string): (c: TableColumn)
    ensures c.key == key && c.title == title
    ensures c.active && c.maxWidth == -1 && c.alignment == Left && c.emptyString == ""
    ensures forall v :: c.valueFunc(v) == v
    ensures forall s, v :: c.styleFunc(s, v) == s
  {
    TableColumn(key, title, true, -1, Left, "", v => v, (s, v) => s)
  }

  /** The glyph set of a table border, by edge name. */
  datatype Border = Border(glyphs: map<string, string>)

  /** Header and row styles, the border glyphs and the six border toggles. */
  datatype TableStyle = TableStyle(
    headerStyle: Styles.Style,
    rowStyle: Styles.Style,
    borderStyle: Border,
    borderHeader: bool,
    borderColumn: bool,
    borderTop: bool,
    borderLeft: bool,
    borderBottom: bool,
    borderRight: bool)

  /** A border drawn with spaces only. */
  const HiddenBorder := Border(map[
    "Top" := " ", "Bottom" := " ", "Left" := " ", "Right" := " ",
    "TopLeft" := " ", "TopRight" := " ", "BottomLeft" := " ", "BottomRight" := " ",
    "MiddleLeft" := " ", "MiddleRight" := " ", "Middle" := " ", "MiddleTop" := " ", "MiddleBottom" := " "])

  /** The default style: coloured bold padded header, padded rows, no borders. */
  const TableStyleDefault := TableStyle(
    Styles.Style({"foreground:4", "bold", "padding:0,1"}, None),
    Styles.Style({"padding:0,1"}, None),
    HiddenBorder,
    false, false, false, false, false, false)

  /** A table: ordered columns, ordered rows and a style. */
  datatype Table = Table(columns: seq<TableColumn>, rows: seq<TableRow>, style: TableStyle)
  {
    /** Replaces the style; columns and rows are kept. */
    function WithStyle(s: TableStyle): (t: Table)
      ensures t.style == s && t.columns == columns && t.rows == rows
    {
      this.(style := s)
    }

    /** Replaces the rows; columns and style are kept. */
    function WithRows(r: seq<TableRow>): (t: Table)
      ensures t.rows == r && t.columns == columns && t.style == style
    {
      this.(rows := r)
    }
  }

  /** A new table over the given columns, with no rows and the default style. */
  function NewTable(columns: seq<TableColumn>): (t: Table)
    ensures t.columns == columns && t.rows == [] && t.style == TableStyleDefault
  {
    Table(columns, [], TableStyleDefault)
  }

  // ---------------------------------------------------------------------
  // The per-cell pipeline

  /** Go's map index: a missing key reads as the empty string. */
  function Lookup(entry: TableRow, key: string): string
  {
    if key in entry then entry[key] else ""
  }

  const Ellipsis := "..."

  /** What Go's fmt writes for a precision argument it rejects. */
  const BadPrecision := "%!(BADPREC)"

  /** The largest precision Go's fmt accepts from an argument. */
  const MaxPrecision := 1000000

  /**
   * fmt.Sprintf("%.*s...", prec, s): at most prec characters of s, then the
   * ellipsis. fmt rejects a negative precision and one above MaxPrecision:
   * it writes BadPrecision and then formats s with no precision, so all of
   * s is kept.
   */
  function FormatEllipsis(prec: int, s: string): string
  {
    if prec < 0 || prec > MaxPrecision then BadPrecision + s + Ellipsis
    else (if |s| <= prec then s else s[..prec]) + Ellipsis
  }

  /** The truncation step: only a positive width that the value exceeds truncates. */
  function Truncate(s: string, maxWidth: int): (r: string)
    ensures maxWidth <= 0 || |s| <= maxWidth ==> r == s
    ensures 3 <= maxWidth <= MaxPrecision + 3 && maxWidth < |s| ==>
              |r| == maxWidth && r == s[..maxWidth - 3] + Ellipsis
    ensures (0 < maxWidth < 3 || MaxPrecision + 3 < maxWidth) && maxWidth < |s| ==>
              r == BadPrecision + s + Ellipsis
  {
    if maxWidth > 0 && maxWidth < |s| then FormatEllipsis(maxWidth - 3, s) else s
  }

  /** The empty-substitution step. */
  function Substitute(v: string, emptyString: string): string
  {
    if v == "" then emptyString else v
  }

  /** The display text of column c in a row: look up, transform, substitute, truncate. */
  function Cell(c: TableColumn, entry: TableRow): (v: string)
    ensures 3 <= c.maxWidth <= MaxPrecision + 3 ==> |v| <= c.maxWidth
    ensures c.maxWidth > 0 && |v| > c.maxWidth ==> |v| >= 3 && v[|v| - 3..] == Ellipsis
  {
    Truncate(Substitute(c.valueFunc(Lookup(entry, c.key)), c.emptyString), c.maxWidth)
  }

  /** The pipeline's order and its three observable rules. */
  lemma CellPipeline(c: TableColumn, entry: TableRow)
    ensures c.key !in entry ==> Cell(c, entry) == Cell(c, entry[c.key := ""])
    ensures var v := c.valueFunc(Lookup(entry, c.key));
      (v != "" && (c.maxWidth <= 0 || |v| <= c.maxWidth) ==> Cell(c, entry) == v) &&
      (v == "" && (c.maxWidth <= 0 || |c.emptyString| <= c.maxWidth) ==> Cell(c, entry) == c.emptyString)
    ensures Cell(c, entry) == "" <==> c.valueFunc(Lookup(entry, c.key)) == "" && c.emptyString == ""
  {
  }

  /** A fresh column shows the raw value, the empty string for a missing key. */
  lemma NewColumnShowsRawValue(key: string, title: string, entry: TableRow)
    ensures key in entry ==> Cell(NewTableColumn(key, title), entry) == entry[key]
    ensures key !in entry ==> Cell(NewTableColumn(key, title), entry) == ""
  {
    var c := NewTableColumn(key, title);
    assert c.valueFunc(Lookup(entry, key)) == Lookup(entry, key);
  }

  /** Alignment, style function and visibility do not affect a cell's text. */
  lemma PresentationBuildersKeepText(c: TableColumn, entry: TableRow, a: TableAlignment,
                                     f: (Styles.Style, string) -> Styles.Style, b: bool)
    ensures Cell(c.WithAlignment(a), entry) == Cell(c, entry)
    ensures Cell(c.WithStyleFunc(f), entry) == Cell(c, entry)
    ensures Cell(c.WithActive(b), entry) == Cell(c, entry)
  {
  }

  // ---------------------------------------------------------------------
  // Active columns, row cells and the row matrix

  /** The active columns, in declared order. */
  function Active(cols: seq<TableColumn>): (r: seq<TableColumn>)
    ensures |r| <= |cols|
    ensures forall k :: 0 <= k < |r| ==> r[k].active
    decreases |cols|
  {
    if |cols| == 0 then []
    else
      var last := cols[|cols| - 1];
      Active(cols[..|cols| - 1]) + (if last.active then [last] else [])
  }

  lemma ActiveSnoc(cols: seq<TableColumn>, i: nat)
    requires i < |cols|
    ensures Active(cols[..i + 1]) == Active(cols[..i]) + (if cols[i].active then [cols[i]] else [])
  {
    assert cols[..i + 1][..i] == cols[..i];
  }

  /** Filtering distributes over concatenation. */
  lemma {:induction false} ActiveConcat(a: seq<TableColumn>, b: seq<TableColumn>)
    ensures Active(a + b) == Active(a) + Active(b)
    decreases |b|
  {
    if |b| == 0 {
      assert a + b == a;
    } else {
      var b' := b[..|b| - 1];
      assert (a + b)[..|a + b| - 1] == a + b';
      ActiveConcat(a, b');
    }
  }

  /** Hiding one column removes exactly that column from the active list. */
  lemma HideColumn(cols: seq<TableColumn>, i: nat)
    requires i < |cols|
    ensures Active(cols[i := cols[i].WithActive(false)]) == Active(cols[..i]) + Active(cols[i + 1..])
  {
    var hidden := cols[i := cols[i].WithActive(false)];
    assert hidden == cols[..i] + [hidden[i]] + cols[i + 1..];
    ActiveConcat(cols[..i] + [hidden[i]], cols[i + 1..]);
    ActiveConcat(cols[..i], [hidden[i]]);
    assert Active([hidden[i]]) == [] by {
      assert [hidden[i]][..0] == [];
    }
  }

  /** The column at index j, if active, is the |Active(cols[..j])|-th active column. */
  lemma ActiveIndex(cols: seq<TableColumn>, j: nat)
    requires j < |cols| && cols[j].active
    ensures |Active(cols[..j])| < |Active(cols)|
    ensures Active(cols)[|Active(cols[..j])|] == cols[j]
  {
    assert cols == cols[..j + 1] + cols[j + 1..];
    ActiveConcat(cols[..j + 1], cols[j + 1..]);
    ActiveSnoc(cols, j);
  }

  /** With no hidden column, the active list is the whole list. */
  lemma {:induction false} AllActive(cols: seq<TableColumn>)
    requires forall k :: 0 <= k < |cols| ==> cols[k].active
    ensures Active(cols) == cols
    decreases |cols|
  {
    if |cols| > 0 {
      AllActive(cols[..|cols| - 1]);
    }
  }

  /** With no hidden column, the active list is as long as the whole list. */
  lemma {:induction false} AllActiveCount(cols: seq<TableColumn>)
    requires forall k :: 0 <= k < |cols| ==> cols[k].active
    ensures |Active(cols)| == |cols|
    decreases |cols|
  {
    if |cols| > 0 {
      AllActiveCount(cols[..|cols| - 1]);
    }
  }

  /** With no hidden column, every offset is zero: rendered column k is column k. */
  lemma AllActiveOffsets(cols: seq<TableColumn>)
    requires forall k :: 0 <= k < |cols| ==> cols[k].active
    ensures OffsetsMapActive(cols, seq(|cols|, k => 0))
  {
    var offsets := seq(|cols|, k => 0);
    AllActiveCount(cols);
    forall k | 0 <= k < |offsets|
      ensures 0 <= offsets[k] && k + offsets[k] < |cols|
      ensures |Active(cols[..k + offsets[k]])| == k && cols[k + offsets[k]] == Active(cols)[k]
    {
      assert offsets[k] == 0;
      AllActiveCount(cols[..k]);
      ActiveIndex(cols, k);
    }
  }

  /** The titles of the given columns, in order. */
  function Titles(cols: seq<TableColumn>): (r: seq<string>)
  {
    seq(|cols|, k requires 0 <= k < |cols| => cols[k].title)
  }

  /** The header: the titles of the active columns, in declared order. */
  function ActiveTitles(cols: seq<TableColumn>): seq<string>
  {
    Titles(Active(cols))
  }

  /** Only active columns' titles appear, each one in its place among the active columns. */
  lemma {:induction false} ActiveTitlesAt(cols: seq<TableColumn>, k: nat)
    requires k < |ActiveTitles(cols)|
    ensures exists j :: 0 <= j < |cols| && cols[j].active && |Active(cols[..j])| == k &&
                        ActiveTitles(cols)[k] == cols[j].title
    decreases |cols|
  {
    var n := |cols| - 1;
    assert cols[..n] + [cols[n]] == cols;
    ActiveConcat(cols[..n], [cols[n]]);
    assert [cols[n]][..0] == [];
    if k < |Active(cols[..n])| {
      ActiveTitlesAt(cols[..n], k);
      var j :| 0 <= j < n && cols[..n][j].active && |Active(cols[..n][..j])| == k &&
               ActiveTitles(cols[..n])[k] == cols[..n][j].title;
      assert cols[..n][..j] == cols[..j];
    } else {
      assert ActiveTitles(cols)[k] == cols[n].title;
    }
  }

  /** The cells of one row for the active columns, in declared order. */
  function RowCells(cols: seq<TableColumn>, entry: TableRow): (r: seq<string>)
    ensures |r| == |Active(cols)|
    decreases |cols|
  {
    if |cols| == 0 then []
    else
      var last := cols[|cols| - 1];
      RowCells(cols[..|cols| - 1], entry) + (if last.active then [Cell(last, entry)] else [])
  }

  lemma RowCellsSnoc(cols: seq<TableColumn>, i: nat, entry: TableRow)
    requires i < |cols|
    ensures RowCells(cols[..i + 1], entry)
            == RowCells(cols[..i], entry) + (if cols[i].active then [Cell(cols[i], entry)] else [])
  {
    assert cols[..i + 1][..i] == cols[..i];
  }

  /** The k-th cell of a row is the k-th active column's pipeline output. */
  lemma {:induction false} RowCellsAt(cols: seq<TableColumn>, entry: TableRow, k: nat)
    requires k < |Active(cols)|
    ensures RowCells(cols, entry)[k] == Cell(Active(cols)[k], entry)
    decreases |cols|
  {
    var n := |cols| - 1;
    var init := cols[..n];
    var last := cols[n];
    assert RowCells(cols, entry) == RowCells(init, entry) + (if last.active then [Cell(last, entry)] else []);
    assert Active(cols) == Active(init) + (if last.active then [last] else []);
    if k < |Active(init)| {
      RowCellsAt(init, entry, k);
    }
  }

  /** The matrix of display strings: one row of cells per input row. */
  function RowMatrix(cols: seq<TableColumn>, rows: seq<TableRow>): seq<seq<string>>
  {
    seq(|rows|, i requires 0 <= i < |rows| => RowCells(cols, rows[i]))
  }

  /** Shape and contents of the matrix. */
  lemma MatrixShape(cols: seq<TableColumn>, rows: seq<TableRow>)
    ensures |RowMatrix(cols, rows)| == |rows|
    ensures forall i :: 0 <= i < |rows| ==> |RowMatrix(cols, rows)[i]| == |Active(cols)|
    ensures forall i, k :: 0 <= i < |rows| && 0 <= k < |Active(cols)| ==>
              RowMatrix(cols, rows)[i][k] == Cell(Active(cols)[k], rows[i])
  {
    forall i, k | 0 <= i < |rows| && 0 <= k < |Active(cols)|
      ensures RowMatrix(cols, rows)[i][k] == Cell(Active(cols)[k], rows[i])
    {
      RowCellsAt(cols, rows[i], k);
    }
  }

  /** A new table has no body rows. */
  lemma NewTableHasNoBody(columns: seq<TableColumn>)
    ensures RowMatrix(NewTable(columns).columns, NewTable(columns).rows) == []
  {
  }

  /** The row matrix, built row by row and active column by active column. */
  method GetRowMatrix(t: Table) returns (rows: seq<seq<string>>)
    ensures rows == RowMatrix(t.columns, t.rows)
    ensures |rows| == |t.rows|
    ensures forall i :: 0 <= i < |rows| ==> |rows[i]| == |Active(t.columns)|
  {
    rows := [];
    var i := 0;
    while i < |t.rows|
      invariant 0 <= i <= |t.rows|
      invariant |rows| == i
      invariant forall j :: 0 <= j < i ==> rows[j] == RowCells(t.columns, t.rows[j])
    {
      var entry := t.rows[i];
      var row: seq<string> := [];
      var n := 0;
      while n < |t.columns|
        invariant 0 <= n <= |t.columns|
        invariant row == RowCells(t.columns[..n], entry)
      {
        var col := t.columns[n];
        RowCellsSnoc(t.columns, n, entry);
        n := n + 1;
        if !col.active {
          continue;
        }
        var value := col.valueFunc(Lookup(entry, col.key));
        if value == "" {
          value := col.emptyString;
        }
        if col.maxWidth > 0 && col.maxWidth < |value| {
          value := FormatEllipsis(col.maxWidth - 3, value);
        }
        row := row + [value];
      }
      assert t.columns[..n] == t.columns;
      rows := rows + [row];
      i := i + 1;
    }
  }

  // ---------------------------------------------------------------------
  // Rendering: headers, column offsets and the per-cell style

  /**
   * What rendering hands to the layout engine: the header list, the matrix,
   * and the offsets with which a rendered column index k is mapped back to
   * columns[k + offsets[k]].
   */
  datatype Grid = Grid(headers: seq<string>, rows: seq<seq<string>>, offsets: seq<int>)

  /** offsets[k] maps rendered column k to the k-th active column. */
  ghost predicate OffsetsMapActive(cols: seq<TableColumn>, offsets: seq<int>)
  {
    |offsets| == |Active(cols)| &&
    forall k :: 0 <= k < |offsets| ==>
      0 <= offsets[k] && k + offsets[k] < |cols| &&
      |Active(cols[..k + offsets[k]])| == k && cols[k + offsets[k]] == Active(cols)[k]
  }

  /** Builds the headers and offsets over the active columns, then the matrix. */
  method Render(t: Table) returns (g: Grid)
    ensures g.headers == ActiveTitles(t.columns)
    ensures g.rows == RowMatrix(t.columns, t.rows)
    ensures OffsetsMapActive(t.columns, g.offsets)
  {
    var cols := t.columns;
    var headers: seq<string> := [];
    var columnOffset := 0;
    var columnOffsets: seq<int> := [];
    var i := 0;
    while i < |cols|
      invariant 0 <= i <= |cols|
      invariant columnOffset == i - |Active(cols[..i])|
      invariant |columnOffsets| == |headers| == |Active(cols[..i])|
      invariant forall k :: 0 <= k < |headers| ==> headers[k] == Active(cols[..i])[k].title
      invariant forall k :: 0 <= k < |columnOffsets| ==>
                  0 <= columnOffsets[k] <= columnOffset && k + columnOffsets[k] < i &&
                  cols[k + columnOffsets[k]].active && |Active(cols[..k + columnOffsets[k]])| == k
    {
      var col := cols[i];
      ActiveSnoc(cols, i);
      i := i + 1;
      if !col.active {
        columnOffset := columnOffset + 1;
        continue;
      }
      columnOffsets := columnOffsets + [columnOffset];
      headers := headers + [col.title];
    }
    assert cols[..i] == cols;
    forall k | 0 <= k < |columnOffsets|
      ensures cols[k + columnOffsets[k]] == Active(cols)[k]
    {
      ActiveIndex(cols, k + columnOffsets[k]);
    }
    var rows := GetRowMatrix(t);
    g := Grid(headers, rows, columnOffsets);
  }

  /** The lipgloss position for a column alignment. */
  function Position(a: TableAlignment): Styles.Position
  {
    match a
    case Left => Styles.Left
    case Center => Styles.Center
    case Right => Styles.Right
  }

  /** Applies a column's alignment as the last step of styling. */
  function AlignStyle(s: Styles.Style, a: TableAlignment): (r: Styles.Style)
    ensures r.horizontal == Some(Position(a))
    ensures r.attributes == s.attributes
  {
    match a
    case Left => s.Align(Styles.Left)
    case Center => s.Align(Styles.Center)
    case Right => s.Align(Styles.Right)
  }

  /** The index the layout engine uses for the header row. */
  const HeaderRow := -1

  /** The style callback handed to the layout engine, for grid position (row, col). */
  function CellStyle(t: Table, g: Grid, row: int, col: int): (s: Styles.Style)
    requires 0 <= col < |g.offsets| && 0 <= col + g.offsets[col] < |t.columns|
    requires row == HeaderRow || (0 <= row < |g.rows| && col < |g.rows[row]|)
    ensures s.horizontal == Some(Position(t.columns[col + g.offsets[col]].alignment))
    ensures row == HeaderRow ==> s.attributes == t.style.headerStyle.attributes
  {
    var column := t.columns[col + g.offsets[col]];
    var sty := if row == HeaderRow then t.style.headerStyle
               else column.styleFunc(t.style.rowStyle, g.rows[row][col]);
    AlignStyle(sty, column.alignment)
  }

  /**
   * For a rendered grid, the style of cell (row, k) is chosen from the k-th
   * active column: the header style on the header row, otherwise that
   * column's style function on the row style and the cell's text; its
   * alignment is applied after the choice.
   */
  lemma CellStyleOfActiveColumn(t: Table, g: Grid, row: int, k: int)
    requires g.rows == RowMatrix(t.columns, t.rows) && OffsetsMapActive(t.columns, g.offsets)
    requires 0 <= k < |Active(t.columns)|
    requires row == HeaderRow || 0 <= row < |t.rows|
    ensures 0 <= k + g.offsets[k] < |t.columns|
    ensures row == HeaderRow || (0 <= row < |g.rows| && k < |g.rows[row]|)
    ensures var c := Active(t.columns)[k];
      CellStyle(t, g, row, k) ==
        AlignStyle(if row == HeaderRow then t.style.headerStyle
                   else c.styleFunc(t.style.rowStyle, Cell(c, t.rows[row])), c.alignment)
  {
    MatrixShape(t.columns, t.rows);
  }

  /** A style function that makes "OK" bold. */
  function BoldIfOk(s: Styles.Style, v: string): Styles.Style
  {
    if v == "OK" then s.Bold() else s
  }

  /** Two columns, the second styled bold when its value is "OK", and two rows. */
  function StatusTable(): Table
  {
    var status := NewTableColumn("status", "Status").WithStyleFunc(BoldIfOk);
    NewTable([NewTableColumn("id", "ID"), status])
      .WithRows([map["id" := "1", "status" := "OK"], map["id" := "2", "status" := "FAIL"]])
  }

  /** The grid that rendering StatusTable produces. */
  const StatusGrid := Grid(["ID", "Status"], [["1", "OK"], ["2", "FAIL"]], [0, 0])

  lemma StatusTableActive()
    ensures Active(StatusTable().columns) == StatusTable().columns
    ensures ActiveTitles(StatusTable().columns) == StatusGrid.headers
  {
    var cols := StatusTable().columns;
    assert cols[0].active && cols[1].active;
    AllActive(cols);
  }

  lemma StatusTableCells()
    ensures RowMatrix(StatusTable().columns, StatusTable().rows) == StatusGrid.rows
  {
    var t := StatusTable();
    StatusTableActive();
    MatrixShape(t.columns, t.rows);
    assert Cell(t.columns[0], t.rows[0]) == "1";
    assert Cell(t.columns[1], t.rows[0]) == "OK";
    assert Cell(t.columns[0], t.rows[1]) == "2";
    assert Cell(t.columns[1], t.rows[1]) == "FAIL";
    var m := RowMatrix(t.columns, t.rows);
    assert m[0] == ["1", "OK"];
    assert m[1] == ["2", "FAIL"];
  }

  lemma StatusTableOffsets()
    ensures OffsetsMapActive(StatusTable().columns, StatusGrid.offsets)
  {
    var cols := StatusTable().columns;
    assert cols[0].active && cols[1].active;
    AllActiveOffsets(cols);
    assert seq(|cols|, k => 0) == StatusGrid.offsets;
  }

  lemma StatusTableStyles()
    ensures "bold" in CellStyle(StatusTable(), StatusGrid, 0, 1).attributes
    ensures "bold" !in CellStyle(StatusTable(), StatusGrid, 1, 1).attributes
  {
    assert StatusTable().style.rowStyle.attributes == {"padding:0,1"};
  }

  /**
   * StatusGrid meets what rendering promises for StatusTable: two headers,
   * two body rows, both columns mapped to themselves; the "OK" cell is bold
   * and the "FAIL" cell is not.
   */
  lemma StatusTableScenario()
    ensures StatusGrid.headers == ActiveTitles(StatusTable().columns)
    ensures StatusGrid.rows == RowMatrix(StatusTable().columns, StatusTable().rows)
    ensures OffsetsMapActive(StatusTable().columns, StatusGrid.offsets)
    ensures "bold" in CellStyle(StatusTable(), StatusGrid, 0, 1).attributes
    ensures "bold" !in CellStyle(StatusTable(), StatusGrid, 1, 1).attributes
  {
    StatusTableActive();
    StatusTableCells();
    StatusTableOffsets();
    StatusTableStyles();
  }

  // ---------------------------------------------------------------------
  // CSV export

  /** A call made on the CSV writer. */
  datatype WriterCall = Write(record: seq<string>) | WriteAll(records: seq<seq<string>>)

  /** The CSV writer as seen by the export: the error each call reports (None for success). */
  datatype CsvWriter = CsvWriter(
    write: seq<string> -> Option<string>,
    writeAll: seq<seq<string>> -> Option<string>)

  /**
   * Writes the active titles, then (only if that succeeded) the matrix;
   * returns the first error unchanged.
   */
  method ExportCsv(t: Table, w: CsvWriter) returns (calls: seq<WriterCall>, err: Option<string>)
    ensures |calls| >= 1 && calls[0] == Write(ActiveTitles(t.columns))
    ensures w.write(ActiveTitles(t.columns)).Some? ==>
              calls == [calls[0]] && err == w.write(ActiveTitles(t.columns))
    ensures w.write(ActiveTitles(t.columns)).None? ==>
              calls == [calls[0], WriteAll(RowMatrix(t.columns, t.rows))] &&
              err == w.writeAll(RowMatrix(t.columns, t.rows))
  {
    var cols := t.columns;
    var header: seq<string> := [];
    var i := 0;
    while i < |cols|
      invariant 0 <= i <= |cols|
      invariant |header| == |Active(cols[..i])|
      invariant forall k :: 0 <= k < |header| ==> header[k] == Active(cols[..i])[k].title
    {
      ActiveSnoc(cols, i);
      if cols[i].active {
        header := header + [cols[i].title];
      }
      i := i + 1;
    }
    assert cols[..i] == cols;
    assert header == ActiveTitles(cols);
    calls := [Write(header)];
    err := w.write(header);
    if err.Some? {
      return;
    }
    var matrix := GetRowMatrix(t);
    calls := calls + [WriteAll(matrix)];
    err := w.writeAll(matrix);
  }
}
