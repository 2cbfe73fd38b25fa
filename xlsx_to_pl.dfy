/**
 * `excel_to_dataframe`: one worksheet, already read as a grid of cell
 * texts, becomes a frame of text columns. Row 0 is the header; every later
 * row is a data row, transposed into the columns.
 */
module XlsxToPl {
  import opened Wrappers
  import opened Seqs
  import IndexMaps

  /** A worksheet range: rows of cell texts, rows of any width. */
  type Grid = seq<seq<string>>

  /** A workbook: its sheets, by name, in workbook order. */
  type Workbook = seq<(string, Grid)>

  /** A text column of the resulting frame. */
  datatype Column = Column(name: string, values: seq<string>)

  datatype ExcelError =
    | SheetNotFound(sheet: string)   // `worksheet_range` of a name the workbook lacks
    | DuplicateColumn(column: string) // `DataFrame::new` refuses a repeated column name

  /** The range of the first sheet with this name. */
  function FindSheet(wb: Workbook, name: string): (r: Option<Grid>)
    ensures r.Some? <==> name in IndexMaps.Keys(wb)
    ensures r.Some? ==> r.value == wb[IndexOf(IndexMaps.Keys(wb), name)].1
  {
    if |wb| == 0 then None
    else
      assert IndexMaps.Keys(wb) == [wb[0].0] + IndexMaps.Keys(wb[1..]);
      if wb[0].0 == name then Some(wb[0].1)
      else FindSheet(wb[1..], name)
  }

  /** The sheet that is read: the one asked for, or else the first one. */
  function SheetChoice(wb: Workbook, sheet: Option<string>): (name: string)
    requires sheet.Some? || |wb| > 0
    ensures sheet.Some? ==> name == sheet.value
    ensures sheet.None? ==> name == wb[0].0
  {
    match sheet
    case Some(s) => s
    case None => wb[0].0
  }

  function Header(range: Grid): seq<string> {
    if |range| == 0 then [] else range[0]
  }

  function DataRows(range: Grid): Grid {
    if |range| == 0 then [] else range[1..]
  }

  /** Cell i of a row, or "" when the row is shorter. */
  function Cell(row: seq<string>, i: nat): string {
    if i < |row| then row[i] else ""
  }

  function ColumnOf(rows: Grid, i: nat): seq<string> {
    seq(|rows|, j requires 0 <= j < |rows| => Cell(rows[j], i))
  }

  /** The frame a range becomes: one column per header cell, each holding that cell of every data row. */
  function Transpose(range: Grid): seq<Column> {
    var header := Header(range);
    seq(|header|, i requires 0 <= i < |header| => Column(header[i], ColumnOf(DataRows(range), i)))
  }

  /** Whether some name occurs twice; `RepeatedName` then picks one such name. */
  predicate HasRepeat(names: seq<string>) {
    |names| > 0 && (names[0] in names[1..] || HasRepeat(names[1..]))
  }

  function RepeatedName(names: seq<string>): (n: string)
    requires HasRepeat(names)
    ensures exists i, j :: 0 <= i < j < |names| && names[i] == n && names[j] == n
  {
    if names[0] in names[1..] then
      ghost var j :| 0 <= j < |names[1..]| && names[1..][j] == names[0];
      assert names[j + 1] == names[0];
      names[0]
    else
      var n := RepeatedName(names[1..]);
      ghost var i, j :| 0 <= i < j < |names[1..]| && names[1..][i] == n && names[1..][j] == n;
      assert names[i + 1] == n && names[j + 1] == n;
      n
  }

  /** A repeat is exactly a failure of distinctness. */
  lemma {:induction false} RepeatMeansDuplicate(names: seq<string>)
    ensures HasRepeat(names) <==> !NoDup(names)
  {
    if |names| > 0 {
      var rest := names[1..];
      RepeatMeansDuplicate(rest);
      if NoDup(names) {
        forall i, j | 0 <= i < j < |rest| ensures rest[i] != rest[j] {
          assert rest[i] == names[i + 1] && rest[j] == names[j + 1];
        }
        forall j | 0 <= j < |rest| ensures rest[j] != names[0] {
          assert rest[j] == names[j + 1];
        }
      } else {
        var i, j :| 0 <= i < j < |names| && names[i] == names[j];
        if i == 0 {
          assert rest[j - 1] == names[0];
        } else {
          assert rest[i - 1] == rest[j - 1];
        }
      }
    }
  }

  /** What `excel_to_dataframe` returns for a workbook and an optional sheet name. */
  function ExcelFrame(wb: Workbook, sheet: Option<string>): Result<seq<Column>, ExcelError>
    requires sheet.Some? || |wb| > 0
  {
    var name := SheetChoice(wb, sheet);
    match FindSheet(wb, name)
    case None => Failure(SheetNotFound(name))
    case Some(range) =>
      if HasRepeat(Header(range)) then Failure(DuplicateColumn(RepeatedName(Header(range))))
      else Success(Transpose(range))
  }

  /** Pads a row with "" up to the header width, or cuts it there. */
  function Fitted(row: seq<string>, w: nat): (r: seq<string>)
    ensures |r| == w
  {
    if w <= |row| then row[..w] else row + seq(w - |row|, _ => "")
  }

  /** Reading a frame back row by row: entry j of every column, in column order. */
  function RowOf(cols: seq<Column>, j: nat): (r: seq<string>)
    requires forall i :: 0 <= i < |cols| ==> j < |cols[i].values|
    ensures |r| == |cols|
  {
    seq(|cols|, i requires 0 <= i < |cols| => cols[i].values[j])
  }

  function Names(cols: seq<Column>): (ns: seq<string>)
    ensures |ns| == |cols|
  {
    seq(|cols|, i requires 0 <= i < |cols| => cols[i].name)
  }

  /**
   * The columns give back the header as their names, and each data row,
   * cut or padded with "" to the header width, as their j-th entries.
   */
  lemma TransposeReadsBack(range: Grid, j: nat)
    requires j < |DataRows(range)|
    ensures Names(Transpose(range)) == Header(range)
    ensures forall i :: 0 <= i < |Transpose(range)| ==> |Transpose(range)[i].values| == |DataRows(range)|
    ensures RowOf(Transpose(range), j) == Fitted(DataRows(range)[j], |Header(range)|)
  {
    var cols, row, w := Transpose(range), DataRows(range)[j], |Header(range)|;
    var back, fit := RowOf(cols, j), Fitted(row, w);
    forall i | 0 <= i < w ensures back[i] == fit[i] {
      assert back[i] == Cell(row, i);
      if i >= |row| {
        assert fit[i] == seq(w - |row|, _ => "")[i - |row|];
      }
    }
  }

  /** A range with no rows, or only a header of no cells, becomes a frame of no columns. */
  lemma EmptyHeaderNoColumns(range: Grid)
    requires |range| == 0 || |range[0]| == 0
    ensures Transpose(range) == []
  {
  }

  /**
   * `excel_to_dataframe(workbook, sheet)`: the header row and data rows are
   * collected cell by cell, then every header cell becomes a column of that
   * cell of each data row, "" for rows too short to have it.
   */
  method ExcelToDataframe(wb: Workbook, sheet: Option<string>) returns (r: Result<seq<Column>, ExcelError>)
    requires sheet.Some? || |wb| > 0
    ensures r == ExcelFrame(wb, sheet)
    ensures r.Failure? <==> (SheetChoice(wb, sheet) !in IndexMaps.Keys(wb)
                             || !NoDup(Header(FindSheet(wb, SheetChoice(wb, sheet)).value)))
    ensures r.Success? ==>
              var range := FindSheet(wb, SheetChoice(wb, sheet)).value;
              |r.value| == |Header(range)|
              && forall i :: 0 <= i < |r.value| ==>
                   r.value[i].name == Header(range)[i]
                   && |r.value[i].values| == |DataRows(range)|
                   && forall j :: 0 <= j < |DataRows(range)| ==>
                        r.value[i].values[j] == (if i < |DataRows(range)[j]| then DataRows(range)[j][i] else "")
  {
    var name := SheetChoice(wb, sheet);
    var found := FindSheet(wb, name);
    if found.None? {
      return Failure(SheetNotFound(name));
    }
    var range := found.value;
    RepeatMeansDuplicate(Header(range));

    var header, dataRows := SplitRows(range);
    var series := BuildColumns(header, dataRows);
    SameElements(series, Transpose(range));

    if HasRepeat(header) {
      return Failure(DuplicateColumn(RepeatedName(header)));
    }
    return Success(series);
  }

  /** The first loop: the header cells, then each data row, copied cell by cell. */
  method SplitRows(range: Grid) returns (header: seq<string>, dataRows: Grid)
    ensures header == Header(range) && dataRows == DataRows(range)
  {
    header := [];
    dataRows := [];
    var rowIdx := 0;
    while rowIdx < |range|
      invariant 0 <= rowIdx <= |range|
      invariant header == if rowIdx == 0 then [] else range[0]
      invariant |dataRows| == if rowIdx == 0 then 0 else rowIdx - 1
      invariant forall j :: 0 <= j < |dataRows| ==> dataRows[j] == range[j + 1]
    {
      var row := range[rowIdx];
      if rowIdx == 0 {
        var c := 0;
        while c < |row|
          invariant 0 <= c <= |row| && header == row[..c]
        {
          header := header + [row[c]];
          c := c + 1;
        }
        assert row[..|row|] == row;
      } else {
        var dataRow: seq<string> := [];
        var c := 0;
        while c < |row|
          invariant 0 <= c <= |row| && dataRow == row[..c]
        {
          dataRow := dataRow + [row[c]];
          c := c + 1;
        }
        assert row[..|row|] == row;
        dataRows := dataRows + [dataRow];
      }
      rowIdx := rowIdx + 1;
    }
    SameElements(dataRows, DataRows(range));
  }

  /** The second loop: one column per header cell, "" where a row is too short. */
  method BuildColumns(header: seq<string>, dataRows: Grid) returns (series: seq<Column>)
    ensures |series| == |header|
    ensures forall i :: 0 <= i < |header| ==> series[i] == Column(header[i], ColumnOf(dataRows, i))
  {
    series := [];
    for colIdx := 0 to |header|
      invariant |series| == colIdx
      invariant forall i :: 0 <= i < colIdx ==> series[i] == Column(header[i], ColumnOf(dataRows, i))
    {
      var columnData: seq<string> := [];
      for j := 0 to |dataRows|
        invariant |columnData| == j
        invariant forall k :: 0 <= k < j ==> columnData[k] == Cell(dataRows[k], colIdx)
      {
        if colIdx < |dataRows[j]| {
          columnData := columnData + [dataRows[j][colIdx]];
        } else {
          columnData := columnData + [""];
        }
      }
      SameElements(columnData, ColumnOf(dataRows, colIdx));
      series := series + [Column(header[colIdx], columnData)];
    }
  }
}
