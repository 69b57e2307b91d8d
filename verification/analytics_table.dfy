/** The analytics tables: a header cell per column and, for every row, one
    cell per column, as a pure grid. */
module AnalyticsTable {
  import opened Wrappers
  import opened JsText
  import opened AnalyticsFormat

  /** A table cell's source value; a key the record lacks reads as `Undefined`. */
  datatype CellValue = Undefined | Null | Num(n: real) | Text(s: string) | Flag(b: bool)

  type Record = map<string, CellValue>

  /** A column: the record key it shows, its header label, an optional formatter. */
  datatype Column = Column(key: string, header: string, formatter: Option<CellValue -> string>)

  datatype BodyRow = BodyRow(className: string, cells: seq<string>)

  datatype Table = Table(title: string, header: seq<string>, body: seq<BodyRow>)

  /** `row[column.key]`. */
  function Lookup(row: Record, key: string): CellValue {
    if key in row then row[key] else Undefined
  }

  /** `String(value ?? '')`; fractional numbers print as the runtime's
      `fraction` says. */
  function CellString(v: CellValue, fraction: real -> string): (s: string)
    ensures v.Undefined? || v.Null? ==> s == ""
    ensures v.Text? ==> s == v.s
    ensures v.Num? && IsIntegral(v.n) ==> ParseInt(s) == Some(v.n.Floor)
  {
    match v
    case Undefined => ""
    case Null => ""
    case Num(n) =>
      IntToStringRoundTrip(n.Floor);
      NumberToString(n, fraction)
    case Text(s) => s
    case Flag(b) => if b then "true" else "false"
  }

  /** One cell: the column's formatter if it has one, else the plain string. */
  function Cell(column: Column, row: Record, fraction: real -> string): (s: string)
    ensures column.formatter.Some? ==> s == column.formatter.value(Lookup(row, column.key))
    ensures column.formatter.None? && column.key !in row ==> s == ""
    ensures column.formatter.None? ==> s == CellString(Lookup(row, column.key), fraction)
  {
    match column.formatter
    case Some(f) => f(Lookup(row, column.key))
    case None => CellString(Lookup(row, column.key), fraction)
  }

  /** The class of the row at zero-based position `i`. */
  function RowClass(i: nat): string {
    "row-" + IntToString(i + 1)
  }

  /** Row classes are distinct: the one-based position reads back from the class. */
  lemma RowClassNumbers(i: nat)
    ensures |RowClass(i)| > 4 && RowClass(i)[..4] == "row-"
    ensures ParseInt(RowClass(i)[4..]) == Some(i + 1)
  {
    assert RowClass(i)[4..] == IntToString(i + 1);
    IntToStringRoundTrip(i + 1);
  }

  /** The cells of one row, one per column. */
  function RowCells(columns: seq<Column>, row: Record, fraction: real -> string): (cells: seq<string>)
    ensures |cells| == |columns|
    ensures forall j :: 0 <= j < |columns| ==> cells[j] == Cell(columns[j], row, fraction)
  {
    seq(|columns|, j requires 0 <= j < |columns| => Cell(columns[j], row, fraction))
  }

  /** The cells of a four-column row, column by column. */
  lemma FourCells(c0: Column, c1: Column, c2: Column, c3: Column, row: Record, fraction: real -> string)
    ensures RowCells([c0, c1, c2, c3], row, fraction)
      == [Cell(c0, row, fraction), Cell(c1, row, fraction), Cell(c2, row, fraction), Cell(c3, row, fraction)]
  {
    var cells := RowCells([c0, c1, c2, c3], row, fraction);
    assert cells[0] == Cell(c0, row, fraction) && cells[1] == Cell(c1, row, fraction);
    assert cells[2] == Cell(c2, row, fraction) && cells[3] == Cell(c3, row, fraction);
  }

  /** `AnalyticsTable`. */
  function Grid(title: string, columns: seq<Column>, rows: seq<Record>, fraction: real -> string): (t: Table)
    ensures t.title == title
    ensures |t.header| == |columns|
    ensures forall j :: 0 <= j < |columns| ==> t.header[j] == columns[j].header
    ensures |t.body| == |rows|
    ensures forall i :: 0 <= i < |rows| ==> t.body[i].className == RowClass(i)
    ensures forall i :: 0 <= i < |rows| ==> |t.body[i].cells| == |columns|
    ensures forall i, j :: 0 <= i < |rows| && 0 <= j < |columns| ==>
      t.body[i].cells[j] == Cell(columns[j], rows[i], fraction)
    ensures forall i :: 0 <= i < |rows| ==> t.body[i].cells == RowCells(columns, rows[i], fraction)
  {
    var header := seq(|columns|, j requires 0 <= j < |columns| => columns[j].header);
    var body := seq(|rows|, i requires 0 <= i < |rows| =>
      BodyRow(RowClass(i), RowCells(columns, rows[i], fraction)));
    Table(title, header, body)
  }
}
