/**
  The slice of pandas the core relies on: a table is a list of column names
  and a list of rows, each row a map from column name to cell, where a name
  absent from a row reads as NaN (as `pd.DataFrame(list_of_dicts)` fills it).
 */
module Frame {
  import opened Base
  import opened Text

  datatype Date = Date(year: nat, month: nat, day: nat)

  /** One pandas cell: a string, an `int64`, a `float64`, a datetime (`None` is NaT), or NaN. */
  datatype Cell = Str(s: string) | Whole(n: int) | Amount(x: real) | Stamp(date: Option<Date>) | Missing

  type Row = map<string, Cell>

  datatype Table = Table(columns: seq<string>, rows: seq<Row>)

  /**
    What the model takes from the Python runtime as given: `pd.to_datetime`
    with format '%d/%m/%Y' and errors='coerce' (`None` for text it cannot
    read, never an error), and `str()` of a float.
   */
  datatype Runtime = Runtime(parseDate: string -> Option<Date>, showFloat: real -> string)

  /** `pd.DataFrame()`. */
  const EmptyTable: Table := Table([], [])

  /** pandas `df.empty`: no rows or no columns. */
  predicate Empty(t: Table) {
    |t.rows| == 0 || |t.columns| == 0
  }

  /** A pandas frame never has two columns of the same name here. */
  predicate Wf(t: Table) {
    Distinct(t.columns)
  }

  /** The cell of a row in a column; a name the row lacks is NaN. */
  function Get(row: Row, col: string): Cell {
    if col in row then row[col] else Missing
  }

  /** Python `str()` of a cell, as `astype(str)` writes it. */
  function Render(rt: Runtime, c: Cell): string {
    match c
    case Str(s) => s
    case Whole(n) => ShowInt(n)
    case Amount(x) => rt.showFloat(x)
    case Stamp(None) => "NaT"
    case Stamp(Some(d)) => PadDigits(d.year, 4) + "-" + PadDigits(d.month, 2) + "-" + PadDigits(d.day, 2)
    case Missing => "nan"
  }

  /** A cell's contribution to a pandas `sum()`: numbers count, NaN and anything else add nothing. */
  function CellValue(c: Cell): real {
    match c
    case Amount(x) => x
    case Whole(n) => n as real
    case _ => 0.0
  }

  /**
    `for c in cols: if c in df.columns: df[c] = f(df[c])`, for a list that
    names no column twice: every listed column the table has is rewritten
    once, and every other cell is left alone.
   */
  function MapColumns(t: Table, cols: seq<string>, f: Cell -> Cell): (r: Table)
    ensures r.columns == t.columns && |r.rows| == |t.rows|
    ensures forall i, k :: 0 <= i < |t.rows| && (k !in cols || k !in t.columns) ==>
      Get(r.rows[i], k) == Get(t.rows[i], k)
    ensures forall i, k :: 0 <= i < |t.rows| && k in cols && k in t.columns ==>
      Get(r.rows[i], k) == f(Get(t.rows[i], k))
  {
    Table(t.columns, seq(|t.rows|, i requires 0 <= i < |t.rows| => MapRow(t.rows[i], t.columns, cols, f)))
  }

  /** One row of `MapColumns`. */
  function MapRow(row: Row, columns: seq<string>, cols: seq<string>, f: Cell -> Cell): (r: Row)
    ensures forall k :: (k !in cols || k !in columns) ==> Get(r, k) == Get(row, k)
    ensures forall k :: k in cols && k in columns ==> Get(r, k) == f(Get(row, k))
  {
    map k | k in row.Keys + (set c | c in cols && c in columns) ::
      if k in cols && k in columns then f(Get(row, k)) else row[k]
  }

  /**
    Two column rewrites in a row, the second over `dcols`: a date column
    ends with the second function's result, a value column that is not a
    date column with the first's, and every other cell is left alone.
   */
  lemma TwoPasses(t: Table, vcols: seq<string>, f: Cell -> Cell, dcols: seq<string>, g: Cell -> Cell, v: Table, r: Table)
    requires v == MapColumns(t, vcols, f) && r == MapColumns(v, dcols, g)
    ensures r.columns == t.columns && |r.rows| == |t.rows|
    ensures forall i, k :: 0 <= i < |t.rows| && (k !in vcols || k !in t.columns) && k !in dcols ==>
      Get(r.rows[i], k) == Get(t.rows[i], k)
    ensures forall i, k :: 0 <= i < |t.rows| && k in t.columns && k in vcols && k !in dcols ==>
      Get(r.rows[i], k) == f(Get(t.rows[i], k))
    ensures forall i, k :: 0 <= i < |t.rows| && k in t.columns && k in dcols ==>
      Get(r.rows[i], k) == g(Get(v.rows[i], k))
  {
  }

  /** `f` of a column's cells, added over the rows. */
  function SumBy(rows: seq<Row>, col: string, f: Cell -> real): real
    decreases |rows|
  {
    if |rows| == 0 then 0.0 else f(Get(rows[0], col)) + SumBy(rows[1..], col, f)
  }

  /** pandas `df[col].sum()` over numeric cells, NaN skipped. */
  function ColumnSum(rows: seq<Row>, col: string): real {
    SumBy(rows, col, CellValue)
  }

  /** Sums agree when the summed values agree row by row. */
  lemma {:induction false} SumByPointwise(r1: seq<Row>, c1: string, f1: Cell -> real,
                                          r2: seq<Row>, c2: string, f2: Cell -> real)
    requires |r1| == |r2|
    requires forall i :: 0 <= i < |r1| ==> f1(Get(r1[i], c1)) == f2(Get(r2[i], c2))
    ensures SumBy(r1, c1, f1) == SumBy(r2, c2, f2)
    decreases |r1|
  {
    if |r1| > 0 {
      assert f1(Get(r1[0], c1)) == f2(Get(r2[0], c2));
      SumByPointwise(r1[1..], c1, f1, r2[1..], c2, f2);
    }
  }

  /** A column whose every cell is `Amount(g(...))` of an original column sums to the sum of `g`. */
  lemma MappedSum(orig: seq<Row>, rows: seq<Row>, col: string, g: Cell -> real)
    requires |orig| == |rows|
    requires forall i :: 0 <= i < |rows| ==> Get(rows[i], col) == Amount(g(Get(orig[i], col)))
    ensures ColumnSum(rows, col) == SumBy(orig, col, g)
  {
    SumByPointwise(rows, col, CellValue, orig, col, g);
  }
}
