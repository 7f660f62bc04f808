/**
 * The value types shared by the SoRer driver: the column types of a schema,
 * a single decoded value (`Data`), and a typed column of optional values
 * (`Column`). A data frame is a sequence of columns, one per schema entry.
 */
module SorTypes {

  datatype Option<+T> = None | Some(value: T)

  /** The four SoR column types, widest first: String > Float > Int > Bool. */
  datatype ColumnType = Bool | Int | Float | String

  /** One value of a data frame; `Null` is a missing field. */
  datatype Data = DBool(b: bool) | DInt(i: int) | DFloat(f: real) | DString(s: string) | Null

  /** A homogeneous column: one variant per column type, each cell optional. */
  datatype Column =
    | BoolCol(bools: seq<Option<bool>>)
    | IntCol(ints: seq<Option<int>>)
    | FloatCol(floats: seq<Option<real>>)
    | StringCol(strs: seq<Option<string>>)

  type Schema = seq<ColumnType>

  /** The type tag of a column. */
  function Tag(col: Column): ColumnType
  {
    match col
    case BoolCol(_) => Bool
    case IntCol(_) => Int
    case FloatCol(_) => Float
    case StringCol(_) => String
  }

  /** The number of cells (rows) in a column. */
  function Len(col: Column): nat
  {
    match col
    case BoolCol(v) => |v|
    case IntCol(v) => |v|
    case FloatCol(v) => |v|
    case StringCol(v) => |v|
  }

  /** The value stored at row `k` of a column; an absent cell is `Null`. */
  function Cell(col: Column, k: nat): Data
    requires k < Len(col)
  {
    match col
    case BoolCol(v) => if v[k].Some? then DBool(v[k].value) else Null
    case IntCol(v) => if v[k].Some? then DInt(v[k].value) else Null
    case FloatCol(v) => if v[k].Some? then DFloat(v[k].value) else Null
    case StringCol(v) => if v[k].Some? then DString(v[k].value) else Null
  }

  /** The column read as a sequence of values, row by row. */
  function Cells(col: Column): (r: seq<Data>)
    ensures |r| == Len(col)
    ensures forall k :: 0 <= k < |r| ==> r[k] == Cell(col, k)
  {
    seq(Len(col), k requires 0 <= k < Len(col) => Cell(col, k))
  }

  /** An empty column of the given type. */
  function EmptyColumn(t: ColumnType): (col: Column)
    ensures Tag(col) == t && Len(col) == 0
  {
    match t
    case Bool => BoolCol([])
    case Int => IntCol([])
    case Float => FloatCol([])
    case String => StringCol([])
  }

  /**
   * `DataFrame::init`: one empty column per schema entry, of that entry's
   * type, in schema order.
   */
  function Init(schema: Schema): (frame: seq<Column>)
    ensures |frame| == |schema|
    ensures forall c :: 0 <= c < |frame| ==> Tag(frame[c]) == schema[c] && Cells(frame[c]) == []
  {
    seq(|schema|, c requires 0 <= c < |schema| => EmptyColumn(schema[c]))
  }

  /** The number of rows of a frame, read off its first column (0 without columns). */
  function RowCount(frame: seq<Column>): nat
  {
    if |frame| != 0 then Len(frame[0]) else 0
  }

  /**
   * A well-formed frame for `schema`: one column per schema entry, of that
   * entry's type, all of the same length.
   */
  ghost predicate WellFormed(schema: Schema, frame: seq<Column>)
  {
    && |frame| == |schema|
    && (forall c :: 0 <= c < |frame| ==> Tag(frame[c]) == schema[c])
    && (forall c :: 0 <= c < |frame| ==> Len(frame[c]) == RowCount(frame))
  }
}
