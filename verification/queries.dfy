/**
 * The query step of the SoRer driver: the frame's column and line counts,
 * and the three command-line queries, each checked against those counts
 * before the frame or the schema is indexed.
 */
module Queries {
  import opened SorTypes

  /** The query named on the command line. */
  datatype Query =
    | PrintColIdx(col: nat, row: nat)
    | IsMissingIdx(col: nat, row: nat)
    | PrintColType(col: nat)

  /** What the driver prints, or a panic of an indexing operation. */
  datatype Reply =
    | TooFewFields(numCols: nat)
    | TooFewLines(numLines: nat)
    | Value(value: Data)
    | MissingFlag(flag: nat)
    | TypeName(name: string)
    | Panic

  /** The upper-cased debug name of a column type. */
  function TypeNameOf(t: ColumnType): string
  {
    match t
    case Bool => "BOOL"
    case Int => "INT"
    case Float => "FLOAT"
    case String => "STRING"
  }

  /**
   * `get(col, row)` on the frame: the cell, or `None` where indexing the
   * column would panic.
   */
  function Get(frame: seq<Column>, col: nat, row: nat): (r: Option<Data>)
    requires col < |frame|
    ensures r.Some? <==> row < Len(frame[col])
    ensures r.Some? ==> r.value == Cells(frame[col])[row]
  {
    if row < Len(frame[col]) then Some(Cell(frame[col], row)) else None
  }

  /**
   * Answers a query on the merged frame. The two cell queries check the
   * column bound first, then the row bound against the length of column 0,
   * and only then read the cell; the type query checks only the column
   * bound and then reads the schema.
   */
  function Answer(schema: Schema, frame: seq<Column>, q: Query): (r: Reply)
    ensures q.PrintColIdx? || q.IsMissingIdx? ==>
              && (r.TooFewFields? <==> q.col >= |frame|)
              && (r.TooFewLines? <==> q.col < |frame| && q.row >= RowCount(frame))
              && (r.Panic? <==> q.col < |frame| && RowCount(frame) > q.row >= Len(frame[q.col]))
    ensures q.PrintColType? ==>
              && (r.TooFewFields? <==> q.col >= |frame|)
              && (r.Panic? <==> |schema| <= q.col < |frame|)
              && (r.TypeName? ==> r.name == TypeNameOf(schema[q.col]))
    ensures r.TooFewFields? ==> r.numCols == |frame|
    ensures r.TooFewLines? ==> r.numLines == RowCount(frame)
    ensures r.Value? ==> q.PrintColIdx? && q.row < Len(frame[q.col]) && r.value == Cells(frame[q.col])[q.row]
    ensures r.MissingFlag? ==> q.IsMissingIdx? && q.row < Len(frame[q.col])
    ensures r.MissingFlag? ==> r.flag <= 1 && (r.flag == 1 <==> Cells(frame[q.col])[q.row] == Null)
    ensures r.Value? <==> q.PrintColIdx? && q.col < |frame| && q.row < RowCount(frame) && q.row < Len(frame[q.col])
    ensures r.MissingFlag? <==> q.IsMissingIdx? && q.col < |frame| && q.row < RowCount(frame) && q.row < Len(frame[q.col])
    ensures r.TypeName? <==> q.PrintColType? && q.col < |frame| && q.col < |schema|
  {
    var numCols := |frame|;
    var numLines := RowCount(frame);
    match q
    case PrintColIdx(n1, n2) =>
      if n1 >= numCols then TooFewFields(numCols)
      else if n2 >= numLines then TooFewLines(numLines)
      else (match Get(frame, n1, n2) case Some(d) => Value(d) case None => Panic)
    case IsMissingIdx(n1, n2) =>
      if n1 >= numCols then TooFewFields(numCols)
      else if n2 >= numLines then TooFewLines(numLines)
      else (match Get(frame, n1, n2) case Some(d) => MissingFlag(if d == Null then 1 else 0) case None => Panic)
    case PrintColType(n) =>
      if n >= numCols then TooFewFields(numCols)
      else if n < |schema| then TypeName(TypeNameOf(schema[n]))
      else Panic
  }

  /**
   * On a well-formed frame no query panics: a cell query whose column and
   * row are both in range yields the cell or its missing flag, and a type query whose column is
   * in range yields that column's type.
   */
  lemma NoPanicOnWellFormed(schema: Schema, frame: seq<Column>, q: Query)
    requires WellFormed(schema, frame)
    ensures !Answer(schema, frame, q).Panic?
    ensures q.PrintColIdx? && q.col < |frame| && q.row < RowCount(frame) ==>
              Answer(schema, frame, q) == Value(Cells(frame[q.col])[q.row])
    ensures q.IsMissingIdx? && q.col < |frame| && q.row < RowCount(frame) ==>
              Answer(schema, frame, q) == MissingFlag(if Cells(frame[q.col])[q.row] == Null then 1 else 0)
    ensures q.PrintColType? && q.col < |frame| ==>
              Answer(schema, frame, q) == TypeName(TypeNameOf(Tag(frame[q.col])))
  {
  }
}
