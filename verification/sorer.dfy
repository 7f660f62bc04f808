/**
 * The SoRer driver end to end: plan the chunks, decode each chunk with its
 * own worker, merge the workers' frames in spawn order, and answer the query.
 * Decoding a chunk (`DataFrame::from_file`) is a parameter of the model.
 */
module Sorer {
  import opened SorTypes
  import opened ChunkPlanner
  import opened ColumnMerger
  import opened Queries

  /** The number of worker threads the driver spawns. */
  const NUM_THREADS: nat := 8

  /** The frame each worker returns, indexed by the worker's spawn position. */
  function Partials(plan: seq<Chunk>, schema: Schema, decode: (Schema, nat, nat) -> seq<Column>): seq<seq<Column>>
  {
    seq(|plan|, t requires 0 <= t < |plan| => decode(schema, plan[t].start, plan[t].len))
  }

  /**
   * The reply the driver owes, stated on the merged cell sequences alone:
   * a panic if two paired columns disagree on their type; otherwise the
   * bound errors in the order the driver checks them, and the cell, its
   * missing flag or the column type.
   */
  ghost function Expected(schema: Schema, partials: seq<seq<Column>>, q: Query): Reply
  {
    if Mismatch(schema, partials) then Panic
    else
      var numLines := if |schema| > 0 then |MergedCells(partials, 0)| else 0;
      match q
      case PrintColIdx(c, k) =>
        if c >= |schema| then TooFewFields(|schema|)
        else if k >= numLines then TooFewLines(numLines)
        else if k < |MergedCells(partials, c)| then Value(MergedCells(partials, c)[k])
        else Panic
      case IsMissingIdx(c, k) =>
        if c >= |schema| then TooFewFields(|schema|)
        else if k >= numLines then TooFewLines(numLines)
        else if k < |MergedCells(partials, c)| then MissingFlag(if MergedCells(partials, c)[k] == Null then 1 else 0)
        else Panic
      case PrintColType(c) =>
        if c >= |schema| then TooFewFields(|schema|) else TypeName(TypeNameOf(schema[c]))
  }

  /**
   * The driver: the reply is the one owed for the frames the workers return
   * on the planned chunks.
   */
  method Run(file: seq<bv8>, from: U64, len: U64, schema: Schema,
             decode: (Schema, nat, nat) -> seq<Column>, q: Query) returns (reply: Reply)
    requires |file| <= U64_MAX
    ensures reply == Expected(schema, Partials(Plan(file, from, Step(|file|, from, len, NUM_THREADS), NUM_THREADS), schema, decode), q)
  {
    var work := PlanWork(file, from, len, NUM_THREADS);
    var partials := Partials(work, schema, decode);
    var merged := Merge(schema, partials);
    if merged.TypeMismatch? {
      return Panic;
    }
    reply := Answer(schema, merged.frame, q);
  }

  /** When every worker returns a well-formed frame, the driver never panics. */
  lemma WellFormedRunNeverPanics(schema: Schema, partials: seq<seq<Column>>, q: Query)
    requires forall t :: 0 <= t < |partials| ==> WellFormed(schema, partials[t])
    ensures !Expected(schema, partials, q).Panic?
  {
    WellFormedPartialsMerge(schema, partials);
    if |schema| > 0 {
      assert |MergedCells(partials, 0)| == TotalRows(partials);
    }
    match q
    case PrintColIdx(c, k) =>
      assert c < |schema| ==> |MergedCells(partials, c)| == TotalRows(partials);
    case IsMissingIdx(c, k) =>
      assert c < |schema| ==> |MergedCells(partials, c)| == TotalRows(partials);
    case PrintColType(c) =>
  }
}
