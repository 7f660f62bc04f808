/**
 * The merge step of the SoRer driver: starting from one empty column per
 * schema entry, it appends every worker's partial frame, in the order the
 * workers were spawned, column by column. A partial column whose type tag
 * differs from the result column it is paired with is a fatal error.
 */
module ColumnMerger {
  import opened SorTypes

  /** Why the merge stopped: the tags of a result column and a partial column differ. */
  datatype MergeResult =
    | Merged(frame: seq<Column>)
    | TypeMismatch(thread: nat, column: nat)

  /**
   * `c1.append(c2)` on a matching pair of columns; `None` when the two
   * columns are of different types (the source panics there).
   */
  function AppendColumn(complete: Column, partial: Column): (r: Option<Column>)
    ensures r.Some? <==> Tag(complete) == Tag(partial)
    ensures r.Some? ==> Tag(r.value) == Tag(complete)
    ensures r.Some? ==> Cells(r.value) == Cells(complete) + Cells(partial)
  {
    var r := match (complete, partial)
      case (BoolCol(c1), BoolCol(c2)) => Some(BoolCol(c1 + c2))
      case (IntCol(c1), IntCol(c2)) => Some(IntCol(c1 + c2))
      case (FloatCol(c1), FloatCol(c2)) => Some(FloatCol(c1 + c2))
      case (StringCol(c1), StringCol(c2)) => Some(StringCol(c1 + c2))
      case _ => None;
    assert r.Some? ==> Cells(r.value) == Cells(complete) + Cells(partial) by {
      if r.Some? {
        var a, b := Cells(complete), Cells(partial);
        assert forall k :: 0 <= k < |a| + |b| ==> Cells(r.value)[k] == (a + b)[k];
      }
    }
    r
  }

  /**
   * The values one partial frame contributes to result column `c`: the
   * cells of its column `c`, or nothing when it has no such column (the
   * pairing of result and partial columns stops at the shorter frame).
   */
  function Contribution(partial: seq<Column>, c: nat): seq<Data>
  {
    if c < |partial| then Cells(partial[c]) else []
  }

  /** Result column `c` after merging `partials` in thread order. */
  function MergedCells(partials: seq<seq<Column>>, c: nat): seq<Data>
  {
    if |partials| == 0 then [] else Contribution(partials[0], c) + MergedCells(partials[1..], c)
  }

  /** Some partial column is paired with a result column of another type. */
  ghost predicate Mismatch(schema: Schema, partials: seq<seq<Column>>)
  {
    exists t, c :: 0 <= t < |partials| && 0 <= c < |schema| && c < |partials[t]| && Tag(partials[t][c]) != schema[c]
  }

  /** Merging two runs of partial frames one after the other is merging their concatenation. */
  lemma {:induction false} MergedCellsAppend(first: seq<seq<Column>>, second: seq<seq<Column>>, c: nat)
    ensures MergedCells(first + second, c) == MergedCells(first, c) + MergedCells(second, c)
  {
    if |first| == 0 {
      assert first + second == second;
    } else {
      assert (first + second)[1..] == first[1..] + second;
      MergedCellsAppend(first[1..], second, c);
    }
  }

  /** Merging one more partial frame appends its contribution. */
  lemma MergedCellsSnoc(partials: seq<seq<Column>>, t: nat, c: nat)
    requires t < |partials|
    ensures MergedCells(partials[..t + 1], c) == MergedCells(partials[..t], c) + Contribution(partials[t], c)
  {
    assert partials[..t + 1] == partials[..t] + [partials[t]];
    MergedCellsAppend(partials[..t], [partials[t]], c);
    assert MergedCells([partials[t]], c) == Contribution(partials[t], c) + MergedCells([], c);
  }

  /**
   * The inner loop: appends each column of one partial frame to the result
   * column it is paired with. It stops at the first pair whose types differ
   * and names that column; otherwise every paired result column gains the
   * partial column's cells and the others are unchanged.
   */
  method AppendPartial(schema: Schema, data: seq<Column>, x: seq<Column>) returns (next: seq<Column>, bad: Option<nat>)
    requires |data| == |schema|
    requires forall c :: 0 <= c < |schema| ==> Tag(data[c]) == schema[c]
    ensures bad.None? <==> forall c :: 0 <= c < |schema| && c < |x| ==> Tag(x[c]) == schema[c]
    ensures bad.Some? ==> bad.value < |schema| && bad.value < |x| && Tag(x[bad.value]) != schema[bad.value]
    ensures bad.None? ==> |next| == |schema|
    ensures bad.None? ==> forall c :: 0 <= c < |schema| ==>
              Tag(next[c]) == schema[c] && Cells(next[c]) == Cells(data[c]) + Contribution(x, c)
  {
    next := data;
    var width := if |next| < |x| then |next| else |x|;
    for c := 0 to width
      invariant |next| == |schema|
      invariant forall c' :: 0 <= c' < |schema| ==> Tag(next[c']) == schema[c']
      invariant forall c' :: 0 <= c' < c ==> Cells(next[c']) == Cells(data[c']) + Contribution(x, c')
      invariant forall c' :: c <= c' < |schema| ==> next[c'] == data[c']
      invariant forall c' :: 0 <= c' < c ==> Tag(x[c']) == schema[c']
    {
      var appended := AppendColumn(next[c], x[c]);
      if appended.None? {
        return next, Some(c);
      }
      next := next[c := appended.value];
    }
    return next, None;
  }

  /**
   * The merge loop over the joined worker results. On success the result
   * has one column per schema entry, of that entry's type, holding the
   * concatenation of the workers' columns in thread order; it fails exactly
   * when some pair of columns disagrees on its type, naming such a pair.
   */
  method Merge(schema: Schema, partials: seq<seq<Column>>) returns (r: MergeResult)
    ensures r.Merged? <==> !Mismatch(schema, partials)
    ensures r.Merged? ==> |r.frame| == |schema|
    ensures r.Merged? ==> forall c :: 0 <= c < |schema| ==>
              Tag(r.frame[c]) == schema[c] && Cells(r.frame[c]) == MergedCells(partials, c)
    ensures r.TypeMismatch? ==>
              && r.thread < |partials| && r.column < |schema| && r.column < |partials[r.thread]|
              && Tag(partials[r.thread][r.column]) != schema[r.column]
  {
    var data := Init(schema);
    for t := 0 to |partials|
      invariant |data| == |schema|
      invariant forall c :: 0 <= c < |schema| ==> Tag(data[c]) == schema[c]
      invariant forall c :: 0 <= c < |schema| ==> Cells(data[c]) == MergedCells(partials[..t], c)
      invariant forall t', c :: 0 <= t' < t && 0 <= c < |schema| && c < |partials[t']| ==> Tag(partials[t'][c]) == schema[c]
    {
      var next, bad := AppendPartial(schema, data, partials[t]);
      if bad.Some? {
        return TypeMismatch(t, bad.value);
      }
      forall c | 0 <= c < |schema|
        ensures Cells(next[c]) == MergedCells(partials[..t + 1], c)
      {
        MergedCellsSnoc(partials, t, c);
      }
      data := next;
    }
    assert partials[..|partials|] == partials;
    return Merged(data);
  }

  /** The total number of rows of a run of well-formed partial frames. */
  function TotalRows(partials: seq<seq<Column>>): nat
  {
    if |partials| == 0 then 0 else RowCount(partials[0]) + TotalRows(partials[1..])
  }

  /**
   * When every worker returns a well-formed frame for the schema, every
   * merged column holds the sum of the workers' row counts.
   */
  lemma {:induction false} MergedCellsLength(schema: Schema, partials: seq<seq<Column>>, c: nat)
    requires forall t :: 0 <= t < |partials| ==> WellFormed(schema, partials[t])
    requires c < |schema|
    ensures |MergedCells(partials, c)| == TotalRows(partials)
  {
    if |partials| != 0 {
      MergedCellsLength(schema, partials[1..], c);
    }
  }

  /**
   * Well-formed partial frames never clash, so the merge of them succeeds,
   * and every merged column holds the sum of their row counts: the merged
   * frame is well-formed again.
   */
  lemma WellFormedPartialsMerge(schema: Schema, partials: seq<seq<Column>>)
    requires forall t :: 0 <= t < |partials| ==> WellFormed(schema, partials[t])
    ensures !Mismatch(schema, partials)
    ensures forall c :: 0 <= c < |schema| ==> |MergedCells(partials, c)| == TotalRows(partials)
  {
    forall c | 0 <= c < |schema|
      ensures |MergedCells(partials, c)| == TotalRows(partials)
    {
      MergedCellsLength(schema, partials, c);
    }
  }
}
