/** `distinct`: the distinct tuples of the named columns (or of all columns,
    for `*`), in the order each first occurs. */
module Distinct {
  import opened Wrappers
  import opened Values
  import opened Sequences

  /** The cells of `row` in the given columns, in that order. */
  function Project(row: Row, columns: seq<nat>): (r: Row)
    ensures |r| == |columns|
    ensures forall i :: 0 <= i < |columns| ==> r[i] == CellAt(row, columns[i])
  {
    seq(|columns|, i requires 0 <= i < |columns| => CellAt(row, columns[i]))
  }

  function ProjectAll(rows: seq<Row>, columns: seq<nat>): (r: seq<Row>)
    ensures |r| == |rows|
    ensures forall i :: 0 <= i < |rows| ==> r[i] == Project(rows[i], columns)
  {
    seq(|rows|, i requires 0 <= i < |rows| => Project(rows[i], columns))
  }

  /** The columns `distinct` keeps: the named ones, or all for `*`. */
  function SelectedColumns(t: Table, columns: Option<seq<nat>>): (cols: seq<nat>)
    ensures columns.Some? ==> cols == columns.value
    ensures columns.None? ==> |cols| == |t.schema| && forall i :: 0 <= i < |cols| ==> cols[i] == i
  {
    match columns
    case Some(c) => c
    case None => seq(|t.schema|, i requires 0 <= i < |t.schema| => i)
  }

  /** `distinct c1, c2, …` (or `distinct *` when `columns` is `None`). */
  function DistinctRows(t: Table, columns: Option<seq<nat>>): (r: Table)
    requires forall i :: 0 <= i < |SelectedColumns(t, columns)| ==> SelectedColumns(t, columns)[i] < |t.schema|
    ensures var cols := SelectedColumns(t, columns);
            && |r.schema| == |cols|
            && (forall i :: 0 <= i < |cols| ==> r.schema[i] == t.schema[cols[i]])
    ensures Distinct(r.rows)
    ensures forall i :: 0 <= i < |r.rows| ==> exists j :: 0 <= j < |t.rows| && r.rows[i] == Project(t.rows[j], SelectedColumns(t, columns))
    ensures forall j :: 0 <= j < |t.rows| ==> Project(t.rows[j], SelectedColumns(t, columns)) in r.rows
  {
    var cols := SelectedColumns(t, columns);
    var keys := ProjectAll(t.rows, cols);
    var rows := Dedup(keys);
    assert forall i :: 0 <= i < |rows| ==> rows[i] in keys;
    Table(seq(|cols|, i requires 0 <= i < |cols| => t.schema[cols[i]]), rows)
  }

  /** Output rows appear in the order of their first occurrence among the
      projected input rows. */
  lemma DistinctFirstSeen(t: Table, columns: Option<seq<nat>>, i: int, j: int)
    requires forall k :: 0 <= k < |SelectedColumns(t, columns)| ==> SelectedColumns(t, columns)[k] < |t.schema|
    requires 0 <= i < j < |DistinctRows(t, columns).rows|
    ensures var keys := ProjectAll(t.rows, SelectedColumns(t, columns));
            var out := DistinctRows(t, columns).rows;
            FirstIndex(keys, out[i]) < FirstIndex(keys, out[j])
  {
    DedupFirstSeenOrder(ProjectAll(t.rows, SelectedColumns(t, columns)), i, j);
  }

  /** `distinct *` over well-formed rows without repetitions returns them
      unchanged. */
  lemma DistinctStarOfDistinct(t: Table)
    requires WellFormed(t) && Distinct(t.rows)
    ensures DistinctRows(t, None).rows == t.rows
  {
    var cols := SelectedColumns(t, None);
    var keys := ProjectAll(t.rows, cols);
    forall j | 0 <= j < |t.rows|
      ensures keys[j] == t.rows[j]
    {
      assert |t.rows[j]| == |t.schema|;
    }
    assert keys == t.rows;
    DedupOfDistinct(t.rows);
  }
}
