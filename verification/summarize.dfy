/** `summarize count() by e1, e2, …`: one output row per distinct tuple of
    by-values, in the order each tuple first occurs, holding the tuple and
    the number of input rows that produced it, in a `long` column named
    `count_`. Without by-expressions the output is a single row holding the
    number of input rows. The by-expressions themselves are evaluated
    elsewhere; the operator sees each row's tuple of by-values. */
module Summarize {
  import opened Wrappers
  import opened Values
  import opened Sequences

  /** The aggregate column `count()` adds. */
  const CountColumn := Column("count_", KLong)

  /** The groups: the distinct by-tuples in first-seen order, or a single
      group of every row when there are no by-expressions. */
  function Groups(byColumns: Schema, keys: seq<Row>): seq<Row> {
    if |byColumns| == 0 then [[]] else Dedup(keys)
  }

  /** One output row per group: its by-values and its row count. */
  function GroupRows(groups: seq<Row>, keys: seq<Row>): (r: seq<Row>)
    ensures |r| == |groups|
    ensures forall g :: 0 <= g < |groups| ==> r[g] == groups[g] + [Some(VLong(multiset(keys)[groups[g]]))]
  {
    seq(|groups|, g requires 0 <= g < |groups| => groups[g] + [Some(VLong(multiset(keys)[groups[g]]))])
  }

  /** `keys[i]` is the tuple of by-values of input row `i`. */
  function SummarizeCount(byColumns: Schema, keys: seq<Row>): (t: Table)
    requires forall i :: 0 <= i < |keys| ==> |keys[i]| == |byColumns|
    ensures t.schema == byColumns + [CountColumn]
    ensures forall p :: 0 <= p < |t.rows| ==> |t.rows[p]| == |byColumns| + 1
    ensures forall p :: 0 <= p < |t.rows| ==>
              t.rows[p][|byColumns|] == Some(VLong(multiset(keys)[t.rows[p][..|byColumns|]]))
  {
    var groups := Groups(byColumns, keys);
    var rows := GroupRows(groups, keys);
    assert forall p :: 0 <= p < |rows| ==> rows[p][..|groups[p]|] == groups[p];
    Table(byColumns + [CountColumn], rows)
  }

  /** With by-expressions, the output tuples are pairwise distinct, each is
      the tuple of some input row, and each input row's tuple is output. */
  lemma SummarizeGroups(byColumns: Schema, keys: seq<Row>)
    requires |byColumns| > 0
    requires forall i :: 0 <= i < |keys| ==> |keys[i]| == |byColumns|
    ensures var rows := SummarizeCount(byColumns, keys).rows;
            && Distinct(KeyParts(rows, |byColumns|))
            && (forall p :: 0 <= p < |rows| ==> rows[p][..|byColumns|] in keys)
            && (forall i :: 0 <= i < |keys| ==> exists p :: 0 <= p < |rows| && rows[p][..|byColumns|] == keys[i])
  {
    var groups := Groups(byColumns, keys);
    var rows := SummarizeCount(byColumns, keys).rows;
    assert forall p :: 0 <= p < |rows| ==> rows[p][..|byColumns|] == groups[p];
    assert KeyParts(rows, |byColumns|) == groups;
    forall i | 0 <= i < |keys|
      ensures exists p :: 0 <= p < |rows| && rows[p][..|byColumns|] == keys[i]
    {
      assert keys[i] in groups;
      var p :| 0 <= p < |groups| && groups[p] == keys[i];
    }
  }

  /** The first `width` cells of each row. */
  function KeyParts(rows: seq<Row>, width: nat): (r: seq<Row>)
    requires forall p :: 0 <= p < |rows| ==> |rows[p]| >= width
    ensures |r| == |rows|
    ensures forall p :: 0 <= p < |rows| ==> r[p] == rows[p][..width]
  {
    seq(|rows|, p requires 0 <= p < |rows| => rows[p][..width])
  }

  /** Groups come out in the order their tuples first occur in the input. */
  lemma SummarizeFirstSeen(byColumns: Schema, keys: seq<Row>, p: int, q: int)
    requires |byColumns| > 0
    requires forall i :: 0 <= i < |keys| ==> |keys[i]| == |byColumns|
    requires 0 <= p < q < |SummarizeCount(byColumns, keys).rows|
    ensures var rows := SummarizeCount(byColumns, keys).rows;
            FirstIndex(keys, rows[p][..|byColumns|]) < FirstIndex(keys, rows[q][..|byColumns|])
  {
    var rows := SummarizeCount(byColumns, keys).rows;
    DedupFirstSeenOrder(keys, p, q);
    assert rows[p][..|byColumns|] == Dedup(keys)[p];
    assert rows[q][..|byColumns|] == Dedup(keys)[q];
  }

  /** The `long` in the last cell of a row, 0 if there is none. */
  function CountIn(row: Row): int {
    if |row| > 0 && row[|row| - 1].Some? && row[|row| - 1].value.VLong? then row[|row| - 1].value.l else 0
  }

  function TotalCount(rows: seq<Row>): int {
    if |rows| == 0 then 0 else CountIn(rows[0]) + TotalCount(rows[1..])
  }

  lemma {:induction false} TotalOfGroupRows(groups: seq<Row>, keys: seq<Row>)
    ensures TotalCount(GroupRows(groups, keys)) == SumOfCounts(groups, keys)
  {
    if |groups| > 0 {
      TotalOfGroupRows(groups[1..], keys);
      assert GroupRows(groups, keys)[1..] == GroupRows(groups[1..], keys);
    }
  }

  /** Every input row is counted exactly once: the counts add up to the
      number of input rows. */
  lemma SummarizeCountsAddUp(byColumns: Schema, keys: seq<Row>)
    requires forall i :: 0 <= i < |keys| ==> |keys[i]| == |byColumns|
    ensures TotalCount(SummarizeCount(byColumns, keys).rows) == |keys|
  {
    var groups := Groups(byColumns, keys);
    TotalOfGroupRows(groups, keys);
    if |byColumns| > 0 {
      SumOfCountsDedup(keys);
    } else {
      AllEmpty(keys);
    }
  }

  lemma {:induction false} AllEmpty(keys: seq<Row>)
    requires forall i :: 0 <= i < |keys| ==> |keys[i]| == 0
    ensures multiset(keys)[[]] == |keys|
  {
    if |keys| > 0 {
      var n := |keys| - 1;
      AllEmpty(keys[..n]);
      assert keys == keys[..n] + [keys[n]];
      assert keys[n] == [];
    }
  }

  /** Without by-expressions there is exactly one row: the number of input
      rows, even when there are none. */
  lemma SummarizeNoBy(keys: seq<Row>)
    requires forall i :: 0 <= i < |keys| ==> |keys[i]| == 0
    ensures SummarizeCount([], keys) == Table([CountColumn], [[Some(VLong(|keys|))]])
  {
    AllEmpty(keys);
  }
}
