/** `union`: the rows of every input, in argument order, under one schema
    that reconciles the inputs' columns. Each distinct (name, kind) column
    becomes one output column, in first-seen order; a name seen with more
    than one kind is spelled `name_kind`; names that then collide get the
    smallest free numeric suffix. A cell an input has no column for is
    null. */
module Union {
  import opened Wrappers
  import opened Values
  import opened Sequences
  import opened Naming

  /** All input columns, table after table. */
  function AllColumns(tables: seq<Table>): seq<Column> {
    Flatten(seq(|tables|, k requires 0 <= k < |tables| => tables[k].schema))
  }

  /** The distinct (name, kind) columns, in first-seen order. */
  function OutputColumns(tables: seq<Table>): (cols: seq<Column>)
    ensures Distinct(cols)
  {
    Dedup(AllColumns(tables))
  }

  /** `name` occurs with two different kinds. */
  predicate NameHasManyKinds(name: string, cols: seq<Column>) {
    exists i, j :: 0 <= i < |cols| && 0 <= j < |cols| && cols[i].name == name && cols[j].name == name && cols[i].kind != cols[j].kind
  }

  /** A column's name before collision numbering. */
  function BaseName(c: Column, cols: seq<Column>): string {
    if NameHasManyKinds(c.name, cols) then c.name + "_" + KindName(c.kind) else c.name
  }

  function BaseNames(cols: seq<Column>): (r: seq<string>)
    ensures |r| == |cols|
    ensures forall i :: 0 <= i < |cols| ==> r[i] == BaseName(cols[i], cols)
  {
    seq(|cols|, i requires 0 <= i < |cols| => BaseName(cols[i], cols))
  }

  /** The output schema. */
  function UnionSchema(tables: seq<Table>): (s: Schema)
    ensures |s| == |OutputColumns(tables)|
    ensures forall j :: 0 <= j < |s| ==> s[j].kind == OutputColumns(tables)[j].kind
    ensures DistinctNames(s)
  {
    var cols := OutputColumns(tables);
    var names := Uniquify(BaseNames(cols));
    UniquifyDistinct(BaseNames(cols));
    seq(|cols|, j requires 0 <= j < |cols| => Column(names[j], cols[j].kind))
  }

  /** The naming rule: output column `j` is named by its base name (the
      plain name, or `name_kind` when the name is seen with more than one
      kind), followed by a numeric suffix only when that base name was
      already taken; with no base-name collision at all, no suffix is
      added. */
  lemma UnionSchemaNames(tables: seq<Table>, j: nat)
    requires j < |OutputColumns(tables)|
    ensures var cols := OutputColumns(tables);
            var c := cols[j];
            var b := if NameHasManyKinds(c.name, cols) then c.name + "_" + KindName(c.kind) else c.name;
            var name := UnionSchema(tables)[j].name;
            && (name == b || exists k :: k >= 1 && name == Suffixed(b, k))
            && (Distinct(BaseNames(cols)) ==> name == b)
  {
    var cols := OutputColumns(tables);
    var bases := BaseNames(cols);
    assert UnionSchema(tables)[j].name == Uniquify(bases)[j];
    UniquifyKeepsBase(bases, j);
    if Distinct(bases) {
      UniquifyOfDistinct(bases);
    }
  }

  /** One input row laid out under the output columns. */
  function Realign(schema: Schema, row: Row, cols: seq<Column>): (r: Row)
    ensures |r| == |cols|
    ensures forall j :: 0 <= j < |cols| ==> cols[j] !in schema ==> r[j].None?
    ensures forall j :: 0 <= j < |cols| ==> cols[j] in schema ==> r[j] == CellAt(row, FirstIndex(schema, cols[j]))
  {
    seq(|cols|, j requires 0 <= j < |cols| =>
      if cols[j] in schema then CellAt(row, FirstIndex(schema, cols[j])) else None)
  }

  function RealignAll(t: Table, cols: seq<Column>): (r: seq<Row>)
    ensures |r| == |t.rows|
    ensures forall i :: 0 <= i < |r| ==> r[i] == Realign(t.schema, t.rows[i], cols)
  {
    seq(|t.rows|, i requires 0 <= i < |t.rows| => Realign(t.schema, t.rows[i], cols))
  }

  function Parts(tables: seq<Table>): (ps: seq<seq<Row>>)
    ensures |ps| == |tables|
    ensures forall k :: 0 <= k < |tables| ==> ps[k] == RealignAll(tables[k], OutputColumns(tables))
  {
    var cols := OutputColumns(tables);
    seq(|tables|, k requires 0 <= k < |tables| => RealignAll(tables[k], cols))
  }

  /** The number of input rows, table after table. */
  function RowCount(tables: seq<Table>): nat {
    if |tables| == 0 then 0 else RowCount(tables[..|tables| - 1]) + |tables[|tables| - 1].rows|
  }

  /** Parts as long as the tables' row lists hold as many rows in all. */
  lemma {:induction false} PartsRowCount(ps: seq<seq<Row>>, tables: seq<Table>)
    requires |ps| == |tables|
    requires forall k :: 0 <= k < |tables| ==> |ps[k]| == |tables[k].rows|
    ensures TotalLength(ps) == RowCount(tables)
  {
    if |tables| > 0 {
      var n := |tables| - 1;
      PartsRowCount(ps[..n], tables[..n]);
    }
  }

  /** `union t1, t2, …`. */
  function UnionTables(tables: seq<Table>): (r: Table)
    ensures r.schema == UnionSchema(tables)
    ensures |r.rows| == TotalLength(Parts(tables))
    ensures |r.rows| == RowCount(tables)
  {
    PartsRowCount(Parts(tables), tables);
    Table(UnionSchema(tables), Flatten(Parts(tables)))
  }

  /** Input `k`'s row `i` is output row `Offset(k) + i`; each input cell
      lands in the output column of its (name, kind), and every output
      column the input lacks is null. */
  lemma UnionPlacesCells(tables: seq<Table>, k: nat, i: nat, c: nat)
    requires k < |tables| && i < |tables[k].rows| && c < |tables[k].schema|
    requires Distinct(tables[k].schema)
    ensures Offset(Parts(tables), k) + i < |UnionTables(tables).rows|
    ensures tables[k].schema[c] in OutputColumns(tables)
    ensures CellPlaced(UnionTables(tables).rows[Offset(Parts(tables), k) + i], OutputColumns(tables),
                       tables[k].schema, tables[k].rows[i], c)
  {
    var cols := OutputColumns(tables);
    var row := Realign(tables[k].schema, tables[k].rows[i], cols);
    UnionRowAt(tables, k, i);
    AllColumnsHas(tables, k, c);
    RealignPlaces(tables[k].schema, tables[k].rows[i], cols, c);
    assert forall j :: 0 <= j < |cols| && cols[j] == tables[k].schema[c] ==> row[j] == CellAt(tables[k].rows[i], c);
    assert forall j :: 0 <= j < |cols| && cols[j] !in tables[k].schema ==> row[j].None?;
  }

  /** `out` is input row `row` of schema `schema` laid out under `cols`:
      column `c`'s cell sits under every output column equal to it, and
      every output column the schema lacks is null. */
  predicate CellPlaced(out: Row, cols: seq<Column>, schema: Schema, row: Row, c: nat)
    requires c < |schema|
  {
    && |out| == |cols|
    && (forall j :: 0 <= j < |cols| && cols[j] == schema[c] ==> out[j] == CellAt(row, c))
    && (forall j :: 0 <= j < |cols| && cols[j] !in schema ==> out[j].None?)
  }

  lemma UnionRowAt(tables: seq<Table>, k: nat, i: nat)
    requires k < |tables| && i < |tables[k].rows|
    ensures var p := Offset(Parts(tables), k) + i;
            && p < |UnionTables(tables).rows|
            && UnionTables(tables).rows[p] == Realign(tables[k].schema, tables[k].rows[i], OutputColumns(tables))
  {
    FlattenIndex(Parts(tables), k, i);
  }

  /** Realigning puts the cell of column `c` under every output column equal
      to it. */
  lemma RealignPlaces(schema: Schema, row: Row, cols: seq<Column>, c: nat)
    requires c < |schema| && Distinct(schema)
    ensures forall j :: 0 <= j < |cols| && cols[j] == schema[c] ==> Realign(schema, row, cols)[j] == CellAt(row, c)
  {
    assert schema[c] in schema;
    assert FirstIndex(schema, schema[c]) == c;
  }

  lemma AllColumnsHas(tables: seq<Table>, k: nat, c: nat)
    requires k < |tables| && c < |tables[k].schema|
    ensures tables[k].schema[c] in OutputColumns(tables)
  {
    var schemas := seq(|tables|, k requires 0 <= k < |tables| => tables[k].schema);
    FlattenIndex(schemas, k, c);
    var all := AllColumns(tables);
    var p := Offset(schemas, k) + c;
    assert all[p] == tables[k].schema[c];
  }

  /** Every output row is an input row realigned. */
  lemma UnionRowOrigin(tables: seq<Table>, p: nat)
    requires p < |UnionTables(tables).rows|
    ensures var at := Locate(Parts(tables), p);
            && at.0 < |tables| && at.1 < |tables[at.0].rows|
            && UnionTables(tables).rows[p] == Realign(tables[at.0].schema, tables[at.0].rows[at.1], OutputColumns(tables))
  {
    var ps := Parts(tables);
    assert UnionTables(tables).rows == Flatten(ps);
    var at := Locate(ps, p);
    var k, i := at.0, at.1;
    assert |ps[k]| == |tables[k].rows|;
    UnionRowAt(tables, k, i);
    assert Offset(ps, k) + i == p;
  }

  /** Well-formed inputs give a well-formed output: every cell has its
      output column's kind. */
  lemma UnionWellFormed(tables: seq<Table>)
    requires forall k :: 0 <= k < |tables| ==> WellFormed(tables[k])
    ensures WellFormed(UnionTables(tables))
  {
    var out := UnionTables(tables);
    var cols := OutputColumns(tables);
    forall p | 0 <= p < |out.rows|
      ensures |out.rows[p]| == |out.schema|
      ensures forall j :: 0 <= j < |out.schema| ==> CellOfKind(out.rows[p][j], out.schema[j].kind)
    {
      UnionRowOrigin(tables, p);
      var at := Locate(Parts(tables), p);
      var k, i := at.0, at.1;
      forall j | 0 <= j < |out.schema|
        ensures CellOfKind(out.rows[p][j], out.schema[j].kind)
      {
        if cols[j] in tables[k].schema {
          var c := FirstIndex(tables[k].schema, cols[j]);
          assert tables[k].schema[c].kind == cols[j].kind;
          assert c < |tables[k].rows[i]| ==> CellOfKind(tables[k].rows[i][c], tables[k].schema[c].kind);
        }
      }
    }
  }

  /** Inputs that all have one schema with distinct names are simply
      concatenated under that schema. */
  lemma UnionOfSameSchema(tables: seq<Table>, schema: Schema)
    requires |tables| >= 1
    requires DistinctNames(schema)
    requires forall k :: 0 <= k < |tables| ==> tables[k].schema == schema && WellFormed(tables[k])
    ensures UnionTables(tables).schema == schema
    ensures UnionTables(tables).rows == Flatten(seq(|tables|, k requires 0 <= k < |tables| => tables[k].rows))
  {
    SameSchemaColumns(tables, schema);
    SameSchemaNames(tables, schema);
    SameSchemaRows(tables, schema);
  }

  lemma SameSchemaNames(tables: seq<Table>, schema: Schema)
    requires DistinctNames(schema)
    requires OutputColumns(tables) == schema
    ensures UnionSchema(tables) == schema
  {
    BaseNamesOfDistinct(schema);
    UniquifyOfDistinct(Names(schema));
  }

  /** With distinct names no name has many kinds, so every base name is the
      column's own name. */
  lemma BaseNamesOfDistinct(schema: Schema)
    requires DistinctNames(schema)
    ensures BaseNames(schema) == Names(schema)
    ensures Distinct(Names(schema))
  {
    forall i | 0 <= i < |schema|
      ensures !NameHasManyKinds(schema[i].name, schema)
    {
      forall a, b | 0 <= a < |schema| && 0 <= b < |schema| && schema[a].name == schema[i].name && schema[b].name == schema[i].name
        ensures schema[a].kind == schema[b].kind
      {
        assert a == b;
      }
    }
  }

  lemma SameSchemaRows(tables: seq<Table>, schema: Schema)
    requires DistinctNames(schema)
    requires OutputColumns(tables) == schema
    requires forall k :: 0 <= k < |tables| ==> tables[k].schema == schema && WellFormed(tables[k])
    ensures Parts(tables) == seq(|tables|, k requires 0 <= k < |tables| => tables[k].rows)
  {
    var parts := Parts(tables);
    var rows := seq(|tables|, k requires 0 <= k < |tables| => tables[k].rows);
    forall k | 0 <= k < |tables|
      ensures parts[k] == rows[k]
    {
      forall i | 0 <= i < |tables[k].rows|
        ensures parts[k][i] == tables[k].rows[i]
      {
        RealignSameSchema(schema, tables[k].rows[i]);
      }
    }
  }

  /** A row realigned to its own distinct-named schema is unchanged. */
  lemma RealignSameSchema(schema: Schema, row: Row)
    requires DistinctNames(schema) && |row| == |schema|
    ensures Realign(schema, row, schema) == row
  {
    forall j | 0 <= j < |schema|
      ensures Realign(schema, row, schema)[j] == row[j]
    {
      assert schema[j] in schema;
      var c := FirstIndex(schema, schema[j]);
      assert schema[c].name == schema[j].name;
    }
  }

  lemma SameSchemaColumns(tables: seq<Table>, schema: Schema)
    requires |tables| >= 1
    requires DistinctNames(schema)
    requires forall k :: 0 <= k < |tables| ==> tables[k].schema == schema
    ensures OutputColumns(tables) == schema
  {
    var all := AllColumns(tables);
    var cols := Dedup(all);
    var schemas := seq(|tables|, k requires 0 <= k < |tables| => tables[k].schema);
    DistinctNamesDistinct(schema);
    DedupOfDistinct(schema);
    SameSchemaFlatten(schemas, schema);
  }

  lemma DistinctNamesDistinct(schema: Schema)
    requires DistinctNames(schema)
    ensures Distinct(schema)
  {
  }

  /** Deduplicating repeated copies of one distinct sequence gives it once. */
  lemma {:induction false} SameSchemaFlatten(schemas: seq<Schema>, schema: Schema)
    requires |schemas| >= 1 && Distinct(schema)
    requires forall k :: 0 <= k < |schemas| ==> schemas[k] == schema
    ensures Dedup(Flatten(schemas)) == schema
  {
    var n := |schemas| - 1;
    if n == 0 {
      assert schemas == [schema];
      FlattenOne(schema);
      DedupOfDistinct(schema);
    } else {
      SameSchemaFlatten(schemas[..n], schema);
      assert schemas[..n + 1] == schemas;
      forall i | 0 <= i < |schema|
        ensures schema[i] in Flatten(schemas[..n])
      {
        assert schema[i] in Dedup(Flatten(schemas[..n]));
      }
      DedupAppendSeen(Flatten(schemas[..n]), schema);
    }
  }
}
