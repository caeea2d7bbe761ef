/** The end-to-end scenarios of `distinct` and `union`, stated on the
    model's operations with the tables of each scenario. */
module RelationalScenarios {
  import opened Wrappers
  import opened Values
  import opened Sequences
  import opened Naming
  import opened Text
  import opened Distinct
  import opened Union

  function Str(s: string): Cell {
    Some(VString(s))
  }

  function Real(x: real): Cell {
    Some(VReal(x))
  }

  // ---------------------------------------------------------------------
  // distinct

  const Counters := Table(
    [Column("AppMachine", KString), Column("CounterName", KString), Column("CounterValue", KReal)],
    [[Str("vm0"), Str("cpu"), Real(50.0)],
     [Str("vm0"), Str("mem"), Real(30.0)],
     [Str("vm1"), Str("cpu"), Real(20.0)]])

  lemma ProjectFirst(row: Row)
    requires |row| >= 1
    ensures Project(row, [0]) == [row[0]]
  {
  }

  lemma ProjectFirstTwo(row: Row)
    requires |row| >= 2
    ensures Project(row, [0, 1]) == [row[0], row[1]]
  {
  }

  /** `distinct AppMachine`. */
  lemma DistinctOneColumnScenario()
    ensures DistinctRows(Counters, Some([0])) == Table([Column("AppMachine", KString)], [[Str("vm0")], [Str("vm1")]])
  {
    var rows := Counters.rows;
    assert rows[0][0] == rows[1][0] != rows[2][0];
    DistinctFirstOfThree(Counters.schema, rows[0], rows[1], rows[2]);
  }

  /** Three rows whose first cells are x, x, z with x != z. */
  lemma DistinctFirstOfThree(schema: Schema, x: Row, y: Row, z: Row)
    requires |schema| >= 1 && |x| >= 1 && |y| >= 1 && |z| >= 1
    requires x[0] == y[0] != z[0]
    ensures DistinctRows(Table(schema, [x, y, z]), Some([0])) == Table([schema[0]], [[x[0]], [z[0]]])
  {
    var keys := ProjectAll([x, y, z], [0]);
    ProjectFirst(x);
    ProjectFirst(y);
    ProjectFirst(z);
    assert keys == [[x[0]], [x[0]], [z[0]]];
    DedupRepeatFirst([x[0]], [z[0]]);
  }

  lemma DedupRepeatFirst<T>(x: T, z: T)
    requires x != z
    ensures Dedup([x, x, z]) == [x, z]
  {
    assert [x, x, z][..2] == [x, x];
    assert [x, x][..1] == [x];
    assert [x][..0] == [];
  }

  /** `distinct AppMachine, CounterName`: all three pairs differ. */
  lemma DistinctTwoColumnsScenario()
    ensures DistinctRows(Counters, Some([0, 1])).rows == [[Str("vm0"), Str("cpu")], [Str("vm0"), Str("mem")], [Str("vm1"), Str("cpu")]]
  {
    var keys := ProjectAll(Counters.rows, [0, 1]);
    ProjectFirstTwo(Counters.rows[0]);
    ProjectFirstTwo(Counters.rows[1]);
    ProjectFirstTwo(Counters.rows[2]);
    assert keys == [[Str("vm0"), Str("cpu")], [Str("vm0"), Str("mem")], [Str("vm1"), Str("cpu")]];
    assert Sequences.Distinct(keys);
    DedupOfDistinct(keys);
  }

  /** `distinct *`: the repeated row is dropped, the others keep their
      order. */
  lemma DistinctStarScenario()
    ensures var t := Table([Column("AppMachine", KString), Column("CounterName", KString)],
                           [[Str("vm0"), Str("cpu")], [Str("vm1"), Str("cpu")], [Str("vm0"), Str("cpu")], [Str("vm0"), Str("mem")]]);
            DistinctRows(t, None).rows == [[Str("vm0"), Str("cpu")], [Str("vm1"), Str("cpu")], [Str("vm0"), Str("mem")]]
  {
    var a, b, c := [Str("vm0"), Str("cpu")], [Str("vm1"), Str("cpu")], [Str("vm0"), Str("mem")];
    assert a != b && a != c && b != c;
    DistinctStarRepeat([Column("AppMachine", KString), Column("CounterName", KString)], a, b, c);
  }

  /** Four two-cell rows a, b, a, c with a, b, c pairwise different. */
  lemma DistinctStarRepeat(schema: Schema, a: Row, b: Row, c: Row)
    requires |schema| == 2 && |a| == 2 && |b| == 2 && |c| == 2
    requires a != b && a != c && b != c
    ensures DistinctRows(Table(schema, [a, b, a, c]), None).rows == [a, b, c]
  {
    var t := Table(schema, [a, b, a, c]);
    var cols := SelectedColumns(t, None);
    assert cols == [0, 1];
    var keys := ProjectAll(t.rows, cols);
    ProjectFirstTwo(a);
    ProjectFirstTwo(b);
    ProjectFirstTwo(c);
    assert a == [a[0], a[1]] && b == [b[0], b[1]] && c == [c[0], c[1]];
    assert keys == [a, b, a, c];
    DedupRepeatThird(a, b, c);
  }

  lemma DedupRepeatThird<T>(a: T, b: T, c: T)
    requires a != b && a != c && b != c
    ensures Dedup([a, b, a, c]) == [a, b, c]
  {
    assert [a, b, a, c][..3] == [a, b, a];
    assert [a, b, a][..2] == [a, b];
    assert [a, b][..1] == [a];
    assert [a][..0] == [];
    assert Dedup([a]) == [a];
    assert Dedup([a, b]) == [a, b];
    assert Dedup([a, b, a]) == [a, b];
    assert c !in [a, b];
  }

  // ---------------------------------------------------------------------
  // union

  function RealTable(name: string, xs: seq<real>): Table {
    Table([Column(name, KReal)], seq(|xs|, i requires 0 <= i < |xs| => [Real(xs[i])]))
  }

  /** `input | union input`, `union input, input`, and the union of two
      tables with the same schema: the rows one table after the other. */
  lemma UnionSameSchemaScenario()
    ensures UnionTables([RealTable("v", [1.0, 2.0]), RealTable("v", [1.0, 2.0])])
         == Table([Column("v", KReal)], [[Real(1.0)], [Real(2.0)], [Real(1.0)], [Real(2.0)]])
    ensures UnionTables([RealTable("v", [1.0, 2.0]), RealTable("v", [3.0, 4.0])])
         == Table([Column("v", KReal)], [[Real(1.0)], [Real(2.0)], [Real(3.0)], [Real(4.0)]])
  {
    SameSchemaTwo([1.0, 2.0], [1.0, 2.0]);
    SameSchemaTwo([1.0, 2.0], [3.0, 4.0]);
  }

  lemma SameSchemaTwo(xs: seq<real>, ys: seq<real>)
    requires |xs| == 2 && |ys| == 2
    ensures UnionTables([RealTable("v", xs), RealTable("v", ys)])
         == Table([Column("v", KReal)], [[Real(xs[0])], [Real(xs[1])], [Real(ys[0])], [Real(ys[1])]])
  {
    var t1, t2 := RealTable("v", xs), RealTable("v", ys);
    assert t1.rows == [[Real(xs[0])], [Real(xs[1])]];
    assert t2.rows == [[Real(ys[0])], [Real(ys[1])]];
    assert WellFormed(t1) && WellFormed(t2);
    UnionOfTwo(t1, t2, [Column("v", KReal)]);
  }

  /** Two tables with one schema with distinct names. */
  lemma UnionOfTwo(t1: Table, t2: Table, schema: Schema)
    requires DistinctNames(schema)
    requires t1.schema == schema && WellFormed(t1)
    requires t2.schema == schema && WellFormed(t2)
    ensures UnionTables([t1, t2]) == Table(schema, t1.rows + t2.rows)
  {
    var tables := [t1, t2];
    UnionOfSameSchema(tables, schema);
    var rows := seq(|tables|, k requires 0 <= k < |tables| => tables[k].rows);
    assert rows == [t1.rows, t2.rows];
    assert rows[..1] == [t1.rows];
    FlattenOne(t1.rows);
  }

  /** `union (datatable(v1:real) [1, 2]), (datatable(v2:real) [3, 4])`:
      each input's rows with null in the other input's column. */
  lemma UnionDisjointScenario()
    ensures UnionTables([RealTable("v1", [1.0, 2.0]), RealTable("v2", [3.0, 4.0])])
         == Table([Column("v1", KReal), Column("v2", KReal)],
                  [[Real(1.0), None], [Real(2.0), None], [None, Real(3.0)], [None, Real(4.0)]])
  {
    var t1, t2 := RealTable("v1", [1.0, 2.0]), RealTable("v2", [3.0, 4.0]);
    assert t1.rows == [[Real(1.0)], [Real(2.0)]];
    assert t2.rows == [[Real(3.0)], [Real(4.0)]];
    UnionOfDisjointColumns(Column("v1", KReal), Column("v2", KReal), t1.rows, t2.rows);
  }

  /** Two single-column inputs whose columns have different names. */
  lemma UnionOfDisjointColumns(c1: Column, c2: Column, rows1: seq<Row>, rows2: seq<Row>)
    requires c1.name != c2.name
    requires |rows1| == 2 && |rows2| == 2
    requires forall i :: 0 <= i < 2 ==> |rows1[i]| == 1 && |rows2[i]| == 1
    ensures UnionTables([Table([c1], rows1), Table([c2], rows2)])
         == Table([c1, c2], [[rows1[0][0], None], [rows1[1][0], None], [None, rows2[0][0]], [None, rows2[1][0]]])
  {
    var t1, t2 := Table([c1], rows1), Table([c2], rows2);
    var tables := [t1, t2];
    var cols := [c1, c2];
    TwoColumnsOut(t1, t2);
    SameSchemaNames(tables, cols);
    var p1 := [[rows1[0][0], None], [rows1[1][0], None]];
    var p2 := [[None, rows2[0][0]], [None, rows2[1][0]]];
    RealignFirst(c1, rows1[0], cols);
    RealignFirst(c1, rows1[1], cols);
    RealignSecond(c2, rows2[0], cols);
    RealignSecond(c2, rows2[1], cols);
    assert RealignAll(t1, cols) == p1;
    assert RealignAll(t2, cols) == p2;
    assert Parts(tables) == [p1, p2];
    FlattenTwo(p1, p2);
  }

  /** The output columns of two single-column inputs with different
      names are the two columns. */
  lemma TwoColumnsOut(t1: Table, t2: Table)
    requires |t1.schema| == 1 && |t2.schema| == 1 && t1.schema[0].name != t2.schema[0].name
    ensures OutputColumns([t1, t2]) == t1.schema + t2.schema
  {
    var schemas := seq(2, k requires 0 <= k < 2 => [t1, t2][k].schema);
    assert schemas == [t1.schema, t2.schema];
    FlattenTwo(t1.schema, t2.schema);
    DedupOfDistinct(t1.schema + t2.schema);
  }

  lemma FlattenTwo<T>(xs: seq<T>, ys: seq<T>)
    ensures Flatten([xs, ys]) == xs + ys
  {
    assert [xs, ys][..1] == [xs];
    FlattenOne(xs);
  }

  lemma RealignFirst(c: Column, row: Row, cols: seq<Column>)
    requires |row| == 1 && |cols| == 2 && cols[0] == c && cols[1].name != c.name
    ensures Realign([c], row, cols) == [row[0], None]
  {
    assert FirstIndex([c], c) == 0;
  }

  lemma RealignSecond(c: Column, row: Row, cols: seq<Column>)
    requires |row| == 1 && |cols| == 2 && cols[1] == c && cols[0].name != c.name
    ensures Realign([c], row, cols) == [None, row[0]]
  {
    assert FirstIndex([c], c) == 0;
  }

  // The columns of the reconciliation scenario.
  const VRealAsReal := Column("v_real", KReal)
  const VAsReal := Column("v", KReal)
  const VAsLong := Column("v", KLong)

  function LongTable(name: string, xs: seq<int>): Table {
    Table([Column(name, KLong)], seq(|xs|, i requires 0 <= i < |xs| => [Some(VLong(xs[i]))]))
  }

  /** `v` arrives as `real` and as `long`, so it becomes `v_real` and
      `v_long`; `v_real` then collides with the input column `v_real` and
      is numbered `v_real1`. The two `v_real:real` inputs share a column. */
  lemma UnionReconcileScenario()
    ensures var out := UnionTables([RealTable("v_real", [1.0, 2.0]), RealTable("v", [3.0, 4.0]),
                                    LongTable("v", [5, 6]), RealTable("v_real", [7.0])]);
            && out.schema == [Column("v_real", KReal), Column("v_real1", KReal), Column("v_long", KLong)]
            && out.rows == [[Real(1.0), None, None], [Real(2.0), None, None],
                            [None, Real(3.0), None], [None, Real(4.0), None],
                            [None, None, Some(VLong(5))], [None, None, Some(VLong(6))],
                            [Real(7.0), None, None]]
  {
    var t1, t2 := RealTable("v_real", [1.0, 2.0]), RealTable("v", [3.0, 4.0]);
    var t3, t4 := LongTable("v", [5, 6]), RealTable("v_real", [7.0]);
    var tables := [t1, t2, t3, t4];
    assert t1 == Table([VRealAsReal], [[Real(1.0)], [Real(2.0)]]);
    assert t2 == Table([VAsReal], [[Real(3.0)], [Real(4.0)]]);
    assert t3 == Table([VAsLong], [[Some(VLong(5))], [Some(VLong(6))]]);
    assert t4 == Table([VRealAsReal], [[Real(7.0)]]);
    ReconcileColumns(tables);
    ReconcileNames(tables);
    ReconcileRows(Real(1.0), Real(2.0), Real(3.0), Real(4.0), Some(VLong(5)), Some(VLong(6)), Real(7.0));
  }

  /** The rows of the scenario, for any cells. */
  lemma ReconcileRows(x1: Cell, x2: Cell, x3: Cell, x4: Cell, x5: Cell, x6: Cell, x7: Cell)
    ensures var tables := [Table([VRealAsReal], [[x1], [x2]]), Table([VAsReal], [[x3], [x4]]),
                           Table([VAsLong], [[x5], [x6]]), Table([VRealAsReal], [[x7]])];
            UnionTables(tables).rows == [[x1, None, None], [x2, None, None], [None, x3, None], [None, x4, None],
                                         [None, None, x5], [None, None, x6], [x7, None, None]]
  {
    var t1, t2 := Table([VRealAsReal], [[x1], [x2]]), Table([VAsReal], [[x3], [x4]]);
    var t3, t4 := Table([VAsLong], [[x5], [x6]]), Table([VRealAsReal], [[x7]]);
    ReconcileColumns([t1, t2, t3, t4]);
    var p1, p2 := RealignAll(t1, [VRealAsReal, VAsReal, VAsLong]), RealignAll(t2, [VRealAsReal, VAsReal, VAsLong]);
    var p3, p4 := RealignAll(t3, [VRealAsReal, VAsReal, VAsLong]), RealignAll(t4, [VRealAsReal, VAsReal, VAsLong]);
    PartsOfFour(t1, t2, t3, t4, [VRealAsReal, VAsReal, VAsLong], p1, p2, p3, p4);
    ReconcileParts(x1, x2, x3, x4, x5, x6, x7);
  }

  lemma ReconcileParts(x1: Cell, x2: Cell, x3: Cell, x4: Cell, x5: Cell, x6: Cell, x7: Cell)
    ensures var cols := [VRealAsReal, VAsReal, VAsLong];
            RealignAll(Table([VRealAsReal], [[x1], [x2]]), cols) + RealignAll(Table([VAsReal], [[x3], [x4]]), cols)
            + RealignAll(Table([VAsLong], [[x5], [x6]]), cols) + RealignAll(Table([VRealAsReal], [[x7]]), cols)
            == [[x1, None, None], [x2, None, None], [None, x3, None], [None, x4, None],
                [None, None, x5], [None, None, x6], [x7, None, None]]
  {
    RealignRows(VRealAsReal, [[x1], [x2]], 0);
    RealignRows(VAsReal, [[x3], [x4]], 1);
    RealignRows(VAsLong, [[x5], [x6]], 2);
    RealignRows(VRealAsReal, [[x7]], 0);
    ConcatFour(RealignAll(Table([VRealAsReal], [[x1], [x2]]), [VRealAsReal, VAsReal, VAsLong]),
               RealignAll(Table([VAsReal], [[x3], [x4]]), [VRealAsReal, VAsReal, VAsLong]),
               RealignAll(Table([VAsLong], [[x5], [x6]]), [VRealAsReal, VAsReal, VAsLong]),
               RealignAll(Table([VRealAsReal], [[x7]]), [VRealAsReal, VAsReal, VAsLong]));
  }

  lemma ConcatFour<T>(a: seq<T>, b: seq<T>, c: seq<T>, d: seq<T>)
    requires |a| == 2 && |b| == 2 && |c| == 2 && |d| == 1
    ensures a + b + c + d == [a[0], a[1], b[0], b[1], c[0], c[1], d[0]]
  {
  }

  lemma PartsOfFour(t1: Table, t2: Table, t3: Table, t4: Table, cols: seq<Column>,
                     p1: seq<Row>, p2: seq<Row>, p3: seq<Row>, p4: seq<Row>)
    requires OutputColumns([t1, t2, t3, t4]) == cols
    requires RealignAll(t1, cols) == p1 && RealignAll(t2, cols) == p2
    requires RealignAll(t3, cols) == p3 && RealignAll(t4, cols) == p4
    ensures UnionTables([t1, t2, t3, t4]).rows == p1 + p2 + p3 + p4
  {
    var ps := Parts([t1, t2, t3, t4]);
    assert ps[0] == p1 && ps[1] == p2 && ps[2] == p3 && ps[3] == p4;
    assert ps == [p1, p2, p3, p4];
    FlattenFour(p1, p2, p3, p4);
  }

  /** A cell at position `j` of three, the others null. */
  function Place(x: Cell, j: nat): Row {
    if j == 0 then [x, None, None] else if j == 1 then [None, x, None] else [None, None, x]
  }

  /** A single-column input realigned under the scenario's output
      columns: its cell at the position of its column. */
  lemma RealignRows(c: Column, rows: seq<Row>, j: nat)
    requires j < 3 && [VRealAsReal, VAsReal, VAsLong][j] == c
    requires forall i :: 0 <= i < |rows| ==> |rows[i]| == 1
    ensures var r := RealignAll(Table([c], rows), [VRealAsReal, VAsReal, VAsLong]);
            |r| == |rows| && forall i :: 0 <= i < |rows| ==> r[i] == Place(rows[i][0], j)
  {
    var cols := [VRealAsReal, VAsReal, VAsLong];
    assert FirstIndex([c], c) == 0;
    forall i | 0 <= i < |rows|
      ensures Realign([c], rows[i], cols) == Place(rows[i][0], j)
    {
    }
  }

  lemma FlattenFour<T>(a: seq<T>, b: seq<T>, c: seq<T>, d: seq<T>)
    ensures Flatten([a, b, c, d]) == a + b + c + d
  {
    assert [a, b, c, d][..3] == [a, b, c];
    assert [a, b, c][..2] == [a, b];
    FlattenTwo(a, b);
  }

  /** The distinct (name, kind) columns of the scenario. */
  lemma ReconcileColumns(tables: seq<Table>)
    requires |tables| == 4
    requires tables[0].schema == [VRealAsReal] && tables[1].schema == [VAsReal]
    requires tables[2].schema == [VAsLong] && tables[3].schema == [VRealAsReal]
    ensures OutputColumns(tables) == [VRealAsReal, VAsReal, VAsLong]
  {
    var schemas := seq(|tables|, k requires 0 <= k < |tables| => tables[k].schema);
    assert schemas == [[VRealAsReal], [VAsReal], [VAsLong], [VRealAsReal]];
    FlattenFour([VRealAsReal], [VAsReal], [VAsLong], [VRealAsReal]);
    assert [VRealAsReal] + [VAsReal] + [VAsLong] + [VRealAsReal] == [VRealAsReal, VAsReal, VAsLong, VRealAsReal];
    DedupRepeatFirstLast(VRealAsReal, VAsReal, VAsLong);
  }

  lemma DedupRepeatFirstLast<T>(a: T, b: T, c: T)
    requires a != b && a != c && b != c
    ensures Dedup([a, b, c, a]) == [a, b, c]
  {
    assert [a, b, c, a][..3] == [a, b, c];
    assert [a, b, c][..2] == [a, b];
    assert [a, b][..1] == [a];
    assert [a][..0] == [];
    assert Dedup([a]) == [a];
    assert Dedup([a, b]) == [a, b];
    assert Dedup([a, b, c]) == [a, b, c];
  }

  /** The output names of the scenario. */
  lemma ReconcileNames(tables: seq<Table>)
    requires OutputColumns(tables) == [VRealAsReal, VAsReal, VAsLong]
    ensures UnionSchema(tables) == [Column("v_real", KReal), Column("v_real1", KReal), Column("v_long", KLong)]
  {
    var cols := [VRealAsReal, VAsReal, VAsLong];
    ReconcileBaseNames();
    ReconcileUniquify();
  }

  lemma ReconcileBaseNames()
    ensures BaseNames([VRealAsReal, VAsReal, VAsLong]) == ["v_real", "v_real", "v_long"]
  {
    var cols := [VRealAsReal, VAsReal, VAsLong];
    assert NameHasManyKinds("v", cols) by {
      assert cols[1].name == "v" && cols[2].name == "v" && cols[1].kind != cols[2].kind;
    }
    assert !NameHasManyKinds("v_real", cols) by {
      assert "v_real" != "v";
      forall i, j | 0 <= i < 3 && 0 <= j < 3 && cols[i].name == "v_real" && cols[j].name == "v_real"
        ensures cols[i].kind == cols[j].kind
      {
        assert i == 0 && j == 0;
      }
    }
    assert KindName(KReal) == "real" && KindName(KLong) == "long";
    assert BaseName(VAsReal, cols) == "v_real";
    assert BaseName(VAsLong, cols) == "v_long";
  }

  lemma ReconcileUniquify()
    ensures Uniquify(["v_real", "v_real", "v_long"]) == ["v_real", "v_real1", "v_long"]
  {
    var names := ["v_real", "v_real", "v_long"];
    assert names[..2] == ["v_real", "v_real"];
    assert names[..2][..1] == ["v_real"];
    assert ["v_real"][..0] == [];
    assert Uniquify(["v_real"]) == ["v_real"];
    assert (set i | 0 <= i < 1 :: ["v_real"][i]) == {"v_real"};
    assert NatToString(1) == "1";
    assert Suffixed("v_real", 1) == "v_real1";
    assert FreshName("v_real", {"v_real"}) == "v_real1";
    assert Uniquify(["v_real", "v_real"]) == ["v_real", "v_real1"];
    assert (set i | 0 <= i < 2 :: ["v_real", "v_real1"][i]) == {"v_real", "v_real1"};
    assert "v_long" != "v_real1" && "v_long" != "v_real";
  }
}
