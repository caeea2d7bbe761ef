/** The engine's scalar value model: a closed set of value kinds, a value of
    each kind, nullable cells, rows, schemas and in-memory tables, and the
    natural ordering of values used by `order by`. */
module Values {
  import opened Wrappers

  /** The scalar kinds a column can have. */
  datatype Kind = KBool | KInt | KLong | KReal | KDateTime | KTimeSpan | KString

  /** A non-null scalar. `long` and `int` are unbounded integers here;
      `datetime` and `timespan` are tick counts; `real` is an exact rational. */
  datatype Value =
    | VBool(b: bool)
    | VInt(i: int)
    | VLong(l: int)
    | VReal(r: real)
    | VDateTime(ticks: int)
    | VTimeSpan(span: int)
    | VString(s: string)

  /** A nullable scalar: `None` is the null of the column's kind. */
  type Cell = Option<Value>

  type Row = seq<Cell>

  datatype Column = Column(name: string, kind: Kind)

  type Schema = seq<Column>

  /** An in-memory table: a schema and its rows, in order. */
  datatype Table = Table(schema: Schema, rows: seq<Row>)

  function KindOf(v: Value): Kind {
    match v
    case VBool(_) => KBool
    case VInt(_) => KInt
    case VLong(_) => KLong
    case VReal(_) => KReal
    case VDateTime(_) => KDateTime
    case VTimeSpan(_) => KTimeSpan
    case VString(_) => KString
  }

  /** The language's name of each kind, as printed in schemas and used in
      `name_kind` column names. */
  function KindName(k: Kind): string {
    match k
    case KBool => "bool"
    case KInt => "int"
    case KLong => "long"
    case KReal => "real"
    case KDateTime => "datetime"
    case KTimeSpan => "timespan"
    case KString => "string"
  }

  /** Different kinds have different names. */
  lemma KindNameInjective(j: Kind, k: Kind)
    requires KindName(j) == KindName(k)
    ensures j == k
  {
  }

  /** A cell fits a column of kind `k` when it is null or of kind `k`. */
  predicate CellOfKind(c: Cell, k: Kind) {
    c.None? || KindOf(c.value) == k
  }

  /** The names of a schema, in order. */
  function Names(s: Schema): (r: seq<string>)
    ensures |r| == |s|
    ensures forall i :: 0 <= i < |s| ==> r[i] == s[i].name
  {
    seq(|s|, i requires 0 <= i < |s| => s[i].name)
  }

  predicate DistinctNames(s: Schema) {
    forall i, j :: 0 <= i < j < |s| ==> s[i].name != s[j].name
  }

  /** The cell of `row` in `column`; null past the row's end. */
  function CellAt(row: Row, column: nat): Cell {
    if column < |row| then row[column] else None
  }

  /** Every row has one cell per column, each of the column's kind. */
  predicate WellFormed(t: Table) {
    forall r :: 0 <= r < |t.rows| ==>
      && |t.rows[r]| == |t.schema|
      && forall c :: 0 <= c < |t.schema| ==> CellOfKind(t.rows[r][c], t.schema[c].kind)
  }

  // ---------------------------------------------------------------------
  // Natural ordering of values

  /** Three-way comparison of integers. */
  function Sign(x: int, y: int): int {
    if x < y then -1 else if x > y then 1 else 0
  }

  function SignReal(x: real, y: real): int {
    if x < y then -1 else if x > y then 1 else 0
  }

  function BoolRank(b: bool): int {
    if b then 1 else 0
  }

  function KindRank(k: Kind): int {
    match k
    case KBool => 0
    case KInt => 1
    case KLong => 2
    case KReal => 3
    case KDateTime => 4
    case KTimeSpan => 5
    case KString => 6
  }

  /** Ordinal (code-unit by code-unit) comparison of strings. */
  function CompareStrings(s: string, t: string): int
    decreases |s|
  {
    if |s| == 0 && |t| == 0 then 0
    else if |s| == 0 then -1
    else if |t| == 0 then 1
    else if s[0] != t[0] then Sign(s[0] as int, t[0] as int)
    else CompareStrings(s[1..], t[1..])
  }

  /** Three-way comparison of values: the natural order within a kind;
      values of different kinds are ordered by kind. */
  function CompareValues(a: Value, b: Value): int {
    if KindOf(a) != KindOf(b) then Sign(KindRank(KindOf(a)), KindRank(KindOf(b)))
    else match (a, b)
      case (VBool(x), VBool(y)) => Sign(BoolRank(x), BoolRank(y))
      case (VInt(x), VInt(y)) => Sign(x, y)
      case (VLong(x), VLong(y)) => Sign(x, y)
      case (VReal(x), VReal(y)) => SignReal(x, y)
      case (VDateTime(x), VDateTime(y)) => Sign(x, y)
      case (VTimeSpan(x), VTimeSpan(y)) => Sign(x, y)
      case (VString(x), VString(y)) => CompareStrings(x, y)
      case _ => 0
  }

  lemma {:induction false} CompareStringsAntisymmetric(s: string, t: string)
    ensures CompareStrings(s, t) == -CompareStrings(t, s)
    ensures CompareStrings(s, t) == 0 <==> s == t
    decreases |s|
  {
    if |s| > 0 && |t| > 0 && s[0] == t[0] {
      CompareStringsAntisymmetric(s[1..], t[1..]);
      assert s == [s[0]] + s[1..] && t == [t[0]] + t[1..];
    }
  }

  lemma {:induction false} CompareStringsTransitive(s: string, t: string, u: string)
    requires CompareStrings(s, t) <= 0 && CompareStrings(t, u) <= 0
    ensures CompareStrings(s, u) <= 0
    decreases |s|
  {
    if |s| > 0 && |t| > 0 && |u| > 0 && s[0] == t[0] && t[0] == u[0] {
      CompareStringsTransitive(s[1..], t[1..], u[1..]);
    }
  }

  /** `CompareValues` is a total order: antisymmetric, with 0 exactly on
      equal values, and transitive. */
  lemma CompareValuesAntisymmetric(a: Value, b: Value)
    ensures CompareValues(a, b) == -CompareValues(b, a)
    ensures CompareValues(a, b) == 0 <==> a == b
  {
    if KindOf(a) == KindOf(b) && a.VString? {
      CompareStringsAntisymmetric(a.s, b.s);
    }
  }

  lemma CompareValuesTransitive(a: Value, b: Value, c: Value)
    requires CompareValues(a, b) <= 0 && CompareValues(b, c) <= 0
    ensures CompareValues(a, c) <= 0
  {
    if KindOf(a) == KindOf(b) && KindOf(b) == KindOf(c) && a.VString? {
      CompareStringsTransitive(a.s, b.s, c.s);
    }
  }
}
