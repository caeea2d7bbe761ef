/** A CSV file as a table source. The first line declares the schema as
    comma-separated `name:type` cells; every later non-empty line is a row
    whose comma-separated fields are trimmed and unquoted when the file is
    opened, and parsed against the schema only when the data is read.

    The file is given as the sequence of lines `StreamReader.ReadLine`
    returns, and the .NET scalar parsers (`long.Parse`, `DateTime.Parse`, ...)
    as a function parameter. */
module CsvTableSource {
  import opened Wrappers
  import opened Text
  import opened Values
  import opened Sequences

  /** The exceptions the table source raises, one constructor each. */
  datatype CsvError =
    | EmptyOrNoHeader
    | InvalidColumnDefinition(definition: string)
    | UnsupportedKustoType(typeName: string)
    | LoneQuoteField(field: string)
    | RowWidthMismatch(rowWidth: nat, schemaWidth: nat)
    | InvalidCast(text: string, kind: Kind)

  /** A scalar parser of the base library: the value a non-empty text
      denotes in a kind, or `None` when the parser throws. */
  type ScalarParser = (Kind, string) -> Option<Value>

  /** A table source after construction: its name, its schema, and its rows
      split into fields but not yet parsed. */
  datatype CsvTable = CsvTable(name: string, schema: Schema, rows: seq<seq<string>>)

  /** One chunk of columnar data: `columns[i][j]` is row `j` of column `i`. */
  datatype Chunk = Chunk(columns: seq<seq<Cell>>)

  // ---------------------------------------------------------------------
  // Header

  /** The type names a header may use. */
  predicate IsSupportedTypeName(t: string) {
    t in {"string", "long", "int", "double", "real", "datetime", "bool", "timespan"}
  }

  /** Maps a lower-cased type name to its kind; `double` and `real` both
      name the real kind. */
  function MapKustoType(t: string): (r: Result<Kind, CsvError>)
    ensures r.Ok? <==> IsSupportedTypeName(t)
    ensures r.Err? ==> r.error == UnsupportedKustoType(t)
  {
    match t
    case "string" => Ok(KString)
    case "long" => Ok(KLong)
    case "int" => Ok(KInt)
    case "double" => Ok(KReal)
    case "real" => Ok(KReal)
    case "datetime" => Ok(KDateTime)
    case "bool" => Ok(KBool)
    case "timespan" => Ok(KTimeSpan)
    case _ => Err(UnsupportedKustoType(t))
  }

  /** Every kind is reached by its own name, and a name reaches a kind only
      when it is that kind's name or, for real, `double`. */
  lemma MapKustoTypeNames(t: string, k: Kind)
    ensures MapKustoType(KindName(k)) == Ok(k)
    ensures MapKustoType(t) == Ok(k) <==> t == KindName(k) || (k == KReal && t == "double")
  {
  }

  /** One header cell `name:type`: it must split on `:` into exactly two
      parts; the name is trimmed, the type name trimmed and lower-cased. */
  function ParseColumnDefinition(cell: string): (r: Result<Column, CsvError>)
    ensures r.Ok? ==> CountChar(cell, ':') == 1
    ensures CountChar(cell, ':') != 1 ==> r == Err(InvalidColumnDefinition(cell))
    ensures r.Ok? ==> r.value.name == Trim(Split(cell, ':')[0])
    ensures var parts := Split(cell, ':');
            |parts| == 2 ==>
              var typeName := ToLower(Trim(parts[1]));
              && (r.Ok? <==> IsSupportedTypeName(typeName))
              && (r.Err? ==> r.error == UnsupportedKustoType(typeName))
              && (r.Ok? ==> typeName == KindName(r.value.kind) || (r.value.kind == KReal && typeName == "double"))
  {
    SplitCount(cell, ':');
    var parts := Split(cell, ':');
    if |parts| != 2 then Err(InvalidColumnDefinition(cell))
    else
      var name := Trim(parts[0]);
      var typeName := ToLower(Trim(parts[1]));
      var kind :- MapKustoType(typeName);
      MapKustoTypeNames(typeName, kind);
      Ok(Column(name, kind))
  }

  /** Parses the header cells in order; the first bad cell decides the error. */
  function ParseDefinitions(cells: seq<string>): Result<Schema, CsvError> {
    MapAll(ParseColumnDefinition, cells)
  }

  /** The schema a header line declares, in header order. */
  function ParseHeader(header: string): (r: Result<Schema, CsvError>)
    ensures r.Ok? <==> forall i :: 0 <= i < |Split(header, ',')| ==> ParseColumnDefinition(Split(header, ',')[i]).Ok?
    ensures r.Ok? ==> |r.value| == |Split(header, ',')| == CountChar(header, ',') + 1
    ensures r.Ok? ==> forall i :: 0 <= i < |r.value| ==> ParseColumnDefinition(Split(header, ',')[i]) == Ok(r.value[i])
    ensures r.Err? ==> exists i :: FirstFailureAt(ParseColumnDefinition, Split(header, ','), i)
                                 && ParseColumnDefinition(Split(header, ',')[i]) == Err(r.error)
  {
    SplitCount(header, ',');
    ParseDefinitions(Split(header, ','))
  }

  /** The header line that declares a schema. */
  function RenderHeader(schema: Schema): string {
    Join(RenderDefinitions(schema), [','])
  }

  function RenderDefinitions(schema: Schema): (cells: seq<string>)
    ensures |cells| == |schema|
    ensures forall i :: 0 <= i < |schema| ==> cells[i] == schema[i].name + [':'] + KindName(schema[i].kind)
  {
    if |schema| == 0 then [] else [schema[0].name + [':'] + KindName(schema[0].kind)] + RenderDefinitions(schema[1..])
  }

  /** A name the header can carry unchanged: no separator, no surrounding
      whitespace. */
  predicate PlainName(n: string) {
    ',' !in n && ':' !in n && (n == [] || (!IsWhiteSpace(n[0]) && !IsWhiteSpace(n[|n| - 1])))
  }

  /** The kind names are lower-case, contain no separator and no whitespace. */
  lemma KindNameIsPlain(k: Kind)
    ensures PlainName(KindName(k))
    ensures ToLower(KindName(k)) == KindName(k)
  {
    var n := KindName(k);
    assert forall i :: 0 <= i < |n| ==> 'a' <= n[i] <= 'z';
    LowerLettersArePlain(n);
  }

  lemma LowerLettersArePlain(n: string)
    requires forall i :: 0 <= i < |n| ==> 'a' <= n[i] <= 'z'
    ensures PlainName(n) && ToLower(n) == n
  {
    if |n| > 0 {
      assert 'a' <= n[0] <= 'z' && 'a' <= n[|n| - 1] <= 'z';
    }
    ToLowerOfLower(n);
    LettersAvoid(n, ',');
    LettersAvoid(n, ':');
  }

  lemma LettersAvoid(n: string, c: char)
    requires forall i :: 0 <= i < |n| ==> 'a' <= n[i] <= 'z'
    requires !('a' <= c <= 'z')
    ensures c !in n
  {
  }

  /** A cell `name:type` with plain parts parses to the named column. */
  lemma ParsePlainDefinition(name: string, typeName: string, k: Kind)
    requires PlainName(name) && PlainName(typeName)
    requires ToLower(typeName) == typeName && MapKustoType(typeName) == Ok(k)
    ensures ParseColumnDefinition(name + [':'] + typeName) == Ok(Column(name, k))
  {
    TrimOfTrimmed(name);
    TrimOfTrimmed(typeName);
    SplitAtFirst(name, ':', typeName);
    SplitWithoutSeparator(typeName, ':');
    ParseTwoParts(name + [':'] + typeName, name, typeName, k);
  }

  /** A cell that splits into a name and a type name that map to `k`. */
  lemma ParseTwoParts(cell: string, name: string, typeName: string, k: Kind)
    requires Split(cell, ':') == [name] + [typeName]
    requires MapKustoType(ToLower(Trim(typeName))) == Ok(k)
    ensures ParseColumnDefinition(cell) == Ok(Column(Trim(name), k))
  {
    var parts := Split(cell, ':');
    assert |parts| == 2 && parts[0] == name && parts[1] == typeName;
  }

  lemma ParseRenderedDefinition(c: Column)
    requires PlainName(c.name)
    ensures ParseColumnDefinition(c.name + [':'] + KindName(c.kind)) == Ok(c)
  {
    KindNameIsPlain(c.kind);
    MapKustoTypeNames(KindName(c.kind), c.kind);
    ParsePlainDefinition(c.name, KindName(c.kind), c.kind);
  }

  lemma RenderedDefinitionHasNoComma(c: Column)
    requires PlainName(c.name)
    ensures ',' !in c.name + [':'] + KindName(c.kind)
  {
    KindNameIsPlain(c.kind);
    var kn := KindName(c.kind);
    assert ',' !in kn;
    assert ',' !in [':'];
  }

  /** Round trip: the header rendered from a non-empty schema of plain names
      parses back to that schema. */
  lemma ParseRenderHeader(schema: Schema)
    requires |schema| >= 1
    requires forall i :: 0 <= i < |schema| ==> PlainName(schema[i].name)
    ensures ParseHeader(RenderHeader(schema)) == Ok(schema)
  {
    var cells := RenderDefinitions(schema);
    forall i | 0 <= i < |cells|
      ensures ',' !in cells[i]
      ensures ParseColumnDefinition(cells[i]) == Ok(schema[i])
    {
      RenderedDefinitionHasNoComma(schema[i]);
      ParseRenderedDefinition(schema[i]);
    }
    SplitJoin(cells, ',');
    MapAllOk(ParseColumnDefinition, cells, schema);
  }

  // ---------------------------------------------------------------------
  // Data lines

  /** Removes one pair of surrounding double quotes. A field that is a lone
      `"` both starts and ends with a quote, and the range `[1..^1]` over it
      is out of bounds: that is an error. */
  function Unquote(v: string): (r: Result<string, CsvError>)
    ensures r.Err? <==> v == ['"']
    ensures r.Err? ==> r.error == LoneQuoteField(v)
    ensures r.Ok? && |v| >= 2 && v[0] == '"' && v[|v| - 1] == '"' ==> ['"'] + r.value + ['"'] == v
    ensures r.Ok? && !(|v| >= 1 && v[0] == '"' && v[|v| - 1] == '"') ==> r.value == v
  {
    if |v| >= 1 && v[0] == '"' && v[|v| - 1] == '"' then
      if |v| >= 2 then Ok(v[1..|v| - 1]) else Err(LoneQuoteField(v))
    else Ok(v)
  }

  /** One field of a data line: trimmed, then unquoted. */
  function CleanField(raw: string): Result<string, CsvError> {
    Unquote(Trim(raw))
  }

  /** Splits one data line on every comma (quotes do not protect commas),
      trims each field and unquotes it. */
  function SplitLine(line: string): (r: Result<seq<string>, CsvError>)
    ensures r.Ok? ==> |r.value| == CountChar(line, ',') + 1
    ensures r.Ok? ==> |r.value| == |Split(line, ',')|
    ensures r.Ok? ==> forall i :: 0 <= i < |Split(line, ',')| ==> CleanField(Split(line, ',')[i]) == Ok(r.value[i])
    ensures r.Err? <==> exists i :: 0 <= i < |Split(line, ',')| && Trim(Split(line, ',')[i]) == ['"']
    ensures r.Err? ==> r.error == LoneQuoteField(['"'])
  {
    SplitCount(line, ',');
    MapAll(CleanField, Split(line, ','))
  }

  /** A field the line format carries unchanged: no comma, no whitespace at
      either end, and not wrapped in double quotes. */
  predicate PlainField(f: string) {
    ',' !in f && (f == [] || (!IsWhiteSpace(f[0]) && !IsWhiteSpace(f[|f| - 1]) && !(f[0] == '"' && f[|f| - 1] == '"')))
  }

  /** Round trip: plain fields joined with commas split back into themselves. */
  lemma SplitLineOfPlainFields(fields: seq<string>)
    requires |fields| >= 1
    requires forall i :: 0 <= i < |fields| ==> PlainField(fields[i])
    ensures SplitLine(Join(fields, [','])) == Ok(fields)
  {
    SplitJoin(fields, ',');
    forall i | 0 <= i < |fields|
      ensures CleanField(fields[i]) == Ok(fields[i])
    {
      PlainFieldIsClean(fields[i]);
    }
    MapAllOk(CleanField, fields, fields);
  }

  lemma PlainFieldIsClean(f: string)
    requires PlainField(f)
    ensures CleanField(f) == Ok(f)
  {
    TrimOfTrimmed(f);
    assert Unquote(f) == Ok(f);
  }

  /** Round trip: any comma-free fields, each wrapped in double quotes and
      joined with commas, split back into themselves, surrounding whitespace
      inside the quotes included. */
  lemma SplitLineOfQuotedFields(fields: seq<string>)
    requires |fields| >= 1
    requires forall i :: 0 <= i < |fields| ==> ',' !in fields[i]
    ensures SplitLine(Join(Quoted(fields), [','])) == Ok(fields)
  {
    var q := Quoted(fields);
    forall i | 0 <= i < |q|
      ensures ',' !in q[i]
      ensures CleanField(q[i]) == Ok(fields[i])
    {
      QuotedField(fields[i]);
    }
    SplitJoin(q, ',');
    MapAllOk(CleanField, q, fields);
  }

  function Quoted(fields: seq<string>): (q: seq<string>)
    ensures |q| == |fields|
    ensures forall i :: 0 <= i < |fields| ==> q[i] == ['"'] + fields[i] + ['"']
  {
    seq(|fields|, i requires 0 <= i < |fields| => ['"'] + fields[i] + ['"'])
  }

  lemma QuotedField(f: string)
    requires ',' !in f
    ensures ',' !in ['"'] + f + ['"']
    ensures CleanField(['"'] + f + ['"']) == Ok(f)
  {
    var v := ['"'] + f + ['"'];
    assert v[0] == '"' && v[|v| - 1] == '"' && |v| >= 2;
    TrimOfTrimmed(v);
    assert v[1..|v| - 1] == f;
    assert Unquote(v) == Ok(f);
  }

  /** The lines that become rows: every line but the empty ones, in order. */
  function NonEmptyLines(lines: seq<string>): (r: seq<string>)
    ensures |r| <= |lines|
    ensures forall i :: 0 <= i < |r| ==> r[i] != [] && r[i] in lines
    ensures forall l :: l in lines && l != [] ==> l in r
    ensures multiset(r) == multiset(lines)[[] := 0]
  {
    if |lines| == 0 then []
    else
      assert lines == [lines[0]] + lines[1..];
      if lines[0] == [] then NonEmptyLines(lines[1..])
      else [lines[0]] + NonEmptyLines(lines[1..])
  }

  /** Dropping empty lines works line by line: the lines of two pieces of a
      file are those of each piece, in file order. */
  lemma {:induction false} NonEmptyLinesAppend(a: seq<string>, b: seq<string>)
    ensures NonEmptyLines(a + b) == NonEmptyLines(a) + NonEmptyLines(b)
  {
    if |a| > 0 {
      assert (a + b)[1..] == a[1..] + b;
      NonEmptyLinesAppend(a[1..], b);
    } else {
      assert a + b == b;
    }
  }

  /** Splits every non-empty line, in order; the first failing line decides
      the error. */
  function SplitLines(lines: seq<string>): Result<seq<seq<string>>, CsvError> {
    MapAll(SplitLine, NonEmptyLines(lines))
  }

  /** Opens a CSV file: the header must be present and non-empty, its cells
      must all parse, and every non-empty data line must split. Row widths
      are not checked here. */
  function Load(name: string, lines: seq<string>): (r: Result<CsvTable, CsvError>)
    ensures |lines| == 0 || lines[0] == [] ==> r == Err(EmptyOrNoHeader)
    ensures r.Ok? ==> r.value.name == name && ParseHeader(lines[0]) == Ok(r.value.schema)
    ensures r.Ok? ==> SplitLines(lines[1..]) == Ok(r.value.rows)
    ensures r.Ok? <==> |lines| > 0 && lines[0] != [] && ParseHeader(lines[0]).Ok? && SplitLines(lines[1..]).Ok?
  {
    if |lines| == 0 || lines[0] == [] then Err(EmptyOrNoHeader)
    else
      var schema :- ParseHeader(lines[0]);
      var rows :- SplitLines(lines[1..]);
      Ok(CsvTable(name, schema, rows))
  }

  // ---------------------------------------------------------------------
  // Reading the data

  /** Converts one field: the empty field is null in every kind; a string
      field is the text itself; any other kind goes through the scalar
      parser, whose failure is an invalid cast. */
  function ParseValue(text: string, kind: Kind, parse: ScalarParser): (r: Result<Cell, CsvError>)
    ensures text == [] ==> r == Ok(None)
    ensures text != [] && kind == KString ==> r == Ok(Some(VString(text)))
    ensures r.Err? <==> text != [] && kind != KString && parse(kind, text).None?
    ensures r.Err? ==> r.error == InvalidCast(text, kind)
    ensures r.Ok? && r.value.Some? ==> text != [] && (kind == KString || parse(kind, text) == r.value)
  {
    if text == [] then Ok(None)
    else if kind == KString then Ok(Some(VString(text)))
    else match parse(kind, text)
      case None => Err(InvalidCast(text, kind))
      case Some(v) => Ok(Some(v))
  }

  /** A parser keeps to the kind it is asked for. */
  ghost predicate KeepsKind(parse: ScalarParser) {
    forall k, s :: parse(k, s).Some? ==> KindOf(parse(k, s).value) == k
  }

  /** With a parser that keeps to its kind, a parsed field is null or of
      the column's kind. */
  lemma ParseValueKeepsKind(text: string, kind: Kind, parse: ScalarParser)
    requires KeepsKind(parse)
    requires ParseValue(text, kind, parse).Ok?
    ensures CellOfKind(ParseValue(text, kind, parse).value, kind)
  {
  }

  /** Parses the fields of a row of the right width, left to right. */
  function ParseFields(fields: seq<string>, schema: Schema, parse: ScalarParser): (r: Result<Row, CsvError>)
    requires |fields| == |schema|
    ensures r.Ok? <==> forall i :: 0 <= i < |fields| ==> ParseValue(fields[i], schema[i].kind, parse).Ok?
    ensures r.Ok? ==> |r.value| == |fields|
    ensures r.Ok? ==> forall i :: 0 <= i < |fields| ==> ParseValue(fields[i], schema[i].kind, parse) == Ok(r.value[i])
  {
    var f := (p: (string, Column)) => ParseValue(p.0, p.1.kind, parse);
    var r := MapAll(f, Zip(fields, schema));
    assert forall i :: 0 <= i < |fields| ==> f(Zip(fields, schema)[i]) == ParseValue(fields[i], schema[i].kind, parse);
    r
  }

  /** One row: its width must equal the schema's, then its fields parse. */
  function ParseRow(fields: seq<string>, schema: Schema, parse: ScalarParser): (r: Result<Row, CsvError>)
    ensures |fields| != |schema| ==> r == Err(RowWidthMismatch(|fields|, |schema|))
    ensures r.Ok? ==> |r.value| == |schema|
  {
    if |fields| != |schema| then Err(RowWidthMismatch(|fields|, |schema|))
    else ParseFields(fields, schema, parse)
  }

  /** Parses every row in file order; the first failing row decides the error. */
  function ParseRows(rows: seq<seq<string>>, schema: Schema, parse: ScalarParser): (r: Result<seq<Row>, CsvError>)
    ensures r.Ok? ==> |r.value| == |rows|
    ensures r.Ok? ==> forall k :: 0 <= k < |rows| ==> ParseRow(rows[k], schema, parse) == Ok(r.value[k])
    ensures r.Ok? ==> forall k :: 0 <= k < |rows| ==> |r.value[k]| == |schema|
  {
    var rowF := (row: seq<string>) => ParseRow(row, schema, parse);
    var r := MapAll(rowF, rows);
    assert forall k :: 0 <= k < |rows| ==> rowF(rows[k]) == ParseRow(rows[k], schema, parse);
    r
  }

  /** The columns of a sequence of rows of equal width. */
  function Transpose(rows: seq<Row>, width: nat): (cols: seq<seq<Cell>>)
    requires forall j :: 0 <= j < |rows| ==> |rows[j]| == width
    ensures |cols| == width
    ensures forall i :: 0 <= i < width ==> |cols[i]| == |rows|
    ensures forall i, j :: 0 <= i < width && 0 <= j < |rows| ==> cols[i][j] == rows[j][i]
  {
    seq(width, i requires 0 <= i < width => seq(|rows|, j requires 0 <= j < |rows| => rows[j][i]))
  }

  /** `GetData`: one column builder per schema column; every row is checked
      against the schema width and its fields appended to the builders; one
      chunk holding all the rows is produced at the end. Nothing is produced
      if any row fails. */
  method GetData(table: CsvTable, parse: ScalarParser) returns (r: Result<seq<Chunk>, CsvError>)
    ensures r.Ok? <==> ParseRows(table.rows, table.schema, parse).Ok?
    ensures r.Err? ==> ParseRows(table.rows, table.schema, parse) == Err(r.error)
    ensures r.Ok? ==> |r.value| == 1 && |r.value[0].columns| == |table.schema|
    ensures r.Ok? ==> forall i :: 0 <= i < |table.schema| ==> |r.value[0].columns[i]| == |table.rows|
    ensures r.Ok? ==> forall i, j :: 0 <= i < |table.schema| && 0 <= j < |table.rows| ==>
              |table.rows[j]| == |table.schema| &&
              ParseValue(table.rows[j][i], table.schema[i].kind, parse) == Ok(r.value[0].columns[i][j])
    ensures r.Ok? ==> r.value == [Chunk(Transpose(ParseRows(table.rows, table.schema, parse).value, |table.schema|))]
  {
    var schema := table.schema;
    var width := |schema|;
    var builders: seq<seq<Cell>> := seq(width, _ => []);
    var j := 0;
    while j < |table.rows|
      invariant 0 <= j <= |table.rows|
      invariant forall k :: 0 <= k < j ==> ParseRow(table.rows[k], schema, parse).Ok?
      invariant Built(builders, table.rows, schema, parse, j)
    {
      var row := table.rows[j];
      var next := AddRow(builders, row, schema, parse);
      if next.Err? {
        r := Err(next.error);
        ParseRowsFirstFailure(table.rows, schema, parse, j);
        return;
      }
      BuiltStep(builders, next.value, table.rows, schema, parse, j);
      builders := next.value;
      j := j + 1;
    }
    r := Ok([Chunk(builders)]);
    ParseRowsOk(table.rows, schema, parse);
    BuiltCells(builders, table.rows, schema, parse);
    BuiltIsTranspose(builders, table.rows, schema, parse);
  }

  /** The builders hold the parsed cells of the first `j` rows, column by
      column. */
  ghost predicate Built(builders: seq<seq<Cell>>, rows: seq<seq<string>>, schema: Schema, parse: ScalarParser, j: nat)
    requires j <= |rows|
    requires forall k :: 0 <= k < j ==> ParseRow(rows[k], schema, parse).Ok?
  {
    && |builders| == |schema|
    && (forall i :: 0 <= i < |schema| ==> |builders[i]| == j)
    && forall i, k :: 0 <= i < |schema| && 0 <= k < j ==> ParseRow(rows[k], schema, parse).value[i] == builders[i][k]
  }

  /** Appending row `j`'s cells to the builders extends them by one row. */
  lemma BuiltStep(builders: seq<seq<Cell>>, next: seq<seq<Cell>>, rows: seq<seq<string>>, schema: Schema, parse: ScalarParser, j: nat)
    requires j < |rows|
    requires forall k :: 0 <= k <= j ==> ParseRow(rows[k], schema, parse).Ok?
    requires Built(builders, rows, schema, parse, j)
    requires |next| == |schema|
    requires forall i :: 0 <= i < |schema| ==> next[i] == builders[i] + [ParseRow(rows[j], schema, parse).value[i]]
    ensures Built(next, rows, schema, parse, j + 1)
  {
  }

  /** Builders holding every row are the columns of the parsed rows. */
  lemma BuiltIsTranspose(builders: seq<seq<Cell>>, rows: seq<seq<string>>, schema: Schema, parse: ScalarParser)
    requires ParseRows(rows, schema, parse).Ok?
    requires forall k :: 0 <= k < |rows| ==> ParseRow(rows[k], schema, parse).Ok?
    requires Built(builders, rows, schema, parse, |rows|)
    ensures builders == Transpose(ParseRows(rows, schema, parse).value, |schema|)
  {
    var parsed := ParseRows(rows, schema, parse).value;
    var cols := Transpose(parsed, |schema|);
    forall i | 0 <= i < |schema|
      ensures builders[i] == cols[i]
    {
      forall k | 0 <= k < |rows|
        ensures builders[i][k] == cols[i][k]
      {
        assert ParseRow(rows[k], schema, parse) == Ok(parsed[k]);
      }
    }
  }

  /** Builders holding every row hold each row's parsed fields. */
  lemma BuiltCells(builders: seq<seq<Cell>>, rows: seq<seq<string>>, schema: Schema, parse: ScalarParser)
    requires forall k :: 0 <= k < |rows| ==> ParseRow(rows[k], schema, parse).Ok?
    requires Built(builders, rows, schema, parse, |rows|)
    ensures forall i, k :: 0 <= i < |schema| && 0 <= k < |rows| ==>
              |rows[k]| == |schema| && ParseValue(rows[k][i], schema[i].kind, parse) == Ok(builders[i][k])
  {
    forall i, k | 0 <= i < |schema| && 0 <= k < |rows|
      ensures |rows[k]| == |schema|
      ensures ParseValue(rows[k][i], schema[i].kind, parse) == Ok(builders[i][k])
    {
      assert ParseRow(rows[k], schema, parse).Ok?;
    }
  }

  /** With a parser that keeps to its kind, the parsed rows form a
      well-formed table of the declared schema. */
  lemma ParseRowsWellFormed(rows: seq<seq<string>>, schema: Schema, parse: ScalarParser)
    requires KeepsKind(parse)
    requires ParseRows(rows, schema, parse).Ok?
    ensures WellFormed(Table(schema, ParseRows(rows, schema, parse).value))
  {
    var parsed := ParseRows(rows, schema, parse).value;
    var rowF := (row: seq<string>) => ParseRow(row, schema, parse);
    forall k | 0 <= k < |rows|
      ensures |parsed[k]| == |schema|
      ensures forall c :: 0 <= c < |schema| ==> CellOfKind(parsed[k][c], schema[c].kind)
    {
      assert rowF(rows[k]) == Ok(parsed[k]);
      forall c | 0 <= c < |schema|
        ensures CellOfKind(parsed[k][c], schema[c].kind)
      {
        assert ParseValue(rows[k][c], schema[c].kind, parse) == Ok(parsed[k][c]);
        ParseValueKeepsKind(rows[k][c], schema[c].kind, parse);
      }
    }
  }

  /** Every row parses: so do the rows together. */
  lemma ParseRowsOk(rows: seq<seq<string>>, schema: Schema, parse: ScalarParser)
    requires forall k :: 0 <= k < |rows| ==> ParseRow(rows[k], schema, parse).Ok?
    ensures ParseRows(rows, schema, parse).Ok?
  {
    var rowF := (row: seq<string>) => ParseRow(row, schema, parse);
    assert forall k :: 0 <= k < |rows| ==> rowF(rows[k]) == ParseRow(rows[k], schema, parse);
  }

  /** Row `j` is the first that fails: the rows together fail with its
      error. */
  lemma ParseRowsFirstFailure(rows: seq<seq<string>>, schema: Schema, parse: ScalarParser, j: nat)
    requires j < |rows|
    requires forall k :: 0 <= k < j ==> ParseRow(rows[k], schema, parse).Ok?
    requires ParseRow(rows[j], schema, parse).Err?
    ensures ParseRows(rows, schema, parse) == Err(ParseRow(rows[j], schema, parse).error)
  {
    var rowF := (row: seq<string>) => ParseRow(row, schema, parse);
    assert forall k :: 0 <= k <= j ==> rowF(rows[k]) == ParseRow(rows[k], schema, parse);
    assert FirstFailureAt(rowF, rows, j);
    MapAllFirstFailure(rowF, rows, j);
  }

  /** The body of the row loop: checks the width, then parses the fields left
      to right, appending each to its column's builder. */
  method AddRow(builders: seq<seq<Cell>>, row: seq<string>, schema: Schema, parse: ScalarParser)
    returns (r: Result<seq<seq<Cell>>, CsvError>)
    requires |builders| == |schema|
    ensures r.Ok? <==> ParseRow(row, schema, parse).Ok?
    ensures r.Err? ==> ParseRow(row, schema, parse) == Err(r.error)
    ensures r.Ok? ==> |r.value| == |schema|
    ensures r.Ok? ==> forall i :: 0 <= i < |schema| ==> r.value[i] == builders[i] + [ParseRow(row, schema, parse).value[i]]
  {
    var width := |schema|;
    if |row| != width {
      return Err(RowWidthMismatch(|row|, width));
    }
    var acc := builders;
    var i := 0;
    while i < width
      invariant 0 <= i <= width
      invariant |acc| == width
      invariant forall k :: 0 <= k < i ==> ParseValue(row[k], schema[k].kind, parse).Ok?
      invariant forall k :: 0 <= k < i ==> acc[k] == builders[k] + [ParseValue(row[k], schema[k].kind, parse).value]
      invariant forall k :: i <= k < width ==> acc[k] == builders[k]
    {
      var cell := ParseValue(row[i], schema[i].kind, parse);
      if cell.Err? {
        FirstFieldErrorDecides(row, schema, parse, i);
        return Err(cell.error);
      }
      acc := acc[i := acc[i] + [cell.value]];
      i := i + 1;
    }
    r := Ok(acc);
  }

  /** A row whose first failing field is `i` fails with that field's error. */
  lemma FirstFieldErrorDecides(fields: seq<string>, schema: Schema, parse: ScalarParser, i: nat)
    requires |fields| == |schema| && i < |fields|
    requires forall k :: 0 <= k < i ==> ParseValue(fields[k], schema[k].kind, parse).Ok?
    requires ParseValue(fields[i], schema[i].kind, parse).Err?
    ensures ParseRow(fields, schema, parse) == Err(ParseValue(fields[i], schema[i].kind, parse).error)
  {
    var f := (p: (string, Column)) => ParseValue(p.0, p.1.kind, parse);
    var z := Zip(fields, schema);
    assert FirstFailureAt(f, z, i);
    MapAllFirstFailure(f, z, i);
  }
}
