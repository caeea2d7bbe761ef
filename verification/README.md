# baby-kusto core, modelled in Dafny

This project models three pieces of the baby-kusto query engine and proves properties of each:

- **The CSV sample server's data layer.**
  - `CsvTableSource` opens a CSV file whose first line declares the schema as `name:type` cells. It splits, trims and unquotes every later non-empty line. It parses the fields against the schema only when the data is read.
  - `CsvTablesProvider` loads a list of such files into a dictionary keyed by table name.
- **Three nodes of the engine's internal representation (IR).** Each has a checking constructor and child navigation (`ChildCount`, `GetChild`):
  - the cast expression;
  - the `union` operator;
  - the built-in window-function call.
- **Reference semantics of the query operators pinned by the engine's end-to-end tests.** These are:
  - three-valued `and`/`or`/`not`;
  - `order by` with direction and null placement;
  - `distinct`;
  - `union` with schema reconciliation;
  - every `join` kind;
  - `summarize count() by`;
  - `row_cumsum` with restart, evaluated chunk by chunk;
  - the scalars `bin`/`floor`, `%`, `substring`, `replace_string`, `strlen`, `isnull` and `isempty`;
  - `take` and `count`.

  Each test scenario is a concrete lemma. Each operator also has a general property that the scenario is an instance of.

Layout (one module per file):

| file | module | what it holds |
|---|---|---|
| `wrappers.dfy` | `Wrappers` | `Option`, `Result` |
| `values.dfy` | `Values` | kinds, values, nullable cells, rows, schemas, tables, value ordering |
| `text.dfy` | `Text` | .NET `Trim`, `Split`, ASCII `ToLowerInvariant`, decimal rendering |
| `sequences.dfy` | `Sequences` | `MapAll` (first failure wins), `Dedup` (first-seen order), `Flatten` |
| `csv_table_source.dfy` | `CsvTableSource` | header parsing, line splitting, value parsing, `GetData` |
| `csv_tables_provider.dfy` | `CsvTablesProvider` | the loading loop, the registry, `GetTables` |
| `ir_nodes.dfy` | `IrNodes` | the three node constructors and `ChildCount`/`GetChild` |
| `logic.dfy` | `Logic` | `and`, `or`, `not` on nullable booleans |
| `sort.dfy`, `sort_scenarios.dfy` | `Sort`, `SortScenarios` | `order by` |
| `distinct.dfy` | `Distinct` | `distinct` |
| `naming.dfy` | `Naming` | fresh column names `x`, `x1`, `x2`, ... |
| `union.dfy` | `Union` | `union` |
| `relational_scenarios.dfy` | `RelationalScenarios` | the `distinct` and `union` scenarios |
| `join.dfy`, `join_scenarios.dfy` | `Join`, `JoinScenarios` | `join` |
| `summarize.dfy` | `Summarize` | `summarize count() by` |
| `window.dfy` | `Window` | `row_cumsum` |
| `scalars.dfy` | `Scalars` | the scalar built-ins |
| `take.dfy` | `Take` | `take`, `count` |
| `scalar_scenarios.dfy` | `ScalarScenarios` | the logic, scalar, `row_cumsum`, `summarize` and `take` scenarios |

A CSV file is given as the sequence of lines `StreamReader.ReadLine` returns. A missing first line is an empty sequence. The .NET scalar parsers are a function parameter: they return `None` where the parser throws. A table is a schema plus rows of nullable cells. The IR nodes are one datatype. Its `Leaf` and `ListNode` constructors stand for the expression and list node classes, which are not part of this model.

Several join tests sort their output before comparing it. For those test inputs, the model's order (left-driven pairs, then unmatched right rows) is already the sorted order, so the scenario lemmas state the rows in the model's order, which is the tests' expected order.

## Model

| member | source | states |
|---|---|---|
| `CsvTableSource.MapKustoType` | samples/Sample.CsvServer/CsvTableSource.cs:130-140 | exactly the eight type names are accepted; any other name fails with the unsupported-type error carrying that name |
| `CsvTableSource.MapKustoTypeNames` | samples/Sample.CsvServer/CsvTableSource.cs:130-140 | every kind is reached from its own name; a name reaches a kind only as that kind's name, or as `double` for `real` |
| `CsvTableSource.ParseColumnDefinition` | samples/Sample.CsvServer/CsvTableSource.cs:92-99 | a header cell is accepted only if it splits on `:` into exactly two parts; otherwise it fails with the invalid-definition error naming the cell. The column name is the trimmed first part. The trimmed, lower-cased second part must be one of the supported type names, and the column's kind is the kind that name denotes; any other type name fails with the unsupported-type error naming it |
| `CsvTableSource.RenderDefinitions` | samples/Sample.CsvServer/CsvTableSource.cs:85-103 | the header cells of a schema, one `name:type` cell per column in order (the inverse direction of header parsing) |
| `CsvTableSource.KindNameIsPlain` | samples/Sample.CsvServer/CsvTableSource.cs:96-97 | type names survive trimming and lower-casing unchanged and contain no separator |
| `CsvTableSource.LowerLettersArePlain` | samples/Sample.CsvServer/CsvTableSource.cs:96-97 | a lower-case ASCII word is unchanged by trimming and lower-casing |
| `CsvTableSource.ParsePlainDefinition` | samples/Sample.CsvServer/CsvTableSource.cs:92-99 | a `name:type` cell with plain parts parses to the column of that name and kind |
| `CsvTableSource.ParseRenderedDefinition` | samples/Sample.CsvServer/CsvTableSource.cs:92-99 | round trip for one column: parsing the cell rendered from a column gives that column back |
| `CsvTableSource.RenderedDefinitionHasNoComma` | samples/Sample.CsvServer/CsvTableSource.cs:87 | a rendered cell contains no comma, so splitting the header line does not cut it |
| `CsvTableSource.ParseHeader` | samples/Sample.CsvServer/CsvTableSource.cs:85-103 | the header splits on every comma into one column definition more than it has commas; it parses exactly when every definition does, column `i` then being definition `i`; otherwise it fails with the first bad definition's error |
| `CsvTableSource.ParseRenderHeader` | samples/Sample.CsvServer/CsvTableSource.cs:85-103 | round trip: the header line rendered from a non-empty schema of plain names parses back to that schema, columns in order |
| `CsvTableSource.Unquote` | samples/Sample.CsvServer/CsvTableSource.cs:46 | a field wrapped in double quotes loses exactly that pair; other fields pass unchanged; a lone `"` field fails, as the out-of-range slice of the source does |
| `CsvTableSource.SplitLine` | samples/Sample.CsvServer/CsvTableSource.cs:44-47 | a line splits into one field more than it has commas, because quotes do not protect commas; field `i` is the `i`-th comma-separated piece, trimmed and unquoted; the line fails exactly when some piece trims to a lone `"`, with the lone-quote error |
| `CsvTableSource.SplitLineOfPlainFields` | samples/Sample.CsvServer/CsvTableSource.cs:44-47 | round trip: fields with no comma, no surrounding whitespace and no surrounding quotes, joined with commas, split back into the same fields |
| `CsvTableSource.SplitLineOfQuotedFields` | samples/Sample.CsvServer/CsvTableSource.cs:44-47 | round trip: comma-free fields, each wrapped in double quotes and joined with commas, split back into the same fields, whitespace inside the quotes kept |
| `CsvTableSource.NonEmptyLines` | samples/Sample.CsvServer/CsvTableSource.cs:39-42 | empty lines are dropped and every non-empty line is kept, as often as it occurs: the result holds each non-empty line with its multiplicity in the file |
| `CsvTableSource.NonEmptyLinesAppend` | samples/Sample.CsvServer/CsvTableSource.cs:39-42 | lines are kept in file order: the kept lines of two consecutive pieces of a file are those of the first piece followed by those of the second |
| `CsvTableSource.Load` | samples/Sample.CsvServer/CsvTableSource.cs:20-51 | a missing or empty header fails with the empty-header error; otherwise the source opens exactly when the header parses and every non-empty line splits; the table takes the given name, the header's schema and the split rows |
| `CsvTableSource.ParseValue` | samples/Sample.CsvServer/CsvTableSource.cs:105-128 | an empty field is null in every kind; a string field is its text; any other field is the parser's value, or fails with the invalid-cast error when the parser rejects it |
| `CsvTableSource.ParseFields` | samples/Sample.CsvServer/CsvTableSource.cs:69-74 | a row parses exactly when each of its fields parses against its column's kind, and then cell `i` is field `i`'s value |
| `CsvTableSource.ParseRow` | samples/Sample.CsvServer/CsvTableSource.cs:64-75 | a row whose width differs from the schema's fails with the width error naming both widths; a parsed row has the schema's width |
| `CsvTableSource.ParseRows` | samples/Sample.CsvServer/CsvTableSource.cs:64-75 | when reading the rows succeeds it yields one parsed row per stored row, row `k` being row `k` parsed against the schema, each as wide as the schema |
| `CsvTableSource.ParseRowsFirstFailure` | samples/Sample.CsvServer/CsvTableSource.cs:64-75 | when every row before row `j` parses and row `j` does not, reading the rows fails with row `j`'s error |
| `CsvTableSource.ParseRowsOk` | samples/Sample.CsvServer/CsvTableSource.cs:64-75 | when every row parses, reading the rows succeeds |
| `CsvTableSource.ParseValueKeepsKind` | samples/Sample.CsvServer/CsvTableSource.cs:105-128 | with scalar parsers that return values of the kind asked for, a parsed field is null or of its column's kind |
| `CsvTableSource.ParseRowsWellFormed` | samples/Sample.CsvServer/CsvTableSource.cs:64-75 | with such parsers, the parsed rows form a well-formed table of the declared schema: each row as wide as the schema, each cell of its column's kind |
| `CsvTableSource.FirstFieldErrorDecides` | samples/Sample.CsvServer/CsvTableSource.cs:69-74 | the first failing field of a row, left to right, decides the row's error |
| `CsvTableSource.Transpose` | samples/Sample.CsvServer/CsvTableSource.cs:55-77 | the column view of a list of rows, which `GetData`'s chunk is: one column per schema column; cell `j` of column `i` is cell `i` of row `j` |
| `CsvTableSource.GetData` | samples/Sample.CsvServer/CsvTableSource.cs:53-78 | reading the data fails exactly when some row fails, with the first failing row's error; otherwise it yields one chunk whose column `i`, row `j` is field `i` of row `j` parsed against column `i`'s kind; that chunk is exactly the parsed rows turned into columns (`Transpose`) |
| `CsvTableSource.AddRow` | samples/Sample.CsvServer/CsvTableSource.cs:64-75 | one row through the builders: the width check, then each field appended to its column's builder, or the row's error |
| `CsvTablesProvider.TableNamesCons` | samples/Sample.CsvServer/CsvTablesProvider.cs:8 | the names of a registry are the names of its entries |
| `CsvTablesProvider.Lookup` | samples/Sample.CsvServer/CsvTablesProvider.cs:8 | a name is found exactly when it is registered, and the table found carries that name |
| `CsvTablesProvider.Store` | samples/Sample.CsvServer/CsvTablesProvider.cs:19 | storing a table makes its name look up to it, replaces an entry of the same name without growing the registry, leaves every other name's lookup unchanged, and keeps names unique |
| `CsvTablesProvider.LoadFile` | samples/Sample.CsvServer/CsvTablesProvider.cs:18 | a file loads as a table named by the file |
| `CsvTablesProvider.LoadAll` | samples/Sample.CsvServer/CsvTablesProvider.cs:14-26 | the loading loop keeps names unique and registers at most one table per file |
| `CsvTablesProvider.LoadAllLastWins` | samples/Sample.CsvServer/CsvTablesProvider.cs:14-26 | every name resolves to the table of the last file of that name that loads; failing files are skipped |
| `CsvTablesProvider.LastLoadedExists` | samples/Sample.CsvServer/CsvTablesProvider.cs:16-25 | a name is registered exactly when some file loads a table of that name |
| `CsvTablesProvider.LoadAllEmpty` | samples/Sample.CsvServer/CsvTablesProvider.cs:14-31 | the registry is empty exactly when no file loads |
| `CsvTablesProvider.NewProvider` | samples/Sample.CsvServer/CsvTablesProvider.cs:10-32 | construction fails with the no-valid-tables error exactly when every file fails to load; otherwise it holds between one and as many tables as files, and each name resolves to its last loaded table |
| `CsvTablesProvider.GetTables` | samples/Sample.CsvServer/CsvTablesProvider.cs:34 | every registered table exactly once: as many tables as names, pairwise distinct names, each table the one its name looks up to |
| `CsvTablesProvider.UniqueNamesCount` | samples/Sample.CsvServer/CsvTablesProvider.cs:8 | a registry with unique names has as many entries as names |
| `CsvTablesProvider.LookupUnique` | samples/Sample.CsvServer/CsvTablesProvider.cs:8 | with unique names, every entry is the one its name looks up to |
| `IrNodes.ChildCount` | src/BabyKusto.Core/InternalRepresentation/Nodes/Expressions/IRCastExpressionNode.cs:19 | a cast, a union and a window call each have exactly one child |
| `IrNodes.GetChild` | src/BabyKusto.Core/InternalRepresentation/Nodes/Expressions/IRCastExpressionNode.cs:20-25 | a child index succeeds exactly when it is below the child count; any other index fails with the out-of-range error naming `index` |
| `IrNodes.ChildIndexing` | src/BabyKusto.Core/InternalRepresentation/Nodes/Expressions/QueryOperators/IRUnionOperatorNode.cs:19-25 | `ChildCount` and `GetChild` enumerate exactly the node's children, in order |
| `IrNodes.NewCastAsWritten` | src/BabyKusto.Core/InternalRepresentation/Nodes/Expressions/IRCastExpressionNode.cs:11-15 | as written, any expression operand, a `union` included, gives a cast; a null operand fails with a null dereference, because the base-constructor argument reads the operand before the null check |
| `IrNodes.CastNullCheckUnreachable` | src/BabyKusto.Core/InternalRepresentation/Nodes/Expressions/IRCastExpressionNode.cs:14 | the constructor as written never raises the argument-null error its null check names |
| `IrNodes.NewCast` | src/BabyKusto.Core/InternalRepresentation/Nodes/Expressions/IRCastExpressionNode.cs:11-17 | a null operand fails with the argument-null error for `expression`; any expression operand, a `union` included, gives a cast that takes the target type, inherits the operand's result kind, and has the operand as its only child |
| `IrNodes.CastConstructorsAgree` | src/BabyKusto.Core/InternalRepresentation/Nodes/Expressions/IRCastExpressionNode.cs:11-15 | the constructor as written and the corrected one agree on every non-null operand and differ on the null one |
| `IrNodes.CastShape` | src/BabyKusto.Core/InternalRepresentation/Nodes/Expressions/IRCastExpressionNode.cs:11-25 | navigation of a cast: one child, the operand at index 0, the operand's result kind |
| `IrNodes.NewUnion` | src/BabyKusto.Core/InternalRepresentation/Nodes/Expressions/QueryOperators/IRUnionOperatorNode.cs:11-25 | a null input list fails with the argument-null error for `expressions`; a union takes the result type, evaluates to a table, its child 0 is the whole input list, and every other index is out of range |
| `IrNodes.UnionInputsOneLevelDown` | src/BabyKusto.Core/InternalRepresentation/Nodes/Expressions/QueryOperators/IRUnionOperatorNode.cs:19-25 | the union's inputs are reached through the list node, one level below the union |
| `IrNodes.CastOfUnion` | src/BabyKusto.Core/InternalRepresentation/Nodes/Expressions/IRCastExpressionNode.cs:11-25 | a union is an expression and can be cast: the cast is tabular, its child is the union, and the union's child is its input list |
| `IrNodes.NewWindowCall` | src/BabyKusto.Core/InternalRepresentation/Nodes/Expressions/IRBuiltInWindowFunctionCallNode.cs:13-25 | the result kind is computed from the arguments first, and its failure wins; then the null checks run in the order signature, overload info, parameters, arguments; a built call carries exactly the given parts |
| `IrNodes.WindowKindFromArgumentsOnly` | src/BabyKusto.Core/InternalRepresentation/Nodes/Expressions/IRBuiltInWindowFunctionCallNode.cs:14 | two window calls over the same arguments have the same result kind, whatever their signature, overload, parameters and type |
| `IrNodes.WindowChildIsArgumentList` | src/BabyKusto.Core/InternalRepresentation/Nodes/Expressions/IRBuiltInWindowFunctionCallNode.cs:27-33 | a window call's only child is its argument list; the signature, overload and parameters are not children |
| `Logic.And` | test/BabyKusto.Core.Tests/EndToEndTests.cs:2462-2535 | `and` is false when either side is false, true when both are true, and null otherwise |
| `Logic.Or` | test/BabyKusto.Core.Tests/EndToEndTests.cs:2490-2554 | `or` is true when either side is true, false when both are false, and null otherwise |
| `Logic.Not` | test/BabyKusto.Core.Tests/EndToEndTests.cs:1001-1041 | `not` maps null to null, true to false and false to true, reversing the order false < null < true |
| `Logic.AndIsMin` | test/BabyKusto.Core.Tests/EndToEndTests.cs:2518-2535 | reference definition: `and` is the minimum in the order false < null < true |
| `Logic.OrIsMax` | test/BabyKusto.Core.Tests/EndToEndTests.cs:2537-2554 | reference definition: `or` is the maximum in the same order |
| `Logic.TwoValued` | test/BabyKusto.Core.Tests/EndToEndTests.cs:2462-2516 | on non-null operands the operators are ordinary boolean `and` and `or` |
| `Logic.Algebra` | test/BabyKusto.Core.Tests/EndToEndTests.cs:2462-2554 | `and` and `or` are commutative and associative, and De Morgan's laws hold with `not` |
| `Logic.NullHandlingScenario` | test/BabyKusto.Core.Tests/EndToEndTests.cs:2518-2554 | the null rows of the test tables: null `and` false is false, null `or` true is true, every other null combination is null |
| `Values.KindNameInjective` | samples/Sample.CsvServer/CsvTableSource.cs:130-140 | distinct kinds have distinct type names |
| `Values.CompareValuesAntisymmetric` | test/BabyKusto.Core.Tests/EndToEndTests.cs:242-344 | the value order is antisymmetric and equates only equal values |
| `Values.CompareValuesTransitive` | test/BabyKusto.Core.Tests/EndToEndTests.cs:242-344 | the value order is transitive |
| `Sort.CompareRowsAntisymmetric` | test/BabyKusto.Core.Tests/EndToEndTests.cs:242-344 | the row order under any sort keys, directions and null placements is antisymmetric |
| `Sort.CompareRowsTransitive` | test/BabyKusto.Core.Tests/EndToEndTests.cs:242-344 | the row order is transitive |
| `Sort.SortRows` | test/BabyKusto.Core.Tests/EndToEndTests.cs:242-344 | `order by` outputs as many rows as it reads; the rows below state that they are the same rows, in key order, stably |
| `Sort.SortRowsPermutes` | test/BabyKusto.Core.Tests/EndToEndTests.cs:242-344 | `order by` outputs a permutation of its input |
| `Sort.SortRowsSorted` | test/BabyKusto.Core.Tests/EndToEndTests.cs:242-344 | `order by` outputs rows in key order |
| `Sort.SortRowsStable` | test/BabyKusto.Core.Tests/EndToEndTests.cs:242-344 | rows with equal keys keep their input order |
| `Sort.SortRowsOfSorted` | test/BabyKusto.Core.Tests/EndToEndTests.cs:242-344 | sorting rows already in key order changes nothing |
| `Sort.SortRowsStep` | test/BabyKusto.Core.Tests/EndToEndTests.cs:242-344 | one more input row lands after the sorted rows that do not follow it and before those that do |
| `Sort.SortRowsAppend` | test/BabyKusto.Core.Tests/EndToEndTests.cs:242-344 | appending a row that sorts no earlier than the last sorted row puts it last and leaves the sorted rows as they were |
| `Sort.NullPlacement` | test/BabyKusto.Core.Tests/EndToEndTests.cs:272-344 | in a sorted output, null keys come before non-null keys under `nulls first` and after them under `nulls last`; the default is `nulls last` for `desc` and `nulls first` for `asc` |
| `Sort.DirectionOrder` | test/BabyKusto.Core.Tests/EndToEndTests.cs:242-344 | in a sorted output, non-null keys are non-increasing under `desc` (the default) and non-decreasing under `asc` |
| `SortScenarios.SortDesc` | test/BabyKusto.Core.Tests/EndToEndTests.cs:242-270 | `order by a`: the rows 4, 3, 2, 1, then null |
| `SortScenarios.SortDescNullsFirst` | test/BabyKusto.Core.Tests/EndToEndTests.cs:272-300 | `order by a nulls first`: null, then 4, 3, 2, 1 |
| `SortScenarios.SortAscNullsFirst` | test/BabyKusto.Core.Tests/EndToEndTests.cs:302-322 | `order by a asc`: null, then 1.0, 1.5, 3.0 |
| `SortScenarios.SortAscNullsLast` | test/BabyKusto.Core.Tests/EndToEndTests.cs:324-344 | `order by a asc nulls last`: 1.0, 1.5, 3.0, then null |
| `Sequences.MapAll` | samples/Sample.CsvServer/CsvTableSource.cs:64-75 | a step-by-step conversion succeeds exactly when every element converts, with the converted elements in order; otherwise it fails with the first failure's error |
| `Sequences.Dedup` | test/BabyKusto.Core.Tests/EndToEndTests.cs:738-817 | the distinct elements, each once, every element represented |
| `Sequences.DedupFirstSeenOrder` | test/BabyKusto.Core.Tests/EndToEndTests.cs:738-817 | distinct elements come out in the order of their first occurrence |
| `Sequences.DedupOfDistinct` | test/BabyKusto.Core.Tests/EndToEndTests.cs:791-817 | deduplicating distinct elements changes nothing |
| `Sequences.SumOfCountsDedup` | test/BabyKusto.Core.Tests/EndToEndTests.cs:171-190 | the occurrence counts of the distinct elements add up to the input length |
| `Sequences.FlattenIndex` | test/BabyKusto.Core.Tests/EndToEndTests.cs:3149-3172 | element `i` of chunk `k` sits at the chunk's offset plus `i` in the concatenation |
| `Sequences.Locate` | test/BabyKusto.Core.Tests/EndToEndTests.cs:819-868 | every position of the concatenation comes from one chunk and one index within it |
| `Distinct.Project` | test/BabyKusto.Core.Tests/EndToEndTests.cs:738-789 | the selected cells of a row, in selection order |
| `Distinct.SelectedColumns` | test/BabyKusto.Core.Tests/EndToEndTests.cs:791-817 | `distinct *` selects every column in schema order |
| `Distinct.DistinctRows` | test/BabyKusto.Core.Tests/EndToEndTests.cs:738-817 | the output has the selected columns; its rows are pairwise distinct; each is the projection of an input row; every input row's projection is in the output |
| `Distinct.DistinctFirstSeen` | test/BabyKusto.Core.Tests/EndToEndTests.cs:738-817 | output rows come in the order their first input occurrence appears |
| `Distinct.DistinctStarOfDistinct` | test/BabyKusto.Core.Tests/EndToEndTests.cs:791-817 | `distinct *` of a table without repeated rows is the table's rows unchanged |
| `RelationalScenarios.DistinctOneColumnScenario` | test/BabyKusto.Core.Tests/EndToEndTests.cs:738-762 | `distinct AppMachine` over three rows: `vm0`, `vm1` |
| `RelationalScenarios.DistinctTwoColumnsScenario` | test/BabyKusto.Core.Tests/EndToEndTests.cs:764-789 | `distinct AppMachine, CounterName`: the three different pairs |
| `RelationalScenarios.DistinctStarScenario` | test/BabyKusto.Core.Tests/EndToEndTests.cs:791-817 | `distinct *`: the repeated row is dropped and the rest keep their order |
| `Naming.SuffixedInjective` | test/BabyKusto.Core.Tests/EndToEndTests.cs:3634-3659 | different numbers give different suffixed names |
| `Naming.FreshName` | test/BabyKusto.Core.Tests/EndToEndTests.cs:3634-3659 | a free name is kept; a taken one gets the smallest number not taken; the result is never taken |
| `Naming.UniquifyDistinct` | test/BabyKusto.Core.Tests/EndToEndTests.cs:893-919 | renaming makes every name distinct |
| `Naming.UniquifyPrefix` | test/BabyKusto.Core.Tests/EndToEndTests.cs:893-919 | earlier names are renamed without regard to later ones |
| `Naming.UniquifyOfDistinct` | test/BabyKusto.Core.Tests/EndToEndTests.cs:921-942 | names that are already distinct are left unchanged |
| `Naming.UniquifyKeepsBase` | test/BabyKusto.Core.Tests/EndToEndTests.cs:893-919 | each renamed name is the original or the original with a number appended |
| `Naming.UniquifyAppendFree` | test/BabyKusto.Core.Tests/EndToEndTests.cs:3661-3686 | a name not yet used is kept |
| `Naming.UniquifyAppendTaken` | test/BabyKusto.Core.Tests/EndToEndTests.cs:3688-3713 | a name already used, whose `1` variant is free, becomes that variant |
| `Union.OutputColumns` | test/BabyKusto.Core.Tests/EndToEndTests.cs:870-919 | the output columns are the distinct (name, kind) pairs of the inputs |
| `Union.AllColumnsHas` | test/BabyKusto.Core.Tests/EndToEndTests.cs:870-919 | every input column is among the output columns |
| `Union.UnionSchema` | test/BabyKusto.Core.Tests/EndToEndTests.cs:893-919 | one output column per distinct (name, kind) pair, with that kind, under pairwise distinct names |
| `Union.UnionSchemaNames` | test/BabyKusto.Core.Tests/EndToEndTests.cs:893-919 | each output column is named by its base name (the plain name, or `name_kind` when the name is seen with more than one kind), possibly followed by a numeric suffix; when no two base names collide, no suffix is added |
| `Union.Realign` | test/BabyKusto.Core.Tests/EndToEndTests.cs:870-919 | an input row placed under the output columns: its cell where its table has the column, null where it does not |
| `Union.UnionTables` | test/BabyKusto.Core.Tests/EndToEndTests.cs:819-942 | the union has the reconciled schema and as many rows as all its inputs together |
| `Union.UnionRowAt` | test/BabyKusto.Core.Tests/EndToEndTests.cs:819-868 | row `i` of input `k` appears, realigned, at input `k`'s offset plus `i`: inputs in order, rows in order |
| `Union.UnionRowOrigin` | test/BabyKusto.Core.Tests/EndToEndTests.cs:819-868 | every output row is some input row realigned |
| `Union.UnionPlacesCells` | test/BabyKusto.Core.Tests/EndToEndTests.cs:870-919 | each input cell lands in the output column of its (name, kind), and columns its table lacks are null |
| `Union.UnionWellFormed` | test/BabyKusto.Core.Tests/EndToEndTests.cs:819-942 | the union of well-formed tables is well formed: each row as wide as the schema, each cell of its column's kind |
| `Union.UnionOfSameSchema` | test/BabyKusto.Core.Tests/EndToEndTests.cs:921-942 | inputs sharing one schema give that schema and their rows concatenated |
| `Union.SameSchemaColumns` | test/BabyKusto.Core.Tests/EndToEndTests.cs:921-942 | inputs sharing one schema give exactly that schema's columns |
| `Union.RealignSameSchema` | test/BabyKusto.Core.Tests/EndToEndTests.cs:921-942 | realigning a row under its own schema leaves it unchanged |
| `RelationalScenarios.UnionSameSchemaScenario` | test/BabyKusto.Core.Tests/EndToEndTests.cs:819-868 | a table united with itself, and two tables of one schema: rows concatenated in order |
| `RelationalScenarios.UnionDisjointScenario` | test/BabyKusto.Core.Tests/EndToEndTests.cs:870-891 | columns `v1` and `v2`: each input's rows have the other's column null |
| `RelationalScenarios.UnionReconcileScenario` | test/BabyKusto.Core.Tests/EndToEndTests.cs:893-919 | `v` as real and as long next to `v_real`: columns `v_real`, `v_real1`, `v_long`, with each cell under its column |
| `RelationalScenarios.ReconcileUniquify` | test/BabyKusto.Core.Tests/EndToEndTests.cs:893-919 | the clashing `v_real` is numbered `v_real1` |
| `Join.ParseKind` | test/BabyKusto.Core.Tests/EndToEndTests.cs:3251-3284 | a join without a kind is `innerunique` |
| `Join.ParseKindNames` | test/BabyKusto.Core.Tests/EndToEndTests.cs:3286-3632 | every kind parses from its own name; `anti` and `leftantisemi` are `leftanti`, and `rightantisemi` is `rightanti` |
| `Join.MatchesPointwise` | test/BabyKusto.Core.Tests/EndToEndTests.cs:3352-3381 | a left and a right row match exactly when every key pair's cells are equal |
| `Join.FillRow` | test/BabyKusto.Core.Tests/EndToEndTests.cs:3715-3744 | the padding of an unmatched side: the empty string in string columns, null in every other column |
| `Join.PadLeft` | test/BabyKusto.Core.Tests/EndToEndTests.cs:3420-3455 | an unmatched right row is preceded by a padded left side |
| `Join.JoinSchema` | test/BabyKusto.Core.Tests/EndToEndTests.cs:3495-3632 | semi and anti joins keep one side's columns; the other kinds output the left columns, then the right ones, with the same kinds |
| `Join.JoinSchemaKeepsLeft` | test/BabyKusto.Core.Tests/EndToEndTests.cs:3634-3713 | the left columns come first and keep their names |
| `Join.JoinSchemaDistinct` | test/BabyKusto.Core.Tests/EndToEndTests.cs:3634-3713 | the output column names are pairwise distinct |
| `Join.JoinSchemaRightNames` | test/BabyKusto.Core.Tests/EndToEndTests.cs:3688-3713 | each right column keeps its name, or takes the name with the smallest free number |
| `Join.JoinSchemaNoClash` | test/BabyKusto.Core.Tests/EndToEndTests.cs:3661-3686 | with no name shared between the sides, the schema is the left columns followed by the right ones |
| `Join.JoinRows` | test/BabyKusto.Core.Tests/EndToEndTests.cs:3316-3418 | `inner` outputs one row per matching (left row, right row) index pair; `leftouter` outputs those rows plus one per unmatched left row |
| `Join.JoinTables` | test/BabyKusto.Core.Tests/EndToEndTests.cs:3316-3713 | with distinct left names, a join that outputs pairs keeps the left columns first, has as many columns as both sides, and has pairwise distinct output names; `inner` has one row per matching index pair |
| `Join.PairsMembers` | test/BabyKusto.Core.Tests/EndToEndTests.cs:3316-3350 | a left row's pairs are exactly that row joined with each matching right row |
| `Join.PairsNonEmpty` | test/BabyKusto.Core.Tests/EndToEndTests.cs:3316-3350 | a left row has a pair exactly when it has a match |
| `Join.InnerMembers` | test/BabyKusto.Core.Tests/EndToEndTests.cs:3316-3350 | `inner` outputs exactly the concatenations of matching left and right rows |
| `Join.PairsCount` | test/BabyKusto.Core.Tests/EndToEndTests.cs:3316-3350 | a left row contributes one output row per matching right row, duplicates included |
| `Join.InnerCount` | test/BabyKusto.Core.Tests/EndToEndTests.cs:3316-3350 | `inner` outputs one row per matching (left row, right row) index pair: its row count is the number of such pairs |
| `Join.LeftPartition` | test/BabyKusto.Core.Tests/EndToEndTests.cs:3495-3598 | `leftsemi` and `leftanti` split the left rows: semi keeps the rows with a match, anti those without, together every left row once |
| `Join.RightPartition` | test/BabyKusto.Core.Tests/EndToEndTests.cs:3530-3632 | `rightsemi` and `rightanti` split the right rows the same way |
| `Join.LeftOuterMembers` | test/BabyKusto.Core.Tests/EndToEndTests.cs:3383-3418 | `leftouter` outputs the matching pairs and each unmatched left row with a padded right side, and nothing else |
| `Join.LeftOuterCount` | test/BabyKusto.Core.Tests/EndToEndTests.cs:3383-3418 | `leftouter` has as many rows as `inner` plus `leftanti` |
| `Join.JoinCounts` | test/BabyKusto.Core.Tests/EndToEndTests.cs:3316-3632 | the outer joins count the inner pairs plus the unmatched rows of the kept sides; semi and anti counts add up to each side's size |
| `Join.FirstPerKeyMembers` | test/BabyKusto.Core.Tests/EndToEndTests.cs:3286-3314 | the left rows `innerunique` keeps are exactly the first row of each key |
| `Join.FirstPerKeyDistinct` | test/BabyKusto.Core.Tests/EndToEndTests.cs:3286-3314 | the kept left rows have pairwise distinct keys |
| `Join.InnerUniqueMembers` | test/BabyKusto.Core.Tests/EndToEndTests.cs:3251-3314 | `innerunique` outputs exactly the pairs of a key's first left row with its matching right rows |
| `Join.InnerUniqueOfUniqueKeys` | test/BabyKusto.Core.Tests/EndToEndTests.cs:3251-3350 | with no repeated left key, `innerunique` and `inner` agree |
| `Join.JoinWellFormed` | test/BabyKusto.Core.Tests/EndToEndTests.cs:3251-3744 | every join of well-formed tables is well formed: each row as wide as the schema, each cell of its column's kind |
| `JoinScenarios.DefaultJoinScenario` | test/BabyKusto.Core.Tests/EndToEndTests.cs:3251-3284 | an unqualified join drops the left row that repeats a key |
| `JoinScenarios.InnerUniqueDuplicateKeysScenario` | test/BabyKusto.Core.Tests/EndToEndTests.cs:3286-3314 | one key on both sides: the first left row pairs with both right rows, and the right columns become `key1`, `value1` |
| `JoinScenarios.InnerJoinScenario` | test/BabyKusto.Core.Tests/EndToEndTests.cs:3316-3350 | `kind=inner`: all four matching pairs |
| `JoinScenarios.LeftRightScopesScenario` | test/BabyKusto.Core.Tests/EndToEndTests.cs:3352-3381 | `on $left.a == $right.a` is `on a`; the right key becomes `a1` |
| `JoinScenarios.LeftOuterJoinScenario` | test/BabyKusto.Core.Tests/EndToEndTests.cs:3383-3418 | `kind=leftouter`: the unmatched left row is padded with an empty string and a null |
| `JoinScenarios.RightOuterJoinScenario` | test/BabyKusto.Core.Tests/EndToEndTests.cs:3420-3455 | `kind=rightouter`: the unmatched right row is padded on the left |
| `JoinScenarios.FullOuterJoinScenario` | test/BabyKusto.Core.Tests/EndToEndTests.cs:3457-3493 | `kind=fullouter`: the pairs and both unmatched rows, each padded |
| `JoinScenarios.SemiAntiJoinScenario` | test/BabyKusto.Core.Tests/EndToEndTests.cs:3495-3632 | the four semi and anti kinds on the same tables |
| `JoinScenarios.DifferentNumColumnsScenario` | test/BabyKusto.Core.Tests/EndToEndTests.cs:3688-3713 | joining (a, b) with (b) on b: the right `b` is named `b1` |
| `JoinScenarios.DistinctKeyNamesScenario` | test/BabyKusto.Core.Tests/EndToEndTests.cs:3661-3686 | keys with different names on each side: both columns kept under their names |
| `JoinScenarios.StringColumnsAreEmptyScenario` | test/BabyKusto.Core.Tests/EndToEndTests.cs:3715-3744 | a padded string column holds the empty string: `isnull` false, `isempty` true, `strlen` 0 |
| `Summarize.GroupRows` | test/BabyKusto.Core.Tests/EndToEndTests.cs:171-190 | each group's row holds its by-values followed by the number of input rows with those values |
| `Summarize.SummarizeCount` | test/BabyKusto.Core.Tests/EndToEndTests.cs:171-240 | the output is the by-columns plus `count_:long`; each row's count is the number of input rows whose by-values equal the row's |
| `Summarize.SummarizeGroups` | test/BabyKusto.Core.Tests/EndToEndTests.cs:171-190 | with by-expressions, the output tuples are pairwise distinct, each occurs in the input, and every input tuple is output |
| `Summarize.SummarizeFirstSeen` | test/BabyKusto.Core.Tests/EndToEndTests.cs:171-190 | groups come out in the order their tuples first occur |
| `Summarize.SummarizeCountsAddUp` | test/BabyKusto.Core.Tests/EndToEndTests.cs:171-240 | the counts add up to the number of input rows |
| `Summarize.SummarizeNoBy` | test/BabyKusto.Core.Tests/EndToEndTests.cs:192-240 | without by-expressions there is exactly one row holding the input size, even for no input |
| `ScalarScenarios.SummarizeByBinScenario` | test/BabyKusto.Core.Tests/EndToEndTests.cs:171-190 | `summarize count() by bin(a, 2)` over 1, 2, 3: group 0 with count 1, then group 2 with count 2 |
| `ScalarScenarios.SummarizeNoByScenario` | test/BabyKusto.Core.Tests/EndToEndTests.cs:192-215 | `summarize count()` over three rows is one row holding 3 |
| `Window.RunStart` | test/BabyKusto.Core.Tests/EndToEndTests.cs:3174-3200 | a row's run starts at the last restarting row at or before it, or at the first row |
| `Window.CumSum` | test/BabyKusto.Core.Tests/EndToEndTests.cs:3127-3200 | reference definition: each row's result is the sum of its run up to and including it |
| `Window.CumSumSnoc` | test/BabyKusto.Core.Tests/EndToEndTests.cs:3127-3200 | one more row adds its value to the previous sum, or replaces the sum when it restarts |
| `Window.RowCumSum` | test/BabyKusto.Core.Tests/EndToEndTests.cs:3149-3172 | chunked evaluation carries the sum across chunks: one output chunk per input chunk, of the same size, and together they equal the reference on the concatenated input |
| `Window.NoRestartIsPrefixSums` | test/BabyKusto.Core.Tests/EndToEndTests.cs:3127-3147 | without restarts the results are the prefix sums |
| `Window.RestartRowIsOwnValue` | test/BabyKusto.Core.Tests/EndToEndTests.cs:3174-3200 | a restarting row's result is its own value |
| `ScalarScenarios.CumSumSingleChunk` | test/BabyKusto.Core.Tests/EndToEndTests.cs:3127-3147 | 1, 2, 3, 4 give 1, 3, 6, 10 |
| `ScalarScenarios.CumSumTwoChunks` | test/BabyKusto.Core.Tests/EndToEndTests.cs:3149-3172 | two chunks of 1, 2, 3 give 1, 3, 6, 7, 9, 12 |
| `ScalarScenarios.CumSumRestart` | test/BabyKusto.Core.Tests/EndToEndTests.cs:3174-3200 | a restart on the third row gives 1, 3, 3, 7 |
| `Scalars.Bin` | test/BabyKusto.Core.Tests/EndToEndTests.cs:1558-1587 | `bin(a, size)` is the largest multiple of `size` not above `a`, rounding toward negative infinity; it is null for a size that is not positive |
| `Scalars.BinUnique` | test/BabyKusto.Core.Tests/EndToEndTests.cs:1558-1587 | the bin is the only multiple of `size` in `(a - size, a]` |
| `Scalars.BinIdempotent` | test/BabyKusto.Core.Tests/EndToEndTests.cs:1558-1587 | binning a bin changes nothing |
| `Scalars.DivModUnique` | test/BabyKusto.Core.Tests/EndToEndTests.cs:1558-1587 | quotient and remainder with a remainder in `[0, size)` are unique |
| `Scalars.Mod` | test/BabyKusto.Core.Tests/EndToEndTests.cs:2315-2341 | `%` is the remainder of division truncated toward zero: smaller than the divisor in magnitude, with the dividend's sign; null for a zero divisor |
| `Scalars.ModReference` | test/BabyKusto.Core.Tests/EndToEndTests.cs:2315-2341 | on a non-negative dividend `%` is the Euclidean remainder; negating the dividend negates the result |
| `Scalars.Substring` | test/BabyKusto.Core.Tests/EndToEndTests.cs:1378-1428 | `substring` is the slice from the start clamped into the string, of the length clamped to what remains; without a length it runs to the end |
| `Scalars.SubstringSplit` | test/BabyKusto.Core.Tests/EndToEndTests.cs:1378-1400 | a substring followed by the rest of the string is the substring from the same start |
| `Scalars.SubstringWhole` | test/BabyKusto.Core.Tests/EndToEndTests.cs:1378-1400 | the whole string is a substring of itself |
| `Scalars.ReplaceString` | test/BabyKusto.Core.Tests/EndToEndTests.cs:1297-1334 | a string without the lookup is unchanged |
| `Scalars.ReplaceIsSplitJoin` | test/BabyKusto.Core.Tests/EndToEndTests.cs:1297-1334 | reference definition: replacement is splitting at the occurrences, left to right and non-overlapping, and joining with the rewrite |
| `Scalars.ReplaceBySelf` | test/BabyKusto.Core.Tests/EndToEndTests.cs:1297-1334 | replacing a string by itself changes nothing |
| `Scalars.StrLen` | test/BabyKusto.Core.Tests/EndToEndTests.cs:1336-1376 | `strlen` is non-negative and zero only for the empty string |
| `Scalars.StrLenAppend` | test/BabyKusto.Core.Tests/EndToEndTests.cs:1336-1376 | the length of a concatenation is the sum of the lengths |
| `Scalars.IsEmpty` | test/BabyKusto.Core.Tests/EndToEndTests.cs:1043-1083 | `isempty` holds exactly for the null cell and the empty string |
| `Scalars.EmptyStringIsNotNull` | test/BabyKusto.Core.Tests/EndToEndTests.cs:944-1083 | `isnull` never holds for a string, the empty one included; `isempty` holds for a string exactly when its length is zero |
| `ScalarScenarios.NotScenario` | test/BabyKusto.Core.Tests/EndToEndTests.cs:1001-1041 | `not` swaps true and false and keeps null |
| `ScalarScenarios.AndOrScenario` | test/BabyKusto.Core.Tests/EndToEndTests.cs:2462-2516 | the truth tables of `and` and `or` on non-null operands |
| `ScalarScenarios.BinScenario` | test/BabyKusto.Core.Tests/EndToEndTests.cs:1558-1587 | `bin(a, 3)` for `a` from -1 to 4: -3, 0, 0, 0, 3, 3 |
| `ScalarScenarios.ModScenario` | test/BabyKusto.Core.Tests/EndToEndTests.cs:2315-2341 | 4, 5 and 6 modulo 5 are 4, 0 and 1; -1 modulo 4 is -1 |
| `ScalarScenarios.SubstringScenario` | test/BabyKusto.Core.Tests/EndToEndTests.cs:1378-1400 | in-range, overlong, negative and past-the-end arguments on `abc` |
| `ScalarScenarios.ReplaceStringScenario` | test/BabyKusto.Core.Tests/EndToEndTests.cs:1297-1334 | `b` replaced by `1` in `abcb`, `abc` and `def` |
| `ScalarScenarios.StrLenScenario` | test/BabyKusto.Core.Tests/EndToEndTests.cs:1336-1376 | `strlen` of `abc` is 3 and of `a` is 1 |
| `ScalarScenarios.NullAndEmptyScenario` | test/BabyKusto.Core.Tests/EndToEndTests.cs:944-1083 | `isnull` is true for null and false for the empty and the blank string; `isempty` is true for the empty string only among these strings |
| `Take.TakeRows` | test/BabyKusto.Core.Tests/EndToEndTests.cs:662-685 | `take n` is the longest prefix of at most `n` rows, and no rows for `n` not positive |
| `Take.TakeTake` | test/BabyKusto.Core.Tests/EndToEndTests.cs:662-685 | taking twice takes the smaller number |
| `Take.TakeChunks` | test/BabyKusto.Core.Tests/EndToEndTests.cs:662-685 | chunked evaluation consumes chunks in order and returns exactly the first `n` rows |
| `Take.TakeThenCount` | test/BabyKusto.Core.Tests/EndToEndTests.cs:687-711 | `count` gives one `Count:long` row; after `take n` it holds the number of kept rows, the smaller of `n` and the row count |
| `ScalarScenarios.TakeScenario` | test/BabyKusto.Core.Tests/EndToEndTests.cs:662-711 | `take 3` of five rows keeps the first three; `take 2` followed by `count` is one row holding 2 |
| `Text.Trim` | samples/Sample.CsvServer/CsvTableSource.cs:45 | trimming leaves no white space at either end |
| `Text.TrimIsInfix` | samples/Sample.CsvServer/CsvTableSource.cs:45 | trimming removes only white space, and only at the ends |
| `Text.TrimIdempotent` | samples/Sample.CsvServer/CsvTableSource.cs:96-97 | trimming twice is trimming once |
| `Text.SplitCount` | samples/Sample.CsvServer/CsvTableSource.cs:92-93 | splitting on a character gives one piece more than there are occurrences |
| `Text.SplitPiecesAvoidSeparator` | samples/Sample.CsvServer/CsvTableSource.cs:44 | no piece contains the separator |
| `Text.SplitJoin` | samples/Sample.CsvServer/CsvTableSource.cs:87 | round trip: joining separator-free pieces and splitting again gives the pieces back |
| `Text.JoinSplitOn` | test/BabyKusto.Core.Tests/EndToEndTests.cs:1297-1334 | round trip: splitting on a separator string and joining with it gives the string back |
| `Text.ToLower` | samples/Sample.CsvServer/CsvTableSource.cs:97 | lower-casing keeps the length and lowers each character |
| `Text.ParseNatToString` | test/BabyKusto.Core.Tests/EndToEndTests.cs:893-919 | round trip: the decimal rendering of a number reads back as that number |
| `Text.NatToStringInjective` | test/BabyKusto.Core.Tests/EndToEndTests.cs:893-919 | different numbers render differently, so numbered names do not collide |

## Left out

- File and stream I/O: a CSV file is the sequence of its lines, and its table name (the file name without extension) is given with it.
- The .NET scalar parsers (`long.Parse`, `int.Parse`, `double.Parse`, `DateTime.Parse`, `bool.Parse`, `TimeSpan.Parse`) are the `parse` parameter of `CsvTableSource`. Their accepted formats are not modelled. The values of the `real`, `datetime` and `timespan` kinds are opaque.
- `ColumnBuilder` and `CreateBuilder` are modelled as per-column sequences of cells. Boxing and `ToColumn` are not modelled.
- `CsvTableSource.Unquote`: tests for the surrounding quotes by ordinal character comparison. The source's `StartsWith("\"")` and `EndsWith("\"")` are culture-sensitive, so under ICU an ignorable character (a soft hyphen, say) before the opening quote, or a combining mark after the closing one, changes the outcome. That behaviour is not modelled.
- `GetData` is a lazy iterator: its errors surface when the chunk is enumerated. The model returns the error directly.
- `GetDataAsync` always throws "not supported", so it is not modelled.
- The console logging of the provider is not modelled.
- `Text.ToLower`: models `ToLowerInvariant` on ASCII letters only, because Unicode case mapping is out of reach. The supported type names are ASCII, so whether a header cell is accepted, and the kind it gets, are unaffected. The type name carried by the unsupported-type error may differ from the source's for non-ASCII upper-case letters: the model keeps them upper-case.
- The IR base classes: `IRExpressionNode`, `IRQueryOperatorNode`, `IRListNode` and the result-kind rule of the function-call base class are not part of this model. The kind rule is a parameter of `NewWindowCall`, and the list node holds its elements. A query operator such as `union` is an expression whose result kind is `Tabular`; `IrNodes.ExpressionNode` is every node but the list node, as the source's `IRExpressionNode` type is.
- `Accept` (the visitor dispatch) and `ToString` of the IR nodes are not modelled.
- `Join.MatchesPointwise`: keys match by plain cell equality, so a null key matches a null key. The tests never join on null keys, and the engine's null-key behaviour is not pinned.
- The output order of `join`, `distinct`, `summarize` and `union` before any `order by` is the model's choice: left-driven join pairs, first-seen groups, inputs in order. The tests fix it only where they do not sort.
- `Summarize.SummarizeNoBy`: with no input rows the model gives one row holding 0. The tests use only three-row inputs and do not pin this case.
- `Sort.SortRows`: the insertion sort is stable. The engine's stability is not pinned by the tests.
- `Sort.NullPlacement`: the empty string is placed like null. The outer-join tests sort padded `""` cells where nulls would go.
- `long`/`int` overflow and wrap-around are not modelled. The integers are unbounded.
- `Scalars.Bin`: a size that is not positive gives null. The tests do not pin this.
- `Scalars.Mod`: a zero divisor gives null. The tests do not pin this.
- `Scalars.Substring`: a negative length is clamped to zero. The tests do not pin this.
- `Scalars.ReplaceString`: an empty lookup leaves the string unchanged. The tests do not pin this.
- `Scalars.StrLen`: the null argument is not modelled. Null arguments are handled before the scalar is applied.
- `Window.RowCumSum`: null values and the output kind (`long` versus `real`) of `row_cumsum` are not modelled. Sums are unbounded integers.
- `Take.TakeRows`: the model keeps no rows for `take n` with `n <= 0`. The tests do not pin this.
- `project-away`, `extend`, `materialize`, aggregates other than `count()`, and the functions outside the list above are not modelled. Floating-point arithmetic, date/time, regular expressions and dynamic values are also not modelled.
- The HTTP server, the controllers, the command-line front end and the processes sample are not modelled.

## Findings

| source | as written | input that shows it | evidently intended | confidence | as-written member | corrected member |
|---|---|---|---|---|---|---|
| src/BabyKusto.Core/InternalRepresentation/Nodes/Expressions/IRCastExpressionNode.cs:11-15 | the base-constructor argument reads `expression.ResultKind` before the `?? throw` null check runs | a null `expression` | `ArgumentNullException` for `expression`, as the null check says | not executed | `IrNodes.NewCastAsWritten` | `IrNodes.NewCast` |
