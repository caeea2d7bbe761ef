/** The provider that loads a list of CSV files into a registry of tables
    keyed by table name. A file that fails to load is skipped; a later file
    with the same table name replaces the earlier one; an empty registry is
    an error. */
module CsvTablesProvider {
  import opened Wrappers
  import opened Values
  import opened CsvTableSource

  /** A file as the provider sees it: the table name its path gives (the
      file name without extension) and its lines. */
  datatype CsvFile = CsvFile(tableName: string, lines: seq<string>)

  datatype ProviderError = NoValidTables

  /** The name-keyed dictionary, as the sequence its values enumerate in:
      one entry per name, in the order the names were first added. */
  type Registry = seq<CsvTable>

  function TableNames(reg: Registry): set<string> {
    set i | 0 <= i < |reg| :: reg[i].name
  }

  lemma TableNamesCons(t: CsvTable, rest: Registry)
    ensures TableNames([t] + rest) == {t.name} + TableNames(rest)
  {
    var r := [t] + rest;
    forall n | n in TableNames(rest)
      ensures n in TableNames(r)
    {
      var i :| 0 <= i < |rest| && rest[i].name == n;
      assert r[i + 1] == rest[i];
    }
    forall n | n in TableNames(r)
      ensures n in {t.name} + TableNames(rest)
    {
      var i :| 0 <= i < |r| && r[i].name == n;
      if i > 0 {
        assert r[i] == rest[i - 1];
      } else {
        assert r[0] == t;
      }
    }
    assert r[0] == t;
    assert TableNames(r) == {t.name} + TableNames(rest);
  }

  predicate UniqueNames(reg: Registry) {
    forall i, j :: 0 <= i < j < |reg| ==> reg[i].name != reg[j].name
  }

  /** The table stored under `name`, if any. */
  function Lookup(reg: Registry, name: string): (r: Option<CsvTable>)
    ensures r.Some? <==> name in TableNames(reg)
    ensures r.Some? ==> r.value in reg && r.value.name == name
  {
    if |reg| == 0 then None
    else if reg[0].name == name then Some(reg[0])
    else
      assert TableNames(reg) == {reg[0].name} + TableNames(reg[1..]);
      Lookup(reg[1..], name)
  }

  /** `dictionary[t.Name] = t`: replaces the entry of that name in place, or
      appends a new entry. */
  function Store(reg: Registry, t: CsvTable): (r: Registry)
    requires UniqueNames(reg)
    ensures UniqueNames(r)
    ensures TableNames(r) == TableNames(reg) + {t.name}
    ensures |r| == if t.name in TableNames(reg) then |reg| else |reg| + 1
    ensures Lookup(r, t.name) == Some(t)
    ensures forall n :: n != t.name ==> Lookup(r, n) == Lookup(reg, n)
  {
    if |reg| == 0 then
      StoreEmpty(t);
      [t]
    else if reg[0].name == t.name then
      StoreReplaceHead(reg, t);
      [t] + reg[1..]
    else
      UniqueNamesTail(reg);
      var rest := Store(reg[1..], t);
      StoreKeepHead(reg, t, rest);
      [reg[0]] + rest
  }

  /** `r` is `reg` with `t` stored under its name: what `Store` promises. */
  ghost predicate Stored(reg: Registry, t: CsvTable, r: Registry) {
    && UniqueNames(r)
    && TableNames(r) == TableNames(reg) + {t.name}
    && |r| == (if t.name in TableNames(reg) then |reg| else |reg| + 1)
    && Lookup(r, t.name) == Some(t)
    && forall n :: n != t.name ==> Lookup(r, n) == Lookup(reg, n)
  }

  lemma UniqueNamesTail(reg: Registry)
    requires UniqueNames(reg) && |reg| > 0
    ensures UniqueNames(reg[1..])
  {
    forall i, j | 0 <= i < j < |reg| - 1
      ensures reg[1..][i].name != reg[1..][j].name
    {
      assert reg[1..][i] == reg[i + 1] && reg[1..][j] == reg[j + 1];
    }
  }

  lemma StoreEmpty(t: CsvTable)
    ensures Stored([], t, [t])
  {
    TableNamesCons(t, []);
    assert [t] + [] == [t];
    assert [t][1..] == [];
  }

  /** The first entry has the new table's name: it is replaced in place. */
  lemma StoreReplaceHead(reg: Registry, t: CsvTable)
    requires UniqueNames(reg) && |reg| > 0 && reg[0].name == t.name
    ensures Stored(reg, t, [t] + reg[1..])
  {
    var r := [t] + reg[1..];
    assert r[0] == t && r[1..] == reg[1..];
    assert reg == [reg[0]] + reg[1..];
    TableNamesCons(t, reg[1..]);
    TableNamesCons(reg[0], reg[1..]);
    assert forall i :: 1 <= i < |r| ==> r[i] == reg[i];
    assert t.name in TableNames(reg) by {
      assert reg[0].name == t.name;
    }
  }

  /** The first entry has another name: it stays, and the table is stored
      in the rest. */
  lemma StoreKeepHead(reg: Registry, t: CsvTable, rest: Registry)
    requires UniqueNames(reg) && |reg| > 0 && reg[0].name != t.name
    requires Stored(reg[1..], t, rest)
    ensures Stored(reg, t, [reg[0]] + rest)
  {
    var r := [reg[0]] + rest;
    assert r[0] == reg[0] && r[1..] == rest;
    assert reg == [reg[0]] + reg[1..];
    TableNamesCons(reg[0], rest);
    TableNamesCons(reg[0], reg[1..]);
    assert reg[0].name !in TableNames(reg[1..]) by {
      forall i | 0 <= i < |reg| - 1
        ensures reg[1..][i].name != reg[0].name
      {
        assert reg[1..][i] == reg[i + 1];
      }
    }
    assert reg[0].name !in TableNames(rest);
    forall i, j | 0 <= i < j < |r|
      ensures r[i].name != r[j].name
    {
      if i == 0 {
        assert r[j] == rest[j - 1];
        assert r[j].name in TableNames(rest);
      } else {
        assert r[i] == rest[i - 1] && r[j] == rest[j - 1];
      }
    }
  }

  /** One file through the table source's constructor. */
  function LoadFile(f: CsvFile): (r: Result<CsvTable, CsvError>)
    ensures r.Ok? ==> r.value.name == f.tableName
  {
    Load(f.tableName, f.lines)
  }

  /** How one file becomes a table: the table source's constructor, or a
      failure the provider skips. */
  type Loader = CsvFile -> Result<CsvTable, CsvError>

  /** The registry after the loading loop over `files`, in order. */
  function LoadAll(files: seq<CsvFile>, load: Loader): (r: Registry)
    ensures UniqueNames(r)
    ensures |r| <= |files|
  {
    if |files| == 0 then []
    else
      var reg := LoadAll(files[..|files| - 1], load);
      var f := files[|files| - 1];
      match load(f)
      case Ok(t) => Store(reg, t)
      case Err(_) => reg
  }

  /** Reference meaning of the registry: the table of the last file with that
      name that loads. */
  function LastLoaded(files: seq<CsvFile>, name: string, load: Loader): Option<CsvTable> {
    if |files| == 0 then None
    else
      var f := files[|files| - 1];
      var l := load(f);
      if l.Ok? && l.value.name == name then Some(l.value)
      else LastLoaded(files[..|files| - 1], name, load)
  }

  /** A file at `i` loads a table named `name`. */
  predicate LoadsAs(files: seq<CsvFile>, i: int, name: string, load: Loader) {
    0 <= i < |files| && load(files[i]).Ok? && load(files[i]).value.name == name
  }

  /** Every name resolves to the table of the last successful file of that
      name: later files win, failed files are skipped. */
  lemma {:induction false} LoadAllLastWins(files: seq<CsvFile>, name: string, load: Loader)
    ensures Lookup(LoadAll(files, load), name) == LastLoaded(files, name, load)
  {
    if |files| > 0 {
      LoadAllLastWins(files[..|files| - 1], name, load);
    }
  }

  /** A name is registered exactly when some file of that name loads. */
  lemma {:induction false} LastLoadedExists(files: seq<CsvFile>, name: string, load: Loader)
    ensures LastLoaded(files, name, load).Some? <==> exists i :: LoadsAs(files, i, name, load)
    ensures LastLoaded(files, name, load).Some? ==> LastLoaded(files, name, load).value.name == name
  {
    if |files| > 0 {
      var n := |files| - 1;
      var front := files[..n];
      LastLoadedExists(front, name, load);
      var l := load(files[n]);
      if l.Ok? && l.value.name == name {
        assert LoadsAs(files, n, name, load);
      } else {
        if exists i :: LoadsAs(files, i, name, load) {
          var i :| LoadsAs(files, i, name, load);
          assert i != n;
          assert LoadsAs(front, i, name, load);
        }
        if exists i :: LoadsAs(front, i, name, load) {
          var i :| LoadsAs(front, i, name, load);
          assert LoadsAs(files, i, name, load);
        }
      }
    }
  }

  /** The registry is empty exactly when no file loads. */
  lemma {:induction false} LoadAllEmpty(files: seq<CsvFile>, load: Loader)
    ensures |LoadAll(files, load)| == 0 <==> forall i :: 0 <= i < |files| ==> load(files[i]).Err?
  {
    if |files| > 0 {
      var n := |files| - 1;
      var front := files[..n];
      LoadAllEmpty(front, load);
      assert forall i :: 0 <= i < n ==> front[i] == files[i];
      var reg := LoadAll(front, load);
      if load(files[n]).Ok? {
        assert |LoadAll(files, load)| >= 1;
      } else {
        assert LoadAll(files, load) == reg;
      }
    }
  }

  /** The provider's constructor: load every file, then fail if nothing
      loaded. */
  function NewProvider(files: seq<CsvFile>): (r: Result<Registry, ProviderError>)
    ensures r.Err? <==> forall i :: 0 <= i < |files| ==> LoadFile(files[i]).Err?
    ensures r.Err? ==> r.error == NoValidTables
    ensures r.Ok? ==> UniqueNames(r.value) && 1 <= |r.value| <= |files|
    ensures r.Ok? ==> forall n :: Lookup(r.value, n) == LastLoaded(files, n, LoadFile)
  {
    var reg := LoadAll(files, LoadFile);
    LoadAllEmpty(files, LoadFile);
    forall n
      ensures Lookup(reg, n) == LastLoaded(files, n, LoadFile)
    {
      LoadAllLastWins(files, n, LoadFile);
    }
    if |reg| == 0 then Err(NoValidTables) else Ok(reg)
  }

  /** `GetTables`: every registered table once; their names are pairwise
      distinct and each is the last loaded table of its name. */
  function GetTables(reg: Registry): (tables: seq<CsvTable>)
    requires UniqueNames(reg)
    ensures |tables| == |TableNames(reg)|
    ensures forall i, j :: 0 <= i < j < |tables| ==> tables[i].name != tables[j].name
    ensures forall i :: 0 <= i < |tables| ==> Lookup(reg, tables[i].name) == Some(tables[i])
  {
    UniqueNamesCount(reg);
    forall i | 0 <= i < |reg|
      ensures Lookup(reg, reg[i].name) == Some(reg[i])
    {
      LookupUnique(reg, i);
    }
    reg
  }

  lemma {:induction false} UniqueNamesCount(reg: Registry)
    requires UniqueNames(reg)
    ensures |TableNames(reg)| == |reg|
  {
    if |reg| > 0 {
      UniqueNamesCount(reg[1..]);
      assert TableNames(reg) == {reg[0].name} + TableNames(reg[1..]);
      assert reg[0].name !in TableNames(reg[1..]);
    }
  }

  lemma {:induction false} LookupUnique(reg: Registry, i: int)
    requires UniqueNames(reg) && 0 <= i < |reg|
    ensures Lookup(reg, reg[i].name) == Some(reg[i])
  {
    if i > 0 {
      LookupUnique(reg[1..], i - 1);
    }
  }
}
