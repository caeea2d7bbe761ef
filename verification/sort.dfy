/** `order by`: a stable sort of rows under a list of sort keys. Each key
    names a column, a direction (descending when omitted) and a null
    placement (nulls last for descending and nulls first for ascending when
    omitted). Empty strings sort with the nulls. */
module Sort {
  import opened Wrappers
  import opened Values

  datatype Direction = Asc | Desc

  datatype NullsPlacement = NullsFirst | NullsLast

  /** One `by` term: a column and the optional `asc`/`desc` and
      `nulls first`/`nulls last` clauses. */
  datatype SortKey = SortKey(column: nat, direction: Option<Direction>, nulls: Option<NullsPlacement>)

  function EffectiveDirection(k: SortKey): Direction {
    match k.direction
    case Some(d) => d
    case None => Desc
  }

  function EffectiveNulls(k: SortKey): NullsPlacement {
    match k.nulls
    case Some(p) => p
    case None => if EffectiveDirection(k) == Asc then NullsFirst else NullsLast
  }

  /** A cell sorted as a null: a null, or an empty string. */
  predicate NullLike(c: Cell) {
    c.None? || c == Some(VString(""))
  }

  /** Three-way comparison of two cells under one key's direction and null
      placement. */
  function CompareCells(a: Cell, b: Cell, dir: Direction, nulls: NullsPlacement): int {
    if NullLike(a) && NullLike(b) then 0
    else if NullLike(a) then (if nulls == NullsFirst then -1 else 1)
    else if NullLike(b) then (if nulls == NullsFirst then 1 else -1)
    else if dir == Asc then CompareValues(a.value, b.value)
    else CompareValues(b.value, a.value)
  }

  /** Lexicographic comparison of two rows under the keys, first key first. */
  function CompareRows(r1: Row, r2: Row, keys: seq<SortKey>): int {
    if |keys| == 0 then 0
    else
      var k := keys[0];
      var c := CompareCells(CellAt(r1, k.column), CellAt(r2, k.column), EffectiveDirection(k), EffectiveNulls(k));
      if c != 0 then c else CompareRows(r1, r2, keys[1..])
  }

  lemma CompareCellsAntisymmetric(a: Cell, b: Cell, dir: Direction, nulls: NullsPlacement)
    ensures CompareCells(a, b, dir, nulls) == -CompareCells(b, a, dir, nulls)
  {
    if !NullLike(a) && !NullLike(b) {
      CompareValuesAntisymmetric(a.value, b.value);
    }
  }

  lemma CompareCellsTransitive(a: Cell, b: Cell, c: Cell, dir: Direction, nulls: NullsPlacement)
    requires CompareCells(a, b, dir, nulls) <= 0 && CompareCells(b, c, dir, nulls) <= 0
    ensures CompareCells(a, c, dir, nulls) <= 0
  {
    if !NullLike(a) && !NullLike(b) && !NullLike(c) {
      if dir == Asc {
        CompareValuesTransitive(a.value, b.value, c.value);
      } else {
        CompareValuesTransitive(c.value, b.value, a.value);
      }
    }
  }

  lemma {:induction false} CompareRowsAntisymmetric(r1: Row, r2: Row, keys: seq<SortKey>)
    ensures CompareRows(r1, r2, keys) == -CompareRows(r2, r1, keys)
  {
    if |keys| > 0 {
      var k := keys[0];
      CompareCellsAntisymmetric(CellAt(r1, k.column), CellAt(r2, k.column), EffectiveDirection(k), EffectiveNulls(k));
      CompareRowsAntisymmetric(r1, r2, keys[1..]);
    }
  }

  lemma {:induction false} CompareRowsTransitive(r1: Row, r2: Row, r3: Row, keys: seq<SortKey>)
    requires CompareRows(r1, r2, keys) <= 0 && CompareRows(r2, r3, keys) <= 0
    ensures CompareRows(r1, r3, keys) <= 0
  {
    if |keys| > 0 {
      var k := keys[0];
      var d, n := EffectiveDirection(k), EffectiveNulls(k);
      var a, b, c := CellAt(r1, k.column), CellAt(r2, k.column), CellAt(r3, k.column);
      CompareCellsAntisymmetric(a, b, d, n);
      CompareCellsAntisymmetric(b, c, d, n);
      CompareCellsAntisymmetric(a, c, d, n);
      if CompareCells(a, b, d, n) == 0 && CompareCells(b, c, d, n) == 0 {
        CompareCellsTransitive(a, b, c, d, n);
        CompareCellsTransitive(c, b, a, d, n);
        CompareRowsTransitive(r1, r2, r3, keys[1..]);
      } else {
        CompareCellsTransitive(a, b, c, d, n);
        if CompareCells(a, c, d, n) == 0 {
          // a ~ c together with a <= b <= c forces a ~ b ~ c
          CompareCellsTransitive(b, c, a, d, n);
          CompareCellsTransitive(c, a, b, d, n);
        }
      }
    }
  }

  /** Every earlier row sorts before or with every later row. */
  predicate Sorted(s: seq<Row>, keys: seq<SortKey>) {
    forall i, j :: 0 <= i < j < |s| ==> CompareRows(s[i], s[j], keys) <= 0
  }

  /** Inserts `x` into a sorted sequence after every row that sorts before or
      with it. */
  function Insert(sorted: seq<Row>, x: Row, keys: seq<SortKey>): (r: seq<Row>)
    ensures |r| == |sorted| + 1
  {
    if |sorted| == 0 then [x]
    else
      var n := |sorted| - 1;
      if CompareRows(sorted[n], x, keys) <= 0 then sorted + [x]
      else Insert(sorted[..n], x, keys) + [sorted[n]]
  }

  /** `order by keys`: insertion sort, stable. */
  function SortRows(s: seq<Row>, keys: seq<SortKey>): (r: seq<Row>)
    ensures |r| == |s|
  {
    if |s| == 0 then []
    else
      var n := |s| - 1;
      Insert(SortRows(s[..n], keys), s[n], keys)
  }

  lemma {:induction false} InsertPermutes(sorted: seq<Row>, x: Row, keys: seq<SortKey>)
    ensures multiset(Insert(sorted, x, keys)) == multiset(sorted) + multiset{x}
  {
    if |sorted| > 0 {
      var n := |sorted| - 1;
      if CompareRows(sorted[n], x, keys) > 0 {
        InsertPermutes(sorted[..n], x, keys);
        assert sorted == sorted[..n] + [sorted[n]];
      }
    }
  }

  /** `order by` reorders the rows and nothing else: every row moves with
      all its columns, and the output is a permutation of the input. */
  lemma {:induction false} SortRowsPermutes(s: seq<Row>, keys: seq<SortKey>)
    ensures multiset(SortRows(s, keys)) == multiset(s)
  {
    if |s| > 0 {
      var n := |s| - 1;
      SortRowsPermutes(s[..n], keys);
      InsertPermutes(SortRows(s[..n], keys), s[n], keys);
      assert s == s[..n] + [s[n]];
    }
  }

  /** One step of the sort: the last input row is inserted into the sorted
      rows before it. */
  lemma SortRowsSnoc(s: seq<Row>, x: Row, keys: seq<SortKey>)
    ensures SortRows(s + [x], keys) == Insert(SortRows(s, keys), x, keys)
  {
    assert (s + [x])[..|s|] == s;
  }

  /** Insertion places the new row after the last row that sorts before or
      with it, past every later row that sorts strictly after it. */
  lemma {:induction false} InsertAt(sorted: seq<Row>, x: Row, keys: seq<SortKey>, p: nat)
    requires p <= |sorted|
    requires p > 0 ==> CompareRows(sorted[p - 1], x, keys) <= 0
    requires forall i :: p <= i < |sorted| ==> CompareRows(sorted[i], x, keys) > 0
    ensures Insert(sorted, x, keys) == sorted[..p] + [x] + sorted[p..]
  {
    if |sorted| > 0 {
      var n := |sorted| - 1;
      if p == |sorted| {
        assert sorted[..p] == sorted;
      } else {
        var front := sorted[..n];
        InsertAt(front, x, keys, p);
        assert front[..p] == sorted[..p];
        assert front[p..] + [sorted[n]] == sorted[p..];
      }
    }
  }

  /** Sorting a sequence one row longer: the new row lands in the sorted
      rows before it at the position `InsertAt` describes. */
  lemma SortRowsStep(prefix: seq<Row>, sortedPrefix: seq<Row>, x: Row, keys: seq<SortKey>, p: nat)
    requires SortRows(prefix, keys) == sortedPrefix
    requires p <= |sortedPrefix|
    requires p > 0 ==> CompareRows(sortedPrefix[p - 1], x, keys) <= 0
    requires forall i :: p <= i < |sortedPrefix| ==> CompareRows(sortedPrefix[i], x, keys) > 0
    ensures SortRows(prefix + [x], keys) == sortedPrefix[..p] + [x] + sortedPrefix[p..]
  {
    SortRowsSnoc(prefix, x, keys);
    InsertAt(sortedPrefix, x, keys, p);
  }

  /** Sorting a sequence one row longer when the new row sorts after, or
      with, the last sorted row: it goes at the end. */
  lemma SortRowsAppend(prefix: seq<Row>, sortedPrefix: seq<Row>, x: Row, keys: seq<SortKey>)
    requires SortRows(prefix, keys) == sortedPrefix
    requires |sortedPrefix| > 0 ==> CompareRows(sortedPrefix[|sortedPrefix| - 1], x, keys) <= 0
    ensures SortRows(prefix + [x], keys) == sortedPrefix + [x]
  {
    SortRowsSnoc(prefix, x, keys);
  }

  lemma {:induction false} InsertSorted(sorted: seq<Row>, x: Row, keys: seq<SortKey>)
    requires Sorted(sorted, keys)
    ensures Sorted(Insert(sorted, x, keys), keys)
  {
    if |sorted| > 0 {
      var n := |sorted| - 1;
      var last := sorted[n];
      if CompareRows(last, x, keys) <= 0 {
        var r := sorted + [x];
        forall i, j | 0 <= i < j < |r|
          ensures CompareRows(r[i], r[j], keys) <= 0
        {
          if j == n + 1 && i < n {
            CompareRowsTransitive(sorted[i], last, x, keys);
          }
        }
      } else {
        var front := sorted[..n];
        InsertSorted(front, x, keys);
        InsertPermutes(front, x, keys);
        var ins := Insert(front, x, keys);
        var r := ins + [last];
        CompareRowsAntisymmetric(last, x, keys);
        forall i | 0 <= i < |ins|
          ensures CompareRows(ins[i], last, keys) <= 0
        {
          assert ins[i] in multiset(ins);
          if ins[i] != x {
            assert ins[i] in multiset(front);
            var k :| 0 <= k < |front| && front[k] == ins[i];
            assert sorted[k] == ins[i];
          }
        }
      }
    }
  }

  /** The output of `order by` is sorted. */
  lemma {:induction false} SortRowsSorted(s: seq<Row>, keys: seq<SortKey>)
    ensures Sorted(SortRows(s, keys), keys)
  {
    if |s| > 0 {
      var n := |s| - 1;
      SortRowsSorted(s[..n], keys);
      InsertSorted(SortRows(s[..n], keys), s[n], keys);
    }
  }

  /** The rows of `s` that sort together with `z`, in order. */
  function EquivalentRows(s: seq<Row>, z: Row, keys: seq<SortKey>): seq<Row> {
    if |s| == 0 then []
    else
      var n := |s| - 1;
      EquivalentRows(s[..n], z, keys) + (if CompareRows(s[n], z, keys) == 0 then [s[n]] else [])
  }

  lemma {:induction false} EquivalentRowsAppend(s: seq<Row>, x: Row, z: Row, keys: seq<SortKey>)
    ensures EquivalentRows(s + [x], z, keys) == EquivalentRows(s, z, keys) + (if CompareRows(x, z, keys) == 0 then [x] else [])
  {
    assert (s + [x])[..|s|] == s;
  }

  lemma {:induction false} InsertKeepsEquivalentOrder(sorted: seq<Row>, x: Row, z: Row, keys: seq<SortKey>)
    ensures EquivalentRows(Insert(sorted, x, keys), z, keys)
         == EquivalentRows(sorted, z, keys) + (if CompareRows(x, z, keys) == 0 then [x] else [])
  {
    if |sorted| == 0 {
      EquivalentRowsAppend([], x, z, keys);
      assert [] + [x] == [x];
    } else {
      var n := |sorted| - 1;
      var last := sorted[n];
      var front := sorted[..n];
      assert sorted == front + [last];
      if CompareRows(last, x, keys) <= 0 {
        EquivalentRowsAppend(sorted, x, z, keys);
      } else {
        InsertKeepsEquivalentOrder(front, x, z, keys);
        EquivalentRowsAppend(Insert(front, x, keys), last, z, keys);
        EquivalentRowsAppend(front, last, z, keys);
        if CompareRows(x, z, keys) == 0 && CompareRows(last, z, keys) == 0 {
          CompareRowsAntisymmetric(x, z, keys);
          CompareRowsTransitive(last, z, x, keys);
          assert false;
        }
      }
    }
  }

  /** `order by` is stable: rows that sort together keep their input order. */
  lemma {:induction false} SortRowsStable(s: seq<Row>, z: Row, keys: seq<SortKey>)
    ensures EquivalentRows(SortRows(s, keys), z, keys) == EquivalentRows(s, z, keys)
  {
    if |s| > 0 {
      var n := |s| - 1;
      SortRowsStable(s[..n], z, keys);
      InsertKeepsEquivalentOrder(SortRows(s[..n], keys), s[n], z, keys);
    }
  }

  /** Sorting rows that are already in order changes nothing. */
  lemma {:induction false} SortRowsOfSorted(s: seq<Row>, keys: seq<SortKey>)
    requires Sorted(s, keys)
    ensures SortRows(s, keys) == s
  {
    if |s| > 0 {
      var n := |s| - 1;
      var front := s[..n];
      assert Sorted(front, keys);
      SortRowsOfSorted(front, keys);
      if n > 0 {
        assert front[n - 1] == s[n - 1];
      }
      assert front + [s[n]] == s;
    }
  }

  /** Null placement: under a single key, every null-like row comes before
      every other row when nulls go first, and after it when they go last. */
  lemma NullPlacement(s: seq<Row>, k: SortKey, i: int, j: int)
    requires Sorted(s, [k])
    requires 0 <= i < |s| && 0 <= j < |s|
    requires NullLike(CellAt(s[i], k.column)) && !NullLike(CellAt(s[j], k.column))
    ensures EffectiveNulls(k) == NullsFirst ==> i < j
    ensures EffectiveNulls(k) == NullsLast ==> j < i
  {
    if i < j {
      assert CompareRows(s[i], s[j], [k]) <= 0;
    } else {
      assert CompareRows(s[j], s[i], [k]) <= 0;
    }
  }

  /** Under a single key on non-null cells the order follows the direction:
      ascending puts smaller values first and descending larger ones. */
  lemma DirectionOrder(s: seq<Row>, k: SortKey, i: int, j: int)
    requires Sorted(s, [k])
    requires 0 <= i < j < |s|
    requires !NullLike(CellAt(s[i], k.column)) && !NullLike(CellAt(s[j], k.column))
    ensures var a, b := CellAt(s[i], k.column).value, CellAt(s[j], k.column).value;
            EffectiveDirection(k) == Asc ==> CompareValues(a, b) <= 0
    ensures var a, b := CellAt(s[i], k.column).value, CellAt(s[j], k.column).value;
            EffectiveDirection(k) == Desc ==> CompareValues(b, a) <= 0
  {
    assert CompareRows(s[i], s[j], [k]) <= 0;
  }
}
