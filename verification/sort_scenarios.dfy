/** The `order by` scenarios of the end-to-end tests: a long key with an
    int payload sorted with the default direction, with and without
    `nulls first`, and a real key sorted `asc` with either null placement.
    Each scenario checks the key comparisons on the concrete rows, then
    replays the insertion steps on abstract rows. */
module SortScenarios {
  import opened Wrappers
  import opened Values
  import opened Sort

  // The rows of the long/int table, in input order.
  const A: Row := [Some(VLong(3)), Some(VInt(9))]
  const B: Row := [Some(VLong(2)), Some(VInt(8))]
  const C: Row := [Some(VLong(1)), Some(VInt(7))]
  const D: Row := [None, Some(VInt(42))]
  const E: Row := [Some(VLong(4)), Some(VInt(6))]

  /** `order by a`: descending, nulls last. */
  lemma SortDesc()
    ensures SortRows([A, B, C, D, E], [SortKey(0, None, None)]) == [E, A, B, C, D]
  {
    var keys := [SortKey(0, None, None)];
    assert CompareRows(A, B, keys) < 0 && CompareRows(B, C, keys) < 0 && CompareRows(C, D, keys) < 0;
    assert CompareRows(D, E, keys) > 0 && CompareRows(C, E, keys) > 0;
    assert CompareRows(B, E, keys) > 0 && CompareRows(A, E, keys) > 0;
    DescChain(A, B, C, D, E, keys);
  }

  lemma DescChain(a: Row, b: Row, c: Row, d: Row, e: Row, keys: seq<SortKey>)
    requires CompareRows(a, b, keys) <= 0 && CompareRows(b, c, keys) <= 0 && CompareRows(c, d, keys) <= 0
    requires CompareRows(d, e, keys) > 0 && CompareRows(c, e, keys) > 0 && CompareRows(b, e, keys) > 0 && CompareRows(a, e, keys) > 0
    ensures SortRows([a, b, c, d, e], keys) == [e, a, b, c, d]
  {
    InOrder4(a, b, c, d, keys);
    var sorted := [a, b, c, d];
    forall i | 0 <= i < 4
      ensures CompareRows(sorted[i], e, keys) > 0
    {
      if i == 0 { assert sorted[i] == a; }
      else if i == 1 { assert sorted[i] == b; }
      else if i == 2 { assert sorted[i] == c; }
      else { assert sorted[i] == d; }
    }
    SortRowsStep(sorted, sorted, e, keys, 0);
    assert sorted + [e] == [a, b, c, d, e];
    assert sorted[..0] + [e] + sorted[0..] == [e, a, b, c, d];
  }

  /** `order by a nulls first`: descending, the null row first. */
  lemma SortDescNullsFirst()
    ensures SortRows([A, B, C, D, E], [SortKey(0, None, Some(NullsFirst))]) == [D, E, A, B, C]
  {
    var keys := [SortKey(0, None, Some(NullsFirst))];
    assert CompareRows(A, B, keys) < 0 && CompareRows(B, C, keys) < 0;
    assert CompareRows(A, D, keys) > 0 && CompareRows(B, D, keys) > 0 && CompareRows(C, D, keys) > 0;
    assert CompareRows(D, E, keys) < 0;
    assert CompareRows(A, E, keys) > 0 && CompareRows(B, E, keys) > 0 && CompareRows(C, E, keys) > 0;
    NullsFirstChain(A, B, C, D, E, keys);
  }

  lemma NullsFirstChain(a: Row, b: Row, c: Row, d: Row, e: Row, keys: seq<SortKey>)
    requires CompareRows(a, b, keys) <= 0 && CompareRows(b, c, keys) <= 0
    requires CompareRows(a, d, keys) > 0 && CompareRows(b, d, keys) > 0 && CompareRows(c, d, keys) > 0
    requires CompareRows(d, e, keys) <= 0
    requires CompareRows(a, e, keys) > 0 && CompareRows(b, e, keys) > 0 && CompareRows(c, e, keys) > 0
    ensures SortRows([a, b, c, d, e], keys) == [d, e, a, b, c]
  {
    NullsFirstPrefix(a, b, c, d, keys);
    var sorted := [d, a, b, c];
    forall i | 1 <= i < 4
      ensures CompareRows(sorted[i], e, keys) > 0
    {
      if i == 1 { assert sorted[i] == a; }
      else if i == 2 { assert sorted[i] == b; }
      else { assert sorted[i] == c; }
    }
    SortRowsStep([a, b, c, d], sorted, e, keys, 1);
    assert [a, b, c, d] + [e] == [a, b, c, d, e];
    assert sorted[..1] + [e] + sorted[1..] == [d, e, a, b, c];
  }

  lemma NullsFirstPrefix(a: Row, b: Row, c: Row, d: Row, keys: seq<SortKey>)
    requires CompareRows(a, b, keys) <= 0 && CompareRows(b, c, keys) <= 0
    requires CompareRows(a, d, keys) > 0 && CompareRows(b, d, keys) > 0 && CompareRows(c, d, keys) > 0
    ensures SortRows([a, b, c, d], keys) == [d, a, b, c]
  {
    InOrder3(a, b, c, keys);
    var sorted := [a, b, c];
    forall i | 0 <= i < 3
      ensures CompareRows(sorted[i], d, keys) > 0
    {
      if i == 0 { assert sorted[i] == a; }
      else if i == 1 { assert sorted[i] == b; }
      else { assert sorted[i] == c; }
    }
    SortRowsStep(sorted, sorted, d, keys, 0);
    assert sorted + [d] == [a, b, c, d];
    assert sorted[..0] + [d] + sorted[0..] == [d, a, b, c];
  }

  /** Rows already in order sort to themselves. */
  lemma InOrder2(a: Row, b: Row, keys: seq<SortKey>)
    requires CompareRows(a, b, keys) <= 0
    ensures SortRows([a, b], keys) == [a, b]
  {
    SortRowsAppend([], [], a, keys);
    assert [] + [a] == [a];
    SortRowsAppend([a], [a], b, keys);
  }

  lemma InOrder3(a: Row, b: Row, c: Row, keys: seq<SortKey>)
    requires CompareRows(a, b, keys) <= 0 && CompareRows(b, c, keys) <= 0
    ensures SortRows([a, b, c], keys) == [a, b, c]
  {
    InOrder2(a, b, keys);
    SortRowsAppend([a, b], [a, b], c, keys);
    assert [a, b] + [c] == [a, b, c];
  }

  lemma InOrder4(a: Row, b: Row, c: Row, d: Row, keys: seq<SortKey>)
    requires CompareRows(a, b, keys) <= 0 && CompareRows(b, c, keys) <= 0 && CompareRows(c, d, keys) <= 0
    ensures SortRows([a, b, c, d], keys) == [a, b, c, d]
  {
    InOrder3(a, b, c, keys);
    SortRowsAppend([a, b, c], [a, b, c], d, keys);
    assert [a, b, c] + [d] == [a, b, c, d];
  }

  /** Two rows out of order swap. */
  lemma Swapped2(a: Row, b: Row, keys: seq<SortKey>)
    requires CompareRows(a, b, keys) > 0
    ensures SortRows([a, b], keys) == [b, a]
  {
    SortRowsAppend([], [], a, keys);
    assert [] + [a] == [a];
    assert [a][0] == a;
    SortRowsStep([a], [a], b, keys, 0);
    assert [a][..0] + [b] + [a][0..] == [b, a];
  }

  // The rows of the real table, in input order.
  const P: Row := [Some(VReal(1.5))]
  const Q: Row := [Some(VReal(1.0))]
  const R: Row := [None]
  const S: Row := [Some(VReal(3.0))]

  /** `order by a asc`: ascending, nulls first. */
  lemma SortAscNullsFirst()
    ensures SortRows([P, Q, R, S], [SortKey(0, Some(Asc), None)]) == [R, Q, P, S]
  {
    var keys := [SortKey(0, Some(Asc), None)];
    assert CompareRows(P, Q, keys) > 0;
    assert CompareRows(Q, R, keys) > 0 && CompareRows(P, R, keys) > 0;
    assert CompareRows(P, S, keys) < 0;
    AscNullsFirstChain(P, Q, R, S, keys);
  }

  lemma AscNullsFirstChain(p: Row, q: Row, r: Row, s: Row, keys: seq<SortKey>)
    requires CompareRows(p, q, keys) > 0
    requires CompareRows(q, r, keys) > 0 && CompareRows(p, r, keys) > 0
    requires CompareRows(p, s, keys) <= 0
    ensures SortRows([p, q, r, s], keys) == [r, q, p, s]
  {
    AscNullsFirstThree(p, q, r, keys);
    var sorted := [r, q, p];
    assert sorted[2] == p;
    SortRowsAppend([p, q, r], sorted, s, keys);
    assert [p, q, r] + [s] == [p, q, r, s];
    assert sorted + [s] == [r, q, p, s];
  }

  /** `order by a asc nulls last`: ascending, the null row last. */
  lemma SortAscNullsLast()
    ensures SortRows([P, Q, R, S], [SortKey(0, Some(Asc), Some(NullsLast))]) == [Q, P, S, R]
  {
    var keys := [SortKey(0, Some(Asc), Some(NullsLast))];
    assert CompareRows(P, Q, keys) > 0;
    assert CompareRows(P, R, keys) < 0;
    assert CompareRows(P, S, keys) < 0 && CompareRows(R, S, keys) > 0;
    AscNullsLastChain(P, Q, R, S, keys);
  }

  lemma AscNullsLastChain(p: Row, q: Row, r: Row, s: Row, keys: seq<SortKey>)
    requires CompareRows(p, q, keys) > 0
    requires CompareRows(p, r, keys) <= 0
    requires CompareRows(p, s, keys) <= 0 && CompareRows(r, s, keys) > 0
    ensures SortRows([p, q, r, s], keys) == [q, p, s, r]
  {
    AscNullsLastThree(p, q, r, keys);
    var sorted := [q, p, r];
    assert sorted[1] == p && sorted[2] == r;
    SortRowsStep([p, q, r], sorted, s, keys, 2);
    assert [p, q, r] + [s] == [p, q, r, s];
    assert sorted[..2] + [s] + sorted[2..] == [q, p, s, r];
  }

  lemma AscNullsFirstThree(p: Row, q: Row, r: Row, keys: seq<SortKey>)
    requires CompareRows(p, q, keys) > 0
    requires CompareRows(q, r, keys) > 0 && CompareRows(p, r, keys) > 0
    ensures SortRows([p, q, r], keys) == [r, q, p]
  {
    Swapped2(p, q, keys);
    var sorted := [q, p];
    forall i | 0 <= i < 2
      ensures CompareRows(sorted[i], r, keys) > 0
    {
      if i == 0 { assert sorted[i] == q; } else { assert sorted[i] == p; }
    }
    SortRowsStep([p, q], sorted, r, keys, 0);
    assert [p, q] + [r] == [p, q, r];
    assert sorted[..0] + [r] + sorted[0..] == [r, q, p];
  }

  lemma AscNullsLastThree(p: Row, q: Row, r: Row, keys: seq<SortKey>)
    requires CompareRows(p, q, keys) > 0
    requires CompareRows(p, r, keys) <= 0
    ensures SortRows([p, q, r], keys) == [q, p, r]
  {
    Swapped2(p, q, keys);
    assert [q, p][1] == p;
    SortRowsAppend([p, q], [q, p], r, keys);
    assert [p, q] + [r] == [p, q, r];
    assert [q, p] + [r] == [q, p, r];
  }
}
