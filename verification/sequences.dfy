/** Generic sequence operations the engine uses in several places: mapping
    with the first failure winning, first-seen de-duplication, counting and
    concatenation. */
module Sequences {
  import opened Wrappers

  /** Element `i` is the first element on which `f` fails. */
  predicate FirstFailureAt<A, B, E>(f: A -> Result<B, E>, xs: seq<A>, i: int) {
    && 0 <= i < |xs|
    && f(xs[i]).Err?
    && forall j :: 0 <= j < i ==> f(xs[j]).Ok?
  }

  /** Applies `f` to every element left to right, as a loop that throws on
      the first failure does: all results, or the first element's error. */
  function MapAll<A, B, E>(f: A -> Result<B, E>, xs: seq<A>): (r: Result<seq<B>, E>)
    ensures r.Ok? <==> forall i :: 0 <= i < |xs| ==> f(xs[i]).Ok?
    ensures r.Ok? ==> |r.value| == |xs|
    ensures r.Ok? ==> forall i :: 0 <= i < |xs| ==> f(xs[i]) == Ok(r.value[i])
    ensures r.Err? ==> exists i :: FirstFailureAt(f, xs, i) && f(xs[i]) == Err(r.error)
  {
    if |xs| == 0 then Ok([])
    else
      var head := f(xs[0]);
      if head.Err? then
        assert FirstFailureAt(f, xs, 0);
        Err(head.error)
      else
        var rest := MapAll(f, xs[1..]);
        if rest.Err? then
          assert exists i :: FirstFailureAt(f, xs, i) && f(xs[i]) == Err(rest.error) by {
            var i :| FirstFailureAt(f, xs[1..], i) && f(xs[1..][i]) == Err(rest.error);
            assert FirstFailureAt(f, xs, i + 1);
          }
          Err(rest.error)
        else
          Ok([head.value] + rest.value)
  }

  /** The failure of `MapAll` is the failure at the first failing element. */
  lemma MapAllFirstFailure<A, B, E>(f: A -> Result<B, E>, xs: seq<A>, i: int)
    requires FirstFailureAt(f, xs, i)
    ensures MapAll(f, xs) == Err(f(xs[i]).error)
  {
    var r := MapAll(f, xs);
    assert r.Err?;
    var k :| FirstFailureAt(f, xs, k) && f(xs[k]) == Err(r.error);
    assert k == i;
  }

  /** When `f` succeeds everywhere, `MapAll` returns exactly its results. */
  lemma MapAllOk<A, B, E>(f: A -> Result<B, E>, xs: seq<A>, ys: seq<B>)
    requires |xs| == |ys|
    requires forall i :: 0 <= i < |xs| ==> f(xs[i]) == Ok(ys[i])
    ensures MapAll(f, xs) == Ok(ys)
  {
    var r := MapAll(f, xs);
    assert r.Ok?;
    forall i | 0 <= i < |xs|
      ensures r.value[i] == ys[i]
    {
      assert f(xs[i]) == Ok(r.value[i]);
    }
    assert r.value == ys;
  }

  /** Pairs up two sequences of equal length. */
  function Zip<A, B>(xs: seq<A>, ys: seq<B>): (r: seq<(A, B)>)
    requires |xs| == |ys|
    ensures |r| == |xs|
    ensures forall i :: 0 <= i < |xs| ==> r[i] == (xs[i], ys[i])
  {
    seq(|xs|, i requires 0 <= i < |xs| => (xs[i], ys[i]))
  }

  // ---------------------------------------------------------------------
  // First-seen de-duplication

  /** No element occurs twice. */
  ghost predicate Distinct<T>(xs: seq<T>) {
    forall i, j :: 0 <= i < j < |xs| ==> xs[i] != xs[j]
  }

  /** The distinct elements of `xs`, each at the place of its first
      occurrence. */
  function Dedup<T(==)>(xs: seq<T>): (r: seq<T>)
    ensures forall i :: 0 <= i < |r| ==> r[i] in xs
    ensures forall i :: 0 <= i < |xs| ==> xs[i] in r
    ensures Distinct(r)
    ensures |r| <= |xs|
  {
    if |xs| == 0 then []
    else
      var n := |xs| - 1;
      var d := Dedup(xs[..n]);
      assert forall i :: 0 <= i < n ==> xs[i] == xs[..n][i];
      if xs[n] in d then d else d + [xs[n]]
  }

  /** The index of the first occurrence of `x` in `xs`. */
  function FirstIndex<T(==)>(xs: seq<T>, x: T): (i: nat)
    requires x in xs
    ensures i < |xs| && xs[i] == x && x !in xs[..i]
  {
    if xs[0] == x then 0
    else
      var i := FirstIndex(xs[1..], x) + 1;
      assert xs[..i] == [xs[0]] + xs[1..][..i - 1];
      i
  }

  /** Appending an element leaves the first occurrences of earlier elements
      where they were. */
  lemma FirstIndexAppend<T>(xs: seq<T>, y: T, x: T)
    requires x in xs
    ensures FirstIndex(xs + [y], x) == FirstIndex(xs, x)
  {
    var i := FirstIndex(xs, x);
    assert (xs + [y])[i] == x;
  }

  /** `Dedup` keeps first-seen order: an element that first occurs earlier
      in the input comes earlier in the output. */
  lemma {:induction false} DedupFirstSeenOrder<T>(xs: seq<T>, i: int, j: int)
    requires 0 <= i < j < |Dedup(xs)|
    ensures FirstIndex(xs, Dedup(xs)[i]) < FirstIndex(xs, Dedup(xs)[j])
  {
    var n := |xs| - 1;
    var front := xs[..n];
    var d := Dedup(front);
    assert xs == front + [xs[n]];
    if j < |d| {
      DedupFirstSeenOrder(front, i, j);
      FirstIndexAppend(front, xs[n], d[i]);
      FirstIndexAppend(front, xs[n], d[j]);
    } else {
      // the new last element first occurs at n; every earlier one before n
      assert Dedup(xs)[j] == xs[n] && xs[n] !in front;
      assert FirstIndex(xs, xs[n]) == n;
      FirstIndexAppend(front, xs[n], d[i]);
    }
  }

  /** Appending elements that were already seen does not change `Dedup`. */
  lemma {:induction false} DedupAppendSeen<T>(xs: seq<T>, ys: seq<T>)
    requires forall i :: 0 <= i < |ys| ==> ys[i] in xs
    ensures Dedup(xs + ys) == Dedup(xs)
    decreases |ys|
  {
    if |ys| > 0 {
      var m := |ys| - 1;
      var zs := xs + ys[..m];
      SnocSplit(xs, ys, m);
      DedupAppendSeen(xs, ys[..m]);
      DedupSnocSeen(zs, ys[m], |xs|);
    } else {
      assert xs + ys == xs;
    }
  }

  /** `xs + ys` is `xs`, the first `m` of `ys`, then the last of `ys`,
      which was seen in `xs`. */
  lemma SnocSplit<T>(xs: seq<T>, ys: seq<T>, m: nat)
    requires m + 1 == |ys|
    requires forall i :: 0 <= i < |ys| ==> ys[i] in xs
    ensures forall i :: 0 <= i < m ==> ys[..m][i] in xs
    ensures xs + ys == (xs + ys[..m]) + [ys[m]]
    ensures ys[m] in (xs + ys[..m])[..|xs|]
  {
    assert forall i :: 0 <= i < m ==> ys[..m][i] == ys[i];
    assert (xs + ys[..m])[..|xs|] == xs;
  }

  lemma DedupSnocSeen<T>(zs: seq<T>, y: T, bound: nat)
    requires bound <= |zs| && y in zs[..bound]
    ensures Dedup(zs + [y]) == Dedup(zs)
  {
    var i :| 0 <= i < bound && zs[..bound][i] == y;
    assert zs[i] == y;
    assert (zs + [y])[..|zs|] == zs;
  }

  /** Input without repetitions comes out of `Dedup` unchanged. */
  lemma {:induction false} DedupOfDistinct<T>(xs: seq<T>)
    requires Distinct(xs)
    ensures Dedup(xs) == xs
  {
    if |xs| > 0 {
      var n := |xs| - 1;
      DedupOfDistinct(xs[..n]);
      assert xs[n] !in xs[..n];
      assert xs == xs[..n] + [xs[n]];
    }
  }

  /** The de-duplication loop: a set of seen elements and an output list,
      filled front to back. */
  method DedupLoop<T(==)>(xs: seq<T>) returns (r: seq<T>)
    ensures r == Dedup(xs)
  {
    r := [];
    var seen: set<T> := {};
    var k := 0;
    while k < |xs|
      invariant 0 <= k <= |xs|
      invariant r == Dedup(xs[..k])
      invariant forall x :: x in seen <==> x in xs[..k]
    {
      DedupStep(xs, k);
      if xs[k] !in seen {
        r := r + [xs[k]];
        seen := seen + {xs[k]};
      }
      k := k + 1;
    }
    assert xs[..|xs|] == xs;
  }

  /** One more element: `Dedup` keeps it exactly when it is new. */
  lemma DedupStep<T>(xs: seq<T>, k: nat)
    requires k < |xs|
    ensures Dedup(xs[..k + 1]) == if xs[k] in xs[..k] then Dedup(xs[..k]) else Dedup(xs[..k]) + [xs[k]]
    ensures forall x :: x in xs[..k + 1] <==> x in xs[..k] || x == xs[k]
  {
    var ys := xs[..k + 1];
    assert ys[..k] == xs[..k] && ys[k] == xs[k];
    assert ys == xs[..k] + [xs[k]];
    var d := Dedup(xs[..k]);
    if xs[k] in d {
      var i :| 0 <= i < |d| && d[i] == xs[k];
      assert d[i] in xs[..k];
    }
    if xs[k] in xs[..k] {
      var i :| 0 <= i < k && xs[..k][i] == xs[k];
      assert xs[..k][i] in d;
    }
  }

  // ---------------------------------------------------------------------
  // Counting

  /** The sum, over the keys `ks`, of how often each occurs in `xs`. */
  function SumOfCounts<T(==)>(ks: seq<T>, xs: seq<T>): nat {
    if |ks| == 0 then 0 else multiset(xs)[ks[0]] + SumOfCounts(ks[1..], xs)
  }

  lemma {:induction false} SumOfCountsAppend<T>(ks: seq<T>, k: T, xs: seq<T>)
    ensures SumOfCounts(ks + [k], xs) == SumOfCounts(ks, xs) + multiset(xs)[k]
  {
    if |ks| > 0 {
      assert (ks + [k])[1..] == ks[1..] + [k];
      SumOfCountsAppend(ks[1..], k, xs);
    }
  }

  /** Counting a key in one more element adds one exactly when it is that
      element, so a key list without that element keeps its sum. */
  lemma {:induction false} SumOfCountsSnoc<T>(ks: seq<T>, xs: seq<T>, y: T)
    requires Distinct(ks)
    ensures SumOfCounts(ks, xs + [y]) == SumOfCounts(ks, xs) + (if y in ks then 1 else 0)
  {
    if |ks| > 0 {
      SumOfCountsSnoc(ks[1..], xs, y);
      assert multiset(xs + [y]) == multiset(xs) + multiset{y};
      if y == ks[0] {
        assert y !in ks[1..];
      }
    }
  }

  /** The counts of the distinct elements add up to the length. */
  lemma {:induction false} SumOfCountsDedup<T>(xs: seq<T>)
    ensures SumOfCounts(Dedup(xs), xs) == |xs|
  {
    if |xs| > 0 {
      var n := |xs| - 1;
      var front := xs[..n];
      var d := Dedup(front);
      SumOfCountsDedup(front);
      assert xs == front + [xs[n]];
      SumOfCountsSnoc(d, front, xs[n]);
      if xs[n] !in d {
        SumOfCountsAppend(d, xs[n], xs);
        assert multiset(front)[xs[n]] == 0;
        assert multiset(xs)[xs[n]] == 1 by {
          assert multiset(xs) == multiset(front) + multiset{xs[n]};
        }
      }
    }
  }

  // ---------------------------------------------------------------------
  // Concatenation

  /** The concatenation of a sequence of sequences, in order. */
  function Flatten<T>(xss: seq<seq<T>>): (r: seq<T>)
    ensures |r| == TotalLength(xss)
  {
    if |xss| == 0 then [] else Flatten(xss[..|xss| - 1]) + xss[|xss| - 1]
  }

  function TotalLength<T>(xss: seq<seq<T>>): nat {
    if |xss| == 0 then 0 else TotalLength(xss[..|xss| - 1]) + |xss[|xss| - 1]|
  }

  /** Where the elements of part `k` start in the concatenation. */
  function Offset<T>(xss: seq<seq<T>>, k: nat): nat
    requires k <= |xss|
  {
    TotalLength(xss[..k])
  }

  /** Element `i` of part `k` sits at `Offset(k) + i` in the concatenation. */
  lemma {:induction false} FlattenIndex<T>(xss: seq<seq<T>>, k: nat, i: nat)
    requires k < |xss| && i < |xss[k]|
    ensures Offset(xss, k) + i < |Flatten(xss)|
    ensures Flatten(xss)[Offset(xss, k) + i] == xss[k][i]
  {
    var n := |xss| - 1;
    var front := xss[..n];
    assert xss[..n + 1] == xss;
    if k < n {
      FlattenIndex(front, k, i);
      assert front[..k] == xss[..k];
      OffsetBound(front, k);
    } else {
      assert xss[..k] == front;
    }
  }

  lemma {:induction false} OffsetBound<T>(xss: seq<seq<T>>, k: nat)
    requires k < |xss|
    ensures Offset(xss, k) + |xss[k]| <= TotalLength(xss)
  {
    var n := |xss| - 1;
    assert xss[..n + 1] == xss;
    if k < n {
      OffsetBound(xss[..n], k);
      assert xss[..n][..k] == xss[..k];
    } else {
      assert xss[..k + 1][..k] == xss[..k];
    }
  }

  /** The part and the position within it of element `p` of the
      concatenation. */
  function Locate<T>(xss: seq<seq<T>>, p: nat): (r: (nat, nat))
    requires p < |Flatten(xss)|
    ensures r.0 < |xss| && r.1 < |xss[r.0]|
    ensures p == Offset(xss, r.0) + r.1
  {
    var n := |xss| - 1;
    var front := xss[..n];
    assert xss[..n + 1] == xss;
    if p < |Flatten(front)| then
      var r := Locate(front, p);
      assert front[..r.0] == xss[..r.0];
      r
    else
      assert xss[..n] == front;
      (n, p - |Flatten(front)|)
  }

  /** All parts of a single part. */
  lemma FlattenOne<T>(xs: seq<T>)
    ensures Flatten([xs]) == xs
  {
    assert [xs][..0] == [];
  }
}
