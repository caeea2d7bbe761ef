/** Column naming shared by `union` and `join`: a name that is already taken
    gets the smallest numeric suffix 1, 2, … that makes it free. */
module Naming {
  import opened Text
  import opened Sequences

  /** `base` followed by the decimal text of `k`. */
  function Suffixed(base: string, k: nat): string {
    base + NatToString(k)
  }

  lemma SuffixedInjective(base: string, j: nat, k: nat)
    requires Suffixed(base, j) == Suffixed(base, k)
    ensures j == k
  {
    assert NatToString(j) == Suffixed(base, j)[|base|..];
    assert NatToString(k) == Suffixed(base, k)[|base|..];
    NatToStringInjective(j, k);
  }

  /** The suffixed names `base1` … `base{k-1}`. */
  function SuffixedUpTo(base: string, k: nat): set<string> {
    set j | 1 <= j < k :: Suffixed(base, j)
  }

  lemma {:induction false} SuffixedUpToSize(base: string, k: nat)
    requires k >= 1
    ensures |SuffixedUpTo(base, k)| == k - 1
  {
    if k > 1 {
      SuffixedUpToSize(base, k - 1);
      assert SuffixedUpTo(base, k) == SuffixedUpTo(base, k - 1) + {Suffixed(base, k - 1)};
      if Suffixed(base, k - 1) in SuffixedUpTo(base, k - 1) {
        var j :| 1 <= j < k - 1 && Suffixed(base, j) == Suffixed(base, k - 1);
        SuffixedInjective(base, j, k - 1);
      }
    } else {
      assert SuffixedUpTo(base, k) == {};
    }
  }

  /** The smallest suffix from `k` on whose name is free; every suffix
      below `k` is known to be taken, so at most `|taken| + 1` are tried. */
  function FreeSuffix(base: string, taken: set<string>, k: nat): (r: nat)
    requires k >= 1
    requires SuffixedUpTo(base, k) <= taken
    ensures k <= r && Suffixed(base, r) !in taken
    ensures forall j :: 1 <= j < r ==> Suffixed(base, j) in taken
    decreases |taken| + 1 - k
  {
    SuffixedUpToSize(base, k);
    assert |SuffixedUpTo(base, k)| <= |taken| by {
      SubsetSize(SuffixedUpTo(base, k), taken);
    }
    if Suffixed(base, k) !in taken then k
    else
      assert SuffixedUpTo(base, k + 1) == SuffixedUpTo(base, k) + {Suffixed(base, k)};
      SuffixedUpToSize(base, k + 1);
      SubsetSize(SuffixedUpTo(base, k + 1), taken);
      FreeSuffix(base, taken, k + 1)
  }

  lemma SubsetSize<T>(a: set<T>, b: set<T>)
    requires a <= b
    ensures |a| <= |b|
  {
    assert b == a + (b - a);
  }

  /** A name not in `taken`: `base` itself when free, otherwise `base`
      with the smallest free suffix. */
  function FreshName(base: string, taken: set<string>): (r: string)
    ensures r !in taken
    ensures base !in taken ==> r == base
    ensures base in taken ==> exists k :: k >= 1 && r == Suffixed(base, k)
                                          && forall j :: 1 <= j < k ==> Suffixed(base, j) in taken
  {
    if base !in taken then base
    else
      assert SuffixedUpTo(base, 1) == {};
      Suffixed(base, FreeSuffix(base, taken, 1))
  }

  /** Renames each name, left to right, to a name none of the earlier
      results has. */
  function Uniquify(names: seq<string>): (r: seq<string>)
    ensures |r| == |names|
  {
    if |names| == 0 then []
    else
      var n := |names| - 1;
      var front := Uniquify(names[..n]);
      front + [FreshName(names[n], set i | 0 <= i < |front| :: front[i])]
  }

  /** The results are pairwise distinct. */
  lemma {:induction false} UniquifyDistinct(names: seq<string>)
    ensures Distinct(Uniquify(names))
  {
    if |names| > 0 {
      var n := |names| - 1;
      UniquifyDistinct(names[..n]);
      var front := Uniquify(names[..n]);
      var r := Uniquify(names);
      var taken := set i | 0 <= i < |front| :: front[i];
      assert r == front + [FreshName(names[n], taken)];
      forall i, j | 0 <= i < j < |r|
        ensures r[i] != r[j]
      {
        assert r[i] == front[i];
        if j == n {
          assert front[i] in taken;
          assert r[j] == FreshName(names[n], taken);
        } else {
          assert r[j] == front[j];
        }
      }
    }
  }

  /** Renaming a longer list renames its prefix the same way. */
  lemma {:induction false} UniquifyPrefix(a: seq<string>, b: seq<string>)
    ensures Uniquify(a + b)[..|a|] == Uniquify(a)
    decreases |b|
  {
    if |b| > 0 {
      var n := |b| - 1;
      UniquifyPrefix(a, b[..n]);
      assert (a + b)[..|a| + n] == a + b[..n];
    } else {
      assert a + b == a;
    }
  }

  /** Names that are already distinct are kept. */
  lemma {:induction false} UniquifyOfDistinct(names: seq<string>)
    requires Distinct(names)
    ensures Uniquify(names) == names
  {
    if |names| > 0 {
      var n := |names| - 1;
      UniquifyOfDistinct(names[..n]);
      assert names[n] !in names[..n];
      assert names == names[..n] + [names[n]];
    }
  }

  /** Each result is its input name, or that name with a numeric suffix. */
  lemma {:induction false} UniquifyKeepsBase(names: seq<string>, i: int)
    requires 0 <= i < |names|
    ensures var r := Uniquify(names);
            r[i] == names[i] || exists k :: k >= 1 && r[i] == Suffixed(names[i], k)
  {
    var n := |names| - 1;
    if i < n {
      UniquifyKeepsBase(names[..n], i);
    }
  }

  /** A name none of the earlier results has is kept. */
  lemma UniquifyAppendFree(names: seq<string>, x: string)
    requires x !in Uniquify(names)
    ensures Uniquify(names + [x]) == Uniquify(names) + [x]
  {
    assert (names + [x])[..|names|] == names;
  }

  /** A name an earlier result has, while its first suffixed form is free,
      gets suffix 1. */
  lemma UniquifyAppendTaken(names: seq<string>, x: string)
    requires x in Uniquify(names) && Suffixed(x, 1) !in Uniquify(names)
    ensures Uniquify(names + [x]) == Uniquify(names) + [x + "1"]
  {
    var front := Uniquify(names);
    var taken := set i | 0 <= i < |front| :: front[i];
    assert (names + [x])[..|names|] == names;
    assert x in taken;
    var r := FreshName(x, taken);
    var k :| k >= 1 && r == Suffixed(x, k) && forall j :: 1 <= j < k ==> Suffixed(x, j) in taken;
    assert k == 1;
    assert NatToString(1) == "1";
  }
}
