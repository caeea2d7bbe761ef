/** The window function `row_cumsum(v, restart)`: the running sum of `v`
    over the rows in order, which a row with a true `restart` resets to its
    own value. The evaluator sees the rows in chunks and carries the running
    sum from one chunk into the next. */
module Window {
  import opened Sequences

  /** One input row: the summed value and the restart flag. */
  datatype Step = Step(value: int, restart: bool)

  // ---------------------------------------------------------------------
  // Reference definition

  /** Where the run containing row `i` starts: the last restarting row at
      or before `i`, or the first row. */
  function RunStart(steps: seq<Step>, i: nat): (s: nat)
    requires i < |steps|
    ensures s <= i
    ensures 0 < s ==> steps[s].restart
    ensures forall k :: s < k <= i ==> !steps[k].restart
  {
    if i == 0 || steps[i].restart then i else RunStart(steps, i - 1)
  }

  /** The sum of the values of rows `s` up to, not including, `e`. */
  function SumRange(steps: seq<Step>, s: nat, e: nat): int
    requires s <= e <= |steps|
    decreases e - s
  {
    if s == e then 0 else SumRange(steps, s, e - 1) + steps[e - 1].value
  }

  /** The reference result: each row's value summed with the earlier values
      of its run. */
  function CumSum(steps: seq<Step>): (r: seq<int>)
    ensures |r| == |steps|
    ensures forall i :: 0 <= i < |steps| ==> r[i] == RunSum(steps, i)
  {
    seq(|steps|, i requires 0 <= i < |steps| => RunSum(steps, i))
  }

  /** Row `i`'s result: the values of its run up to and including it. */
  function RunSum(steps: seq<Step>, i: nat): int
    requires i < |steps|
  {
    SumRange(steps, RunStart(steps, i), i + 1)
  }

  /** The last running sum, 0 before the first row. */
  function LastOr0(sums: seq<int>): int {
    if |sums| == 0 then 0 else sums[|sums| - 1]
  }

  lemma {:induction false} SumRangePrefix(xs: seq<Step>, ys: seq<Step>, s: nat, e: nat)
    requires s <= e <= |xs|
    ensures SumRange(xs + ys, s, e) == SumRange(xs, s, e)
    decreases e - s
  {
    if s < e {
      SumRangePrefix(xs, ys, s, e - 1);
    }
  }

  lemma {:induction false} RunStartPrefix(xs: seq<Step>, ys: seq<Step>, i: nat)
    requires i < |xs|
    ensures RunStart(xs + ys, i) == RunStart(xs, i)
  {
    if i > 0 && !xs[i].restart {
      RunStartPrefix(xs, ys, i - 1);
    }
  }

  /** The recurrence the evaluator follows: one more row adds its value to
      the previous running sum, or replaces it when the row restarts. */
  lemma CumSumSnoc(xs: seq<Step>, x: Step)
    ensures CumSum(xs + [x]) == CumSum(xs) + [if x.restart then x.value else LastOr0(CumSum(xs)) + x.value]
  {
    var ys := xs + [x];
    var n := |xs|;
    var want := CumSum(xs) + [if x.restart then x.value else LastOr0(CumSum(xs)) + x.value];
    forall i | 0 <= i < n
      ensures RunSum(ys, i) == RunSum(xs, i)
    {
      RunSumPrefix(xs, [x], i);
    }
    CumSumLast(xs, x);
    assert CumSum(ys) == want;
  }

  lemma RunSumPrefix(xs: seq<Step>, ys: seq<Step>, i: nat)
    requires i < |xs|
    ensures RunSum(xs + ys, i) == RunSum(xs, i)
  {
    RunStartPrefix(xs, ys, i);
    SumRangePrefix(xs, ys, RunStart(xs, i), i + 1);
  }

  lemma CumSumLast(xs: seq<Step>, x: Step)
    ensures RunSum(xs + [x], |xs|) == if x.restart then x.value else LastOr0(CumSum(xs)) + x.value
  {
    var ys := xs + [x];
    var n := |xs|;
    if x.restart || n == 0 {
      assert RunStart(ys, n) == n;
      assert SumRange(ys, n, n + 1) == x.value;
    } else {
      var s := RunStart(xs, n - 1);
      RunStartPrefix(xs, [x], n - 1);
      assert RunStart(ys, n) == s;
      SumRangePrefix(xs, [x], s, n);
      assert SumRange(ys, s, n + 1) == SumRange(ys, s, n) + x.value;
      assert LastOr0(CumSum(xs)) == RunSum(xs, n - 1);
    }
  }

  // ---------------------------------------------------------------------
  // Chunked evaluation

  /** The evaluator: each chunk is summed row by row, starting from the
      running sum the previous chunk ended with. */
  method RowCumSum(chunks: seq<seq<Step>>) returns (out: seq<seq<int>>)
    ensures |out| == |chunks|
    ensures forall k :: 0 <= k < |chunks| ==> |out[k]| == |chunks[k]|
    ensures Flatten(out) == CumSum(Flatten(chunks))
  {
    out := [];
    var sum := 0;
    var k := 0;
    while k < |chunks|
      invariant 0 <= k <= |chunks|
      invariant |out| == k
      invariant forall h :: 0 <= h < k ==> |out[h]| == |chunks[h]|
      invariant Flatten(out) == CumSum(Flatten(chunks[..k]))
      invariant sum == LastOr0(Flatten(out))
    {
      var chunk := chunks[k];
      var before := Flatten(chunks[..k]);
      var sums: seq<int> := [];
      var j := 0;
      assert before + chunk[..0] == before;
      assert Flatten(out) + sums == Flatten(out);
      while j < |chunk|
        invariant 0 <= j <= |chunk|
        invariant |sums| == j
        invariant Flatten(out) + sums == CumSum(before + chunk[..j])
        invariant sum == LastOr0(Flatten(out) + sums)
      {
        CumSumSnoc(before + chunk[..j], chunk[j]);
        assert before + chunk[..j + 1] == (before + chunk[..j]) + [chunk[j]];
        sum := if chunk[j].restart then chunk[j].value else sum + chunk[j].value;
        sums := sums + [sum];
        j := j + 1;
      }
      assert chunk[..j] == chunk;
      assert chunks[..k + 1][..k] == chunks[..k];
      assert (out + [sums])[..k] == out;
      out := out + [sums];
      k := k + 1;
    }
    assert chunks[..k] == chunks;
  }

  // ---------------------------------------------------------------------
  // Properties

  /** Without restarts the result is the prefix sums. */
  lemma NoRestartIsPrefixSums(steps: seq<Step>, i: nat)
    requires forall k :: 0 <= k < |steps| ==> !steps[k].restart
    requires i < |steps|
    ensures CumSum(steps)[i] == SumRange(steps, 0, i + 1)
  {
  }

  /** A restarting row's result is its own value. */
  lemma RestartRowIsOwnValue(steps: seq<Step>, i: nat)
    requires i < |steps| && steps[i].restart
    ensures CumSum(steps)[i] == steps[i].value
  {
    assert RunStart(steps, i) == i;
    assert SumRange(steps, i, i + 1) == SumRange(steps, i, i) + steps[i].value;
  }
}
