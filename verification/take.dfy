/** `take n` and `count`: the first `n` rows of the input, collected chunk
    by chunk until enough rows are seen, and the number of input rows as a
    one-row table. */
module Take {
  import opened Wrappers
  import opened Values
  import opened Sequences

  /** The number of rows `take n` keeps from `total`. */
  function Kept(n: int, total: nat): nat {
    if n <= 0 then 0 else if n < total then n else total
  }

  /** `take n`: the longest prefix of at most `n` rows. */
  function TakeRows(rows: seq<Row>, n: int): (r: seq<Row>)
    ensures |r| == Kept(n, |rows|)
    ensures r == rows[..|r|]
  {
    if n <= 0 then [] else if n < |rows| then rows[..n] else rows
  }

  /** Taking twice takes the smaller number of rows. */
  lemma TakeTake(rows: seq<Row>, m: int, n: int)
    ensures TakeRows(TakeRows(rows, m), n) == TakeRows(rows, if m < n then m else n)
  {
  }

  /** The evaluator: chunks are consumed in order, the last one needed is
      cut short, and the chunks after it are never looked at. */
  method TakeChunks(chunks: seq<seq<Row>>, n: int) returns (out: seq<seq<Row>>)
    ensures |out| <= |chunks|
    ensures Flatten(out) == TakeRows(Flatten(chunks), n)
  {
    out := [];
    var remaining := n;
    var k := 0;
    while k < |chunks| && remaining > 0
      invariant 0 <= k <= |chunks|
      invariant |out| == k
      invariant Flatten(out) == TakeRows(Flatten(chunks[..k]), n)
      invariant n > 0 ==> remaining == n - |Flatten(out)| && remaining >= 0
      invariant n <= 0 ==> remaining == n
    {
      var chunk := chunks[k];
      var piece := if remaining < |chunk| then chunk[..remaining] else chunk;
      assert chunks[..k + 1][..k] == chunks[..k];
      assert (out + [piece])[..k] == out;
      out := out + [piece];
      remaining := remaining - |piece|;
      k := k + 1;
    }
    FlattenPrefix(chunks, k);
    if k < |chunks| {
      assert TakeRows(Flatten(chunks), n) == TakeRows(Flatten(chunks[..k]), n);
    } else {
      assert chunks[..k] == chunks;
    }
  }

  /** The chunks before `k` flatten to a prefix of all of them. */
  lemma {:induction false} FlattenPrefix<T>(xss: seq<seq<T>>, k: nat)
    requires k <= |xss|
    ensures |Flatten(xss[..k])| <= |Flatten(xss)|
    ensures Flatten(xss[..k]) == Flatten(xss)[..|Flatten(xss[..k])|]
    decreases |xss| - k
  {
    if k == |xss| {
      assert xss[..k] == xss;
    } else {
      FlattenPrefix(xss, k + 1);
      assert xss[..k + 1][..k] == xss[..k];
    }
  }

  /** `count`: a table with one `long` column `Count` and one row. */
  function CountRows(t: Table): (r: Table)
    ensures r.schema == [Column("Count", KLong)]
    ensures |r.rows| == 1 && r.rows[0] == [Some(VLong(|t.rows|))]
  {
    Table([Column("Count", KLong)], [[Some(VLong(|t.rows|))]])
  }

  /** `take n | count` counts the kept rows. */
  lemma TakeThenCount(t: Table, n: int)
    ensures CountRows(Table(t.schema, TakeRows(t.rows, n))).rows == [[Some(VLong(Kept(n, |t.rows|)))]]
  {
  }
}
