/** The end-to-end scenarios of the scalar functions, `not`, `row_cumsum`,
    `summarize count()`, `take` and `count`, each stated on the model's
    operations with the inputs and outputs of the scenario. */
module ScalarScenarios {
  import opened Wrappers
  import opened Values
  import opened Sequences
  import opened Logic
  import opened Scalars
  import opened Window
  import opened Summarize
  import opened Take
  import opened Text

  /** `not` on true, false and null. */
  lemma NotScenario()
    ensures Not(Some(true)) == Some(false)
    ensures Not(Some(false)) == Some(true)
    ensures Not(None) == None
  {
  }

  /** The truth tables of `and` and `or` on non-null operands. */
  lemma AndOrScenario()
    ensures And(Some(false), Some(false)) == Some(false) && And(Some(false), Some(true)) == Some(false)
    ensures And(Some(true), Some(false)) == Some(false) && And(Some(true), Some(true)) == Some(true)
    ensures Or(Some(false), Some(false)) == Some(false) && Or(Some(false), Some(true)) == Some(true)
    ensures Or(Some(true), Some(false)) == Some(true) && Or(Some(true), Some(true)) == Some(true)
  {
  }

  /** `bin(a, 3)` for `a` from -1 to 4. */
  lemma BinScenario()
    ensures Bin(-1, 3) == Some(-3) && Bin(0, 3) == Some(0) && Bin(1, 3) == Some(0)
    ensures Bin(2, 3) == Some(0) && Bin(3, 3) == Some(3) && Bin(4, 3) == Some(3)
  {
    BinUnique(-1, 3, -3, -1);
    BinUnique(0, 3, 0, 0);
    BinUnique(1, 3, 0, 0);
    BinUnique(2, 3, 0, 0);
    BinUnique(3, 3, 3, 1);
    BinUnique(4, 3, 3, 1);
  }

  /** `%` with a positive and a negative dividend. */
  lemma ModScenario()
    ensures Mod(4, 5) == Some(4) && Mod(5, 5) == Some(0) && Mod(6, 5) == Some(1)
    ensures Mod(-1, 4) == Some(-1)
  {
  }

  /** `substring` with in-range, overlong, negative and past-the-end
      arguments. */
  lemma SubstringScenario()
    ensures Substring("abc", 0, Some(3)) == "abc"
    ensures Substring("abc", -1, Some(20)) == "abc"
    ensures Substring("abc", 1, Some(2)) == "bc"
    ensures Substring("abc", 1, Some(20)) == "bc"
    ensures Substring("abc", 1, Some(1)) == "b"
    ensures Substring("abc", 2, Some(0)) == ""
    ensures Substring("abc", 10, Some(1)) == ""
  {
  }

  /** `replace_string` on a constant and on a column of strings. */
  lemma ReplaceStringScenario()
    ensures ReplaceString("abcb", "b", "1") == "a1c1"
    ensures ReplaceString("abc", "b", "1") == "a1c"
    ensures ReplaceString("def", "b", "1") == "def"
  {
    ReplaceAbcb();
    ReplaceAbc();
    ReplaceDef();
  }

  lemma ReplaceAbcb()
    ensures ReplaceString("abcb", "b", "1") == "a1c1"
  {
    assert ReplaceString("", "b", "1") == "";
    assert "b"[1..] == "";
    assert ReplaceString("b", "b", "1") == "1";
    assert "cb"[1..] == "b" && !StartsWith("cb", "b");
    assert ReplaceString("cb", "b", "1") == "c1";
    assert "bcb"[1..] == "cb";
    assert ReplaceString("bcb", "b", "1") == "1c1";
    assert "abcb"[1..] == "bcb" && !StartsWith("abcb", "b");
  }

  lemma ReplaceAbc()
    ensures ReplaceString("abc", "b", "1") == "a1c"
  {
    assert ReplaceString("", "b", "1") == "";
    assert "c"[..1] == "c";
    assert "c"[1..] == "" && !StartsWith("c", "b");
    assert ReplaceString("c", "b", "1") == "c";
    assert "bc"[1..] == "c";
    assert ReplaceString("bc", "b", "1") == "1c";
    assert "abc"[1..] == "bc" && !StartsWith("abc", "b");
  }

  lemma ReplaceDef()
    ensures ReplaceString("def", "b", "1") == "def"
  {
    assert ReplaceString("", "b", "1") == "";
    assert "f"[..1] == "f";
    assert "f"[1..] == "" && !StartsWith("f", "b");
    assert ReplaceString("f", "b", "1") == "f";
    assert "ef"[1..] == "f" && !StartsWith("ef", "b");
    assert ReplaceString("ef", "b", "1") == "ef";
    assert "def"[1..] == "ef" && !StartsWith("def", "b");
  }

  /** `strlen` of two constants. */
  lemma StrLenScenario()
    ensures StrLen("abc") == 3 && StrLen("a") == 1
  {
  }

  /** `isnull` is true for a null of every kind and false for the empty and
      the blank string; `isempty` is true only for the empty string. */
  lemma NullAndEmptyScenario()
    ensures IsNull(None)
    ensures !IsNull(Some(VString(""))) && !IsNull(Some(VString(" ")))
    ensures IsEmpty(Some(VString("")))
    ensures !IsEmpty(Some(VString(" "))) && !IsEmpty(Some(VString("hello")))
  {
  }

  // ---------------------------------------------------------------------
  // row_cumsum

  function Plain(v: int): Step {
    Step(v, false)
  }

  /** One chunk of `long`s 1 to 4. */
  lemma CumSumSingleChunk()
    ensures CumSum([Plain(1), Plain(2), Plain(3), Plain(4)]) == [1, 3, 6, 10]
  {
    var s := [Plain(1), Plain(2), Plain(3), Plain(4)];
    CumSumSnoc([], Plain(1));
    CumSumSnoc([Plain(1)], Plain(2));
    CumSumSnoc([Plain(1), Plain(2)], Plain(3));
    CumSumSnoc([Plain(1), Plain(2), Plain(3)], Plain(4));
    assert [] + [Plain(1)] == [Plain(1)];
    assert [Plain(1)] + [Plain(2)] == [Plain(1), Plain(2)];
    assert [Plain(1), Plain(2)] + [Plain(3)] == [Plain(1), Plain(2), Plain(3)];
    assert [Plain(1), Plain(2), Plain(3)] + [Plain(4)] == s;
  }

  /** The union of a table with itself arrives in two chunks; the sum
      carries over from the first chunk into the second. */
  lemma CumSumTwoChunks()
    ensures CumSum(Flatten([[Plain(1), Plain(2), Plain(3)], [Plain(1), Plain(2), Plain(3)]])) == [1, 3, 6, 7, 9, 12]
  {
    var c := [Plain(1), Plain(2), Plain(3)];
    FlattenOne(c);
    assert [c, c][..1] == [c];
    assert Flatten([c, c]) == c + c;
    CumSumFirstChunk();
    CumSumSnoc(c, Plain(1));
    CumSumSecondChunk(c + [Plain(1)]);
    assert c + [Plain(1)] + [Plain(2)] + [Plain(3)] == c + c;
  }

  lemma CumSumFirstChunk()
    ensures CumSum([Plain(1), Plain(2), Plain(3)]) == [1, 3, 6]
  {
    CumSumSnoc([], Plain(1));
    assert [] + [Plain(1)] == [Plain(1)];
    CumSumSnoc([Plain(1)], Plain(2));
    assert [Plain(1)] + [Plain(2)] == [Plain(1), Plain(2)];
    CumSumSnoc([Plain(1), Plain(2)], Plain(3));
    assert [Plain(1), Plain(2)] + [Plain(3)] == [Plain(1), Plain(2), Plain(3)];
  }

  lemma CumSumSecondChunk(xs: seq<Step>)
    requires CumSum(xs) == [1, 3, 6, 7]
    ensures CumSum(xs + [Plain(2)] + [Plain(3)]) == [1, 3, 6, 7, 9, 12]
  {
    CumSumSnoc(xs, Plain(2));
    CumSumSnoc(xs + [Plain(2)], Plain(3));
  }

  /** A restart on the third row starts the sum again from its value. */
  lemma CumSumRestart()
    ensures CumSum([Plain(1), Plain(2), Step(3, true), Plain(4)]) == [1, 3, 3, 7]
  {
    var s := [Plain(1), Plain(2), Step(3, true), Plain(4)];
    CumSumSnoc([], Plain(1));
    CumSumSnoc([Plain(1)], Plain(2));
    CumSumSnoc([Plain(1), Plain(2)], Step(3, true));
    CumSumSnoc([Plain(1), Plain(2), Step(3, true)], Plain(4));
    assert [] + [Plain(1)] == [Plain(1)];
    assert [Plain(1)] + [Plain(2)] == [Plain(1), Plain(2)];
    assert [Plain(1), Plain(2)] + [Step(3, true)] == [Plain(1), Plain(2), Step(3, true)];
    assert [Plain(1), Plain(2), Step(3, true)] + [Plain(4)] == s;
  }

  // ---------------------------------------------------------------------
  // summarize, take, count

  function LongCell(x: int): Cell {
    Some(VLong(x))
  }

  /** `summarize count() by bin(a, 2)` over `a` = 1, 2, 3: the by-values
      are 0, 2, 2. */
  lemma SummarizeByBinScenario()
    ensures Bin(1, 2) == Some(0) && Bin(2, 2) == Some(2) && Bin(3, 2) == Some(2)
    ensures SummarizeCount([Column("a", KLong)], [[LongCell(0)], [LongCell(2)], [LongCell(2)]])
         == Table([Column("a", KLong), CountColumn], [[LongCell(0), LongCell(1)], [LongCell(2), LongCell(2)]])
  {
    BinUnique(1, 2, 0, 0);
    BinUnique(2, 2, 2, 1);
    BinUnique(3, 2, 2, 1);
    var keys := [[LongCell(0)], [LongCell(2)], [LongCell(2)]];
    assert keys[..2] == [[LongCell(0)], [LongCell(2)]];
    assert keys[..2][..1] == [[LongCell(0)]];
    var groups := [[LongCell(0)], [LongCell(2)]];
    assert Groups([Column("a", KLong)], keys) == groups;
    assert multiset(keys)[[LongCell(0)]] == 1;
    assert multiset(keys)[[LongCell(2)]] == 2;
    var rows := GroupRows(groups, keys);
    assert rows[0] == [LongCell(0), LongCell(1)];
    assert rows[1] == [LongCell(2), LongCell(2)];
    assert rows == [[LongCell(0), LongCell(1)], [LongCell(2), LongCell(2)]];
  }

  /** `summarize count()` without by-expressions over three rows. */
  lemma SummarizeNoByScenario()
    ensures SummarizeCount([], [[], [], []]) == Table([CountColumn], [[LongCell(3)]])
  {
    SummarizeNoBy([[], [], []]);
  }

  /** `take 3` of five rows, and `take 2 | count`. */
  lemma TakeScenario(t: Table)
    requires |t.rows| == 5
    ensures TakeRows(t.rows, 3) == t.rows[..3]
    ensures CountRows(Table(t.schema, TakeRows(t.rows, 2))) == Table([Column("Count", KLong)], [[LongCell(2)]])
  {
  }
}
