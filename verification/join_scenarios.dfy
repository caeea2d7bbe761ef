/** The end-to-end scenarios of `join`. Every scenario but one joins the
    same two tables on their `Key` column:
      X = (Key:string, Value1:long)  a 1, b 2, b 3, c 4
      Y = (Key:string, Value2:long)  b 10, c 20, c 30, d 40
    The scenarios sort their output; the rows each lemma states are in the
    model's emitting order, which for these inputs is already the sorted
    order. Each scenario is proved in two steps: the row sets on abstract
    rows that match as the concrete ones do, then the concrete tables. */
module JoinScenarios {
  import opened Wrappers
  import opened Values
  import opened Sequences
  import opened Naming
  import opened Text
  import opened Join
  import opened Scalars

  // ---------------------------------------------------------------------
  // Abstract rows that match like X and Y

  /** Left row `i` of X matches right row `j` of Y: b with b, c with c. */
  predicate Grid(i: int, j: int) {
    ((i == 1 || i == 2) && j == 0) || (i == 3 && (j == 1 || j == 2))
  }

  /** Four left and four right rows matching as X and Y do. */
  predicate LikeXY(lefts: seq<Row>, rights: seq<Row>, on: seq<KeyPair>) {
    && |lefts| == 4 && |rights| == 4
    && forall i, j :: 0 <= i < 4 && 0 <= j < 4 ==> (Matches(lefts[i], rights[j], on) <==> Grid(i, j))
  }

  /** The pair a left row makes with one right row, if they match. */
  function Pick(l: Row, r: Row, on: seq<KeyPair>): seq<Row> {
    if Matches(l, r, on) then [l + r] else []
  }

  lemma PairsOfFour(l: Row, rights: seq<Row>, on: seq<KeyPair>)
    requires |rights| == 4
    ensures Pairs(l, rights, on)
         == Pick(l, rights[0], on) + Pick(l, rights[1], on) + Pick(l, rights[2], on) + Pick(l, rights[3], on)
  {
    assert rights[..3][..2] == rights[..2] && rights[..2][..1] == rights[..1] && rights[..1][..0] == [];
    assert Pairs(l, rights[..1], on) == Pick(l, rights[0], on);
    assert Pairs(l, rights[..2], on) == Pairs(l, rights[..1], on) + Pick(l, rights[1], on);
    assert Pairs(l, rights[..3], on) == Pairs(l, rights[..2], on) + Pick(l, rights[2], on);
  }

  lemma PairRowsOfFour(lefts: seq<Row>, rights: seq<Row>, on: seq<KeyPair>)
    requires |lefts| == 4
    ensures PairRows(lefts, rights, on)
         == Pairs(lefts[0], rights, on) + Pairs(lefts[1], rights, on) + Pairs(lefts[2], rights, on) + Pairs(lefts[3], rights, on)
  {
    assert lefts[..3][..2] == lefts[..2] && lefts[..2][..1] == lefts[..1] && lefts[..1][..0] == [];
    assert PairRows(lefts[..1], rights, on) == Pairs(lefts[0], rights, on);
    assert PairRows(lefts[..2], rights, on) == PairRows(lefts[..1], rights, on) + Pairs(lefts[1], rights, on);
    assert PairRows(lefts[..3], rights, on) == PairRows(lefts[..2], rights, on) + Pairs(lefts[2], rights, on);
  }

  /** The pairs of each left row of X. */
  lemma PairsLikeXY(lefts: seq<Row>, rights: seq<Row>, on: seq<KeyPair>)
    requires LikeXY(lefts, rights, on)
    ensures Pairs(lefts[0], rights, on) == []
    ensures Pairs(lefts[1], rights, on) == [lefts[1] + rights[0]]
    ensures Pairs(lefts[2], rights, on) == [lefts[2] + rights[0]]
    ensures Pairs(lefts[3], rights, on) == [lefts[3] + rights[1], lefts[3] + rights[2]]
  {
    assert !Grid(0, 0) && !Grid(0, 1) && !Grid(0, 2) && !Grid(0, 3);
    PairsOfRow(lefts[0], rights, on, false, false, false);
    assert Grid(1, 0) && !Grid(1, 1) && !Grid(1, 2) && !Grid(1, 3);
    PairsOfRow(lefts[1], rights, on, true, false, false);
    assert Grid(2, 0) && !Grid(2, 1) && !Grid(2, 2) && !Grid(2, 3);
    PairsOfRow(lefts[2], rights, on, true, false, false);
    assert !Grid(3, 0) && Grid(3, 1) && Grid(3, 2) && !Grid(3, 3);
    PairsOfRow(lefts[3], rights, on, false, true, true);
  }

  /** The pairs of one left row that matches only among the first three
      right rows, as the flags say. */
  lemma PairsOfRow(l: Row, rights: seq<Row>, on: seq<KeyPair>, m0: bool, m1: bool, m2: bool)
    requires |rights| == 4
    requires Matches(l, rights[0], on) == m0 && Matches(l, rights[1], on) == m1
    requires Matches(l, rights[2], on) == m2 && !Matches(l, rights[3], on)
    ensures Pairs(l, rights, on)
         == (if m0 then [l + rights[0]] else []) + (if m1 then [l + rights[1]] else []) + (if m2 then [l + rights[2]] else [])
  {
    PairsOfFour(l, rights, on);
  }

  /** `inner`: b2-b10, b3-b10, c4-c20, c4-c30. */
  lemma InnerLikeXY(lefts: seq<Row>, rights: seq<Row>, on: seq<KeyPair>)
    requires LikeXY(lefts, rights, on)
    ensures PairRows(lefts, rights, on)
         == [lefts[1] + rights[0], lefts[2] + rights[0], lefts[3] + rights[1], lefts[3] + rights[2]]
  {
    PairRowsOfFour(lefts, rights, on);
    PairsLikeXY(lefts, rights, on);
  }

  /** Which left rows of X, and which right rows of Y, have a match. */
  lemma HasMatchLikeXY(lefts: seq<Row>, rights: seq<Row>, on: seq<KeyPair>)
    requires LikeXY(lefts, rights, on)
    ensures !HasMatch(lefts[0], rights, on)
    ensures HasMatch(lefts[1], rights, on) && HasMatch(lefts[2], rights, on) && HasMatch(lefts[3], rights, on)
    ensures HasMatchLeft(rights[0], lefts, on) && HasMatchLeft(rights[1], lefts, on) && HasMatchLeft(rights[2], lefts, on)
    ensures !HasMatchLeft(rights[3], lefts, on)
  {
    assert Matches(lefts[1], rights[0], on) && Matches(lefts[2], rights[0], on);
    assert Matches(lefts[3], rights[1], on) && Matches(lefts[3], rights[2], on);
    assert forall j :: 0 <= j < 4 ==> !Grid(0, j);
    assert forall i :: 0 <= i < 4 ==> !Grid(i, 3);
  }

  /** `leftsemi` keeps b2, b3, c4; `leftanti` keeps a1. */
  lemma LeftSemiAntiLikeXY(lefts: seq<Row>, rights: seq<Row>, on: seq<KeyPair>)
    requires LikeXY(lefts, rights, on)
    ensures LeftSemiRows(lefts, rights, on) == [lefts[1], lefts[2], lefts[3]]
    ensures LeftAntiRows(lefts, rights, on) == [lefts[0]]
  {
    HasMatchLikeXY(lefts, rights, on);
    assert lefts[..3][..2] == lefts[..2] && lefts[..2][..1] == lefts[..1] && lefts[..1][..0] == [];
    assert LeftSemiRows(lefts[..1], rights, on) == [];
    assert LeftSemiRows(lefts[..2], rights, on) == [lefts[1]];
    assert LeftSemiRows(lefts[..3], rights, on) == [lefts[1], lefts[2]];
    assert LeftAntiRows(lefts[..1], rights, on) == [lefts[0]];
    assert LeftAntiRows(lefts[..2], rights, on) == [lefts[0]];
    assert LeftAntiRows(lefts[..3], rights, on) == [lefts[0]];
  }

  /** `rightsemi` keeps b10, c20, c30; `rightanti` keeps d40. */
  lemma RightSemiAntiLikeXY(lefts: seq<Row>, rights: seq<Row>, on: seq<KeyPair>)
    requires LikeXY(lefts, rights, on)
    ensures RightSemiRows(lefts, rights, on) == [rights[0], rights[1], rights[2]]
    ensures RightAntiRows(lefts, rights, on) == [rights[3]]
  {
    HasMatchLikeXY(lefts, rights, on);
    assert rights[..3][..2] == rights[..2] && rights[..2][..1] == rights[..1] && rights[..1][..0] == [];
    assert RightSemiRows(lefts, rights[..1], on) == [rights[0]];
    assert RightSemiRows(lefts, rights[..2], on) == [rights[0], rights[1]];
    assert RightSemiRows(lefts, rights[..3], on) == [rights[0], rights[1], rights[2]];
    assert RightAntiRows(lefts, rights[..1], on) == [];
    assert RightAntiRows(lefts, rights[..2], on) == [];
    assert RightAntiRows(lefts, rights[..3], on) == [];
  }

  /** `leftouter`: a1 padded, then the pairs of `inner`. */
  lemma LeftOuterLikeXY(lefts: seq<Row>, rights: seq<Row>, on: seq<KeyPair>, rightSchema: Schema)
    requires LikeXY(lefts, rights, on)
    ensures LeftOuterRows(lefts, rights, on, rightSchema)
         == [lefts[0] + FillRow(rightSchema), lefts[1] + rights[0], lefts[2] + rights[0], lefts[3] + rights[1], lefts[3] + rights[2]]
  {
    HasMatchLikeXY(lefts, rights, on);
    PairsLikeXY(lefts, rights, on);
    assert lefts[..3][..2] == lefts[..2] && lefts[..2][..1] == lefts[..1] && lefts[..1][..0] == [];
    assert LeftOuterRows(lefts[..1], rights, on, rightSchema) == [lefts[0] + FillRow(rightSchema)];
    assert LeftOuterRows(lefts[..2], rights, on, rightSchema) == [lefts[0] + FillRow(rightSchema), lefts[1] + rights[0]];
    assert LeftOuterRows(lefts[..3], rights, on, rightSchema)
        == [lefts[0] + FillRow(rightSchema), lefts[1] + rights[0], lefts[2] + rights[0]];
  }

  /** Left rows whose keys are like X's: b2 and b3 share a key, the others
      differ. */
  predicate KeysLikeX(lefts: seq<Row>, on: seq<KeyPair>) {
    && |lefts| == 4
    && LeftKey(lefts[1], on) == LeftKey(lefts[2], on)
    && LeftKey(lefts[0], on) != LeftKey(lefts[1], on)
    && LeftKey(lefts[0], on) != LeftKey(lefts[3], on)
    && LeftKey(lefts[1], on) != LeftKey(lefts[3], on)
  }

  /** `innerunique` keeps a1, b2 and c4 of X; b3 repeats b2's key. */
  lemma InnerUniqueLikeXY(lefts: seq<Row>, rights: seq<Row>, on: seq<KeyPair>)
    requires LikeXY(lefts, rights, on) && KeysLikeX(lefts, on)
    ensures PairRows(FirstPerKey(lefts, on), rights, on)
         == [lefts[1] + rights[0], lefts[3] + rights[1], lefts[3] + rights[2]]
  {
    FirstPerKeyLikeX(lefts, on);
    PairsLikeXY(lefts, rights, on);
    PairRowsOfThree(lefts[0], lefts[1], lefts[3], rights, on);
  }

  /** The first row of each key of X: a1, b2 and c4. */
  lemma FirstPerKeyLikeX(lefts: seq<Row>, on: seq<KeyPair>)
    requires KeysLikeX(lefts, on)
    ensures FirstPerKey(lefts, on) == [lefts[0], lefts[1], lefts[3]]
  {
    assert lefts[..3][..2] == lefts[..2] && lefts[..2][..1] == lefts[..1] && lefts[..1][..0] == [];
    assert FirstOfKey(lefts[..1], 0, on);
    assert FirstOfKey(lefts[..2], 1, on);
    assert !FirstOfKey(lefts[..3], 2, on);
    assert FirstOfKey(lefts, 3, on);
    assert FirstPerKey(lefts[..1], on) == [lefts[0]];
    assert FirstPerKey(lefts[..2], on) == [lefts[0], lefts[1]];
    assert FirstPerKey(lefts[..3], on) == [lefts[0], lefts[1]];
  }

  // ---------------------------------------------------------------------
  // The concrete tables

  function Str(s: string): Cell {
    Some(VString(s))
  }

  function Long(x: int): Cell {
    Some(VLong(x))
  }

  const X := Table([Column("Key", KString), Column("Value1", KLong)],
                   [[Str("a"), Long(1)], [Str("b"), Long(2)], [Str("b"), Long(3)], [Str("c"), Long(4)]])

  const Y := Table([Column("Key", KString), Column("Value2", KLong)],
                   [[Str("b"), Long(10)], [Str("c"), Long(20)], [Str("c"), Long(30)], [Str("d"), Long(40)]])

  /** Y with a third, string, column. */
  const Y3 := Table([Column("Key", KString), Column("Value2", KLong), Column("Value3", KString)],
                    [[Str("b"), Long(10), Str("aa")], [Str("c"), Long(20), Str("bb")],
                     [Str("c"), Long(30), Str("cc")], [Str("d"), Long(40), Str("dd")]])

  /** `on Key`: the first column of each side. */
  const OnFirst := [KeyPair(0, 0)]

  /** On the first column, rows match when their first cells are equal. */
  lemma MatchesOnFirst(l: Row, r: Row)
    requires |l| >= 1 && |r| >= 1
    ensures Matches(l, r, OnFirst) <==> l[0] == r[0]
    ensures LeftKey(l, OnFirst) == [l[0]]
  {
    assert LeftKey(l, OnFirst) == [l[0]];
    assert RightKey(r, OnFirst) == [r[0]];
  }

  /** Rows whose first cells match as X's and Y's do. */
  lemma FirstCellsLikeXY(lefts: seq<Row>, rights: seq<Row>)
    requires |lefts| == 4 && |rights| == 4
    requires forall i :: 0 <= i < 4 ==> |lefts[i]| >= 1 && |rights[i]| >= 1
    requires forall i, j :: 0 <= i < 4 && 0 <= j < 4 ==> (lefts[i][0] == rights[j][0] <==> Grid(i, j))
    requires lefts[1][0] == lefts[2][0] && lefts[0][0] != lefts[1][0] && lefts[0][0] != lefts[3][0] && lefts[1][0] != lefts[3][0]
    ensures LikeXY(lefts, rights, OnFirst) && KeysLikeX(lefts, OnFirst)
  {
    forall i, j | 0 <= i < 4 && 0 <= j < 4
      ensures Matches(lefts[i], rights[j], OnFirst) <==> Grid(i, j)
    {
      MatchesOnFirst(lefts[i], rights[j]);
    }
    MatchesOnFirst(lefts[0], rights[0]);
    MatchesOnFirst(lefts[1], rights[0]);
    MatchesOnFirst(lefts[2], rights[0]);
    MatchesOnFirst(lefts[3], rights[0]);
  }

  lemma XYMatch()
    ensures LikeXY(X.rows, Y.rows, OnFirst) && KeysLikeX(X.rows, OnFirst)
    ensures LikeXY(X.rows, Y3.rows, OnFirst)
  {
    forall i, j | 0 <= i < 4 && 0 <= j < 4
      ensures X.rows[i][0] == Y.rows[j][0] <==> Grid(i, j)
      ensures X.rows[i][0] == Y3.rows[j][0] <==> Grid(i, j)
    {
    }
    FirstCellsLikeXY(X.rows, Y.rows);
    FirstCellsLikeXY(X.rows, Y3.rows);
  }

  /** Two left names and a right name list that repeats the first left
      name: the repeat is numbered 1, the rest are kept. */
  lemma UniquifyFirstClash(a: string, b: string, c: string, d: string)
    requires a != b && a != c && b != c && a != d && b != d && c != d
    requires a + "1" != b && a + "1" != c && a + "1" != d
    ensures Uniquify([a, b, a, c]) == [a, b, a + "1", c]
    ensures Uniquify([a, b, a, c, d]) == [a, b, a + "1", c, d]
  {
    UniquifyTwo(a, b);
    UniquifyRepeat(a, b);
    UniquifyAppendFree([a, b, a], c);
    assert [a, b, a] + [c] == [a, b, a, c];
    UniquifyAppendFree([a, b, a, c], d);
    assert [a, b, a, c] + [d] == [a, b, a, c, d];
  }

  lemma UniquifyTwo(a: string, b: string)
    requires a != b
    ensures Uniquify([a, b]) == [a, b]
  {
    assert [a, b][..1] == [a];
    assert [a][..0] == [];
  }

  lemma UniquifyRepeat(a: string, b: string)
    requires Uniquify([a, b]) == [a, b] && a + "1" != b
    ensures Uniquify([a, b, a]) == [a, b, a + "1"]
  {
    assert a + NatToString(1) == a + "1";
    UniquifyAppendTaken([a, b], a);
    assert [a, b] + [a] == [a, b, a];
  }

  /** The left names followed by the right ones, the right `Key` renamed
      `Key1`. */
  lemma XYSchema(kind: JoinKind)
    requires EmitsPairs(kind)
    ensures JoinSchema(kind, X.schema, Y.schema)
         == [Column("Key", KString), Column("Value1", KLong), Column("Key1", KString), Column("Value2", KLong)]
    ensures JoinSchema(kind, X.schema, Y3.schema)
         == [Column("Key", KString), Column("Value1", KLong), Column("Key1", KString), Column("Value2", KLong), Column("Value3", KString)]
  {
    assert Names(X.schema) + Names(Y3.schema) == ["Key", "Value1", "Key", "Value2", "Value3"];
    assert Names(X.schema) + Names(Y.schema) == ["Key", "Value1", "Key", "Value2"];
    UniquifyFirstClash("Key", "Value1", "Value2", "Value3");
    assert "Key" + "1" == "Key1";
    assert ["Key", "Value1", "Key1", "Value2"][2..] == ["Key1", "Value2"];
    assert ["Key", "Value1", "Key1", "Value2", "Value3"][2..] == ["Key1", "Value2", "Value3"];
    assert RightNames(X.schema, Y.schema) == ["Key1", "Value2"];
    assert RightNames(X.schema, Y3.schema) == ["Key1", "Value2", "Value3"];
  }

  // ---------------------------------------------------------------------
  // The scenarios on X and Y

  const XYColumns := [Column("Key", KString), Column("Value1", KLong), Column("Key1", KString), Column("Value2", KLong)]

  /** An unqualified `join` is `innerunique`: X's second `b` row is
      dropped before pairing. */
  lemma DefaultJoinScenario()
    ensures ParseKind(None) == Some(InnerUnique)
    ensures JoinTables(InnerUnique, X, Y, OnFirst)
         == Table(XYColumns, [[Str("b"), Long(2), Str("b"), Long(10)],
                              [Str("c"), Long(4), Str("c"), Long(20)],
                              [Str("c"), Long(4), Str("c"), Long(30)]])
  {
    XYSchema(InnerUnique);
    InnerUniqueXYRows();
  }

  lemma InnerUniqueXYRows()
    ensures JoinRows(InnerUnique, X, Y, OnFirst)
         == [[Str("b"), Long(2), Str("b"), Long(10)],
             [Str("c"), Long(4), Str("c"), Long(20)],
             [Str("c"), Long(4), Str("c"), Long(30)]]
  {
    XYMatch();
    InnerUniqueLikeXY(X.rows, Y.rows, OnFirst);
    XYConcat();
  }

  /** The pairs of X and Y rows the scenarios emit. */
  lemma XYConcat()
    ensures X.rows[1] + Y.rows[0] == [Str("b"), Long(2), Str("b"), Long(10)]
    ensures X.rows[2] + Y.rows[0] == [Str("b"), Long(3), Str("b"), Long(10)]
    ensures X.rows[3] + Y.rows[1] == [Str("c"), Long(4), Str("c"), Long(20)]
    ensures X.rows[3] + Y.rows[2] == [Str("c"), Long(4), Str("c"), Long(30)]
    ensures X.rows[1] + Y3.rows[0] == [Str("b"), Long(2), Str("b"), Long(10), Str("aa")]
    ensures X.rows[2] + Y3.rows[0] == [Str("b"), Long(3), Str("b"), Long(10), Str("aa")]
    ensures X.rows[3] + Y3.rows[1] == [Str("c"), Long(4), Str("c"), Long(20), Str("bb")]
    ensures X.rows[3] + Y3.rows[2] == [Str("c"), Long(4), Str("c"), Long(30), Str("cc")]
  {
  }

  /** `kind=inner`: every matching pair. */
  lemma InnerJoinScenario()
    ensures JoinTables(Inner, X, Y, OnFirst)
         == Table(XYColumns, [[Str("b"), Long(2), Str("b"), Long(10)],
                              [Str("b"), Long(3), Str("b"), Long(10)],
                              [Str("c"), Long(4), Str("c"), Long(20)],
                              [Str("c"), Long(4), Str("c"), Long(30)]])
  {
    XYSchema(Inner);
    InnerXYRows();
  }

  lemma InnerXYRows()
    ensures JoinRows(Inner, X, Y, OnFirst)
         == [[Str("b"), Long(2), Str("b"), Long(10)],
             [Str("b"), Long(3), Str("b"), Long(10)],
             [Str("c"), Long(4), Str("c"), Long(20)],
             [Str("c"), Long(4), Str("c"), Long(30)]]
  {
    XYMatch();
    InnerLikeXY(X.rows, Y.rows, OnFirst);
    XYConcat();
  }

  /** `kind=leftouter`: `a` has no match and is padded with an empty
      string, a null and an empty string. */
  lemma LeftOuterJoinScenario()
    ensures JoinTables(LeftOuter, X, Y3, OnFirst).rows
         == [[Str("a"), Long(1), Str(""), None, Str("")],
             [Str("b"), Long(2), Str("b"), Long(10), Str("aa")],
             [Str("b"), Long(3), Str("b"), Long(10), Str("aa")],
             [Str("c"), Long(4), Str("c"), Long(20), Str("bb")],
             [Str("c"), Long(4), Str("c"), Long(30), Str("cc")]]
  {
    XYMatch();
    LeftOuterLikeXY(X.rows, Y3.rows, OnFirst, Y3.schema);
    assert FillRow(Y3.schema) == [Str(""), None, Str("")];
    assert X.rows[0] + [Str(""), None, Str("")] == [Str("a"), Long(1), Str(""), None, Str("")];
    XYConcat();
  }

  /** `kind=rightouter`: `d` has no match and is padded on the left. */
  lemma RightOuterJoinScenario()
    ensures JoinTables(RightOuter, X, Y3, OnFirst).rows
         == [[Str("b"), Long(2), Str("b"), Long(10), Str("aa")],
             [Str("b"), Long(3), Str("b"), Long(10), Str("aa")],
             [Str("c"), Long(4), Str("c"), Long(20), Str("bb")],
             [Str("c"), Long(4), Str("c"), Long(30), Str("cc")],
             [Str(""), None, Str("d"), Long(40), Str("dd")]]
  {
    assert JoinTables(RightOuter, X, Y3, OnFirst).rows
        == PairRows(X.rows, Y3.rows, OnFirst) + PadLeft(X.schema, RightAntiRows(X.rows, Y3.rows, OnFirst));
    PairsXY3();
    PaddedRightXY3();
  }

  lemma PairsXY3()
    ensures PairRows(X.rows, Y3.rows, OnFirst)
         == [[Str("b"), Long(2), Str("b"), Long(10), Str("aa")],
             [Str("b"), Long(3), Str("b"), Long(10), Str("aa")],
             [Str("c"), Long(4), Str("c"), Long(20), Str("bb")],
             [Str("c"), Long(4), Str("c"), Long(30), Str("cc")]]
  {
    XYMatch();
    InnerLikeXY(X.rows, Y3.rows, OnFirst);
    XYConcat();
  }

  lemma PaddedRightXY3()
    ensures PadLeft(X.schema, RightAntiRows(X.rows, Y3.rows, OnFirst)) == [[Str(""), None, Str("d"), Long(40), Str("dd")]]
  {
    XYMatch();
    RightSemiAntiLikeXY(X.rows, Y3.rows, OnFirst);
    assert FillRow(X.schema) == [Str(""), None];
    assert PadLeft(X.schema, [Y3.rows[3]])[0] == [Str(""), None] + Y3.rows[3];
    assert [Str(""), None] + Y3.rows[3] == [Str(""), None, Str("d"), Long(40), Str("dd")];
  }

  /** `kind=fullouter`: both unmatched rows, each padded. */
  lemma FullOuterJoinScenario()
    ensures JoinTables(FullOuter, X, Y, OnFirst).rows
         == [[Str("a"), Long(1), Str(""), None],
             [Str("b"), Long(2), Str("b"), Long(10)],
             [Str("b"), Long(3), Str("b"), Long(10)],
             [Str("c"), Long(4), Str("c"), Long(20)],
             [Str("c"), Long(4), Str("c"), Long(30)],
             [Str(""), None, Str("d"), Long(40)]]
  {
    assert JoinTables(FullOuter, X, Y, OnFirst).rows
        == LeftOuterRows(X.rows, Y.rows, OnFirst, Y.schema) + PadLeft(X.schema, RightAntiRows(X.rows, Y.rows, OnFirst));
    LeftOuterXY();
    PaddedRightXY();
  }

  lemma LeftOuterXY()
    ensures LeftOuterRows(X.rows, Y.rows, OnFirst, Y.schema)
         == [[Str("a"), Long(1), Str(""), None],
             [Str("b"), Long(2), Str("b"), Long(10)],
             [Str("b"), Long(3), Str("b"), Long(10)],
             [Str("c"), Long(4), Str("c"), Long(20)],
             [Str("c"), Long(4), Str("c"), Long(30)]]
  {
    XYMatch();
    LeftOuterLikeXY(X.rows, Y.rows, OnFirst, Y.schema);
    assert FillRow(Y.schema) == [Str(""), None];
    assert X.rows[0] + [Str(""), None] == [Str("a"), Long(1), Str(""), None];
    XYConcat();
  }

  lemma PaddedRightXY()
    ensures PadLeft(X.schema, RightAntiRows(X.rows, Y.rows, OnFirst)) == [[Str(""), None, Str("d"), Long(40)]]
  {
    XYMatch();
    RightSemiAntiLikeXY(X.rows, Y.rows, OnFirst);
    assert FillRow(X.schema) == [Str(""), None];
    assert PadLeft(X.schema, [Y.rows[3]])[0] == [Str(""), None] + Y.rows[3];
    assert [Str(""), None] + Y.rows[3] == [Str(""), None, Str("d"), Long(40)];
  }

  /** The semi and anti joins keep one side's rows and columns; `anti`
      and `leftantisemi` are `leftanti`. */
  lemma SemiAntiJoinScenario()
    ensures JoinTables(LeftSemi, X, Y, OnFirst) == Table(X.schema, [X.rows[1], X.rows[2], X.rows[3]])
    ensures JoinTables(RightSemi, X, Y, OnFirst) == Table(Y.schema, [Y.rows[0], Y.rows[1], Y.rows[2]])
    ensures JoinTables(RightAnti, X, Y, OnFirst) == Table(Y.schema, [[Str("d"), Long(40)]])
    ensures ParseKind(Some("anti")) == ParseKind(Some("leftantisemi")) == Some(LeftAnti)
    ensures JoinTables(LeftAnti, X, Y, OnFirst) == Table(X.schema, [[Str("a"), Long(1)]])
  {
    LeftSemiAntiXY();
    RightSemiAntiXY();
    ParseKindNames(LeftAnti);
  }

  lemma LeftSemiAntiXY()
    ensures LeftSemiRows(X.rows, Y.rows, OnFirst) == [X.rows[1], X.rows[2], X.rows[3]]
    ensures LeftAntiRows(X.rows, Y.rows, OnFirst) == [[Str("a"), Long(1)]]
  {
    XYMatch();
    LeftSemiAntiLikeXY(X.rows, Y.rows, OnFirst);
  }

  lemma RightSemiAntiXY()
    ensures RightSemiRows(X.rows, Y.rows, OnFirst) == [Y.rows[0], Y.rows[1], Y.rows[2]]
    ensures RightAntiRows(X.rows, Y.rows, OnFirst) == [[Str("d"), Long(40)]]
  {
    XYMatch();
    RightSemiAntiLikeXY(X.rows, Y.rows, OnFirst);
  }

  // ---------------------------------------------------------------------
  // The scenarios on small tables

  function Int(x: int): Cell {
    Some(VInt(x))
  }

  /** On one pair of columns, rows match when those two cells are equal. */
  lemma MatchesOn(l: Row, r: Row, a: nat, b: nat)
    requires a < |l| && b < |r|
    ensures Matches(l, r, [KeyPair(a, b)]) <==> l[a] == r[b]
  {
    assert LeftKey(l, [KeyPair(a, b)]) == [l[a]];
    assert RightKey(r, [KeyPair(a, b)]) == [r[b]];
  }

  /** Two left rows with one key, each matching both right rows: only the
      first left row is kept, and it pairs with both. */
  lemma InnerUniqueSameKey(l0: Row, l1: Row, r0: Row, r1: Row, on: seq<KeyPair>)
    requires LeftKey(l0, on) == LeftKey(l1, on)
    requires Matches(l0, r0, on) && Matches(l0, r1, on)
    ensures PairRows(FirstPerKey([l0, l1], on), [r0, r1], on) == [l0 + r0, l0 + r1]
  {
    assert [l0, l1][..1] == [l0] && [l0][..0] == [];
    assert [l0, l1][0] == l0 && [l0, l1][1] == l1;
    assert !FirstOfKey([l0, l1], 1, on);
    assert FirstPerKey([l0, l1], on) == [l0];
    assert [r0, r1][..1] == [r0] && [r0][..0] == [];
    assert Pairs(l0, [r0], on) == [l0 + r0];
  }

  lemma PairsOfThree(l: Row, r0: Row, r1: Row, r2: Row, on: seq<KeyPair>)
    ensures Pairs(l, [r0, r1, r2], on) == Pick(l, r0, on) + Pick(l, r1, on) + Pick(l, r2, on)
  {
    assert [r0, r1, r2][..2] == [r0, r1] && [r0, r1][..1] == [r0] && [r0][..0] == [];
    assert Pairs(l, [r0], on) == Pick(l, r0, on);
  }

  lemma PairRowsOfThree(l0: Row, l1: Row, l2: Row, rights: seq<Row>, on: seq<KeyPair>)
    ensures PairRows([l0, l1, l2], rights, on) == Pairs(l0, rights, on) + Pairs(l1, rights, on) + Pairs(l2, rights, on)
  {
    assert [l0, l1, l2][..2] == [l0, l1] && [l0, l1][..1] == [l0] && [l0][..0] == [];
    assert PairRows([l0], rights, on) == Pairs(l0, rights, on);
    assert PairRows([l0, l1], rights, on) == Pairs(l0, rights, on) + Pairs(l1, rights, on);
  }

  /** Three left and three right rows where row `i` matches row `i` for
      the first two and nothing else matches. */
  lemma DiagonalPairs(l0: Row, l1: Row, l2: Row, r0: Row, r1: Row, r2: Row, on: seq<KeyPair>)
    requires Matches(l0, r0, on) && !Matches(l0, r1, on) && !Matches(l0, r2, on)
    requires !Matches(l1, r0, on) && Matches(l1, r1, on) && !Matches(l1, r2, on)
    requires !Matches(l2, r0, on) && !Matches(l2, r1, on) && !Matches(l2, r2, on)
    ensures PairRows([l0, l1, l2], [r0, r1, r2], on) == [l0 + r0, l1 + r1]
  {
    var rs := [r0, r1, r2];
    PairsOfThree(l0, r0, r1, r2, on);
    assert Pairs(l0, rs, on) == [l0 + r0];
    PairsOfThree(l1, r0, r1, r2, on);
    assert Pairs(l1, rs, on) == [l1 + r1];
    PairsOfThree(l2, r0, r1, r2, on);
    assert Pairs(l2, rs, on) == [];
    PairRowsOfThree(l0, l1, l2, rs, on);
  }

  /** Two left rows of which only the second matches the one right row. */
  lemma SecondOfTwoPairs(l0: Row, l1: Row, r: Row, on: seq<KeyPair>)
    requires !Matches(l0, r, on) && Matches(l1, r, on)
    ensures PairRows([l0, l1], [r], on) == [l1 + r]
  {
    assert [r][..0] == [] && [r][0] == r;
    assert Pairs(l0, [r], on) == Pairs(l0, [], on) + [];
    assert Pairs(l1, [r], on) == Pairs(l1, [], on) + [l1 + r];
    assert [l0, l1][..1] == [l0] && [l0][..0] == [] && [l0, l1][1] == l1 && [l0][0] == l0;
    assert PairRows([l0], [r], on) == PairRows([], [r], on) + Pairs(l0, [r], on);
    assert PairRows([l0, l1], [r], on) == PairRows([l0], [r], on) + Pairs(l1, [r], on);
  }

  /** Two left and two right rows where only the first pair matches. */
  lemma FirstOfTwoOuter(l0: Row, l1: Row, r0: Row, r1: Row, on: seq<KeyPair>, rightSchema: Schema)
    requires Matches(l0, r0, on) && !Matches(l0, r1, on)
    requires !Matches(l1, r0, on) && !Matches(l1, r1, on)
    ensures LeftOuterRows([l0, l1], [r0, r1], on, rightSchema) == [l0 + r0, l1 + FillRow(rightSchema)]
  {
    var rs := [r0, r1];
    assert rs[0] == r0 && rs[1] == r1;
    assert [l0, l1][..1] == [l0] && [l0][..0] == [] && [l0, l1][1] == l1 && [l0][0] == l0;
    assert rs[..1] == [r0] && [r0][..0] == [];
    assert HasMatch(l0, rs, on);
    assert !HasMatch(l1, rs, on);
    assert Pairs(l0, [r0], on) == [l0 + r0];
    assert Pairs(l0, rs, on) == [l0 + r0];
    assert LeftOuterRows([l0], rs, on, rightSchema) == [l0 + r0];
  }

  /** A right name list repeating both left names: both are numbered. */
  lemma KeyValueNames(k: string, v: string)
    requires k != v && k + "1" != v && v + "1" != k && v + "1" != k + "1"
    ensures Uniquify([k, v, k, v]) == [k, v, k + "1", v + "1"]
  {
    UniquifyTwo(k, v);
    UniquifyRepeat(k, v);
    assert v + NatToString(1) == v + "1";
    UniquifyAppendTaken([k, v, k], v);
    assert [k, v, k] + [v] == [k, v, k, v];
  }

  const T1Row0: Row := [Long(1), Str("val1.1")]
  const T1Row1: Row := [Long(1), Str("val1.2")]
  const T2Row0: Row := [Long(1), Str("val1.3")]
  const T2Row1: Row := [Long(1), Str("val1.4")]

  const T1 := Table([Column("key", KLong), Column("value", KString)], [T1Row0, T1Row1])

  const T2 := Table([Column("key", KLong), Column("value", KString)], [T2Row0, T2Row1])

  lemma T1T2Schema()
    ensures JoinSchema(InnerUnique, T1.schema, T2.schema)
         == [Column("key", KLong), Column("value", KString), Column("key1", KLong), Column("value1", KString)]
  {
    assert Names(T1.schema) + Names(T2.schema) == ["key", "value", "key", "value"];
    KeyValueNames("key", "value");
    assert "key" + "1" == "key1" && "value" + "1" == "value1";
    assert ["key", "value", "key1", "value1"][2..] == ["key1", "value1"];
    assert RightNames(T1.schema, T2.schema) == ["key1", "value1"];
  }

  /** `innerunique` with one key on both sides: the first left row pairs
      with every right row, the second left row is dropped. */
  lemma InnerUniqueDuplicateKeysScenario()
    ensures JoinTables(InnerUnique, T1, T2, OnFirst)
         == Table([Column("key", KLong), Column("value", KString), Column("key1", KLong), Column("value1", KString)],
                  [[Long(1), Str("val1.1"), Long(1), Str("val1.3")],
                   [Long(1), Str("val1.1"), Long(1), Str("val1.4")]])
  {
    T1T2Schema();
    T1T2Rows();
  }

  lemma T1T2Rows()
    ensures PairRows(FirstPerKey(T1.rows, OnFirst), T2.rows, OnFirst)
         == [[Long(1), Str("val1.1"), Long(1), Str("val1.3")],
             [Long(1), Str("val1.1"), Long(1), Str("val1.4")]]
  {
    SameFirstCell(T1Row0, T1Row1, T2Row0, T2Row1);
    assert T1Row0 + T2Row0 == [Long(1), Str("val1.1"), Long(1), Str("val1.3")];
    assert T1Row0 + T2Row1 == [Long(1), Str("val1.1"), Long(1), Str("val1.4")];
  }

  /** Rows that all share their first cell, joined `innerunique` on it. */
  lemma SameFirstCell(l0: Row, l1: Row, r0: Row, r1: Row)
    requires |l0| >= 1 && |l1| >= 1 && |r0| >= 1 && |r1| >= 1
    requires l0[0] == l1[0] == r0[0] == r1[0]
    ensures PairRows(FirstPerKey([l0, l1], OnFirst), [r0, r1], OnFirst) == [l0 + r0, l0 + r1]
  {
    MatchesOnFirst(l0, r0);
    MatchesOnFirst(l0, r1);
    MatchesOnFirst(l1, r0);
    InnerUniqueSameKey(l0, l1, r0, r1, OnFirst);
  }

  const A := Table([Column("a", KString), Column("b", KString)],
                   [[Str("abc"), Str("aLeft")], [Str("def"), Str("dLeft")], [Str("ghi"), Str("gLeft")]])

  const B := Table([Column("a", KString), Column("c", KString)],
                   [[Str("abc"), Str("aRight")], [Str("def"), Str("dRight")], [Str("jkl"), Str("jRight")]])

  lemma ABSchema()
    ensures JoinSchema(Inner, A.schema, B.schema)
         == [Column("a", KString), Column("b", KString), Column("a1", KString), Column("c", KString)]
  {
    assert Names(A.schema) + Names(B.schema) == ["a", "b", "a", "c"];
    UniquifyTwo("a", "b");
    UniquifyRepeat("a", "b");
    assert "a" + "1" == "a1";
    UniquifyAppendFree(["a", "b", "a"], "c");
    assert ["a", "b", "a"] + ["c"] == ["a", "b", "a", "c"];
    assert ["a", "b", "a1", "c"][2..] == ["a1", "c"];
    assert RightNames(A.schema, B.schema) == ["a1", "c"];
  }

  lemma ABRows()
    ensures PairRows(A.rows, B.rows, OnFirst)
         == [[Str("abc"), Str("aLeft"), Str("abc"), Str("aRight")],
             [Str("def"), Str("dLeft"), Str("def"), Str("dRight")]]
  {
    forall i, j | 0 <= i < 3 && 0 <= j < 3
      ensures Matches(A.rows[i], B.rows[j], OnFirst) <==> i == j && i < 2
    {
      MatchesOnFirst(A.rows[i], B.rows[j]);
    }
    DiagonalPairs(A.rows[0], A.rows[1], A.rows[2], B.rows[0], B.rows[1], B.rows[2], OnFirst);
    assert A.rows == [A.rows[0], A.rows[1], A.rows[2]];
    assert B.rows == [B.rows[0], B.rows[1], B.rows[2]];
    assert A.rows[0] + B.rows[0] == [Str("abc"), Str("aLeft"), Str("abc"), Str("aRight")];
    assert A.rows[1] + B.rows[1] == [Str("def"), Str("dLeft"), Str("def"), Str("dRight")];
  }

  /** `on $left.a == $right.a` is `on a`: abc and def pair up, ghi and jkl
      have no partner, and the right `a` is renamed `a1`. */
  lemma LeftRightScopesScenario()
    ensures JoinTables(Inner, A, B, OnFirst)
         == Table([Column("a", KString), Column("b", KString), Column("a1", KString), Column("c", KString)],
                  [[Str("abc"), Str("aLeft"), Str("abc"), Str("aRight")],
                   [Str("def"), Str("dLeft"), Str("def"), Str("dRight")]])
  {
    ABSchema();
    ABRows();
  }

  /** `$left.b == $right.b`, and `on b`: the left's second column against
      the right's first. */
  const OnB := [KeyPair(1, 0)]

  /** The rows of the two scenarios with tables of two and one columns:
      only the second left row's key matches. */
  lemma SecondRowPairs(left: Table, right: Table)
    requires |left.rows| == 2 && |right.rows| == 1
    requires |left.rows[0]| == 2 && |left.rows[1]| == 2 && |right.rows[0]| >= 1
    requires left.rows[0][1] != right.rows[0][0] && left.rows[1][1] == right.rows[0][0]
    ensures PairRows(left.rows, right.rows, OnB) == [left.rows[1] + right.rows[0]]
  {
    MatchesOn(left.rows[0], right.rows[0], 1, 0);
    MatchesOn(left.rows[1], right.rows[0], 1, 0);
    SecondOfTwoPairs(left.rows[0], left.rows[1], right.rows[0], OnB);
    assert left.rows == [left.rows[0], left.rows[1]];
    assert right.rows == [right.rows[0]];
  }

  const XAB := Table([Column("a", KString), Column("b", KString)], [[Str("a1"), Str("b1")], [Str("a2"), Str("b2")]])

  const YB := Table([Column("b", KString)], [[Str("b2")]])

  lemma XABSchema()
    ensures JoinSchema(Inner, XAB.schema, YB.schema) == [Column("a", KString), Column("b", KString), Column("b1", KString)]
  {
    assert Names(XAB.schema) + Names(YB.schema) == ["a", "b", "b"];
    UniquifyTwo("a", "b");
    assert "b" + NatToString(1) == "b1";
    UniquifyAppendTaken(["a", "b"], "b");
    assert ["a", "b"] + ["b"] == ["a", "b", "b"];
    assert ["a", "b", "b1"][2..] == ["b1"];
    assert RightNames(XAB.schema, YB.schema) == ["b1"];
  }

  /** Joining (a, b) with (b) on b: the right `b` is renamed `b1`. This is
      the table of both the `$left.b == $right.b` scenario and the `on b`
      scenario with different column counts. */
  lemma DifferentNumColumnsScenario()
    ensures JoinTables(Inner, XAB, YB, OnB)
         == Table([Column("a", KString), Column("b", KString), Column("b1", KString)], [[Str("a2"), Str("b2"), Str("b2")]])
  {
    XABSchema();
    SecondRowPairs(XAB, YB);
    assert XAB.rows[1] + YB.rows[0] == [Str("a2"), Str("b2"), Str("b2")];
  }

  const XKey := Table([Column("a", KString), Column("leftKey", KString)], [[Str("a1"), Str("key1")], [Str("a2"), Str("key2")]])

  const YKey := Table([Column("rightKey", KString)], [[Str("key2")]])

  lemma XKeySchema()
    ensures JoinSchema(Inner, XKey.schema, YKey.schema)
         == [Column("a", KString), Column("leftKey", KString), Column("rightKey", KString)]
  {
    assert Names(XKey.schema) + Names(YKey.schema) == ["a", "leftKey", "rightKey"];
    UniquifyTwo("a", "leftKey");
    UniquifyAppendFree(["a", "leftKey"], "rightKey");
    assert ["a", "leftKey"] + ["rightKey"] == ["a", "leftKey", "rightKey"];
    assert ["a", "leftKey", "rightKey"][2..] == ["rightKey"];
    assert RightNames(XKey.schema, YKey.schema) == ["rightKey"];
  }

  /** Joining (a, leftKey) with (rightKey): the key names differ, so no
      column is renamed. */
  lemma DistinctKeyNamesScenario()
    ensures JoinTables(Inner, XKey, YKey, OnB)
         == Table([Column("a", KString), Column("leftKey", KString), Column("rightKey", KString)], [[Str("a2"), Str("key2"), Str("key2")]])
  {
    XKeySchema();
    SecondRowPairs(XKey, YKey);
    assert XKey.rows[1] + YKey.rows[0] == [Str("a2"), Str("key2"), Str("key2")];
  }

  const Keys := Table([Column("Key", KInt)], [[Int(1)], [Int(2)]])

  const KeysWithA := Table([Column("Key", KInt), Column("a", KString)], [[Int(1), Str("b")], [Int(3), Str("c")]])

  lemma KeysRows()
    ensures JoinRows(LeftOuter, Keys, KeysWithA, OnFirst)
         == [[Int(1), Int(1), Str("b")], [Int(2), None, Str("")]]
  {
    MatchesOnFirst(Keys.rows[0], KeysWithA.rows[0]);
    MatchesOnFirst(Keys.rows[0], KeysWithA.rows[1]);
    MatchesOnFirst(Keys.rows[1], KeysWithA.rows[0]);
    MatchesOnFirst(Keys.rows[1], KeysWithA.rows[1]);
    FirstOfTwoOuter(Keys.rows[0], Keys.rows[1], KeysWithA.rows[0], KeysWithA.rows[1], OnFirst, KeysWithA.schema);
    assert FillRow(KeysWithA.schema) == [None, Str("")];
    assert Keys.rows[1] + [None, Str("")] == [Int(2), None, Str("")];
    assert Keys.rows[0] + KeysWithA.rows[0] == [Int(1), Int(1), Str("b")];
    assert Keys.rows == [Keys.rows[0], Keys.rows[1]];
    assert KeysWithA.rows == [KeysWithA.rows[0], KeysWithA.rows[1]];
  }

  /** A `leftouter` join pads the unmatched row's string column with the
      empty string, not null: `isnull` is false, `isempty` true and
      `strlen` 0, while the matched row's `b` is neither. The column
      `Key1` that the scenario then projects away is cell 1. */
  lemma StringColumnsAreEmptyScenario()
    ensures var rows := JoinTables(LeftOuter, Keys, KeysWithA, OnFirst).rows;
            && |rows| == 2
            && rows[0][2] == Str("b") && !IsNull(rows[0][2]) && !IsEmpty(rows[0][2]) && StrLen("b") == 1
            && rows[1][0] == Int(2) && rows[1][2] == Str("")
            && !IsNull(rows[1][2]) && IsEmpty(rows[1][2]) && StrLen("") == 0
  {
    KeysRows();
  }
}
