/** `join`: rows of a left and a right table combined on equal key columns.
    The kind picks which rows survive and which columns are output:
    - `inner` emits every matching (left, right) pair;
    - `innerunique`, also the kind of an unqualified `join`, first keeps only
      the first left row of each key;
    - `leftouter`, `rightouter` and `fullouter` also emit the unmatched rows
      of one or both sides, padded on the other side with empty strings in
      string columns and nulls elsewhere;
    - `leftsemi`/`leftanti` (alias `anti`, `leftantisemi`) keep the left rows
      with/without a match, `rightsemi`/`rightanti` (alias `rightantisemi`)
      the right rows, with that side's columns only.
    Pair-emitting kinds output the left columns followed by the right ones;
    a right name that clashes with an earlier name gets the smallest free
    numeric suffix. */
module Join {
  import opened Wrappers
  import opened Values
  import opened Sequences
  import opened Naming

  datatype JoinKind =
    | InnerUnique | Inner | LeftOuter | RightOuter | FullOuter
    | LeftSemi | RightSemi | LeftAnti | RightAnti

  /** The kind a `kind=` clause names; no clause means innerunique, and an
      unknown name is rejected. */
  function ParseKind(name: Option<string>): (r: Option<JoinKind>)
    ensures name.None? ==> r == Some(InnerUnique)
  {
    match name
    case None => Some(InnerUnique)
    case Some(s) =>
      if s == "innerunique" then Some(InnerUnique)
      else if s == "inner" then Some(Inner)
      else if s == "leftouter" then Some(LeftOuter)
      else if s == "rightouter" then Some(RightOuter)
      else if s == "fullouter" then Some(FullOuter)
      else if s == "leftsemi" then Some(LeftSemi)
      else if s == "rightsemi" then Some(RightSemi)
      else if s == "leftanti" || s == "anti" || s == "leftantisemi" then Some(LeftAnti)
      else if s == "rightanti" || s == "rightantisemi" then Some(RightAnti)
      else None
  }

  /** The canonical spelling of each kind. */
  function JoinKindName(k: JoinKind): string {
    match k
    case InnerUnique => "innerunique"
    case Inner => "inner"
    case LeftOuter => "leftouter"
    case RightOuter => "rightouter"
    case FullOuter => "fullouter"
    case LeftSemi => "leftsemi"
    case RightSemi => "rightsemi"
    case LeftAnti => "leftanti"
    case RightAnti => "rightanti"
  }

  /** Every kind is selected by its canonical name, and the anti aliases
      select the same kinds as their canonical names. */
  lemma ParseKindNames(k: JoinKind)
    ensures ParseKind(Some(JoinKindName(k))) == Some(k)
    ensures ParseKind(Some("anti")) == ParseKind(Some("leftantisemi")) == Some(LeftAnti)
    ensures ParseKind(Some("rightantisemi")) == Some(RightAnti)
  {
  }

  // ---------------------------------------------------------------------
  // Keys

  /** One equality of the `on` clause, `$left.l == $right.r`, by column
      position; `on Key` is the pair of the two `Key` columns. */
  datatype KeyPair = KeyPair(left: nat, right: nat)

  function LeftKey(row: Row, on: seq<KeyPair>): (k: Row)
    ensures |k| == |on|
  {
    seq(|on|, i requires 0 <= i < |on| => CellAt(row, on[i].left))
  }

  function RightKey(row: Row, on: seq<KeyPair>): (k: Row)
    ensures |k| == |on|
  {
    seq(|on|, i requires 0 <= i < |on| => CellAt(row, on[i].right))
  }

  /** A left and a right row match when their key tuples are equal. */
  predicate Matches(l: Row, r: Row, on: seq<KeyPair>) {
    LeftKey(l, on) == RightKey(r, on)
  }

  /** Matching is every equality of the `on` clause holding. */
  lemma MatchesPointwise(l: Row, r: Row, on: seq<KeyPair>)
    ensures Matches(l, r, on) <==> forall i :: 0 <= i < |on| ==> CellAt(l, on[i].left) == CellAt(r, on[i].right)
  {
    if forall i :: 0 <= i < |on| ==> CellAt(l, on[i].left) == CellAt(r, on[i].right) {
      assert forall i :: 0 <= i < |on| ==> LeftKey(l, on)[i] == RightKey(r, on)[i];
    }
    if Matches(l, r, on) {
      assert forall i :: 0 <= i < |on| ==> LeftKey(l, on)[i] == CellAt(l, on[i].left);
      assert forall i :: 0 <= i < |on| ==> RightKey(r, on)[i] == CellAt(r, on[i].right);
    }
  }

  predicate HasMatch(l: Row, rights: seq<Row>, on: seq<KeyPair>) {
    exists j :: 0 <= j < |rights| && Matches(l, rights[j], on)
  }

  predicate HasMatchLeft(r: Row, lefts: seq<Row>, on: seq<KeyPair>) {
    exists i :: 0 <= i < |lefts| && Matches(lefts[i], r, on)
  }

  // ---------------------------------------------------------------------
  // Row sets of each kind

  /** Left row `l` followed by each matching right row, in right order. */
  function Pairs(l: Row, rights: seq<Row>, on: seq<KeyPair>): (r: seq<Row>)
    ensures |r| <= |rights|
  {
    if |rights| == 0 then []
    else
      var n := |rights| - 1;
      Pairs(l, rights[..n], on) + (if Matches(l, rights[n], on) then [l + rights[n]] else [])
  }

  /** `inner`: the pairs of each left row, left row after left row. */
  function PairRows(lefts: seq<Row>, rights: seq<Row>, on: seq<KeyPair>): seq<Row> {
    if |lefts| == 0 then []
    else
      var n := |lefts| - 1;
      PairRows(lefts[..n], rights, on) + Pairs(lefts[n], rights, on)
  }

  /** No row before row `i` has its key. */
  predicate FirstOfKey(lefts: seq<Row>, i: int, on: seq<KeyPair>)
    requires 0 <= i < |lefts|
  {
    forall h :: 0 <= h < i ==> LeftKey(lefts[h], on) != LeftKey(lefts[i], on)
  }

  /** The first row of each left key, in order. */
  function FirstPerKey(lefts: seq<Row>, on: seq<KeyPair>): (r: seq<Row>)
    ensures |r| <= |lefts|
  {
    if |lefts| == 0 then []
    else
      var n := |lefts| - 1;
      var front := FirstPerKey(lefts[..n], on);
      if FirstOfKey(lefts, n, on) then front + [lefts[n]] else front
  }

  /** The cell an outer join puts where the other side has no row: the empty
      string in a string column and null elsewhere. */
  function Fill(k: Kind): (c: Cell)
    ensures CellOfKind(c, k)
    ensures c.Some? <==> k == KString
  {
    if k == KString then Some(VString("")) else None
  }

  function FillRow(schema: Schema): (r: Row)
    ensures |r| == |schema|
    ensures forall j :: 0 <= j < |schema| ==> r[j] == Fill(schema[j].kind)
  {
    seq(|schema|, j requires 0 <= j < |schema| => Fill(schema[j].kind))
  }

  /** `leftouter`: each left row's pairs, or the row padded when it has none. */
  function LeftOuterRows(lefts: seq<Row>, rights: seq<Row>, on: seq<KeyPair>, rightSchema: Schema): seq<Row> {
    if |lefts| == 0 then []
    else
      var n := |lefts| - 1;
      var l := lefts[n];
      LeftOuterRows(lefts[..n], rights, on, rightSchema)
        + (if HasMatch(l, rights, on) then Pairs(l, rights, on) else [l + FillRow(rightSchema)])
  }

  /** The left rows with a match (`leftsemi`). */
  function LeftSemiRows(lefts: seq<Row>, rights: seq<Row>, on: seq<KeyPair>): seq<Row> {
    if |lefts| == 0 then []
    else
      var n := |lefts| - 1;
      LeftSemiRows(lefts[..n], rights, on) + (if HasMatch(lefts[n], rights, on) then [lefts[n]] else [])
  }

  /** The left rows without a match (`leftanti`). */
  function LeftAntiRows(lefts: seq<Row>, rights: seq<Row>, on: seq<KeyPair>): seq<Row> {
    if |lefts| == 0 then []
    else
      var n := |lefts| - 1;
      LeftAntiRows(lefts[..n], rights, on) + (if HasMatch(lefts[n], rights, on) then [] else [lefts[n]])
  }

  /** The right rows with a match (`rightsemi`). */
  function RightSemiRows(lefts: seq<Row>, rights: seq<Row>, on: seq<KeyPair>): seq<Row> {
    if |rights| == 0 then []
    else
      var n := |rights| - 1;
      RightSemiRows(lefts, rights[..n], on) + (if HasMatchLeft(rights[n], lefts, on) then [rights[n]] else [])
  }

  /** The right rows without a match (`rightanti`). */
  function RightAntiRows(lefts: seq<Row>, rights: seq<Row>, on: seq<KeyPair>): seq<Row> {
    if |rights| == 0 then []
    else
      var n := |rights| - 1;
      RightAntiRows(lefts, rights[..n], on) + (if HasMatchLeft(rights[n], lefts, on) then [] else [rights[n]])
  }

  /** Each row padded on the left. */
  function PadLeft(leftSchema: Schema, rows: seq<Row>): (r: seq<Row>)
    ensures |r| == |rows|
    ensures forall i :: 0 <= i < |rows| ==> r[i] == FillRow(leftSchema) + rows[i]
  {
    seq(|rows|, i requires 0 <= i < |rows| => FillRow(leftSchema) + rows[i])
  }

  // ---------------------------------------------------------------------
  // The operator

  /** The kinds that output left and right columns side by side. */
  predicate EmitsPairs(kind: JoinKind) {
    kind in {InnerUnique, Inner, LeftOuter, RightOuter, FullOuter}
  }

  /** The names of the right columns: each made distinct from the left
      names and from the right names before it. */
  function RightNames(left: Schema, right: Schema): (r: seq<string>)
    ensures |r| == |right|
  {
    Uniquify(Names(left) + Names(right))[|left|..]
  }

  function JoinSchema(kind: JoinKind, left: Schema, right: Schema): (s: Schema)
    ensures kind in {LeftSemi, LeftAnti} ==> s == left
    ensures kind in {RightSemi, RightAnti} ==> s == right
    ensures EmitsPairs(kind) ==> |s| == |left| + |right|
    ensures EmitsPairs(kind) ==> forall j :: 0 <= j < |s| ==> s[j].kind == (left + right)[j].kind
  {
    if kind in {LeftSemi, LeftAnti} then left
    else if kind in {RightSemi, RightAnti} then right
    else PairSchema(left, right)
  }

  /** The columns of a join that emits pairs: the left columns, then the
      right columns under their uniquified names. */
  function PairSchema(left: Schema, right: Schema): (s: Schema)
    ensures |s| == |left| + |right|
    ensures forall j :: 0 <= j < |left| ==> s[j] == left[j]
    ensures forall j :: 0 <= j < |right| ==> s[|left| + j] == Column(RightNames(left, right)[j], right[j].kind)
  {
    var names := RightNames(left, right);
    left + seq(|right|, j requires 0 <= j < |right| => Column(names[j], right[j].kind))
  }

  /** The rows of each kind: `inner` emits one row per matching (left,
      right) index pair; `leftouter` adds one padded row per unmatched left
      row. */
  function JoinRows(kind: JoinKind, left: Table, right: Table, on: seq<KeyPair>): (r: seq<Row>)
    ensures kind == Inner ==> |r| == |MatchingPairs(left.rows, right.rows, on)|
    ensures kind == LeftOuter ==>
              |r| == |MatchingPairs(left.rows, right.rows, on)| + |LeftAntiRows(left.rows, right.rows, on)|
  {
    match kind
    case Inner =>
      InnerCount(left.rows, right.rows, on);
      PairRows(left.rows, right.rows, on)
    case InnerUnique => PairRows(FirstPerKey(left.rows, on), right.rows, on)
    case LeftOuter =>
      InnerCount(left.rows, right.rows, on);
      LeftOuterCount(left.rows, right.rows, on, right.schema);
      LeftOuterRows(left.rows, right.rows, on, right.schema)
    case RightOuter =>
      PairRows(left.rows, right.rows, on) + PadLeft(left.schema, RightAntiRows(left.rows, right.rows, on))
    case FullOuter =>
      LeftOuterRows(left.rows, right.rows, on, right.schema) + PadLeft(left.schema, RightAntiRows(left.rows, right.rows, on))
    case LeftSemi => LeftSemiRows(left.rows, right.rows, on)
    case LeftAnti => LeftAntiRows(left.rows, right.rows, on)
    case RightSemi => RightSemiRows(left.rows, right.rows, on)
    case RightAnti => RightAntiRows(left.rows, right.rows, on)
  }

  /** `left | join kind=… right on …`. The order of the output rows is this
      model's choice: left-driven, unmatched right rows last. */
  function JoinTables(kind: JoinKind, left: Table, right: Table, on: seq<KeyPair>): (r: Table)
    ensures EmitsPairs(kind) ==> |r.schema| == |left.schema| + |right.schema|
    ensures EmitsPairs(kind) && DistinctNames(left.schema) ==>
              r.schema[..|left.schema|] == left.schema && DistinctNames(r.schema)
    ensures kind == Inner ==> |r.rows| == |MatchingPairs(left.rows, right.rows, on)|
  {
    var s := JoinSchema(kind, left.schema, right.schema);
    assert EmitsPairs(kind) && DistinctNames(left.schema) ==> s[..|left.schema|] == left.schema && DistinctNames(s) by {
      if EmitsPairs(kind) && DistinctNames(left.schema) {
        JoinSchemaKeepsLeft(kind, left.schema, right.schema);
        JoinSchemaDistinct(kind, left.schema, right.schema);
      }
    }
    Table(s, JoinRows(kind, left, right, on))
  }

  // ---------------------------------------------------------------------
  // Membership

  /** `x` is left row `i` followed by right row `j`, and the two match. */
  predicate IsPair(x: Row, lefts: seq<Row>, rights: seq<Row>, on: seq<KeyPair>, i: int, j: int) {
    0 <= i < |lefts| && 0 <= j < |rights| && Matches(lefts[i], rights[j], on) && x == lefts[i] + rights[j]
  }

  /** The pairs of `l` are exactly `l` followed by a matching right row. */
  lemma {:induction false} PairsMembers(l: Row, rights: seq<Row>, on: seq<KeyPair>, x: Row)
    ensures x in Pairs(l, rights, on) <==> exists j :: IsPair(x, [l], rights, on, 0, j)
  {
    if |rights| > 0 {
      var n := |rights| - 1;
      PairsMembers(l, rights[..n], on, x);
      if x in Pairs(l, rights[..n], on) {
        var j :| IsPair(x, [l], rights[..n], on, 0, j);
        assert IsPair(x, [l], rights, on, 0, j);
      }
      if x in Pairs(l, rights, on) && x !in Pairs(l, rights[..n], on) {
        assert IsPair(x, [l], rights, on, 0, n);
      }
      if exists j :: IsPair(x, [l], rights, on, 0, j) {
        var j :| IsPair(x, [l], rights, on, 0, j);
        if j < n {
          assert IsPair(x, [l], rights[..n], on, 0, j);
        }
      }
    }
  }

  /** A left row has pairs exactly when it has a match. */
  lemma PairsNonEmpty(l: Row, rights: seq<Row>, on: seq<KeyPair>)
    ensures |Pairs(l, rights, on)| > 0 <==> HasMatch(l, rights, on)
  {
    if HasMatch(l, rights, on) {
      var j :| 0 <= j < |rights| && Matches(l, rights[j], on);
      PairsMembers(l, rights, on, l + rights[j]);
      assert IsPair(l + rights[j], [l], rights, on, 0, j);
    } else if |Pairs(l, rights, on)| > 0 {
      PairsMembers(l, rights, on, Pairs(l, rights, on)[0]);
    }
  }

  /** `inner` emits exactly the concatenations of matching left and right
      rows. */
  lemma {:induction false} InnerMembers(lefts: seq<Row>, rights: seq<Row>, on: seq<KeyPair>, x: Row)
    ensures x in PairRows(lefts, rights, on) <==> exists i, j :: IsPair(x, lefts, rights, on, i, j)
  {
    if |lefts| > 0 {
      var n := |lefts| - 1;
      var front := lefts[..n];
      InnerMembers(front, rights, on, x);
      PairsMembers(lefts[n], rights, on, x);
      if x in PairRows(front, rights, on) {
        var i, j :| IsPair(x, front, rights, on, i, j);
        assert front[i] == lefts[i];
        assert IsPair(x, lefts, rights, on, i, j);
      }
      if x in Pairs(lefts[n], rights, on) {
        var j :| IsPair(x, [lefts[n]], rights, on, 0, j);
        assert IsPair(x, lefts, rights, on, n, j);
      }
      if exists i, j :: IsPair(x, lefts, rights, on, i, j) {
        var i, j :| IsPair(x, lefts, rights, on, i, j);
        if i < n {
          assert front[i] == lefts[i];
          assert IsPair(x, front, rights, on, i, j);
        } else {
          assert IsPair(x, [lefts[n]], rights, on, 0, j);
        }
      }
    }
  }

  /** The positions of the right rows that match `l`. */
  function MatchingRights(l: Row, rights: seq<Row>, on: seq<KeyPair>): set<nat> {
    set j: nat | j < |rights| && Matches(l, rights[j], on)
  }

  /** The index pairs of matching left and right rows. */
  function MatchingPairs(lefts: seq<Row>, rights: seq<Row>, on: seq<KeyPair>): set<(nat, nat)> {
    set i: nat, j: nat | i < |lefts| && j < |rights| && Matches(lefts[i], rights[j], on) :: (i, j)
  }

  /** A left row has one pair per matching right row: none is merged. */
  lemma {:induction false} PairsCount(l: Row, rights: seq<Row>, on: seq<KeyPair>)
    ensures |Pairs(l, rights, on)| == |MatchingRights(l, rights, on)|
  {
    if |rights| == 0 {
      assert MatchingRights(l, rights, on) == {};
    } else {
      var n := |rights| - 1;
      PairsCount(l, rights[..n], on);
      MatchingRightsSnoc(l, rights, on);
    }
  }

  /** One more right row adds its position when it matches. */
  lemma MatchingRightsSnoc(l: Row, rights: seq<Row>, on: seq<KeyPair>)
    requires |rights| > 0
    ensures var n := |rights| - 1;
            MatchingRights(l, rights, on)
            == MatchingRights(l, rights[..n], on) + (if Matches(l, rights[n], on) then {n} else {})
    ensures |rights| - 1 !in MatchingRights(l, rights[..|rights| - 1], on)
  {
    var n := |rights| - 1;
    var s := MatchingRights(l, rights[..n], on);
    var t := MatchingRights(l, rights, on);
    var u := s + (if Matches(l, rights[n], on) then {n} else {});
    forall j | j in t ensures j in u {
      if j < n {
        assert rights[..n][j] == rights[j];
      }
    }
    forall j | j in u ensures j in t {
      if j < n {
        assert rights[..n][j] == rights[j];
      }
    }
  }

  /** `inner` emits one row per matching pair of left and right rows: its
      count is the number of matching index pairs. */
  lemma {:induction false} InnerCount(lefts: seq<Row>, rights: seq<Row>, on: seq<KeyPair>)
    ensures |PairRows(lefts, rights, on)| == |MatchingPairs(lefts, rights, on)|
  {
    if |lefts| == 0 {
      assert MatchingPairs(lefts, rights, on) == {};
    } else {
      var n := |lefts| - 1;
      InnerCount(lefts[..n], rights, on);
      PairsCount(lefts[n], rights, on);
      MatchingPairsSnoc(lefts, rights, on);
      TaggedCount(n, MatchingRights(lefts[n], rights, on));
    }
  }

  /** The pairs of `[0, n]` are those of `[0, n)` and those of row `n`. */
  lemma MatchingPairsSnoc(lefts: seq<Row>, rights: seq<Row>, on: seq<KeyPair>)
    requires |lefts| > 0
    ensures var n := |lefts| - 1;
            && MatchingPairs(lefts, rights, on)
               == MatchingPairs(lefts[..n], rights, on) + Tagged(n, MatchingRights(lefts[n], rights, on))
            && MatchingPairs(lefts[..n], rights, on) !! Tagged(n, MatchingRights(lefts[n], rights, on))
  {
    var n := |lefts| - 1;
    var front := MatchingPairs(lefts[..n], rights, on);
    var last := Tagged(n, MatchingRights(lefts[n], rights, on));
    var all := MatchingPairs(lefts, rights, on);
    forall p | p in all ensures p in front + last {
      if p.0 < n {
        assert lefts[..n][p.0] == lefts[p.0];
      }
    }
    forall p | p in front + last ensures p in all {
      if p in front {
        assert lefts[..n][p.0] == lefts[p.0];
      }
    }
  }

  /** Each element of `s`, tagged with the first component `n`. */
  function Tagged(n: nat, s: set<nat>): set<(nat, nat)> {
    set j | j in s :: (n, j)
  }

  /** Tagging keeps the size of a set. */
  lemma TaggedCount(n: nat, s: set<nat>)
    ensures |Tagged(n, s)| == |s|
  {
    if s != {} {
      var x :| x in s;
      TaggedCount(n, s - {x});
      assert Tagged(n, s) == Tagged(n, s - {x}) + {(n, x)};
      assert (n, x) !in Tagged(n, s - {x});
    }
  }

  /** The semi and anti joins split the left rows into those with and
      those without a match, keeping their order. */
  lemma LeftPartition(lefts: seq<Row>, rights: seq<Row>, on: seq<KeyPair>)
    ensures |LeftSemiRows(lefts, rights, on)| + |LeftAntiRows(lefts, rights, on)| == |lefts|
    ensures multiset(LeftSemiRows(lefts, rights, on)) + multiset(LeftAntiRows(lefts, rights, on)) == multiset(lefts)
    ensures forall x :: x in LeftSemiRows(lefts, rights, on) <==> x in lefts && HasMatch(x, rights, on)
    ensures forall x :: x in LeftAntiRows(lefts, rights, on) <==> x in lefts && !HasMatch(x, rights, on)
  {
    LeftSplit(lefts, rights, on);
    LeftSemiMembers(lefts, rights, on);
    LeftAntiMembers(lefts, rights, on);
  }

  lemma {:induction false} LeftSplit(lefts: seq<Row>, rights: seq<Row>, on: seq<KeyPair>)
    ensures multiset(LeftSemiRows(lefts, rights, on)) + multiset(LeftAntiRows(lefts, rights, on)) == multiset(lefts)
  {
    if |lefts| > 0 {
      var n := |lefts| - 1;
      LeftSplit(lefts[..n], rights, on);
      var x := lefts[n];
      assert lefts == lefts[..n] + [x];
      assert multiset(lefts) == multiset(lefts[..n]) + multiset{x};
      var semi, anti := LeftSemiRows(lefts[..n], rights, on), LeftAntiRows(lefts[..n], rights, on);
      if HasMatch(lefts[n], rights, on) {
        assert LeftSemiRows(lefts, rights, on) == semi + [x];
        assert LeftAntiRows(lefts, rights, on) == anti;
      } else {
        assert LeftSemiRows(lefts, rights, on) == semi;
        assert LeftAntiRows(lefts, rights, on) == anti + [x];
      }
    }
  }

  lemma {:induction false} LeftSemiMembers(lefts: seq<Row>, rights: seq<Row>, on: seq<KeyPair>)
    ensures forall x :: x in LeftSemiRows(lefts, rights, on) <==> x in lefts && HasMatch(x, rights, on)
  {
    if |lefts| > 0 {
      var n := |lefts| - 1;
      LeftSemiMembers(lefts[..n], rights, on);
      assert lefts == lefts[..n] + [lefts[n]];
    }
  }

  lemma {:induction false} LeftAntiMembers(lefts: seq<Row>, rights: seq<Row>, on: seq<KeyPair>)
    ensures forall x :: x in LeftAntiRows(lefts, rights, on) <==> x in lefts && !HasMatch(x, rights, on)
  {
    if |lefts| > 0 {
      var n := |lefts| - 1;
      LeftAntiMembers(lefts[..n], rights, on);
      assert lefts == lefts[..n] + [lefts[n]];
    }
  }

  /** The mirror image for the right rows. */
  lemma RightPartition(lefts: seq<Row>, rights: seq<Row>, on: seq<KeyPair>)
    ensures |RightSemiRows(lefts, rights, on)| + |RightAntiRows(lefts, rights, on)| == |rights|
    ensures multiset(RightSemiRows(lefts, rights, on)) + multiset(RightAntiRows(lefts, rights, on)) == multiset(rights)
    ensures forall x :: x in RightSemiRows(lefts, rights, on) <==> x in rights && HasMatchLeft(x, lefts, on)
    ensures forall x :: x in RightAntiRows(lefts, rights, on) <==> x in rights && !HasMatchLeft(x, lefts, on)
  {
    RightSplit(lefts, rights, on);
    RightSemiMembers(lefts, rights, on);
    RightAntiMembers(lefts, rights, on);
  }

  lemma {:induction false} RightSplit(lefts: seq<Row>, rights: seq<Row>, on: seq<KeyPair>)
    ensures multiset(RightSemiRows(lefts, rights, on)) + multiset(RightAntiRows(lefts, rights, on)) == multiset(rights)
  {
    if |rights| > 0 {
      var n := |rights| - 1;
      RightSplit(lefts, rights[..n], on);
      var x := rights[n];
      assert rights == rights[..n] + [x];
      assert multiset(rights) == multiset(rights[..n]) + multiset{x};
      var semi, anti := RightSemiRows(lefts, rights[..n], on), RightAntiRows(lefts, rights[..n], on);
      if HasMatchLeft(rights[n], lefts, on) {
        assert RightSemiRows(lefts, rights, on) == semi + [x];
        assert RightAntiRows(lefts, rights, on) == anti;
      } else {
        assert RightSemiRows(lefts, rights, on) == semi;
        assert RightAntiRows(lefts, rights, on) == anti + [x];
      }
    }
  }

  lemma {:induction false} RightSemiMembers(lefts: seq<Row>, rights: seq<Row>, on: seq<KeyPair>)
    ensures forall x :: x in RightSemiRows(lefts, rights, on) <==> x in rights && HasMatchLeft(x, lefts, on)
  {
    if |rights| > 0 {
      var n := |rights| - 1;
      RightSemiMembers(lefts, rights[..n], on);
      assert rights == rights[..n] + [rights[n]];
    }
  }

  lemma {:induction false} RightAntiMembers(lefts: seq<Row>, rights: seq<Row>, on: seq<KeyPair>)
    ensures forall x :: x in RightAntiRows(lefts, rights, on) <==> x in rights && !HasMatchLeft(x, lefts, on)
  {
    if |rights| > 0 {
      var n := |rights| - 1;
      RightAntiMembers(lefts, rights[..n], on);
      assert rights == rights[..n] + [rights[n]];
    }
  }

  /** `leftouter` emits the inner pairs and one padded row per unmatched
      left row, and nothing else. */
  lemma {:induction false} LeftOuterMembers(lefts: seq<Row>, rights: seq<Row>, on: seq<KeyPair>, rightSchema: Schema, x: Row)
    ensures x in LeftOuterRows(lefts, rights, on, rightSchema) <==>
            x in PairRows(lefts, rights, on) || exists l :: l in LeftAntiRows(lefts, rights, on) && x == l + FillRow(rightSchema)
  {
    if |lefts| > 0 {
      var n := |lefts| - 1;
      var l := lefts[n];
      LeftOuterMembers(lefts[..n], rights, on, rightSchema, x);
      PairsNonEmpty(l, rights, on);
    }
  }

  /** `leftouter` has as many rows as `inner` and `leftanti` together. */
  lemma {:induction false} LeftOuterCount(lefts: seq<Row>, rights: seq<Row>, on: seq<KeyPair>, rightSchema: Schema)
    ensures |LeftOuterRows(lefts, rights, on, rightSchema)| == |PairRows(lefts, rights, on)| + |LeftAntiRows(lefts, rights, on)|
  {
    if |lefts| > 0 {
      var n := |lefts| - 1;
      LeftOuterCount(lefts[..n], rights, on, rightSchema);
      PairsNonEmpty(lefts[n], rights, on);
    }
  }

  /** Row counts: `leftouter` = `inner` + `leftanti`; `rightouter` = `inner`
      + `rightanti`; `fullouter` = `inner` + `leftanti` + `rightanti`; semi
      and anti split each side. */
  lemma JoinCounts(left: Table, right: Table, on: seq<KeyPair>)
    ensures |JoinRows(LeftOuter, left, right, on)| == |JoinRows(Inner, left, right, on)| + |JoinRows(LeftAnti, left, right, on)|
    ensures |JoinRows(RightOuter, left, right, on)| == |JoinRows(Inner, left, right, on)| + |JoinRows(RightAnti, left, right, on)|
    ensures |JoinRows(FullOuter, left, right, on)|
            == |JoinRows(Inner, left, right, on)| + |JoinRows(LeftAnti, left, right, on)| + |JoinRows(RightAnti, left, right, on)|
    ensures |JoinRows(LeftSemi, left, right, on)| + |JoinRows(LeftAnti, left, right, on)| == |left.rows|
    ensures |JoinRows(RightSemi, left, right, on)| + |JoinRows(RightAnti, left, right, on)| == |right.rows|
  {
    var pairs := PairRows(left.rows, right.rows, on);
    var outer := LeftOuterRows(left.rows, right.rows, on, right.schema);
    var anti := RightAntiRows(left.rows, right.rows, on);
    LeftOuterCount(left.rows, right.rows, on, right.schema);
    assert |LeftSemiRows(left.rows, right.rows, on)| + |LeftAntiRows(left.rows, right.rows, on)| == |left.rows| by {
      LeftPartition(left.rows, right.rows, on);
    }
    assert |RightSemiRows(left.rows, right.rows, on)| + |anti| == |right.rows| by {
      RightPartition(left.rows, right.rows, on);
    }
    JoinRowsByKind(left, right, on);
    SemiAntiRowsByKind(left, right, on);
  }

  /** The row list of each pair-emitting kind, spelled out. */
  lemma JoinRowsByKind(left: Table, right: Table, on: seq<KeyPair>)
    ensures JoinRows(Inner, left, right, on) == PairRows(left.rows, right.rows, on)
    ensures JoinRows(LeftOuter, left, right, on) == LeftOuterRows(left.rows, right.rows, on, right.schema)
    ensures JoinRows(RightOuter, left, right, on)
            == PairRows(left.rows, right.rows, on) + PadLeft(left.schema, RightAntiRows(left.rows, right.rows, on))
    ensures JoinRows(FullOuter, left, right, on)
            == LeftOuterRows(left.rows, right.rows, on, right.schema) + PadLeft(left.schema, RightAntiRows(left.rows, right.rows, on))
  {
  }

  /** The row list of each semi and anti kind, spelled out. */
  lemma SemiAntiRowsByKind(left: Table, right: Table, on: seq<KeyPair>)
    ensures JoinRows(LeftSemi, left, right, on) == LeftSemiRows(left.rows, right.rows, on)
    ensures JoinRows(LeftAnti, left, right, on) == LeftAntiRows(left.rows, right.rows, on)
    ensures JoinRows(RightSemi, left, right, on) == RightSemiRows(left.rows, right.rows, on)
    ensures JoinRows(RightAnti, left, right, on) == RightAntiRows(left.rows, right.rows, on)
  {
  }

  // ---------------------------------------------------------------------
  // innerunique

  lemma FirstOfKeyPrefix(lefts: seq<Row>, n: nat, i: nat, on: seq<KeyPair>)
    requires i < n <= |lefts|
    ensures FirstOfKey(lefts[..n], i, on) == FirstOfKey(lefts, i, on)
  {
    assert forall h :: 0 <= h <= i ==> lefts[..n][h] == lefts[h];
  }

  /** The rows kept are the left rows whose key no earlier row has. */
  lemma {:induction false} FirstPerKeyMembers(lefts: seq<Row>, on: seq<KeyPair>, x: Row)
    ensures x in FirstPerKey(lefts, on) <==> exists i :: 0 <= i < |lefts| && x == lefts[i] && FirstOfKey(lefts, i, on)
  {
    if |lefts| > 0 {
      var n := |lefts| - 1;
      var front := lefts[..n];
      FirstPerKeyMembers(front, on, x);
      if x in FirstPerKey(front, on) {
        var i :| 0 <= i < n && x == front[i] && FirstOfKey(front, i, on);
        FirstOfKeyPrefix(lefts, n, i, on);
      }
      if exists i :: 0 <= i < |lefts| && x == lefts[i] && FirstOfKey(lefts, i, on) {
        var i :| 0 <= i < |lefts| && x == lefts[i] && FirstOfKey(lefts, i, on);
        if i < n {
          FirstOfKeyPrefix(lefts, n, i, on);
          assert x == front[i];
        }
      }
    }
  }

  /** The kept rows have pairwise distinct keys. */
  lemma {:induction false} FirstPerKeyDistinct(lefts: seq<Row>, on: seq<KeyPair>)
    ensures forall a, b :: 0 <= a < b < |FirstPerKey(lefts, on)| ==> LeftKey(FirstPerKey(lefts, on)[a], on) != LeftKey(FirstPerKey(lefts, on)[b], on)
  {
    if |lefts| > 0 {
      var n := |lefts| - 1;
      var front := lefts[..n];
      var kept := FirstPerKey(front, on);
      FirstPerKeyDistinct(front, on);
      if FirstOfKey(lefts, n, on) {
        forall a | 0 <= a < |kept|
          ensures LeftKey(kept[a], on) != LeftKey(lefts[n], on)
        {
          FirstPerKeyMembers(front, on, kept[a]);
          var i :| 0 <= i < n && kept[a] == front[i] && FirstOfKey(front, i, on);
          assert front[i] == lefts[i];
        }
      }
    }
  }

  /** `innerunique` emits the `inner` rows whose left row is the first of
      its key, and no others. */
  lemma InnerUniqueMembers(lefts: seq<Row>, rights: seq<Row>, on: seq<KeyPair>, x: Row)
    ensures x in PairRows(FirstPerKey(lefts, on), rights, on) <==>
            exists i, j :: IsPair(x, lefts, rights, on, i, j) && FirstOfKey(lefts, i, on)
  {
    var firsts := FirstPerKey(lefts, on);
    InnerMembers(firsts, rights, on, x);
    if x in PairRows(firsts, rights, on) {
      var a, j :| IsPair(x, firsts, rights, on, a, j);
      FirstPerKeyMembers(lefts, on, firsts[a]);
      var i :| 0 <= i < |lefts| && firsts[a] == lefts[i] && FirstOfKey(lefts, i, on);
      assert IsPair(x, lefts, rights, on, i, j);
    }
    if exists i, j :: IsPair(x, lefts, rights, on, i, j) && FirstOfKey(lefts, i, on) {
      var i, j :| IsPair(x, lefts, rights, on, i, j) && FirstOfKey(lefts, i, on);
      FirstPerKeyMembers(lefts, on, lefts[i]);
      var a :| 0 <= a < |firsts| && firsts[a] == lefts[i];
      assert IsPair(x, firsts, rights, on, a, j);
    }
  }

  /** When no two left rows share a key, every row is the first of its key. */
  lemma {:induction false} FirstPerKeyOfUniqueKeys(lefts: seq<Row>, on: seq<KeyPair>)
    requires forall a, b :: 0 <= a < b < |lefts| ==> LeftKey(lefts[a], on) != LeftKey(lefts[b], on)
    ensures FirstPerKey(lefts, on) == lefts
  {
    if |lefts| > 0 {
      var n := |lefts| - 1;
      FirstPerKeyOfUniqueKeys(lefts[..n], on);
      assert lefts == lefts[..n] + [lefts[n]];
    }
  }

  /** ... so then `innerunique` and `inner` agree. */
  lemma InnerUniqueOfUniqueKeys(left: Table, right: Table, on: seq<KeyPair>)
    requires forall a, b :: 0 <= a < b < |left.rows| ==> LeftKey(left.rows[a], on) != LeftKey(left.rows[b], on)
    ensures JoinRows(InnerUnique, left, right, on) == JoinRows(Inner, left, right, on)
  {
    FirstPerKeyOfUniqueKeys(left.rows, on);
  }

  // ---------------------------------------------------------------------
  // Output schema

  /** With distinct left names, the left columns are output unchanged. */
  lemma JoinSchemaKeepsLeft(kind: JoinKind, left: Schema, right: Schema)
    requires EmitsPairs(kind) && DistinctNames(left)
    ensures JoinSchema(kind, left, right)[..|left|] == left
  {
    JoinSchemaOfPairs(kind, left, right);
    var s := PairSchema(left, right);
    assert s[..|left|] == left;
  }

  /** ... and all output names are distinct. */
  lemma JoinSchemaDistinct(kind: JoinKind, left: Schema, right: Schema)
    requires EmitsPairs(kind) && DistinctNames(left)
    ensures DistinctNames(JoinSchema(kind, left, right))
  {
    var s := JoinSchema(kind, left, right);
    var u := Uniquify(Names(left) + Names(right));
    UniquifyDistinct(Names(left) + Names(right));
    JoinSchemaNames(kind, left, right);
    forall i, j | 0 <= i < j < |s|
      ensures s[i].name != s[j].name
    {
      assert s[i].name == u[i] && s[j].name == u[j];
    }
  }

  /** With distinct left names, the output names are the uniquified list of
      all names. */
  lemma JoinSchemaNames(kind: JoinKind, left: Schema, right: Schema)
    requires EmitsPairs(kind) && DistinctNames(left)
    ensures var s := JoinSchema(kind, left, right);
            var u := Uniquify(Names(left) + Names(right));
            |s| == |u| && forall j :: 0 <= j < |s| ==> s[j].name == u[j]
  {
    var s := JoinSchema(kind, left, right);
    var u := Uniquify(Names(left) + Names(right));
    forall j | 0 <= j < |s|
      ensures s[j].name == u[j]
    {
      JoinSchemaNameAt(kind, left, right, j);
    }
  }

  /** A join that emits pairs has the pair schema. */
  lemma JoinSchemaOfPairs(kind: JoinKind, left: Schema, right: Schema)
    requires EmitsPairs(kind)
    ensures JoinSchema(kind, left, right) == PairSchema(left, right)
  {
    assert kind != LeftSemi && kind != LeftAnti && kind != RightSemi && kind != RightAnti;
  }

  lemma JoinSchemaNameAt(kind: JoinKind, left: Schema, right: Schema, j: nat)
    requires EmitsPairs(kind) && DistinctNames(left) && j < |left| + |right|
    ensures JoinSchema(kind, left, right)[j].name == Uniquify(Names(left) + Names(right))[j]
  {
    var u := Uniquify(Names(left) + Names(right));
    var s := PairSchema(left, right);
    JoinSchemaOfPairs(kind, left, right);
    if j < |left| {
      LeftNamesKept(left, right);
      assert s[j] == left[j];
      assert u[..|left|][j] == u[j];
    } else {
      var names := RightNames(left, right);
      assert names == u[|left|..];
      assert s[|left| + (j - |left|)] == Column(names[j - |left|], right[j - |left|].kind);
    }
  }

  /** Distinct left names come through uniquification unchanged. */
  lemma LeftNamesKept(left: Schema, right: Schema)
    requires DistinctNames(left)
    ensures Uniquify(Names(left) + Names(right))[..|left|] == Names(left)
  {
    UniquifyPrefix(Names(left), Names(right));
    assert Distinct(Names(left));
    UniquifyOfDistinct(Names(left));
  }

  /** Each right column keeps its name or gets a numeric suffix. */
  lemma JoinSchemaRightNames(kind: JoinKind, left: Schema, right: Schema, j: nat)
    requires EmitsPairs(kind) && j < |right|
    ensures var s := JoinSchema(kind, left, right);
            s[|left| + j].name == right[j].name || exists k :: k >= 1 && s[|left| + j].name == Suffixed(right[j].name, k)
  {
    JoinSchemaOfPairs(kind, left, right);
    var all := Names(left) + Names(right);
    UniquifyKeepsBase(all, |left| + j);
    assert RightNames(left, right)[j] == Uniquify(all)[|left| + j];
    assert all[|left| + j] == right[j].name;
  }

  /** When no right name clashes, the output columns are the left columns
      followed by the right ones. */
  lemma JoinSchemaNoClash(kind: JoinKind, left: Schema, right: Schema)
    requires EmitsPairs(kind) && Distinct(Names(left) + Names(right))
    ensures JoinSchema(kind, left, right) == left + right
  {
    JoinSchemaOfPairs(kind, left, right);
    RightNamesNoClash(left, right);
    var s := PairSchema(left, right);
    assert forall j :: 0 <= j < |right| ==> s[|left| + j] == right[j];
    assert s == left + right;
  }

  /** With no clash, every right column keeps its name. */
  lemma RightNamesNoClash(left: Schema, right: Schema)
    requires Distinct(Names(left) + Names(right))
    ensures RightNames(left, right) == Names(right)
  {
    var all := Names(left) + Names(right);
    UniquifyOfDistinct(all);
    assert all[|left|..] == Names(right);
  }

  // ---------------------------------------------------------------------
  // Well-formedness

  /** A row fits a schema: one cell per column, of the column's kind. */
  predicate RowFits(row: Row, schema: Schema) {
    |row| == |schema| && forall c :: 0 <= c < |schema| ==> CellOfKind(row[c], schema[c].kind)
  }

  lemma RowFitsAppend(l: Row, r: Row, ls: Schema, rs: Schema)
    requires RowFits(l, ls) && RowFits(r, rs)
    ensures RowFits(l + r, ls + rs)
  {
    assert forall c :: 0 <= c < |ls| ==> (l + r)[c] == l[c] && (ls + rs)[c] == ls[c];
    assert forall c :: |ls| <= c < |ls| + |rs| ==> (l + r)[c] == r[c - |ls|] && (ls + rs)[c] == rs[c - |ls|];
  }

  lemma RowFitsKinds(row: Row, s1: Schema, s2: Schema)
    requires RowFits(row, s1) && |s1| == |s2|
    requires forall c :: 0 <= c < |s1| ==> s1[c].kind == s2[c].kind
    ensures RowFits(row, s2)
  {
  }

  /** A row of an inner join of well-formed tables fits both schemas side
      by side. */
  lemma PairFits(left: Table, right: Table, on: seq<KeyPair>, x: Row, i: int, j: int)
    requires WellFormed(left) && WellFormed(right)
    requires IsPair(x, left.rows, right.rows, on, i, j)
    ensures RowFits(x, left.schema + right.schema)
  {
    assert RowFits(left.rows[i], left.schema) && RowFits(right.rows[j], right.schema);
    RowFitsAppend(left.rows[i], right.rows[j], left.schema, right.schema);
  }

  lemma LeftOuterFits(left: Table, right: Table, on: seq<KeyPair>, x: Row)
    requires WellFormed(left) && WellFormed(right)
    requires x in LeftOuterRows(left.rows, right.rows, on, right.schema)
    ensures RowFits(x, left.schema + right.schema)
  {
    LeftOuterMembers(left.rows, right.rows, on, right.schema, x);
    if x in PairRows(left.rows, right.rows, on) {
      InnerMembers(left.rows, right.rows, on, x);
      var i, j :| IsPair(x, left.rows, right.rows, on, i, j);
      PairFits(left, right, on, x, i, j);
    } else {
      LeftPartition(left.rows, right.rows, on);
      var l :| l in LeftAntiRows(left.rows, right.rows, on) && x == l + FillRow(right.schema);
      var i :| 0 <= i < |left.rows| && left.rows[i] == l;
      assert RowFits(l, left.schema);
      RowFitsAppend(l, FillRow(right.schema), left.schema, right.schema);
    }
  }

  lemma PaddedRightFits(left: Table, right: Table, on: seq<KeyPair>, x: Row)
    requires WellFormed(right)
    requires x in PadLeft(left.schema, RightAntiRows(left.rows, right.rows, on))
    ensures RowFits(x, left.schema + right.schema)
  {
    var anti := RightAntiRows(left.rows, right.rows, on);
    RightPartition(left.rows, right.rows, on);
    var k :| 0 <= k < |anti| && x == PadLeft(left.schema, anti)[k];
    assert anti[k] in anti;
    var j :| 0 <= j < |right.rows| && right.rows[j] == anti[k];
    assert RowFits(anti[k], right.schema);
    RowFitsAppend(FillRow(left.schema), anti[k], left.schema, right.schema);
  }

  /** Every row a pair-emitting kind outputs fits both schemas side by side. */
  lemma PairKindFits(kind: JoinKind, left: Table, right: Table, on: seq<KeyPair>, x: Row)
    requires WellFormed(left) && WellFormed(right) && EmitsPairs(kind)
    requires x in JoinRows(kind, left, right, on)
    ensures RowFits(x, left.schema + right.schema)
  {
    var pairs := PairRows(left.rows, right.rows, on);
    var outer := LeftOuterRows(left.rows, right.rows, on, right.schema);
    var padded := PadLeft(left.schema, RightAntiRows(left.rows, right.rows, on));
    if kind == Inner || (kind == RightOuter && x in pairs) {
      InnerMembers(left.rows, right.rows, on, x);
      var i, j :| IsPair(x, left.rows, right.rows, on, i, j);
      PairFits(left, right, on, x, i, j);
    } else if kind == InnerUnique {
      InnerUniqueMembers(left.rows, right.rows, on, x);
      var i, j :| IsPair(x, left.rows, right.rows, on, i, j) && FirstOfKey(left.rows, i, on);
      PairFits(left, right, on, x, i, j);
    } else if kind == LeftOuter || (kind == FullOuter && x in outer) {
      LeftOuterFits(left, right, on, x);
    } else {
      assert x in padded;
      PaddedRightFits(left, right, on, x);
    }
  }

  /** Joining well-formed tables gives a well-formed table: every output row
      has one cell per output column, of that column's kind, padding
      included. */
  lemma JoinWellFormed(kind: JoinKind, left: Table, right: Table, on: seq<KeyPair>)
    requires WellFormed(left) && WellFormed(right)
    ensures WellFormed(JoinTables(kind, left, right, on))
  {
    var rows := JoinRows(kind, left, right, on);
    var schema := JoinSchema(kind, left.schema, right.schema);
    forall p | 0 <= p < |rows|
      ensures RowFits(rows[p], schema)
    {
      assert rows[p] in rows;
      JoinRowFits(kind, left, right, on, rows[p]);
    }
  }

  /** Every output row of a join of well-formed tables fits the join's schema. */
  lemma JoinRowFits(kind: JoinKind, left: Table, right: Table, on: seq<KeyPair>, x: Row)
    requires WellFormed(left) && WellFormed(right)
    requires x in JoinRows(kind, left, right, on)
    ensures RowFits(x, JoinSchema(kind, left.schema, right.schema))
  {
    if EmitsPairs(kind) {
      PairRowFits(kind, left, right, on, x);
    } else {
      SemiAntiRowFits(kind, left, right, on, x);
    }
  }

  lemma PairRowFits(kind: JoinKind, left: Table, right: Table, on: seq<KeyPair>, x: Row)
    requires WellFormed(left) && WellFormed(right) && EmitsPairs(kind)
    requires x in JoinRows(kind, left, right, on)
    ensures RowFits(x, JoinSchema(kind, left.schema, right.schema))
  {
    var schema := JoinSchema(kind, left.schema, right.schema);
    PairKindFits(kind, left, right, on, x);
    RowFitsKinds(x, left.schema + right.schema, schema);
  }

  lemma SemiAntiRowFits(kind: JoinKind, left: Table, right: Table, on: seq<KeyPair>, x: Row)
    requires WellFormed(left) && WellFormed(right) && !EmitsPairs(kind)
    requires x in JoinRows(kind, left, right, on)
    ensures RowFits(x, JoinSchema(kind, left.schema, right.schema))
  {
    SemiAntiRowsByKind(left, right, on);
    if kind in {LeftSemi, LeftAnti} {
      LeftPartition(left.rows, right.rows, on);
      var i :| 0 <= i < |left.rows| && left.rows[i] == x;
      assert RowFits(left.rows[i], left.schema);
    } else {
      RightPartition(left.rows, right.rows, on);
      var j :| 0 <= j < |right.rows| && right.rows[j] == x;
      assert RowFits(right.rows[j], right.schema);
    }
  }
}
