/** The outer joins agree on one matching relation. */
module OuterJoins {
  import opened Wrappers
  import opened Values
  import opened Joins

  // ---------------------------------------------------------------- RIGHT is INNER and the rest

  /** The same nested loop over fewer right rows. */
  function Over(m: Test, right: Side, rows2: seq<Row>): Finder {
    ByLoop(m, right.(rows := rows2))
  }

  lemma {:induction false} ColumnOfPairs(m: Test, left: seq<Row>, right: Side, rows2: seq<Row>)
    requires rows2 != []
    ensures multiset(InnerRows(Over(m, right, rows2), left)) ==
              multiset(LeftPartners(m, left, right.name, rows2[0])) + multiset(InnerRows(Over(m, right, rows2[1..]),
                left))
    decreases left
  {
    hide Merge;
    if left != [] {
      ColumnOfPairs(m, left[1..], right, rows2);
      var row := Merge(left[0], right.name, rows2[0]);
      var head := if m(row) then [row] else [];
      assert Partners(m, left[0], right.name, rows2) == head + Partners(m, left[0], right.name, rows2[1..]);
      assert LeftPartners(m, left, right.name, rows2[0]) == head + LeftPartners(m, left[1..], right.name, rows2[0]);
    }
  }

  lemma {:induction false} NoPairs(m: Test, left: seq<Row>, right: Side)
    ensures InnerRows(Over(m, right, []), left) == []
    decreases left
  {
    if left != [] { NoPairs(m, left[1..], right); }
  }

  /** RIGHT OUTER holds the rows of INNER and one row for each unmatched right
      row, in another order. */
  lemma {:induction false} RightIsInnerAndRest(m: Test, left: seq<Row>, columns: seq<string>, right: Side,
      rows2: seq<Row>)
    ensures multiset(RightRows(m, left, columns, right, rows2)) ==
              multiset(InnerRows(Over(m, right, rows2), left)) + multiset(RightOnlyRows(m, left, columns, right, rows2))
    decreases rows2
  {
    hide RightOnly, LeftPartners;
    if rows2 == [] {
      NoPairs(m, left, right);
    } else {
      RightIsInnerAndRest(m, left, columns, right, rows2[1..]);
      ColumnOfPairs(m, left, right, rows2);
    }
  }

  // ---------------------------------------------------------------- sizes

  predicate Match(m: Test, left: seq<Row>, right: Side, i: int, j: int)
    requires 0 <= i < |left| && 0 <= j < |right.rows|
  {
    m(Merge(left[i], right.name, right.rows[j]))
  }

  function PairsAt(m: Test, left: seq<Row>, right: Side, i: int, j0: int): set<(int, int)>
    requires 0 <= i < |left| && 0 <= j0 <= |right.rows|
  {
    set j | j0 <= j < |right.rows| && Match(m, left, right, i, j) :: (i, j)
  }

  /** The matching pairs of positions, from the `i0`-th left row on. */
  function Pairs(m: Test, left: seq<Row>, right: Side, i0: int): set<(int, int)>
    requires 0 <= i0 <= |left|
  {
    set i, j | i0 <= i < |left| && 0 <= j < |right.rows| && Match(m, left, right, i, j) :: (i, j)
  }

  predicate Alone(m: Test, left: seq<Row>, right: Side, i: int)
    requires 0 <= i < |left|
  {
    forall j :: 0 <= j < |right.rows| ==> !Match(m, left, right, i, j)
  }

  predicate AloneRight(m: Test, left: seq<Row>, right: Side, j: int)
    requires 0 <= j < |right.rows|
  {
    forall i :: 0 <= i < |left| ==> !Match(m, left, right, i, j)
  }

  function Lonely(m: Test, left: seq<Row>, right: Side, i0: int): set<int>
    requires 0 <= i0 <= |left|
  {
    set i | i0 <= i < |left| && Alone(m, left, right, i)
  }

  function LonelyRight(m: Test, left: seq<Row>, right: Side, j0: int): set<int>
    requires 0 <= j0 <= |right.rows|
  {
    set j | j0 <= j < |right.rows| && AloneRight(m, left, right, j)
  }

  lemma {:induction false} PartnersCounted(m: Test, left: seq<Row>, right: Side, i: int, j0: int)
    requires 0 <= i < |left| && 0 <= j0 <= |right.rows|
    ensures |Partners(m, left[i], right.name, right.rows[j0..])| == |PairsAt(m, left, right, i, j0)|
    decreases |right.rows| - j0
  {
    if j0 < |right.rows| {
      PartnersCounted(m, left, right, i, j0 + 1);
      assert right.rows[j0..][1..] == right.rows[j0 + 1..];
      var rest := PairsAt(m, left, right, i, j0 + 1);
      assert PairsAt(m, left, right, i, j0) == rest + if Match(m, left, right, i, j0) then {(i, j0)} else {};
    }
  }

  lemma PartnersEmpty(m: Test, left: seq<Row>, right: Side, i: int)
    requires 0 <= i < |left|
    ensures |Partners(m, left[i], right.name, right.rows)| == |PairsAt(m, left, right, i, 0)|
    ensures Partners(m, left[i], right.name, right.rows) == [] <==> Alone(m, left, right, i)
  {
    PartnersCounted(m, left, right, i, 0);
    assert right.rows[0..] == right.rows;
    if j :| 0 <= j < |right.rows| && Match(m, left, right, i, j) {
      assert (i, j) in PairsAt(m, left, right, i, 0);
    } else {
      assert PairsAt(m, left, right, i, 0) == {};
    }
  }

  lemma PairsSplit(m: Test, left: seq<Row>, right: Side, i: int)
    requires 0 <= i < |left|
    ensures |Pairs(m, left, right, i)| == |PairsAt(m, left, right, i, 0)| + |Pairs(m, left, right, i + 1)|
  {
    hide Match;
    assert Pairs(m, left, right, i) == PairsAt(m, left, right, i, 0) + Pairs(m, left, right, i + 1);
    assert PairsAt(m, left, right, i, 0) !! Pairs(m, left, right, i + 1);
  }

  lemma {:induction false} LeftCounted(m: Test, left: seq<Row>, right: Side, i0: int)
    requires 0 <= i0 <= |left|
    ensures |InnerRows(ByLoop(m, right), left[i0..])| == |Pairs(m, left, right, i0)|
    ensures |LeftRows(ByLoop(m, right), left[i0..], right)| ==
              |Pairs(m, left, right, i0)| + |Lonely(m, left, right, i0)|
    decreases |left| - i0
  {
    hide Partners, Padded, Match, Alone, PairsAt;
    if i0 == |left| {
      assert Pairs(m, left, right, i0) == {} && Lonely(m, left, right, i0) == {};
    } else {
      hide Pairs;
      LeftCounted(m, left, right, i0 + 1);
      PartnersEmpty(m, left, right, i0);
      PairsSplit(m, left, right, i0);
      assert left[i0..][1..] == left[i0 + 1..] && left[i0..][0] == left[i0];
      assert Lonely(m, left, right, i0) == Lonely(m, left, right, i0 + 1) + if Alone(m, left, right, i0) then {i0}
             else {};
    }
  }

  lemma {:induction false} LeftPartnersEmpty(m: Test, left: seq<Row>, name2: string, row2: Row)
    ensures LeftPartners(m, left, name2, row2) == [] <==>
              forall i :: 0 <= i < |left| ==> !m(Merge(left[i], name2, row2))
    decreases left
  {
    hide Merge;
    if left != [] {
      LeftPartnersEmpty(m, left[1..], name2, row2);
      assert forall i :: 0 < i < |left| ==> left[1..][i - 1] == left[i];
    }
  }

  lemma {:induction false} RestCounted(m: Test, left: seq<Row>, columns: seq<string>, right: Side, j0: int)
    requires 0 <= j0 <= |right.rows|
    ensures |RightOnlyRows(m, left, columns, right, right.rows[j0..])| == |LonelyRight(m, left, right, j0)|
    decreases |right.rows| - j0
  {
    hide RightOnly, Merge, LeftPartners;
    if j0 < |right.rows| {
      RestCounted(m, left, columns, right, j0 + 1);
      LeftPartnersEmpty(m, left, right.name, right.rows[j0]);
      assert AloneRight(m, left, right, j0) <==> LeftPartners(m, left, right.name, right.rows[j0]) == [] by {
        assert forall i :: 0 <= i < |left| ==>
               Match(m, left, right, i, j0) == m(Merge(left[i], right.name, right.rows[j0]));
      }
      hide AloneRight, Match;
      assert right.rows[j0..][1..] == right.rows[j0 + 1..];
      assert LonelyRight(m, left, right, j0) ==
             LonelyRight(m, left, right, j0 + 1) + if AloneRight(m, left, right, j0) then {j0} else {};
    }
  }

  /** Every join returns one row for each matching pair, and LEFT, RIGHT and FULL
      one more for each row that has no partner on the side they keep. */
  lemma Sizes(m: Test, left: seq<Row>, right: Side)
    ensures var pairs, l, r := |Pairs(m, left, right, 0)|, |Lonely(m, left, right, 0)|,
              |LonelyRight(m, left, right, 0)|;
            && |InnerRows(ByLoop(m, right), left)| == pairs
            && |LeftRows(ByLoop(m, right), left, right)| == pairs + l
            && |RightRows(m, left, LeftColumns(left), right, right.rows)| == pairs + r
            && |FullRows(m, left, right)| == pairs + l + r
  {
    var columns := LeftColumns(left);
    LeftCounted(m, left, right, 0);
    RestCounted(m, left, columns, right, 0);
    RightIsInnerAndRest(m, left, columns, right, right.rows);
    assert left[0..] == left && right.rows[0..] == right.rows && right.(rows := right.rows) == right;
    var all := RightRows(m, left, columns, right, right.rows);
    assert |multiset(all)| == |all|;
    assert |multiset(InnerRows(ByLoop(m, right), left))| == |InnerRows(ByLoop(m, right), left)|;
    assert |multiset(RightOnlyRows(m, left, columns, right, right.rows))| ==
           |RightOnlyRows(m, left, columns, right, right.rows)|;
  }

  // ---------------------------------------------------------------- what padding does to the left row

  lemma {:induction false} AllPadsNull(acc: Row, table: string, columns: seq<string>)
    requires forall k :: k in acc.vals ==> acc.vals[k].Null?
    ensures forall k :: k in PadColumns(acc, table, columns).vals ==> PadColumns(acc, table, columns).vals[k].Null?
    decreases columns
  {
    if columns != [] {
      AllPadsNull(acc.Put(QualifiedName(table, columns[0]), Null).PutIfAbsent(columns[0], Null), table, columns[1..]);
    }
  }

  /** A padded row shows its left columns as they were exactly when the padding
      has none of their names, other than for values that are NULL anyway. */
  lemma PaddingKeepsLeft(row1: Row, right: Side)
    ensures (forall k :: row1.Has(k) ==> Padded(row1, right).Get(k) == row1.Get(k)) <==>
              (forall k :: row1.Has(k) && k in Padding(right).cols ==> row1.vals[k].Null?)
  {
    var pad := Padding(right);
    if right.schema.Some? { AllPadsNull(EMPTY_ROW, right.name, right.schema.value); }
    else if right.rows != [] { AllPadsNull(EMPTY_ROW, right.name, right.rows[0].cols); }
    forall k ensures Padded(row1, right).Get(k) == if k in pad.cols then Some(Null) else row1.Get(k) {
      OverlayShows(row1, pad, pad.cols, k);
      assert pad.GetOrNull(k).Null?;
    }
  }

  /** `a LEFT JOIN b` where both have a column `x`: an unmatched row of `a` loses
      its bare `x`, although its `a.x` is still there. */
  lemma SharedColumnWitness(v: Value)
    requires !v.Null?
    ensures var row1 := Merge(EMPTY_ROW, "a", Row(["x"], map["x" := v]));
            var padded := Padded(row1, Side("b", [], Some(["x"])));
            && row1.Get("x") == Some(v) && padded.Get("x") == Some(Null) && padded.Get("a.x") == Some(v)
  {
    SingleColumn(v);
    var row1 := Merge(EMPTY_ROW, "a", Row(["x"], map["x" := v]));
    var right := Side("b", [], Some(["x"]));
    assert QualifiedName("b", "x") == "b.x";
    assert |"b.x"| != |"x"|;
    var acc := EMPTY_ROW.Put("b.x", Null);
    assert acc.PutIfAbsent("x", Null).cols == ["b.x", "x"];
    assert ["x"][1..] == [];
    assert Padding(right) == acc.PutIfAbsent("x", Null);
    assert "a.x" !in Padding(right).cols by { assert "a.x"[0] != "b.x"[0] && |"a.x"| != |"x"|; }
    OverlayShows(row1, Padding(right), Padding(right).cols, "x");
    OverlayShows(row1, Padding(right), Padding(right).cols, "a.x");
  }

  // ---------------------------------------------------------------- what a right-only row shows

  lemma {:induction false} NullRowShows(acc: Row, columns: seq<string>, k: string)
    ensures NullRow(acc, columns).Get(k) == if k in columns then Some(Null) else acc.Get(k)
    decreases columns
  {
    if columns != [] {
      NullRowShows(acc.Put(columns[0], Null), columns[1..], k);
      assert columns == [columns[0]] + columns[1..];
    }
  }

  /** It shows its own columns under their qualified names, and NULL under every
      left name that is not one of those, also where its own bare column is. */
  lemma RightOnlyShows(columns: seq<string>, right: Side, row2: Row, k: string)
    ensures forall c :: c in row2.cols ==>
              RightOnly(columns, right, row2).Get(QualifiedName(right.name, c)) == Some(row2.GetOrNull(c))
    ensures k in columns && (forall i :: 0 <= i < |row2.cols| ==> k != QualifiedName(right.name, row2.cols[i])) ==>
              RightOnly(columns, right, row2).Get(k) == Some(Null)
  {
    var blank := NullRow(EMPTY_ROW, columns);
    forall c | c in row2.cols
      ensures RightOnly(columns, right, row2).Get(QualifiedName(right.name, c)) == Some(row2.GetOrNull(c))
    {
      MergeBrings(blank, right.name, row2, row2.cols, c);
    }
    NullRowShows(EMPTY_ROW, columns, k);
    if k in columns && (forall i :: 0 <= i < |row2.cols| ==> k != QualifiedName(right.name, row2.cols[i])) {
      MergeShows(blank, right.name, row2, row2.cols, k);
    }
  }
}
