/** Where the rows of a join come from: pairs of rows that match, and rows that
    match none. */
module Origins {
  import opened Values
  import opened Joins
  import opened OuterJoins

  datatype Origin = Both(i: int, j: int) | OnlyLeft(i: int) | OnlyRight(j: int)

  predicate InReach(left: seq<Row>, right: Side, o: Origin) {
    && (o.OnlyRight? || 0 <= o.i < |left|)
    && (o.OnlyLeft? || 0 <= o.j < |right.rows|)
  }

  function RowOf(left: seq<Row>, right: Side, o: Origin): Row
    requires InReach(left, right, o)
  {
    match o
    case Both(i, j) => Merge(left[i], right.name, right.rows[j])
    case OnlyLeft(i) => Padded(left[i], right)
    case OnlyRight(j) => RightOnly(LeftColumns(left), right, right.rows[j])
  }

  /** The order of a loop over the left rows, with the unmatched right rows after it. */
  predicate ByLeft(a: Origin, b: Origin) {
    if a.OnlyRight? || b.OnlyRight? then !a.OnlyRight? || (b.OnlyRight? && a.j < b.j)
    else a.i < b.i || (a.i == b.i && a.Both? && b.Both? && a.j < b.j)
  }

  /** The order of a loop over the right rows. */
  predicate ByRight(a: Origin, b: Origin) {
    && !a.OnlyLeft? && !b.OnlyLeft?
    && (a.j < b.j || (a.j == b.j && a.Both? && b.Both? && a.i < b.i))
  }

  predicate InTurn(byRight: bool, a: Origin, b: Origin) {
    if byRight then ByRight(a, b) else ByLeft(a, b)
  }

  ghost predicate Sorted(os: seq<Origin>, byRight: bool) {
    forall a, b :: 0 <= a < b < |os| ==> InTurn(byRight, os[a], os[b])
  }

  lemma NotBothWays(byRight: bool, a: Origin, b: Origin)
    ensures !(InTurn(byRight, a, b) && InTurn(byRight, b, a))
  {
  }

  lemma EmptyAlike(os: seq<Origin>, os': seq<Origin>)
    requires forall o :: o in os <==> o in os'
    ensures os == [] <==> os' == []
  {
    if os != [] { assert os[0] in os'; }
    if os' != [] { assert os'[0] in os; }
  }

  /** Two sorted lists of the same origins are the same list. */
  lemma {:induction false} SortedSame(os: seq<Origin>, os': seq<Origin>, byRight: bool)
    requires Sorted(os, byRight) && Sorted(os', byRight) && forall o :: o in os <==> o in os'
    ensures os == os'
    decreases |os|
  {
    hide InTurn;
    EmptyAlike(os, os');
    if os != [] {
      assert os[0] in os' && os'[0] in os;
      var a :| 0 <= a < |os'| && os'[a] == os[0];
      var b :| 0 <= b < |os| && os[b] == os'[0];
      NotBothWays(byRight, os[0], os'[0]);
      assert os[0] == os'[0];
      RestMembers(os, byRight);
      RestMembers(os', byRight);
      SortedSame(os[1..], os'[1..], byRight);
      assert os == [os[0]] + os[1..] && os' == [os'[0]] + os'[1..];
    }
  }

  lemma RestMembers(os: seq<Origin>, byRight: bool)
    requires os != [] && Sorted(os, byRight)
    ensures Sorted(os[1..], byRight) && forall o :: o in os[1..] <==> o in os && o != os[0]
  {
    hide InTurn;
    assert os == [os[0]] + os[1..];
    forall o | o in os[1..] ensures o != os[0] {
      var n :| 0 <= n < |os[1..]| && os[1..][n] == o;
      assert InTurn(byRight, os[0], os[n + 1]);
      NotBothWays(byRight, os[0], o);
    }
  }

  lemma {:induction false} SortedCount(os: seq<Origin>, byRight: bool, members: set<Origin>)
    requires Sorted(os, byRight) && forall o :: o in os <==> o in members
    ensures |os| == |members|
    decreases |os|
  {
    hide InTurn;
    if os == [] {
      assert members == {};
    } else {
      RestMembers(os, byRight);
      SortedCount(os[1..], byRight, members - {os[0]});
      assert os[0] in members;
    }
  }

  /** The rows are those of the origins, and the origins are these, in order. */
  ghost predicate Listed(rows: seq<Row>, left: seq<Row>, right: Side, os: seq<Origin>, byRight: bool,
      owed: iset<Origin>) {
    && |os| == |rows|
    && (forall n :: 0 <= n < |os| ==> InReach(left, right, os[n]) && rows[n] == RowOf(left, right, os[n]))
    && Sorted(os, byRight)
    && (forall o :: o in os <==> o in owed)
  }

  lemma ListedNone(left: seq<Row>, right: Side, byRight: bool, owed: iset<Origin>)
    requires forall o :: o !in owed
    ensures Listed([], left, right, [], byRight, owed)
  {
  }

  lemma ListedOne(left: seq<Row>, right: Side, o: Origin, byRight: bool, owed: iset<Origin>)
    requires InReach(left, right, o) && forall x :: x in owed <==> x == o
    ensures Listed([RowOf(left, right, o)], left, right, [o], byRight, owed)
  {
    hide RowOf;
  }

  lemma ListedBoth(left: seq<Row>, right: Side, byRight: bool, rows: seq<Row>, os: seq<Origin>, owed: iset<Origin>,
      rows': seq<Row>, os': seq<Origin>, owed': iset<Origin>, all: iset<Origin>)
    requires Listed(rows, left, right, os, byRight, owed) && Listed(rows', left, right, os', byRight, owed')
    requires forall a, b :: a in owed && b in owed' ==> InTurn(byRight, a, b)
    requires forall o :: o in all <==> o in owed || o in owed'
    ensures Listed(rows + rows', left, right, os + os', byRight, all)
  {
    hide RowOf, InReach, InTurn;
    forall n | 0 <= n < |os + os'|
      ensures InReach(left, right, (os + os')[n]) && (rows + rows')[n] == RowOf(left, right, (os + os')[n])
    {
    }
    forall a, b | 0 <= a < b < |os + os'|
      ensures InTurn(byRight, (os + os')[a], (os + os')[b])
    {
      if a < |os| <= b {
        assert (os + os')[a] == os[a] && os[a] in owed;
        assert (os + os')[b] == os'[b - |os|] && os'[b - |os|] in owed';
      }
    }
  }

  /** Origins that are owed decide the rows and their order. */
  lemma ListedUnique(left: seq<Row>, right: Side, byRight: bool, owed: iset<Origin>, rows: seq<Row>, os: seq<Origin>,
      rows': seq<Row>, os': seq<Origin>)
    requires Listed(rows, left, right, os, byRight, owed) && Listed(rows', left, right, os', byRight, owed)
    ensures rows == rows'
  {
    hide RowOf, InReach;
    assert forall o :: o in os <==> o in os';
    SortedSame(os, os', byRight);
  }

  /** Every origin there can be. */
  function Everyone(left: seq<Row>, right: Side): set<Origin> {
    (set i, j | 0 <= i < |left| && 0 <= j < |right.rows| :: Both(i, j))
    + (set i | 0 <= i < |left| :: OnlyLeft(i)) + (set j | 0 <= j < |right.rows| :: OnlyRight(j))
  }

  /** There is one row for each origin that is owed. */
  lemma ListedSize(left: seq<Row>, right: Side, byRight: bool, owed: iset<Origin>, rows: seq<Row>, os: seq<Origin>)
    requires Listed(rows, left, right, os, byRight, owed)
    ensures |rows| == |set o | o in Everyone(left, right) && o in owed|
  {
    hide RowOf;
    var members := set o | o in Everyone(left, right) && o in owed;
    forall o ensures o in os <==> o in members {
      if o in os {
        var n :| 0 <= n < |os| && os[n] == o;
      }
    }
    SortedCount(os, byRight, members);
  }

  // ---------------------------------------------------------------- loops over the left rows

  /** The matching pairs of one left row, from the `j0`-th right row on. */
  ghost function PairsOf(m: Test, left: seq<Row>, right: Side, i: int, j0: int): iset<Origin>
    requires 0 <= i < |left| && 0 <= j0
  {
    iset j | j0 <= j < |right.rows| && Match(m, left, right, i, j) :: Both(i, j)
  }

  lemma PartnersStep(m: Test, left: seq<Row>, right: Side, i: nat, j0: nat)
    requires i < |left| && j0 < |right.rows|
    ensures var rest := Partners(m, left[i], right.name, right.rows[j0 + 1..]);
            Partners(m, left[i], right.name, right.rows[j0..]) ==
              if Match(m, left, right, i, j0) then [Merge(left[i], right.name, right.rows[j0])] + rest else rest
  {
    hide Merge;
    assert right.rows[j0..][1..] == right.rows[j0 + 1..];
  }

  lemma {:induction false} PartnersListed(m: Test, left: seq<Row>, right: Side, i: nat, j0: nat)
    returns (os: seq<Origin>)
    requires i < |left| && j0 <= |right.rows|
    ensures Listed(Partners(m, left[i], right.name, right.rows[j0..]), left, right, os, false,
              PairsOf(m, left, right, i, j0))
    decreases |right.rows| - j0
  {
    hide Merge, Listed;
    if j0 == |right.rows| {
      os := [];
      assert right.rows[j0..] == [];
      ListedNone(left, right, false, PairsOf(m, left, right, i, j0));
    } else {
      PartnersStep(m, left, right, i, j0);
      var rest := PartnersListed(m, left, right, i, j0 + 1);
      var row := Merge(left[i], right.name, right.rows[j0]);
      if Match(m, left, right, i, j0) {
        var head := iset{Both(i, j0)};
        ListedOne(left, right, Both(i, j0), false, head);
        ListedBoth(left, right, false, [row], [Both(i, j0)], head,
          Partners(m, left[i], right.name, right.rows[j0 + 1..]), rest, PairsOf(m, left, right, i, j0 + 1),
          PairsOf(m, left, right, i, j0));
        os := [Both(i, j0)] + rest;
      } else {
        assert PairsOf(m, left, right, i, j0) == PairsOf(m, left, right, i, j0 + 1);
        os := rest;
      }
    }
  }

  /** What a loop over the left rows owes from the `i0`-th on; with `keep` also for
      rows without a partner. */
  ghost function FromLeft(m: Test, left: seq<Row>, right: Side, i0: int, keep: bool): iset<Origin>
    requires 0 <= i0
  {
    iset o: Origin | (o.Both? && i0 <= o.i < |left| && 0 <= o.j < |right.rows| && Match(m, left, right, o.i, o.j))
                     || (keep && o.OnlyLeft? && i0 <= o.i < |left| && Alone(m, left, right, o.i))
  }

  function LeftLoop(m: Test, left: seq<Row>, right: Side, keep: bool): seq<Row> {
    if keep then LeftRows(ByLoop(m, right), left, right) else InnerRows(ByLoop(m, right), left)
  }

  /** What one left row contributes. */
  function LeftTurnRows(m: Test, left: seq<Row>, right: Side, i: nat, keep: bool): seq<Row>
    requires i < |left|
  {
    var found := Partners(m, left[i], right.name, right.rows);
    if keep && found == [] then [Padded(left[i], right)] else found
  }

  lemma LeftStep(m: Test, left: seq<Row>, right: Side, i: nat, keep: bool)
    requires i < |left|
    ensures LeftLoop(m, left[i..], right, keep) ==
              LeftTurnRows(m, left, right, i, keep) + LeftLoop(m, left[i + 1..], right, keep)
  {
    hide Padded, Partners;
    assert left[i..][1..] == left[i + 1..] && left[i..][0] == left[i];
  }

  ghost function OfLeft(m: Test, left: seq<Row>, right: Side, i: int, keep: bool): iset<Origin>
    requires 0 <= i < |left|
  {
    if keep && Alone(m, left, right, i) then iset{OnlyLeft(i)} else PairsOf(m, left, right, i, 0)
  }

  lemma LeftTurnListed(m: Test, left: seq<Row>, right: Side, i: nat, keep: bool) returns (os: seq<Origin>)
    requires i < |left|
    ensures Listed(LeftTurnRows(m, left, right, i, keep), left, right, os, false, OfLeft(m, left, right, i, keep))
  {
    hide Listed, Partners, Padded, PairsOf, Alone;
    assert right.rows[0..] == right.rows;
    PartnersEmpty(m, left, right, i);
    if keep && Alone(m, left, right, i) {
      os := [OnlyLeft(i)];
      ListedOne(left, right, OnlyLeft(i), false, OfLeft(m, left, right, i, keep));
    } else {
      os := PartnersListed(m, left, right, i, 0);
    }
  }

  lemma {:induction false} LeftListed(m: Test, left: seq<Row>, right: Side, i0: nat, keep: bool)
    returns (os: seq<Origin>)
    requires i0 <= |left|
    ensures Listed(LeftLoop(m, left[i0..], right, keep), left, right, os, false, FromLeft(m, left, right, i0, keep))
    decreases |left| - i0
  {
    hide Listed, LeftLoop, LeftTurnRows, Match, Alone;
    if i0 == |left| {
      os := [];
      NoLeft(m, left, right, keep);
      ListedNone(left, right, false, FromLeft(m, left, right, i0, keep));
    } else {
      LeftStep(m, left, right, i0, keep);
      var now := LeftTurnListed(m, left, right, i0, keep);
      var rest := LeftListed(m, left, right, i0 + 1, keep);
      AloneHasNone(m, left, right, i0);
      ListedBoth(left, right, false, LeftTurnRows(m, left, right, i0, keep), now, OfLeft(m, left, right, i0, keep),
        LeftLoop(m, left[i0 + 1..], right, keep), rest, FromLeft(m, left, right, i0 + 1, keep),
        FromLeft(m, left, right, i0, keep));
      os := now + rest;
    }
  }

  lemma NoLeft(m: Test, left: seq<Row>, right: Side, keep: bool)
    ensures LeftLoop(m, left[|left|..], right, keep) == []
  {
  }

  lemma AloneHasNone(m: Test, left: seq<Row>, right: Side, i: nat)
    requires i < |left|
    ensures Alone(m, left, right, i) ==> forall j :: 0 <= j < |right.rows| ==> !Match(m, left, right, i, j)
  {
    hide Match;
  }

  // ---------------------------------------------------------------- loops over the right rows

  ghost function ColumnOf(m: Test, left: seq<Row>, right: Side, i0: int, j: int): iset<Origin>
    requires 0 <= j < |right.rows| && 0 <= i0
  {
    iset i | i0 <= i < |left| && Match(m, left, right, i, j) :: Both(i, j)
  }

  lemma ColumnStep(m: Test, left: seq<Row>, right: Side, i: nat, j: nat)
    requires i < |left| && j < |right.rows|
    ensures var rest := LeftPartners(m, left[i + 1..], right.name, right.rows[j]);
            LeftPartners(m, left[i..], right.name, right.rows[j]) ==
              if Match(m, left, right, i, j) then [Merge(left[i], right.name, right.rows[j])] + rest else rest
  {
    hide Merge;
    assert left[i..][1..] == left[i + 1..];
  }

  lemma {:induction false} ColumnListed(m: Test, left: seq<Row>, right: Side, i0: nat, j: nat)
    returns (os: seq<Origin>)
    requires i0 <= |left| && j < |right.rows|
    ensures Listed(LeftPartners(m, left[i0..], right.name, right.rows[j]), left, right, os, true,
              ColumnOf(m, left, right, i0, j))
    decreases |left| - i0
  {
    hide Merge, Listed;
    if i0 == |left| {
      os := [];
      assert left[i0..] == [];
      ListedNone(left, right, true, ColumnOf(m, left, right, i0, j));
    } else {
      ColumnStep(m, left, right, i0, j);
      var rest := ColumnListed(m, left, right, i0 + 1, j);
      var row := Merge(left[i0], right.name, right.rows[j]);
      if Match(m, left, right, i0, j) {
        var head := iset{Both(i0, j)};
        ListedOne(left, right, Both(i0, j), true, head);
        ListedBoth(left, right, true, [row], [Both(i0, j)], head,
          LeftPartners(m, left[i0 + 1..], right.name, right.rows[j]), rest, ColumnOf(m, left, right, i0 + 1, j),
          ColumnOf(m, left, right, i0, j));
        os := [Both(i0, j)] + rest;
      } else {
        assert ColumnOf(m, left, right, i0, j) == ColumnOf(m, left, right, i0 + 1, j);
        os := rest;
      }
    }
  }

  /** What a loop over the right rows owes from the `j0`-th on: with `pairs` the
      matching pairs, and in any case the rows without a partner. */
  ghost function FromRight(m: Test, left: seq<Row>, right: Side, j0: int, pairs: bool): iset<Origin>
    requires 0 <= j0
  {
    iset o: Origin | (pairs && o.Both? && 0 <= o.i < |left| && j0 <= o.j < |right.rows|
                      && Match(m, left, right, o.i, o.j))
                     || (o.OnlyRight? && j0 <= o.j < |right.rows| && AloneRight(m, left, right, o.j))
  }

  function RightLoop(m: Test, left: seq<Row>, right: Side, rows2: seq<Row>, pairs: bool): seq<Row> {
    if pairs then RightRows(m, left, LeftColumns(left), right, rows2)
    else RightOnlyRows(m, left, LeftColumns(left), right, rows2)
  }

  function RightTurnRows(m: Test, left: seq<Row>, right: Side, j: nat, pairs: bool): seq<Row>
    requires j < |right.rows|
  {
    var found := LeftPartners(m, left, right.name, right.rows[j]);
    if found == [] then [RightOnly(LeftColumns(left), right, right.rows[j])] else if pairs then found else []
  }

  lemma RightStep(m: Test, left: seq<Row>, right: Side, j: nat, pairs: bool)
    requires j < |right.rows|
    ensures RightLoop(m, left, right, right.rows[j..], pairs) ==
              RightTurnRows(m, left, right, j, pairs) + RightLoop(m, left, right, right.rows[j + 1..], pairs)
  {
    hide RightOnly, LeftPartners;
    assert right.rows[j..][1..] == right.rows[j + 1..] && right.rows[j..][0] == right.rows[j];
  }

  ghost function OfRight(m: Test, left: seq<Row>, right: Side, j: int, pairs: bool): iset<Origin>
    requires 0 <= j < |right.rows|
  {
    if AloneRight(m, left, right, j) then iset{OnlyRight(j)}
    else if pairs then ColumnOf(m, left, right, 0, j) else iset{}
  }

  lemma RightTurnListed(m: Test, left: seq<Row>, right: Side, j: nat, pairs: bool) returns (os: seq<Origin>)
    requires j < |right.rows|
    ensures Listed(RightTurnRows(m, left, right, j, pairs), left, right, os, pairs, OfRight(m, left, right, j, pairs))
  {
    hide Listed, LeftPartners, RightOnly, ColumnOf;
    assert left[0..] == left;
    LeftPartnersEmpty(m, left, right.name, right.rows[j]);
    assert AloneRight(m, left, right, j) <==> LeftPartners(m, left, right.name, right.rows[j]) == [] by {
      assert forall i :: 0 <= i < |left| ==>
             Match(m, left, right, i, j) == m(Merge(left[i], right.name, right.rows[j]));
    }
    hide AloneRight;
    if AloneRight(m, left, right, j) {
      os := [OnlyRight(j)];
      ListedOne(left, right, OnlyRight(j), pairs, OfRight(m, left, right, j, pairs));
    } else if pairs {
      os := ColumnListed(m, left, right, 0, j);
    } else {
      os := [];
      ListedNone(left, right, pairs, OfRight(m, left, right, j, pairs));
    }
  }

  lemma {:induction false} RightListed(m: Test, left: seq<Row>, right: Side, j0: nat, pairs: bool)
    returns (os: seq<Origin>)
    requires j0 <= |right.rows|
    ensures Listed(RightLoop(m, left, right, right.rows[j0..], pairs), left, right, os, pairs,
              FromRight(m, left, right, j0, pairs))
    decreases |right.rows| - j0
  {
    hide Listed, RightLoop, RightTurnRows, Match, AloneRight;
    if j0 == |right.rows| {
      os := [];
      NoRightLoop(m, left, right, pairs);
      ListedNone(left, right, pairs, FromRight(m, left, right, j0, pairs));
    } else {
      RightStep(m, left, right, j0, pairs);
      var now := RightTurnListed(m, left, right, j0, pairs);
      var rest := RightListed(m, left, right, j0 + 1, pairs);
      AloneRightHasNone(m, left, right, j0);
      ListedBoth(left, right, pairs, RightTurnRows(m, left, right, j0, pairs), now, OfRight(m, left, right, j0, pairs),
        RightLoop(m, left, right, right.rows[j0 + 1..], pairs), rest, FromRight(m, left, right, j0 + 1, pairs),
        FromRight(m, left, right, j0, pairs));
      os := now + rest;
    }
  }

  lemma NoRightLoop(m: Test, left: seq<Row>, right: Side, pairs: bool)
    ensures RightLoop(m, left, right, right.rows[|right.rows|..], pairs) == []
  {
  }

  lemma AloneRightHasNone(m: Test, left: seq<Row>, right: Side, j: nat)
    requires j < |right.rows|
    ensures AloneRight(m, left, right, j) ==> forall i :: 0 <= i < |left| ==> !Match(m, left, right, i, j)
  {
    hide Match;
  }

  // ---------------------------------------------------------------- the four joins

  /** FULL OUTER: the left loop with padding, and then the unmatched right rows. */
  lemma FullListed(m: Test, left: seq<Row>, right: Side) returns (os: seq<Origin>)
    ensures Listed(FullRows(m, left, right), left, right, os, false,
              FromLeft(m, left, right, 0, true) + FromRight(m, left, right, 0, false))
  {
    hide Listed, Match, Alone, AloneRight, LeftRows, RightOnlyRows;
    assert left[0..] == left && right.rows[0..] == right.rows;
    var first := LeftListed(m, left, right, 0, true);
    var rest := RightListed(m, left, right, 0, false);
    ListedBoth(left, right, false, LeftLoop(m, left, right, true), first, FromLeft(m, left, right, 0, true),
      RightLoop(m, left, right, right.rows, false), rest, FromRight(m, left, right, 0, false),
      FromLeft(m, left, right, 0, true) + FromRight(m, left, right, 0, false));
    os := first + rest;
  }
}
