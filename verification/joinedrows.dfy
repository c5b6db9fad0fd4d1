/** What the rows of a join show, name by name. */
module JoinedRows {
  import opened Wrappers
  import opened Values
  import opened Joins
  import opened OuterJoins

  /** The name belongs to one of the columns, bare or qualified. */
  ghost predicate Named(table: string, columns: seq<string>, name: string) {
    name in columns || exists c :: c in columns && name == QualifiedName(table, c)
  }

  /** A merged row shows the columns of the row that came last under their qualified
      names; any other name shows what it did before, and a bare column of the
      last row only if the name was free. */
  lemma MergeExactly(acc: Row, table: string, row: Row, name: string)
    ensures forall c :: c in row.cols && name == QualifiedName(table, c) ==>
              Merge(acc, table, row).Get(name) == Some(row.GetOrNull(c))
    ensures (forall c :: c in row.cols ==> name != QualifiedName(table, c)) ==>
              Merge(acc, table, row).Get(name) ==
                if acc.Has(name) then acc.Get(name)
                else if name in row.cols then Some(row.GetOrNull(name)) else None
  {
    forall c | c in row.cols && name == QualifiedName(table, c)
      ensures Merge(acc, table, row).Get(name) == Some(row.GetOrNull(c))
    {
      MergeBrings(acc, table, row, row.cols, c);
    }
    if forall c :: c in row.cols ==> name != QualifiedName(table, c) {
      assert forall i :: 0 <= i < |row.cols| ==> row.cols[i] in row.cols;
      MergeShows(acc, table, row, row.cols, name);
    }
  }

  lemma {:induction false} PadShows(acc: Row, table: string, columns: seq<string>, name: string)
    requires Tidy(acc)
    ensures var padded := PadColumns(acc, table, columns);
            Tidy(padded) && (padded.Has(name) <==> acc.Has(name) || Named(table, columns, name))
    decreases columns
  {
    if columns != [] {
      var q := QualifiedName(table, columns[0]);
      var acc' := acc.Put(q, Null).PutIfAbsent(columns[0], Null);
      assert Tidy(acc.Put(q, Null)) && Tidy(acc');
      PadShows(acc', table, columns[1..], name);
      assert columns == [columns[0]] + columns[1..];
      assert Named(table, columns, name) <==> name == columns[0] || name == q || Named(table, columns[1..], name);
    }
  }

  /** The columns a table brings into a join: those of its schema, or else those of
      its first row. */
  ghost predicate Brings(right: Side, name: string) {
    match right.schema
    case Some(columns) => Named(right.name, columns, name)
    case None => right.rows != [] && Named(right.name, right.rows[0].cols, name)
  }

  /** A left row without a partner shows NULL under every name the right table brings,
      and otherwise what it did. */
  lemma PaddedExactly(row1: Row, right: Side, name: string)
    ensures Padded(row1, right).Get(name) == if Brings(right, name) then Some(Null) else row1.Get(name)
  {
    var pad := Padding(right);
    if right.schema.Some? {
      PadShows(EMPTY_ROW, right.name, right.schema.value, name);
      AllPadsNull(EMPTY_ROW, right.name, right.schema.value);
    } else if right.rows != [] {
      PadShows(EMPTY_ROW, right.name, right.rows[0].cols, name);
      AllPadsNull(EMPTY_ROW, right.name, right.rows[0].cols);
    }
    OverlayShows(row1, pad, pad.cols, name);
  }

  /** A right row without a partner shows its own columns under their qualified names,
      NULL under the names of the first left row, and its bare columns under the
      names that are left. */
  lemma RightOnlyExactly(left: seq<Row>, right: Side, row2: Row, name: string)
    ensures forall c :: c in row2.cols && name == QualifiedName(right.name, c) ==>
              RightOnly(LeftColumns(left), right, row2).Get(name) == Some(row2.GetOrNull(c))
    ensures (forall c :: c in row2.cols ==> name != QualifiedName(right.name, c)) ==>
              RightOnly(LeftColumns(left), right, row2).Get(name) ==
                if left != [] && name in left[0].cols then Some(Null)
                else if name in row2.cols then Some(row2.GetOrNull(name)) else None
  {
    hide Merge, NullRow;
    MergeExactly(NullRow(EMPTY_ROW, LeftColumns(left)), right.name, row2, name);
    NullRowShows(EMPTY_ROW, LeftColumns(left), name);
  }
}
