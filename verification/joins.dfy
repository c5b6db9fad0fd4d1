/** JOIN: nested loops, the hash join for `a.x = b.y`, and the outer joins.

    A table's rows enter a join under two names per column: the qualified one,
    and the bare one if no earlier table has taken it. */
module Joins {
  import opened Wrappers
  import opened Values
  import opened Externals
  import opened Expressions
  import opened Store
  import opened KeyStrings

  // ---------------------------------------------------------------- combined rows

  function QualifiedName(table: string, column: string): string {
    table + "." + column
  }

  function MergeColumns(acc: Row, table: string, row: Row, columns: seq<string>): Row
    decreases columns
  {
    if columns == [] then acc
    else
      var v := row.GetOrNull(columns[0]);
      MergeColumns(acc.Put(QualifiedName(table, columns[0]), v).PutIfAbsent(columns[0], v), table, row, columns[1..])
  }

  /** `insert_row_qualified`: all columns of `row`, added to `acc` under `table`. */
  function Merge(acc: Row, table: string, row: Row): Row {
    MergeColumns(acc, table, row, row.cols)
  }

  /** The right-hand table of a join: its name or alias, its rows in the order
      they are visited, and its schema's columns if it has one. */
  datatype Side = Side(name: string, rows: seq<Row>, schema: Option<seq<string>>)

  function PadColumns(acc: Row, table: string, columns: seq<string>): Row
    decreases columns
  {
    if columns == [] then acc
    else PadColumns(acc.Put(QualifiedName(table, columns[0]), Null).PutIfAbsent(columns[0], Null), table, columns[1..])
  }

  /** The columns a row of the right-hand table would have brought, all NULL. */
  function Padding(right: Side): Row {
    if right.schema.Some? then PadColumns(EMPTY_ROW, right.name, right.schema.value)
    else if right.rows != [] then PadColumns(EMPTY_ROW, right.name, right.rows[0].cols)
    else EMPTY_ROW
  }

  function Overlay(acc: Row, over: Row, columns: seq<string>): Row
    decreases columns
  {
    if columns == [] then acc else Overlay(acc.Put(columns[0], over.GetOrNull(columns[0])), over, columns[1..])
  }

  /** A left row without a partner. */
  function Padded(row1: Row, right: Side): Row {
    Overlay(row1, Padding(right), Padding(right).cols)
  }

  function NullRow(acc: Row, columns: seq<string>): Row
    decreases columns
  {
    if columns == [] then acc else NullRow(acc.Put(columns[0], Null), columns[1..])
  }

  function LeftColumns(left: seq<Row>): seq<string> {
    if left == [] then [] else left[0].cols
  }

  /** A right row without a partner. */
  function RightOnly(columns: seq<string>, right: Side, row2: Row): Row {
    Merge(NullRow(EMPTY_ROW, columns), right.name, row2)
  }

  // ---------------------------------------------------------------- conditions

  datatype JoinCondition = On(e: Expr) | Using(columns: seq<string>) | Natural | Unconstrained

  /** Whether a combined row satisfies a join condition. */
  type Test = Row -> bool

  function TestOf(w: World, hits: Hits, c: JoinCondition, params: seq<Value>): Test {
    match c
    case On(e) => row => EvalWhere(w, hits, row, e, params, 0).0
    case Using(columns) => (row: Row) => forall i :: 0 <= i < |columns| ==> row.Has(columns[i])
    case Natural => row => true
    case Unconstrained => row => true
  }

  /** Which of the two tables a qualified column belongs to, and the column. */
  function SideOf(e: Expr, name1: string, name2: string): Option<(bool, string)> {
    if e.Qualified? && |e.parts| == 2 then
      if e.parts[0] == name1 then Some((true, e.parts[1]))
      else if e.parts[0] == name2 then Some((false, e.parts[1]))
      else None
    else None
  }

  /** `t1.c1 = t2.c2`, in either order. */
  function ExtractEquiJoin(c: JoinCondition, name1: string, name2: string): Option<(string, string)> {
    if c.On? && c.e.Binary? && c.e.op.Eq? then
      var l, r := SideOf(c.e.left, name1, name2), SideOf(c.e.right, name1, name2);
      if l.Some? && r.Some? && l.value.0 && !r.value.0 then Some((l.value.1, r.value.1))
      else if l.Some? && r.Some? && !l.value.0 && r.value.0 then Some((r.value.1, l.value.1))
      else None
    else None
  }

  // ---------------------------------------------------------------- nested loops

  /** The combinations of one left row with the right rows that satisfy the test. */
  function Partners(m: Test, row1: Row, name2: string, rows2: seq<Row>): seq<Row>
    decreases rows2
  {
    if rows2 == [] then []
    else (if m(Merge(row1, name2, rows2[0])) then [Merge(row1, name2, rows2[0])]
      else []) + Partners(m, row1, name2, rows2[1..])
  }

  /** How the partners of a left row are found: by a nested loop or by hashing. */
  type Finder = Row -> seq<Row>

  function ByLoop(m: Test, right: Side): Finder {
    row1 => Partners(m, row1, right.name, right.rows)
  }

  function InnerRows(find: Finder, left: seq<Row>): seq<Row>
    decreases left
  {
    if left == [] then [] else find(left[0]) + InnerRows(find, left[1..])
  }

  function LeftRows(find: Finder, left: seq<Row>, right: Side): seq<Row>
    decreases left
  {
    if left == [] then []
    else (if find(left[0]) == [] then [Padded(left[0], right)] else find(left[0])) + LeftRows(find, left[1..], right)
  }

  /** The combinations of one right row with the left rows. */
  function LeftPartners(m: Test, left: seq<Row>, name2: string, row2: Row): seq<Row>
    decreases left
  {
    if left == [] then []
    else (if m(Merge(left[0], name2, row2)) then [Merge(left[0], name2, row2)]
      else []) + LeftPartners(m, left[1..], name2, row2)
  }

  function RightRows(m: Test, left: seq<Row>, columns: seq<string>, right: Side, rows2: seq<Row>): seq<Row>
    decreases rows2
  {
    if rows2 == [] then []
    else
      var found := LeftPartners(m, left, right.name, rows2[0]);
      (if found == [] then [RightOnly(columns, right, rows2[0])]
        else found) + RightRows(m, left, columns, right, rows2[1..])
  }

  /** The right rows without any partner, one row each. */
  function RightOnlyRows(m: Test, left: seq<Row>, columns: seq<string>, right: Side, rows2: seq<Row>): seq<Row>
    decreases rows2
  {
    if rows2 == [] then []
    else (if LeftPartners(m, left, right.name, rows2[0]) == [] then [RightOnly(columns, right, rows2[0])] else [])
         + RightOnlyRows(m, left, columns, right, rows2[1..])
  }

  /** FULL OUTER: everything LEFT OUTER gives, and then the unmatched right rows. */
  function FullRows(m: Test, left: seq<Row>, right: Side): seq<Row> {
    LeftRows(ByLoop(m, right), left, right) + RightOnlyRows(m, left, LeftColumns(left), right, right.rows)
  }

  // ---------------------------------------------------------------- hash join

  /** The rows that have `column`, with the given key string, in their order. */
  function Bucket(w: World, rows2: seq<Row>, column: string, key: string): seq<Row>
    decreases rows2
  {
    if rows2 == [] then []
    else (if rows2[0].Has(column) && KeyString(w, rows2[0].vals[column]) == key then [rows2[0]] else [])
         + Bucket(w, rows2[1..], column, key)
  }

  function MergeAll(row1: Row, name2: string, rows2: seq<Row>): seq<Row>
    decreases rows2
  {
    if rows2 == [] then [] else [Merge(row1, name2, rows2[0])] + MergeAll(row1, name2, rows2[1..])
  }

  function HashPartners(w: World, row1: Row, q1: string, right: Side, column: string): seq<Row> {
    if row1.Has(q1) then MergeAll(row1, right.name, Bucket(w, right.rows, column, KeyString(w, row1.vals[q1]))) else []
  }

  function ByHash(w: World, q1: string, right: Side, column: string): Finder {
    row1 => HashPartners(w, row1, q1, right, column)
  }

  // ---------------------------------------------------------------- names

  predicate DotFree(name: string) {
    forall i :: 0 <= i < |name| ==> name[i] != '.'
  }

  function BeforeDot(q: string): string {
    if q == [] || q[0] == '.' then [] else [q[0]] + BeforeDot(q[1..])
  }

  lemma {:induction false} TableOfQualified(t: string, c: string)
    requires DotFree(t)
    ensures BeforeDot(QualifiedName(t, c)) == t
  {
    if t != [] {
      assert QualifiedName(t, c)[1..] == QualifiedName(t[1..], c);
      TableOfQualified(t[1..], c);
      assert t == [t[0]] + t[1..];
    }
  }

  lemma QualifiedNamesDiffer(t: string, c: string, t': string, c': string)
    requires DotFree(t) && DotFree(t') && QualifiedName(t, c) == QualifiedName(t', c')
    ensures t == t' && c == c'
  {
    TableOfQualified(t, c);
    TableOfQualified(t', c');
    assert c == QualifiedName(t, c)[|t| + 1..];
    assert c' == QualifiedName(t', c')[|t'| + 1..];
  }

  /** A merged row under a name that is not one of its qualified ones. */
  lemma {:induction false} MergeShows(acc: Row, table: string, row: Row, columns: seq<string>, key: string)
    requires forall i :: 0 <= i < |columns| ==> key != QualifiedName(table, columns[i])
    ensures MergeColumns(acc, table, row, columns).Get(key) ==
              if acc.Has(key) then acc.Get(key) else if key in columns then Some(row.GetOrNull(key)) else None
    decreases columns
  {
    if columns != [] {
      var v := row.GetOrNull(columns[0]);
      assert key != QualifiedName(table, columns[0]);
      assert columns == [columns[0]] + columns[1..];
      MergeShows(acc.Put(QualifiedName(table, columns[0]), v).PutIfAbsent(columns[0], v), table, row, columns[1..],
        key);
    }
  }

  lemma {:induction false} MergeBrings(acc: Row, table: string, row: Row, columns: seq<string>, c: string)
    requires c in columns
    ensures MergeColumns(acc, table, row, columns).Get(QualifiedName(table, c)) == Some(row.GetOrNull(c))
    decreases columns
  {
    var q, v := QualifiedName(table, columns[0]), row.GetOrNull(columns[0]);
    var acc' := acc.Put(q, v).PutIfAbsent(columns[0], v);
    if c in columns[1..] {
      MergeBrings(acc', table, row, columns[1..], c);
    } else {
      assert columns == [columns[0]] + columns[1..];
      forall i | 0 <= i < |columns[1..]| ensures q != QualifiedName(table, columns[1..][i]) {
        SuffixesDiffer(table, c, columns[1..][i]);
      }
      MergeShows(acc', table, row, columns[1..], q);
    }
  }

  lemma SuffixesDiffer(t: string, c: string, c': string)
    requires c != c'
    ensures QualifiedName(t, c) != QualifiedName(t, c')
  {
    assert c == QualifiedName(t, c)[|t| + 1..];
    assert c' == QualifiedName(t, c')[|t| + 1..];
  }

  // ---------------------------------------------------------------- what a combined row shows

  /** A row of the first table, as it enters the join. */
  ghost predicate Enters(row1: Row, name1: string, stored: Row) {
    row1 == Merge(EMPTY_ROW, name1, stored)
  }

  /** The list of columns has exactly the columns of the row. */
  ghost predicate Tidy(row: Row) {
    forall c :: c in row.cols <==> row.Has(c)
  }

  /** One table's own columns, under their qualified names. */
  lemma MergeOwn(acc: Row, table: string, row: Row, c: string)
    requires Tidy(row)
    ensures row.Has(c) ==> Merge(acc, table, row).Get(QualifiedName(table, c)) == Some(row.vals[c])
    ensures !row.Has(c) && !row.Has(QualifiedName(table, c)) ==>
              Merge(acc, table, row).Get(QualifiedName(table, c)) == acc.Get(QualifiedName(table, c))
  {
    var q := QualifiedName(table, c);
    if row.Has(c) {
      MergeBrings(acc, table, row, row.cols, c);
    } else {
      forall i | 0 <= i < |row.cols| ensures q != QualifiedName(table, row.cols[i]) {
        SuffixesDiffer(table, c, row.cols[i]);
      }
      MergeShows(acc, table, row, row.cols, q);
    }
  }

  /** Another table's qualified names are none of this table's. */
  lemma MergeOther(acc: Row, table: string, row: Row, t: string, c: string)
    requires Tidy(row) && DotFree(table) && DotFree(t) && t != table
    ensures acc.Has(QualifiedName(t, c)) || !row.Has(QualifiedName(t, c)) ==>
              Merge(acc, table, row).Get(QualifiedName(t, c)) == acc.Get(QualifiedName(t, c))
  {
    var q := QualifiedName(t, c);
    forall i | 0 <= i < |row.cols| ensures q != QualifiedName(table, row.cols[i]) {
      if q == QualifiedName(table, row.cols[i]) { QualifiedNamesDiffer(t, c, table, row.cols[i]); }
    }
    MergeShows(acc, table, row, row.cols, q);
  }

  /** A bare name: the row that came first has it. */
  lemma MergeBare(acc: Row, table: string, row: Row, c: string)
    requires Tidy(row) && DotFree(c)
    ensures Merge(acc, table, row).Get(c) == if acc.Has(c) then acc.Get(c) else row.Get(c)
  {
    forall i | 0 <= i < |row.cols| ensures c != QualifiedName(table, row.cols[i]) {
      assert QualifiedName(table, row.cols[i])[|table|] == '.';
    }
    MergeShows(acc, table, row, row.cols, c);
  }

  /** A row without the column `c` has none, and the other row neither, that looks
      like its qualified name `q`. */
  ghost predicate Unmistaken(row: Row, other: Row, c: string, q: string) {
    !row.Has(c) ==> DotFree(c) && !row.Has(q) && !other.Has(q)
  }

  /** The column, if it is there, holds a value the engine can hold. */
  ghost predicate StorableAt(row: Row, c: string) {
    row.Has(c) ==> Storable(row.vals[c])
  }

  /** Two stored rows whose columns an equi-join can look up. */
  ghost predicate Joinable(name1: string, stored: Row, c1: string, name2: string, row2: Row, c2: string) {
    && DotFree(name1) && DotFree(name2) && name1 != name2 && Tidy(stored) && Tidy(row2)
    && StorableAt(stored, c1) && StorableAt(row2, c2)
    && Unmistaken(stored, row2, c1, QualifiedName(name1, c1)) && Unmistaken(row2, stored, c2, QualifiedName(name2, c2))
  }

  /** What the join condition reads for a column: the row's own, or else the bare
      column of that name of the other row, or else NULL. */
  function Sees(row: Row, c: string, other: Row): Value {
    if row.Has(c) then row.vals[c] else other.GetOrNull(c)
  }

  /** What a combined row shows under the two names of an equi-join: the columns
      of the two rows, whatever bare names they share. */
  lemma CombinedValues(row1: Row, name1: string, stored: Row, c1: string, name2: string, row2: Row, c2: string)
    requires Enters(row1, name1, stored) && Joinable(name1, stored, c1, name2, row2, c2)
    ensures row1.Get(QualifiedName(name1, c1)) == stored.Get(c1)
    ensures Merge(row1, name2, row2).Get(QualifiedName(name1, c1)) == stored.Get(c1)
    ensures Merge(row1, name2, row2).Get(QualifiedName(name2, c2)) == row2.Get(c2)
  {
    hide Merge;
    MergeOwn(EMPTY_ROW, name1, stored, c1);
    MergeOwn(row1, name2, row2, c2);
    MergeOther(row1, name2, row2, name1, c1);
    MergeOther(EMPTY_ROW, name1, stored, name2, c2);
  }

  /** And under their bare names, where a row does not have the column. */
  lemma CombinedBare(row1: Row, name1: string, stored: Row, c1: string, name2: string, row2: Row, c2: string)
    requires Enters(row1, name1, stored) && Joinable(name1, stored, c1, name2, row2, c2)
    ensures !stored.Has(c1) ==> Merge(row1, name2, row2).GetOrNull(c1) == row2.GetOrNull(c1)
    ensures !row2.Has(c2) ==> Merge(row1, name2, row2).GetOrNull(c2) == stored.GetOrNull(c2)
  {
    hide Merge;
    if !stored.Has(c1) { MergeBare(EMPTY_ROW, name1, stored, c1); MergeBare(row1, name2, row2, c1); }
    if !row2.Has(c2) { MergeBare(EMPTY_ROW, name1, stored, c2); MergeBare(row1, name2, row2, c2); }
  }

  /** A qualified column falls back to the bare one. */
  lemma QualifiedReads(w: World, row: Row, t: string, c: string, params: seq<Value>, k: nat)
    ensures Eval(w, Qualified([t, c]), Some(row), params, k) ==
              (if row.Has(QualifiedName(t, c)) then row.vals[QualifiedName(t, c)] else row.GetOrNull(c), k)
  {
    assert [t, c][1..] == [c];
    assert JoinDots([t, c]) == t + "." + c;
  }

  /** What the condition reads from a combined row under a qualified name. */
  function Read(row: Row, t: string, c: string): Value {
    if row.Has(QualifiedName(t, c)) then row.vals[QualifiedName(t, c)] else row.GetOrNull(c)
  }

  /** The condition of an equi-join compares the two columns it reads. */
  lemma EquiJoinTests(w: World, hits: Hits, c: JoinCondition, params: seq<Value>, name1: string, name2: string,
      c1: string, c2: string, row: Row)
    requires ExtractEquiJoin(c, name1, name2) == Some((c1, c2))
    ensures TestOf(w, hits, c, params)(row) == Same(Read(row, name1, c1), Read(row, name2, c2))
  {
    var v1, v2 := Read(row, name1, c1), Read(row, name2, c2);
    QualifiedReads(w, row, name1, c1, params, 0);
    QualifiedReads(w, row, name2, c2, params, 0);
    assert Same(v1, v2) == Same(v2, v1);
    var e := c.e;
    if e.left.parts[0] == name1 {
      assert e.left.parts == [name1, c1] && e.right.parts == [name2, c2];
      assert Eval(w, e, Some(row), params, 0).0 == BoolVal(Same(v1, v2));
    } else {
      assert e.left.parts == [name2, c2] && e.right.parts == [name1, c1];
      assert Eval(w, e, Some(row), params, 0).0 == BoolVal(Same(v2, v1));
    }
  }

  // ---------------------------------------------------------------- one pair of rows

  /** Nested loop and hash table treat a pair of rows alike: what the condition
      reads is `==` just when both rows have their column and the two values are
      identical. */
  ghost predicate PairAgrees(stored: Row, c1: string, row2: Row, c2: string) {
    Same(Sees(stored, c1, row2), Sees(row2, c2, stored)) <==>
      stored.Has(c1) && row2.Has(c2) && stored.vals[c1] == row2.vals[c2]
  }

  ghost predicate AllPairsAgree(stored: seq<Row>, c1: string, rows2: seq<Row>, c2: string) {
    forall i, j :: 0 <= i < |stored| && 0 <= j < |rows2| ==> PairAgrees(stored[i], c1, rows2[j], c2)
  }

  /** Everything an equi-join between two tables needs to know about its input. */
  ghost predicate EquiJoin(c: JoinCondition, name1: string, left: seq<Row>, stored: seq<Row>, right: Side, c1: string,
      c2: string) {
    && ExtractEquiJoin(c, name1, right.name) == Some((c1, c2))
    && |left| == |stored|
    && (forall i :: 0 <= i < |left| ==> Enters(left[i], name1, stored[i]))
    && (forall i, j :: 0 <= i < |left| && 0 <= j < |right.rows| ==>
         Joinable(name1, stored[i], c1, right.name, right.rows[j], c2))
  }

  /** The test of the nested loop on a pair. */
  lemma PairTest(w: World, hits: Hits, c: JoinCondition, params: seq<Value>, name1: string, row1: Row, stored: Row,
      name2: string, row2: Row, c1: string, c2: string)
    requires ExtractEquiJoin(c, name1, name2) == Some((c1, c2))
    requires Enters(row1, name1, stored) && Joinable(name1, stored, c1, name2, row2, c2)
    ensures TestOf(w, hits, c, params)(Merge(row1, name2, row2)) == Same(Sees(stored, c1, row2), Sees(row2, c2, stored))
  {
    hide TestOf, Merge, Same, Enters, Joinable;
    CombinedValues(row1, name1, stored, c1, name2, row2, c2);
    CombinedBare(row1, name1, stored, c1, name2, row2, c2);
    EquiJoinTests(w, hits, c, params, name1, name2, c1, c2, Merge(row1, name2, row2));
  }

  // ---------------------------------------------------------------- the hash join is the nested loop

  /** Whether the hash join puts a right row with this left row. */
  predicate Hashed(w: World, row1: Row, q1: string, row2: Row, c2: string) {
    row1.Has(q1) && row2.Has(c2) && KeyString(w, row2.vals[c2]) == KeyString(w, row1.vals[q1])
  }

  lemma {:induction false} HashPartnersAgree(w: World, m: Test, row1: Row, q1: string, name2: string, rows2: seq<Row>,
      c2: string)
    requires row1.Has(q1)
    requires forall j :: 0 <= j < |rows2| ==> m(Merge(row1, name2, rows2[j])) == Hashed(w, row1, q1, rows2[j], c2)
    ensures MergeAll(row1, name2, Bucket(w, rows2, c2, KeyString(w, row1.vals[q1]))) == Partners(m, row1, name2, rows2)
    decreases rows2
  {
    hide Merge, KeyString;
    if rows2 != [] {
      assert m(Merge(row1, name2, rows2[0])) == Hashed(w, row1, q1, rows2[0], c2);
      HashPartnersAgree(w, m, row1, q1, name2, rows2[1..], c2);
      var rest := Bucket(w, rows2[1..], c2, KeyString(w, row1.vals[q1]));
      assert ([rows2[0]] + rest)[1..] == rest && [] + rest == rest;
    }
  }

  lemma {:induction false} NothingFound(m: Test, row1: Row, name2: string, rows2: seq<Row>)
    requires forall j :: 0 <= j < |rows2| ==> !m(Merge(row1, name2, rows2[j]))
    ensures Partners(m, row1, name2, rows2) == []
    decreases rows2
  {
    hide Merge;
    if rows2 != [] { NothingFound(m, row1, name2, rows2[1..]); }
  }

  lemma JoinableValues(name1: string, stored: Row, c1: string, name2: string, row2: Row, c2: string)
    requires Joinable(name1, stored, c1, name2, row2, c2)
    ensures StorableAt(stored, c1) && StorableAt(row2, c2)
  {
  }

  lemma HashedMeans(w: World, name1: string, row1: Row, stored: Row, name2: string, row2: Row, c1: string, c2: string)
    requires w.PrintsDoublesApart() && Enters(row1, name1, stored) && Joinable(name1, stored, c1, name2, row2, c2)
    ensures Hashed(w, row1, QualifiedName(name1, c1), row2, c2) <==>
              stored.Has(c1) && row2.Has(c2) && stored.vals[c1] == row2.vals[c2]
  {
    hide Enters, Joinable, KeyString;
    CombinedValues(row1, name1, stored, c1, name2, row2, c2);
    if stored.Has(c1) && row2.Has(c2) {
      JoinableValues(name1, stored, c1, name2, row2, c2);
      KeyStringInjective(w, row2.vals[c2], stored.vals[c1]);
    }
  }

  lemma HashPartnersOf(w: World, hits: Hits, c: JoinCondition, params: seq<Value>, name1: string, left: seq<Row>,
      stored: seq<Row>, right: Side, c1: string, c2: string, i: nat)
    requires w.PrintsDoublesApart() && EquiJoin(c, name1, left, stored, right, c1, c2) && i < |left|
    requires AllPairsAgree(stored, c1, right.rows, c2)
    ensures HashPartners(w, left[i], QualifiedName(name1, c1), right, c2) ==
              Partners(TestOf(w, hits, c, params), left[i], right.name, right.rows)
  {
    hide TestOf, Same, Merge, KeyString, Joinable, Enters;
    var m, q1 := TestOf(w, hits, c, params), QualifiedName(name1, c1);
    forall j | 0 <= j < |right.rows|
      ensures m(Merge(left[i], right.name, right.rows[j])) == Hashed(w, left[i], q1, right.rows[j], c2)
    {
      PairTest(w, hits, c, params, name1, left[i], stored[i], right.name, right.rows[j], c1, c2);
      HashedMeans(w, name1, left[i], stored[i], right.name, right.rows[j], c1, c2);
      assert PairAgrees(stored[i], c1, right.rows[j], c2);
    }
    if left[i].Has(q1) {
      HashPartnersAgree(w, m, left[i], q1, right.name, right.rows, c2);
    } else {
      NothingFound(m, left[i], right.name, right.rows);
    }
  }

  lemma {:induction false} FindersAgree(f: Finder, g: Finder, left: seq<Row>, right: Side)
    requires forall i :: 0 <= i < |left| ==> f(left[i]) == g(left[i])
    ensures InnerRows(f, left) == InnerRows(g, left) && LeftRows(f, left, right) == LeftRows(g, left, right)
    decreases left
  {
    hide Padded;
    if left != [] { FindersAgree(f, g, left[1..], right); }
  }

  /** If it treats all pairs alike, the hash join returns the nested loop's rows, in
      the nested loop's order, for INNER and for LEFT OUTER with its padding. */
  lemma {:induction false} HashJoinIsNestedLoop(w: World, hits: Hits, c: JoinCondition, params: seq<Value>,
      name1: string, left: seq<Row>, stored: seq<Row>, right: Side, c1: string, c2: string)
    requires w.PrintsDoublesApart() && EquiJoin(c, name1, left, stored, right, c1, c2)
    requires AllPairsAgree(stored, c1, right.rows, c2)
    ensures var nested, hashed := ByLoop(TestOf(w, hits, c, params), right),
              ByHash(w, QualifiedName(name1, c1), right, c2);
            && InnerRows(hashed, left) == InnerRows(nested, left)
            && LeftRows(hashed, left, right) == LeftRows(nested, left, right)
  {
    hide HashPartners, Partners, Padded, EquiJoin, AllPairsAgree, TestOf;
    EquiJoinLengths(c, name1, left, stored, right, c1, c2);
    forall i | 0 <= i < |left|
      ensures HashPartners(w, left[i], QualifiedName(name1, c1), right, c2) ==
                Partners(TestOf(w, hits, c, params), left[i], right.name, right.rows)
    {
      HashPartnersOf(w, hits, c, params, name1, left, stored, right, c1, c2, i);
    }
    var nested, hashed := ByLoop(TestOf(w, hits, c, params), right), ByHash(w, QualifiedName(name1, c1), right, c2);
    FindersAgree(hashed, nested, left, right);
  }

  lemma EquiJoinLengths(c: JoinCondition, name1: string, left: seq<Row>, stored: seq<Row>, right: Side, c1: string,
      c2: string)
    requires EquiJoin(c, name1, left, stored, right, c1, c2)
    ensures |left| == |stored|
  {
  }

  // ---------------------------------------------------------------- and only then

  lemma {:induction false} InnerMember(find: Finder, left: seq<Row>, x: Row)
    ensures x in InnerRows(find, left) <==> exists i :: 0 <= i < |left| && x in find(left[i])
    decreases left
  {
    if left != [] {
      InnerMember(find, left[1..], x);
      if i :| 0 <= i < |left| && x in find(left[i]) {
        if i > 0 { assert left[1..][i - 1] == left[i]; }
      }
    }
  }

  lemma {:induction false} LeftMember(find: Finder, left: seq<Row>, right: Side, x: Row)
    ensures x in LeftRows(find, left, right) <==>
              exists i :: 0 <= i < |left|
                && (x in find(left[i]) || (find(left[i]) == [] && x == Padded(left[i], right)))
    decreases left
  {
    hide Padded;
    if left != [] {
      LeftMember(find, left[1..], right, x);
      if i :| 0 <= i < |left| && (x in find(left[i]) || (find(left[i]) == [] && x == Padded(left[i], right))) {
        if i > 0 { assert left[1..][i - 1] == left[i]; }
      }
    }
  }

  lemma {:induction false} PartnersMember(m: Test, row1: Row, name2: string, rows2: seq<Row>, x: Row)
    ensures x in Partners(m, row1, name2, rows2) <==>
              exists j :: 0 <= j < |rows2| && m(x) && x == Merge(row1, name2, rows2[j])
    decreases rows2
  {
    hide Merge;
    if rows2 != [] {
      PartnersMember(m, row1, name2, rows2[1..], x);
      if j :| 0 <= j < |rows2| && m(x) && x == Merge(row1, name2, rows2[j]) {
        if j > 0 { assert rows2[1..][j - 1] == rows2[j]; }
      }
    }
  }

  lemma {:induction false} HashedMember(w: World, row1: Row, name2: string, rows2: seq<Row>, column: string,
      key: string, x: Row)
    ensures x in MergeAll(row1, name2, Bucket(w, rows2, column, key)) <==>
              exists j :: 0 <= j < |rows2| && rows2[j].Has(column) && KeyString(w, rows2[j].vals[column]) == key
                && x == Merge(row1, name2, rows2[j])
    decreases rows2
  {
    hide Merge, KeyString;
    if rows2 != [] {
      HashedMember(w, row1, name2, rows2[1..], column, key, x);
      var rest := Bucket(w, rows2[1..], column, key);
      assert ([rows2[0]] + rest)[1..] == rest && [] + rest == rest;
      if j :|
        && 0 <= j < |rows2| && rows2[j].Has(column)
        && KeyString(w, rows2[j].vals[column]) == key && x == Merge(row1, name2, rows2[j])
      {
        if j > 0 { assert rows2[1..][j - 1] == rows2[j]; }
      }
    }
  }

  /** Whether a combined row is in the result depends on nothing but the row: the
      nested loop tests it, and the hash table in effect compares the two columns
      it shows. */
  ghost predicate ShownAlike(x: Row, name1: string, c1: string, name2: string, c2: string) {
    x.Has(QualifiedName(name1, c1)) && x.Get(QualifiedName(name1, c1)) == x.Get(QualifiedName(name2, c2))
  }

  lemma PairMembers(w: World, hits: Hits, c: JoinCondition, params: seq<Value>, name1: string, left: seq<Row>,
      stored: seq<Row>, right: Side, c1: string, c2: string, i: nat, x: Row)
    requires w.PrintsDoublesApart() && EquiJoin(c, name1, left, stored, right, c1, c2) && i < |left|
    ensures var made := exists j :: 0 <= j < |right.rows| && x == Merge(left[i], right.name, right.rows[j]);
            && (x in ByLoop(TestOf(w, hits, c, params), right)(left[i]) <==> made && TestOf(w, hits, c, params)(x))
            && (x in ByHash(w, QualifiedName(name1, c1), right, c2)(left[i]) <==>
                 made && ShownAlike(x, name1, c1, right.name, c2))
  {
    hide Merge, KeyString, TestOf, Joinable, Enters;
    var q1 := QualifiedName(name1, c1);
    PartnersMember(TestOf(w, hits, c, params), left[i], right.name, right.rows, x);
    if left[i].Has(q1) { HashedMember(w, left[i], right.name, right.rows, c2, KeyString(w, left[i].vals[q1]), x); }
    forall j | 0 <= j < |right.rows| && x == Merge(left[i], right.name, right.rows[j])
      ensures Hashed(w, left[i], q1, right.rows[j], c2) <==> ShownAlike(x, name1, c1, right.name, c2)
    {
      CombinedValues(left[i], name1, stored[i], c1, right.name, right.rows[j], c2);
      HashedMeans(w, name1, left[i], stored[i], right.name, right.rows[j], c1, c2);
    }
  }

  // What a padded row shows under the right-hand names.

  lemma {:induction false} PadKeeps(acc: Row, table: string, columns: seq<string>, key: string)
    requires acc.Get(key) == Some(Null) && key in acc.cols
    ensures PadColumns(acc, table, columns).Get(key) == Some(Null) && key in PadColumns(acc, table, columns).cols
    decreases columns
  {
    if columns != [] {
      PadKeeps(acc.Put(QualifiedName(table, columns[0]), Null).PutIfAbsent(columns[0], Null), table, columns[1..], key);
    }
  }

  lemma {:induction false} PadBrings(acc: Row, table: string, columns: seq<string>, c: string)
    requires c in columns && forall k :: k in acc.vals ==> k in acc.cols
    ensures PadColumns(acc, table, columns).Get(QualifiedName(table, c)) == Some(Null)
    ensures QualifiedName(table, c) in PadColumns(acc, table, columns).cols
    decreases columns
  {
    var acc' := acc.Put(QualifiedName(table, columns[0]), Null).PutIfAbsent(columns[0], Null);
    if c == columns[0] {
      PadKeeps(acc', table, columns[1..], QualifiedName(table, c));
    } else {
      PadBrings(acc', table, columns[1..], c);
    }
  }

  lemma {:induction false} OverlayShows(acc: Row, over: Row, columns: seq<string>, key: string)
    ensures Overlay(acc, over, columns).Get(key) == if key in columns then Some(over.GetOrNull(key)) else acc.Get(key)
    decreases columns
  {
    if columns != [] {
      OverlayShows(acc.Put(columns[0], over.GetOrNull(columns[0])), over, columns[1..], key);
      assert columns == [columns[0]] + columns[1..];
    }
  }

  /** The right-hand columns of a padded row. */
  function PaddingColumns(right: Side): seq<string> {
    if right.schema.Some? then right.schema.value else if right.rows != [] then right.rows[0].cols else []
  }

  lemma PaddedIsNull(row1: Row, right: Side, c: string)
    requires c in PaddingColumns(right)
    ensures Padded(row1, right).Get(QualifiedName(right.name, c)) == Some(Null)
  {
    PadBrings(EMPTY_ROW, right.name, PaddingColumns(right), c);
    OverlayShows(row1, Padding(right), Padding(right).cols, QualifiedName(right.name, c));
  }

  /** A right row that cannot be taken for padding. */
  ghost predicate Tellable(right: Side, row2: Row) {
    exists c :: c in PaddingColumns(right) && row2.Has(c) && !row2.vals[c].Null?
  }

  lemma TellableIsNotPadded(row1: Row, row1': Row, right: Side, row2: Row)
    requires Tidy(row2) && Tellable(right, row2)
    ensures Merge(row1, right.name, row2) != Padded(row1', right)
  {
    hide Merge, Padded;
    var c :| c in PaddingColumns(right) && row2.Has(c) && !row2.vals[c].Null?;
    MergeOwn(row1, right.name, row2, c);
    PaddedIsNull(row1', right, c);
  }

  /** Of all rows: the hash join returns the nested loop's sequence exactly when it
      treats all pairs alike; LEFT OUTER exactly then as well, as far as the right
      rows can be told from padding. */
  lemma {:induction false} HashJoinExactly(w: World, hits: Hits, c: JoinCondition, params: seq<Value>, name1: string,
      left: seq<Row>, stored: seq<Row>, right: Side, c1: string, c2: string)
    requires w.PrintsDoublesApart() && EquiJoin(c, name1, left, stored, right, c1, c2)
    ensures var nested, hashed := ByLoop(TestOf(w, hits, c, params), right),
              ByHash(w, QualifiedName(name1, c1), right, c2);
            && (InnerRows(hashed, left) == InnerRows(nested, left) <==> AllPairsAgree(stored, c1, right.rows, c2))
            && (AllPairsAgree(stored, c1, right.rows, c2) ==>
                 LeftRows(hashed, left, right) == LeftRows(nested, left, right))
            && (LeftRows(hashed, left, right) == LeftRows(nested, left, right) ==>
                  forall i, j :: 0 <= i < |stored| && 0 <= j < |right.rows| && Tellable(right, right.rows[j]) ==>
                    PairAgrees(stored[i], c1, right.rows[j], c2))
  {
    hide TestOf, HashPartners, Partners, Padded, Merge, PairAgrees, Tellable, Joinable, Enters;
    var nested, hashed := ByLoop(TestOf(w, hits, c, params), right), ByHash(w, QualifiedName(name1, c1), right, c2);
    if AllPairsAgree(stored, c1, right.rows, c2) {
      HashJoinIsNestedLoop(w, hits, c, params, name1, left, stored, right, c1, c2);
    }
    forall i, j | 0 <= i < |stored| && 0 <= j < |right.rows| && !PairAgrees(stored[i], c1, right.rows[j], c2)
      ensures InnerRows(hashed, left) != InnerRows(nested, left)
      ensures Tellable(right, right.rows[j]) ==> LeftRows(hashed, left, right) != LeftRows(nested, left, right)
    {
      OddOneOut(w, hits, c, params, name1, left, stored, right, c1, c2, i, j);
    }
  }

  /** The combination of two rows that are not treated alike is in just one of the
      two results. */
  lemma OddOneOut(w: World, hits: Hits, c: JoinCondition, params: seq<Value>, name1: string, left: seq<Row>,
      stored: seq<Row>, right: Side, c1: string, c2: string, i: nat, j: nat)
    requires w.PrintsDoublesApart() && EquiJoin(c, name1, left, stored, right, c1, c2)
    requires i < |stored| && j < |right.rows| && !PairAgrees(stored[i], c1, right.rows[j], c2)
    ensures var nested, hashed := ByLoop(TestOf(w, hits, c, params), right),
              ByHash(w, QualifiedName(name1, c1), right, c2);
            && InnerRows(hashed, left) != InnerRows(nested, left)
            && (Tellable(right, right.rows[j]) ==> LeftRows(hashed, left, right) != LeftRows(nested, left, right))
  {
    hide TestOf, HashPartners, Partners, Padded, Merge, Tellable, Joinable, Enters, Same, ShownAlike;
    var nested, hashed := ByLoop(TestOf(w, hits, c, params), right), ByHash(w, QualifiedName(name1, c1), right, c2);
    var x := Merge(left[i], right.name, right.rows[j]);
    OddRow(w, hits, c, params, name1, left, stored, right, c1, c2, i, j);
    forall k | 0 <= k < |left|
      ensures x in nested(left[k]) ==> TestOf(w, hits, c, params)(x)
      ensures x in hashed(left[k]) ==> ShownAlike(x, name1, c1, right.name, c2)
      ensures Tellable(right, right.rows[j]) ==> x != Padded(left[k], right)
    {
      PairMembers(w, hits, c, params, name1, left, stored, right, c1, c2, k, x);
      if Tellable(right, right.rows[j]) { TellableIsNotPadded(left[i], left[k], right, right.rows[j]); }
    }
    PairMembers(w, hits, c, params, name1, left, stored, right, c1, c2, i, x);
    InnerMember(nested, left, x);
    InnerMember(hashed, left, x);
    LeftMember(nested, left, right, x);
    LeftMember(hashed, left, right, x);
  }

  lemma OddRow(w: World, hits: Hits, c: JoinCondition, params: seq<Value>, name1: string, left: seq<Row>,
      stored: seq<Row>, right: Side, c1: string, c2: string, i: nat, j: nat)
    requires w.PrintsDoublesApart() && EquiJoin(c, name1, left, stored, right, c1, c2)
    requires i < |stored| && j < |right.rows| && !PairAgrees(stored[i], c1, right.rows[j], c2)
    ensures Tidy(right.rows[j])
    ensures var x := Merge(left[i], right.name, right.rows[j]);
            TestOf(w, hits, c, params)(x) != ShownAlike(x, name1, c1, right.name, c2)
  {
    hide TestOf, Merge, Same, Enters;
    PairTest(w, hits, c, params, name1, left[i], stored[i], right.name, right.rows[j], c1, c2);
    CombinedValues(left[i], name1, stored[i], c1, right.name, right.rows[j], c2);
  }

  // ---------------------------------------------------------------- rows that have the columns

  /** No join value on one side meets one on the other that its key string gets
      wrong. */
  ghost predicate NoOddPairs(stored: seq<Row>, c1: string, rows2: seq<Row>, c2: string) {
    forall i, j :: 0 <= i < |stored| && 0 <= j < |rows2| && stored[i].Has(c1) && rows2[j].Has(c2) ==>
      !OddPair(stored[i].vals[c1], rows2[j].vals[c2])
  }

  lemma OddPairTellsApart(a: Value, b: Value)
    ensures OddPair(a, b) <==> Same(a, b) != (a == b)
    ensures OddPair(a, b) ==> !b.Null?
  {
  }

  /** When all rows have the join columns, INNER and LEFT are the nested loop
      exactly when no two join values are both NaN or the two zeros. */
  lemma CarriedExactly(w: World, hits: Hits, c: JoinCondition, params: seq<Value>, name1: string, left: seq<Row>,
      stored: seq<Row>, right: Side, c1: string, c2: string)
    requires w.PrintsDoublesApart() && EquiJoin(c, name1, left, stored, right, c1, c2)
    requires forall i :: 0 <= i < |stored| ==> stored[i].Has(c1)
    requires forall j :: 0 <= j < |right.rows| ==> right.rows[j].Has(c2)
    requires right.schema.Some? ==> c2 in right.schema.value
    ensures var nested, hashed := ByLoop(TestOf(w, hits, c, params), right),
              ByHash(w, QualifiedName(name1, c1), right, c2);
            && (InnerRows(hashed, left) == InnerRows(nested, left) <==> NoOddPairs(stored, c1, right.rows, c2))
            && (LeftRows(hashed, left, right) == LeftRows(nested, left, right) <==>
                 NoOddPairs(stored, c1, right.rows, c2))
  {
    hide TestOf, ByLoop, ByHash, Same, OddPair;
    HashJoinExactly(w, hits, c, params, name1, left, stored, right, c1, c2);
    forall i, j | 0 <= i < |stored| && 0 <= j < |right.rows|
      ensures PairAgrees(stored[i], c1, right.rows[j], c2) <==> !OddPair(stored[i].vals[c1], right.rows[j].vals[c2])
      ensures !PairAgrees(stored[i], c1, right.rows[j], c2) ==> Tellable(right, right.rows[j])
    {
      assert Joinable(name1, stored[i], c1, right.name, right.rows[j], c2);
      assert Joinable(name1, stored[i], c1, right.name, right.rows[0], c2);
      OddPairTellsApart(stored[i].vals[c1], right.rows[j].vals[c2]);
    }
  }

  lemma SingleColumn(v: Value)
    ensures Merge(EMPTY_ROW, "a", Row(["x"], map["x" := v])) == Row(["a.x", "x"], map["a.x" := v, "x" := v])
  {
    var row := Row(["x"], map["x" := v]);
    assert row.cols[1..] == [];
    assert QualifiedName("a", "x") == "a.x";
    var acc := EMPTY_ROW.Put("a.x", v);
    assert acc == Row(["a.x"], map["a.x" := v]);
    assert "x" !in acc.vals by { assert |"x"| != |"a.x"|; }
    assert acc.PutIfAbsent("x", v) == Row(["a.x", "x"], map["a.x" := v, "x" := v]);
    assert Merge(EMPTY_ROW, "a", row) == MergeColumns(acc.PutIfAbsent("x", v), "a", row, []);
  }

  /** A right row without the join column: the hash table does not hold it, but
      the nested loop reads the left table's column of that name instead. */
  lemma MissingColumnWitness(w: World, hits: Hits)
    ensures var c := On(Binary(Qualified(["a", "x"]), Eq, Qualified(["b", "x"])));
            var left, right := [Merge(EMPTY_ROW, "a", Row(["x"], map["x" := Integer(1)]))],
              Side("b", [EMPTY_ROW], None);
            && ExtractEquiJoin(c, "a", "b") == Some(("x", "x"))
            && InnerRows(ByHash(w, "a.x", right, "x"), left) == []
            && InnerRows(ByLoop(TestOf(w, hits, c, []), right), left) == left
  {
    hide KeyString;
    var e := Binary(Qualified(["a", "x"]), Eq, Qualified(["b", "x"]));
    var c := On(e);
    SingleColumn(Integer(1));
    var row1 := Row(["a.x", "x"], map["a.x" := Integer(1), "x" := Integer(1)]);
    var left, right := [row1], Side("b", [EMPTY_ROW], None);
    assert QualifiedName("b", "x") == "b.x" && "b.x"[0] != "a.x"[0] && |"b.x"| != |"x"|;
    QualifiedReads(w, row1, "a", "x", [], 0);
    QualifiedReads(w, row1, "b", "x", [], 0);
    assert Eval(w, e, Some(row1), [], 0).0 == BoolVal(true);
    var m := TestOf(w, hits, c, []);
    assert Merge(row1, "b", EMPTY_ROW) == row1 && m(row1);
    assert right.rows[1..] == [] && left[1..] == [];
    assert Partners(m, row1, "b", right.rows) == [row1];
    assert !EMPTY_ROW.Has("x");
    assert Bucket(w, right.rows, "x", KeyString(w, Integer(1))) == [];
  }
}
