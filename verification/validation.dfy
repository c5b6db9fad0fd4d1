/** Which rows validation accepts, and what it says of the others. */
module Validation {
  import opened Wrappers
  import opened Values
  import opened Externals
  import opened Expressions
  import opened Store
  import opened Constraints
  import opened Indexing
  import opened Uniqueness
  import Tree = OrderedIndex

  /** The row stores all of `columns` with values `==` to these. */
  ghost predicate Stores(row: Row, columns: seq<string>, values: seq<Value>)
    requires |columns| == |values|
  {
    forall i :: 0 <= i < |columns| ==> row.Has(columns[i]) && Same(row.vals[columns[i]], values[i])
  }

  /** The first index on `column` alone. */
  ghost predicate FirstOn(defs: seq<IndexDef>, column: string, i: int) {
    && 0 <= i < |defs| && defs[i].columns == [column]
    && forall j :: 0 <= j < i ==> defs[j].columns != [column]
  }

  /** Another row has these values already: the first index on the column alone
      is asked, if there is one, and otherwise every row. */
  ghost predicate Taken(s: State, schema: Schema, columns: seq<string>, values: seq<Value>, r: RowId)
    requires |columns| == |values|
  {
    && schema.name in s.tables
    && if exists i :: |columns| == 1 && FirstOn(schema.indices, columns[0], i) then
         exists i, x :: FirstOn(schema.indices, columns[0], i) && x != r
           && x in Tree.Ids(TreeOf(s.indexes, IndexId(schema.name, schema.indices[i].name)), values[0])
       else
         var rows := s.tables[schema.name];
         exists x :: x in rows && x != r && Stores(rows[x], columns, values)
  }

  /** What the row stores in these columns. */
  function ValuesIn(row: Row, columns: seq<string>): (values: seq<Value>)
    requires forall i :: 0 <= i < |columns| ==> columns[i] in row.vals
    ensures |values| == |columns| && forall i :: 0 <= i < |columns| ==> row.Get(columns[i]) == Some(values[i])
  {
    seq(|columns|, i requires 0 <= i < |columns| => row.GetOrNull(columns[i]))
  }

  // ---------------------------------------------------------------- the four conditions

  ghost predicate NothingMissing(schema: Schema, row: Row) {
    forall c :: c in schema.columns && c.notNull ==> Filled(row, c.name)
  }

  /** A group with a NULL in it is distinct from all others, unless it is the
      primary key, which may have none. */
  ghost predicate GroupFree(s: State, schema: Schema, g: UniqueGroup, row: Row, r: RowId) {
    if forall i :: 0 <= i < |g.columns| ==> Filled(row, g.columns[i]) then
      !Taken(s, schema, g.columns, ValuesIn(row, g.columns), r)
    else !g.isPrimary
  }

  ghost predicate NothingTaken(s: State, schema: Schema, row: Row, r: RowId) {
    && (forall c :: c in schema.columns && (c.unique || c.primaryKey) && Filled(row, c.name) ==>
          !Taken(s, schema, [c.name], [row.vals[c.name]], r))
    && forall g :: g in schema.uniqueGroups ==> GroupFree(s, schema, g, row, r)
  }

  /** NULL refers to nothing, and a table that is not there yet is not asked. */
  ghost predicate HasParent(s: State, fk: ForeignKey, row: Row) {
    fk.column != "" && Filled(row, fk.column) && fk.refTable in s.tables ==>
      exists x :: x in s.tables[fk.refTable]
        && Stores(s.tables[fk.refTable][x], [fk.refColumn], [row.vals[fk.column]])
  }

  ghost predicate ParentsThere(s: State, schema: Schema, row: Row) {
    forall fk :: fk in schema.foreignKeys ==> HasParent(s, fk, row)
  }

  ghost predicate ChecksHold(w: World, schema: Schema, row: Row) {
    && (forall c :: c in schema.columns && c.check.Some? ==> IsTrue(w, c.check.value, row))
    && forall e :: e in schema.checks ==> IsTrue(w, e, row)
  }

  // ---------------------------------------------------------------- the checks decide them

  lemma NullOrFilled(row: Row, column: string)
    ensures IsNullAt(row, column) <==> !Filled(row, column)
  {
  }

  lemma {:induction false} FindsFirst(defs: seq<IndexDef>, column: string)
    ensures FindIndex(defs, column).Some? <==> exists i :: FirstOn(defs, column, i)
    ensures forall i :: FirstOn(defs, column, i) ==> FindIndex(defs, column) == Some(defs[i])
    decreases defs
  {
    if defs != [] {
      FindsFirst(defs[1..], column);
      if defs[0].columns == [column] {
        assert FirstOn(defs, column, 0);
      } else {
        forall i | FirstOn(defs, column, i) ensures FirstOn(defs[1..], column, i - 1) {}
        forall i | FirstOn(defs[1..], column, i) ensures FirstOn(defs, column, i + 1) {}
        if FindIndex(defs, column).Some? {
          var i :| FirstOn(defs[1..], column, i);
          assert FirstOn(defs, column, i + 1);
        }
      }
    }
  }

  lemma ExistsTaken(s: State, schema: Schema, columns: seq<string>, values: seq<Value>, r: RowId)
    requires |columns| == |values|
    ensures ValueExistsElsewhere(s, schema, columns, values, r) <==> Taken(s, schema, columns, values, r)
  {
    hide Tree.Ids;
    if |columns| == 1 { FindsFirst(schema.indices, columns[0]); }
    if schema.name in s.tables {
      var rows := s.tables[schema.name];
      forall x | x in rows ensures HasValues(rows[x], columns, values) <==> Stores(rows[x], columns, values) {}
    }
  }

  lemma ColumnDecides(s: State, schema: Schema, c: ColumnDef, row: Row, r: RowId)
    ensures ColumnClashes(s, schema, c, row, r) <==>
              (c.unique || c.primaryKey) && Filled(row, c.name) && Taken(s, schema, [c.name], [row.vals[c.name]], r)
  {
    hide Taken, ValueExistsElsewhere;
    if Filled(row, c.name) { ExistsTaken(s, schema, [c.name], [row.vals[c.name]], r); }
  }

  lemma GroupDecides(s: State, schema: Schema, g: UniqueGroup, row: Row, r: RowId)
    ensures GroupClashes(s, schema, g, row, r) <==> !GroupFree(s, schema, g, row, r)
  {
    hide Taken, ValueExistsElsewhere;
    if forall i :: 0 <= i < |g.columns| ==> Filled(row, g.columns[i]) {
      forall i | 0 <= i < |g.columns| ensures GroupValues(g, row)[i] == ValuesIn(row, g.columns)[i] {
        assert row.Get(g.columns[i]) == Some(ValuesIn(row, g.columns)[i]);
      }
      assert GroupValues(g, row) == ValuesIn(row, g.columns);
      assert !GroupHasNull(g, row);
      ExistsTaken(s, schema, g.columns, ValuesIn(row, g.columns), r);
    } else {
      var i :| 0 <= i < |g.columns| && !Filled(row, g.columns[i]);
      assert g.columns[i] in g.columns && IsNullAt(row, g.columns[i]);
    }
  }

  lemma ParentDecides(s: State, fk: ForeignKey, row: Row)
    ensures Dangles(s, fk, row) <==> !HasParent(s, fk, row)
  {
    if Filled(row, fk.column) && fk.refTable in s.tables {
      var rows, v := s.tables[fk.refTable], row.vals[fk.column];
      forall x | x in rows ensures HasValues(rows[x], [fk.refColumn], [v]) <==> Stores(rows[x], [fk.refColumn], [v]) {}
    }
  }

  lemma CheckDecides(w: World, e: Expr, row: Row)
    ensures CheckFails(w, e, row) <==> !IsTrue(w, e, row)
  {
    hide Eval;
  }

  /** A row is accepted exactly when it fills its NOT NULL columns, takes no value of
      a unique column or group that another row has, has its parent rows, and
      makes its checks true. Of a row that fails several of these the first in
      that order is reported. */
  lemma ValidateExactly(w: World, s: State, schema: Schema, row: Row, r: RowId)
    ensures Validate(w, s, schema, row, r) ==
              if !NothingMissing(schema, row) then Some(Violation(NotNull))
              else if !NothingTaken(s, schema, row, r) then Some(Violation(Unique))
              else if !ParentsThere(s, schema, row) then Some(Violation(ReferencedRow))
              else if !ChecksHold(w, schema, row) then Some(Violation(Check))
              else None
  {
    hide ColumnClashes, GroupClashes, GroupFree, Taken, Dangles, HasParent, CheckFails, IsTrue, IsNullAt;
    forall column ensures IsNullAt(row, column) <==> !Filled(row, column) {
      NullOrFilled(row, column);
    }
    forall c ensures ColumnClashes(s, schema, c, row, r) <==>
                       (c.unique || c.primaryKey) && Filled(row, c.name)
                         && Taken(s, schema, [c.name], [row.vals[c.name]], r)
    {
      ColumnDecides(s, schema, c, row, r);
    }
    forall g ensures GroupClashes(s, schema, g, row, r) <==> !GroupFree(s, schema, g, row, r) {
      GroupDecides(s, schema, g, row, r);
    }
    forall fk ensures Dangles(s, fk, row) <==> !HasParent(s, fk, row) {
      ParentDecides(s, fk, row);
    }
    forall e ensures CheckFails(w, e, row) <==> !IsTrue(w, e, row) {
      CheckDecides(w, e, row);
    }
  }

  // ---------------------------------------------------------------- on exact indexes

  /** There is an index on just this column. */
  ghost predicate IndexedAlone(schema: Schema, columns: seq<string>) {
    |columns| == 1 && exists i :: 0 <= i < |schema.indices| && schema.indices[i].columns == columns
  }

  lemma {:induction false} SomeFirst(defs: seq<IndexDef>, column: string, n: nat) returns (i: nat)
    requires n < |defs| && defs[n].columns == [column]
    ensures FirstOn(defs, column, i)
  {
    FindsFirst(defs, column);
    if k :| 0 <= k < n && defs[k].columns == [column] {
      i := SomeFirst(defs, column, k);
    } else {
      i := n;
      assert FirstOn(defs, column, i);
    }
  }

  /** Where the indexes are exact, which of them is asked makes no difference: a value
      of an indexed column is taken when another row's value compares Equal, other
      values when another row's are `==`. */
  lemma TakenInRows(dom: Domains, s: State, t: string, columns: seq<string>, values: seq<Value>, r: RowId)
    requires LawfulDomains(dom) && AllExact(dom, s) && t in s.tables && t in s.schemas && s.schemas[t].name == t
    requires |columns| == |values|
    requires forall i :: 0 <= i < |s.schemas[t].indices| && s.schemas[t].indices[i].columns == columns && |columns| == 1
               ==> values[0] in dom(IndexId(t, s.schemas[t].indices[i].name))
    ensures Taken(s, s.schemas[t], columns, values, r) <==>
              exists x :: x in s.tables[t] && x != r &&
                if IndexedAlone(s.schemas[t], columns) then
                  s.tables[t][x].Has(columns[0]) && Compare(values[0], s.tables[t][x].vals[columns[0]]) == Equal
                else Stores(s.tables[t][x], columns, values)
  {
    var schema, rows := s.schemas[t], s.tables[t];
    if IndexedAlone(schema, columns) {
      var n :| 0 <= n < |schema.indices| && schema.indices[n].columns == columns;
      assert columns == [columns[0]];
      var i := SomeFirst(schema.indices, columns[0], n);
      var idx := IndicesOf(s.schemas, t)[i];
      IndexAsksForEqual(dom(IndexId(t, idx.name)), s, t, idx, columns[0], values[0], r);
      forall j | FirstOn(schema.indices, columns[0], j) ensures j == i {}
    } else if |columns| == 1 {
      assert columns == [columns[0]];
    }
  }
}
