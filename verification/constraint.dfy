/** Constraint checks on a row about to be written. */
module Constraints {
  import opened Wrappers
  import opened Values
  import opened Externals
  import opened Expressions
  import opened Store
  import Tree = OrderedIndex

  predicate IsNullAt(row: Row, column: string) {
    row.GetOrNull(column).Null?
  }

  /** The first single-column index on `column`. */
  function FindIndex(defs: seq<IndexDef>, column: string): Option<IndexDef>
    decreases defs
  {
    if defs == [] then None
    else if defs[0].columns == [column] then Some(defs[0])
    else FindIndex(defs[1..], column)
  }

  /** All `columns` are stored in `row` with `==` values. */
  predicate HasValues(row: Row, columns: seq<string>, values: seq<Value>)
    requires |columns| == |values|
  {
    forall i :: 0 <= i < |columns| ==> row.Has(columns[i]) && Same(row.vals[columns[i]], values[i])
  }

  predicate ScanFinds(table: Table, columns: seq<string>, values: seq<Value>, exclude: RowId)
    requires |columns| == |values|
  {
    exists r :: r in table && r != exclude && HasValues(table[r], columns, values)
  }

  predicate IndexFinds(s: State, t: string, idx: IndexDef, value: Value, exclude: RowId) {
    exists r :: r in Tree.Ids(TreeOf(s.indexes, IndexId(t, idx.name)), value) && r != exclude
  }

  predicate ValueExistsElsewhere(s: State, schema: Schema, columns: seq<string>, values: seq<Value>, exclude: RowId)
    requires |columns| == |values|
  {
    if schema.name !in s.tables then false
    else
      var idx := if |columns| == 1 then FindIndex(schema.indices, columns[0]) else None;
      if idx.Some? then IndexFinds(s, schema.name, idx.value, values[0], exclude)
      else ScanFinds(s.tables[schema.name], columns, values, exclude)
  }

  predicate ColumnClashes(s: State, schema: Schema, c: ColumnDef, row: Row, r: RowId) {
    && (c.unique || c.primaryKey) && !IsNullAt(row, c.name)
    && ValueExistsElsewhere(s, schema, [c.name], [row.GetOrNull(c.name)], r)
  }

  function GroupValues(g: UniqueGroup, row: Row): (vs: seq<Value>)
    ensures |vs| == |g.columns|
  {
    seq(|g.columns|, i requires 0 <= i < |g.columns| => row.GetOrNull(g.columns[i]))
  }

  predicate GroupHasNull(g: UniqueGroup, row: Row) {
    exists c :: c in g.columns && IsNullAt(row, c)
  }

  predicate GroupClashes(s: State, schema: Schema, g: UniqueGroup, row: Row, r: RowId) {
    if GroupHasNull(g, row) then g.isPrimary
    else ValueExistsElsewhere(s, schema, g.columns, GroupValues(g, row), r)
  }

  predicate Dangles(s: State, fk: ForeignKey, row: Row) {
    && fk.column != "" && !IsNullAt(row, fk.column) && fk.refTable in s.tables
    && !exists r :: r in s.tables[fk.refTable]
         && HasValues(s.tables[fk.refTable][r], [fk.refColumn], [row.GetOrNull(fk.column)])
  }

  predicate CheckFails(w: World, e: Expr, row: Row) {
    !Truthy(Eval(w, e, Some(row), [], 0).0)
  }

  /** What the uniqueness checks ask of a row. */
  ghost predicate PassesUnique(s: State, schema: Schema, row: Row, r: RowId) {
    && (forall i :: 0 <= i < |schema.columns| ==> !ColumnClashes(s, schema, schema.columns[i], row, r))
    && (forall i :: 0 <= i < |schema.uniqueGroups| ==> !GroupClashes(s, schema, schema.uniqueGroups[i], row, r))
  }

  /** The first kind of constraint the row breaks, in the order of the checks. */
  function Validate(w: World, s: State, schema: Schema, row: Row, r: RowId): Option<Error> {
    if exists c :: c in schema.columns && c.notNull && IsNullAt(row, c.name) then Some(Violation(NotNull))
    else if exists c :: c in schema.columns && ColumnClashes(s, schema, c, row, r) then Some(Violation(Unique))
    else if exists g :: g in schema.uniqueGroups && GroupClashes(s, schema, g, row, r) then Some(Violation(Unique))
    else if exists fk :: fk in schema.foreignKeys && Dangles(s, fk, row) then Some(Violation(ReferencedRow))
    else if exists c :: c in schema.columns && c.check.Some? && CheckFails(w, c.check.value, row) then
      Some(Violation(Check))
    else if exists e :: e in schema.checks && CheckFails(w, e, row) then Some(Violation(Check))
    else None
  }

  // ---------------------------------------------------------------- constraints on the row alone

  /** The row stores the column, and not as NULL. */
  predicate Filled(row: Row, column: string) {
    row.Has(column) && row.vals[column] != Null
  }

  /** The condition is true of the row; it sees no parameters. */
  predicate IsTrue(w: World, e: Expr, row: Row) {
    Truthy(Eval(w, e, Some(row), [], 0).0)
  }

  /** NOT NULL and CHECK, which look at nothing but the row. */
  ghost predicate RowOk(w: World, schema: Schema, row: Row) {
    && (forall i :: 0 <= i < |schema.columns| && schema.columns[i].notNull ==> Filled(row, schema.columns[i].name))
    && (forall i :: 0 <= i < |schema.columns| && schema.columns[i].check.Some? ==>
         IsTrue(w, schema.columns[i].check.value, row))
    && (forall i :: 0 <= i < |schema.checks| ==> IsTrue(w, schema.checks[i], row))
  }

  lemma ValidatedIsUnique(w: World, s: State, schema: Schema, row: Row, r: RowId)
    requires Validate(w, s, schema, row, r).None?
    ensures PassesUnique(s, schema, row, r)
    ensures forall i :: 0 <= i < |schema.foreignKeys| ==> !Dangles(s, schema.foreignKeys[i], row)
  {
    hide ColumnClashes, GroupClashes, Dangles, CheckFails;
  }

  lemma ValidatedIsRowOk(w: World, s: State, schema: Schema, row: Row, r: RowId)
    requires Validate(w, s, schema, row, r).None?
    ensures RowOk(w, schema, row)
  {
    hide ColumnClashes, GroupClashes, Dangles, Eval;
    forall i | 0 <= i < |schema.columns| && schema.columns[i].notNull ensures Filled(row, schema.columns[i].name) {
      assert !IsNullAt(row, schema.columns[i].name);
    }
    forall i | 0 <= i < |schema.columns| && schema.columns[i].check.Some?
      ensures IsTrue(w, schema.columns[i].check.value, row)
    {
      assert !CheckFails(w, schema.columns[i].check.value, row);
    }
    forall i | 0 <= i < |schema.checks| ensures IsTrue(w, schema.checks[i], row) {
      assert !CheckFails(w, schema.checks[i], row);
    }
  }
}
