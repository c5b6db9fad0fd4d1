/** UNIQUE and PRIMARY KEY hold throughout a transaction and after its rollback, as
    long as no BEFORE trigger reaches the table it fires for (rows are validated
    before those triggers run) and no other transaction writes meanwhile. */
module Uniqueness {
  import opened Wrappers
  import opened Values
  import opened Externals
  import opened Store
  import opened Constraints
  import opened Interpreter
  import opened Reach
  import opened Runs
  import opened Rollbacks
  import opened Indexing
  import Tree = OrderedIndex

  /** Both rows store `==` values other than NULL in all of `columns`. */
  predicate Agree(a: Row, b: Row, columns: seq<string>) {
    forall i :: 0 <= i < |columns| ==>
      var c := columns[i];
      a.Has(c) && b.Has(c) && !a.vals[c].Null? && Same(a.vals[c], b.vals[c])
  }

  /** The rows agree on a unique column or on a unique group. */
  ghost predicate Clash(schema: Schema, a: Row, b: Row) {
    || (exists i :: 0 <= i < |schema.columns| && (schema.columns[i].unique || schema.columns[i].primaryKey)
                    && Agree(a, b, [schema.columns[i].name]))
    || (exists i :: 0 <= i < |schema.uniqueGroups| && Agree(a, b, schema.uniqueGroups[i].columns))
  }

  ghost predicate UniqueTable(schema: Schema, rows: Table) {
    forall r, x :: r in rows && x in rows && r != x ==> !Clash(schema, rows[r], rows[x])
  }

  ghost predicate UniqueTables(schemas: map<string, Schema>, tables: Tables) {
    forall t :: t in tables && t in schemas ==> UniqueTable(schemas[t], tables[t])
  }

  ghost predicate AllUnique(s: State) {
    UniqueTables(s.schemas, s.tables)
  }

  lemma SameSymmetric(a: Value, b: Value)
    ensures Same(a, b) == Same(b, a)
  {
  }

  lemma {:induction false} FindIndexIn(defs: seq<IndexDef>, column: string) returns (i: nat)
    requires FindIndex(defs, column).Some?
    ensures i < |defs| && defs[i] == FindIndex(defs, column).value && defs[i].columns == [column]
    decreases defs
  {
    if defs[0].columns == [column] {
      i := 0;
    } else {
      var k := FindIndexIn(defs[1..], column);
      i := k + 1;
    }
  }

  // ---------------------------------------------------------------- the check itself

  /** The index branch of the uniqueness check is never weaker than the scan. */
  lemma {:induction false} IndexNotWeaker(d: iset<Value>, s: State, t: string, idx: IndexDef, column: string,
      v: Value, exclude: RowId)
    requires t in s.tables && idx.columns == [column]
    requires Lawful(d) && Complete(d, TreeOf(s.indexes, IndexId(t, idx.name)), s.tables[t], idx) && v in d
    ensures ScanFinds(s.tables[t], [column], [v], exclude) ==> IndexFinds(s, t, idx, v, exclude)
  {
    if ScanFinds(s.tables[t], [column], [v], exclude) {
      var r :| r in s.tables[t] && r != exclude && HasValues(s.tables[t][r], [column], [v]);
      assert s.tables[t][r].Has([column][0]);
      LookupNeverMisses(d, TreeOf(s.indexes, IndexId(t, idx.name)), s.tables[t], idx, r, v);
    }
  }

  /** On an exact index it asks for a value that compares Equal, which an integer
      and a float may do without being `==`: an indexed UNIQUE column is stricter. */
  lemma IndexAsksForEqual(d: iset<Value>, s: State, t: string, idx: IndexDef, column: string, v: Value, exclude: RowId)
    requires t in s.tables && idx.columns == [column]
    requires Lawful(d) && Exact(d, TreeOf(s.indexes, IndexId(t, idx.name)), s.tables[t], idx) && v in d
    ensures IndexFinds(s, t, idx, v, exclude) <==>
              exists r :: r in s.tables[t] && r != exclude && s.tables[t][r].Has(column)
                && Compare(v, s.tables[t][r].vals[column]) == Equal
  {
    var b, rows := TreeOf(s.indexes, IndexId(t, idx.name)), s.tables[t];
    forall r: RowId
      ensures r in Tree.Ids(b, v) <==> r in rows && rows[r].Has(column) && Compare(v, rows[r].vals[column]) == Equal
    {
      assert r in Tree.Ids(b, v) <==> r in rows && Files(IndexValue(idx, rows[r]), v);
    }
  }

  /** A single unique column passes only if no other row agrees on it. */
  lemma CheckedColumn(dom: Domains, s: State, t: string, column: string, row: Row, r: RowId, x: RowId)
    requires t in s.tables && t in s.schemas && s.schemas[t].name == t
    requires LawfulDomains(dom) && AllComplete(dom, s) && RowLawful(dom, s.schemas, t, Some(row))
    requires row.Has(column) && !row.vals[column].Null?
    requires !ValueExistsElsewhere(s, s.schemas[t], [column], [row.vals[column]], r)
    requires x in s.tables[t] && x != r
    ensures !Agree(row, s.tables[t][x], [column])
  {
    var schema, v := s.schemas[t], row.vals[column];
    if Agree(row, s.tables[t][x], [column]) {
      assert [column][0] == column;
      SameSymmetric(v, s.tables[t][x].vals[column]);
      assert HasValues(s.tables[t][x], [column], [v]);
      assert ScanFinds(s.tables[t], [column], [v], r);
      var found := FindIndex(schema.indices, column);
      if found.Some? {
        var i := FindIndexIn(schema.indices, column);
        var idx := IndicesOf(s.schemas, t)[i];
        var d := dom(IndexId(t, idx.name));
        assert Complete(d, TreeOf(s.indexes, IndexId(t, idx.name)), s.tables[t], idx);
        assert InDomain(d, ValueOf(idx, Some(row)));
        IndexNotWeaker(d, s, t, idx, column, v, r);
      }
      assert false;
    }
  }

  /** So does a group of columns. */
  lemma CheckedGroup(dom: Domains, s: State, t: string, g: UniqueGroup, row: Row, r: RowId, x: RowId)
    requires t in s.tables && t in s.schemas && s.schemas[t].name == t
    requires LawfulDomains(dom) && AllComplete(dom, s) && RowLawful(dom, s.schemas, t, Some(row))
    requires !GroupClashes(s, s.schemas[t], g, row, r)
    requires x in s.tables[t] && x != r
    ensures !Agree(row, s.tables[t][x], g.columns)
  {
    var other := s.tables[t][x];
    if Agree(row, other, g.columns) {
      assert !GroupHasNull(g, row);
      if |g.columns| == 1 {
        assert g.columns == [g.columns[0]];
        assert GroupValues(g, row) == [row.vals[g.columns[0]]];
        CheckedColumn(dom, s, t, g.columns[0], row, r, x);
      } else {
        forall i | 0 <= i < |g.columns|
          ensures other.Has(g.columns[i]) && Same(other.vals[g.columns[i]], GroupValues(g, row)[i])
        {
          SameSymmetric(row.vals[g.columns[i]], other.vals[g.columns[i]]);
        }
        assert HasValues(other, g.columns, GroupValues(g, row));
        assert ScanFinds(s.tables[t], g.columns, GroupValues(g, row), r);
        assert false;
      }
    }
  }

  lemma AgreeSymmetric(a: Row, b: Row, columns: seq<string>)
    ensures Agree(a, b, columns) == Agree(b, a, columns)
  {
    forall i | 0 <= i < |columns| && a.Has(columns[i]) && b.Has(columns[i])
      ensures Same(a.vals[columns[i]], b.vals[columns[i]]) == Same(b.vals[columns[i]], a.vals[columns[i]])
    {
      SameSymmetric(a.vals[columns[i]], b.vals[columns[i]]);
    }
  }

  lemma ClashSymmetric(schema: Schema, a: Row, b: Row)
    ensures Clash(schema, a, b) == Clash(schema, b, a)
  {
    forall columns: seq<string> ensures Agree(a, b, columns) == Agree(b, a, columns) {
      AgreeSymmetric(a, b, columns);
    }
  }

  /** Storing a row keeps the table unique exactly when no other row clashes with
      it. */
  lemma PutUniqueExactly(schema: Schema, rows: Table, r: RowId, row: Row)
    requires UniqueTable(schema, rows)
    ensures UniqueTable(schema, rows[r := row]) <==> forall x :: x in rows && x != r ==> !Clash(schema, row, rows[x])
  {
    hide Clash;
    var rows' := rows[r := row];
    if forall x :: x in rows && x != r ==> !Clash(schema, row, rows[x]) {
      forall a, b | a in rows' && b in rows' && a != b ensures !Clash(schema, rows'[a], rows'[b]) {
        if b == r { ClashSymmetric(schema, rows'[a], rows'[b]); }
      }
    }
    if UniqueTable(schema, rows') {
      forall x | x in rows && x != r ensures !Clash(schema, row, rows[x]) {
        assert rows'[r] == row && rows'[x] == rows[x];
      }
    }
  }

  /** A row that passes the uniqueness checks clashes with no other row. */
  lemma CheckedRow(dom: Domains, s: State, t: string, row: Row, r: RowId, x: RowId)
    requires t in s.tables && t in s.schemas && s.schemas[t].name == t
    requires LawfulDomains(dom) && AllComplete(dom, s) && RowLawful(dom, s.schemas, t, Some(row))
    requires PassesUnique(s, s.schemas[t], row, r) && x in s.tables[t] && x != r
    ensures !Clash(s.schemas[t], row, s.tables[t][x])
  {
    hide ValueExistsElsewhere, GroupClashes, Agree, AllComplete, RowLawful;
    var schema, other := s.schemas[t], s.tables[t][x];
    forall i | 0 <= i < |schema.columns| && (schema.columns[i].unique || schema.columns[i].primaryKey)
      ensures !Agree(row, other, [schema.columns[i].name])
    {
      var c := schema.columns[i];
      assert !ColumnClashes(s, schema, c, row, r);
      if IsNullAt(row, c.name) {
        NullDisagrees(row, other, c.name);
      } else {
        CheckedColumn(dom, s, t, c.name, row, r, x);
      }
    }
    forall i | 0 <= i < |schema.uniqueGroups| ensures !Agree(row, other, schema.uniqueGroups[i].columns) {
      var g := schema.uniqueGroups[i];
      assert !GroupClashes(s, schema, g, row, r);
      CheckedGroup(dom, s, t, g, row, r, x);
    }
  }

  lemma CheckedKeepsUnique(dom: Domains, s: State, t: string, row: Row, r: RowId)
    requires t in s.tables && t in s.schemas && s.schemas[t].name == t
    requires LawfulDomains(dom) && AllComplete(dom, s) && RowLawful(dom, s.schemas, t, Some(row))
    requires PassesUnique(s, s.schemas[t], row, r) && UniqueTable(s.schemas[t], s.tables[t])
    ensures UniqueTable(s.schemas[t], s.tables[t][r := row])
  {
    hide PassesUnique, UniqueTable, Clash, AllComplete, RowLawful;
    forall x | x in s.tables[t] && x != r ensures !Clash(s.schemas[t], row, s.tables[t][x]) {
      CheckedRow(dom, s, t, row, r, x);
    }
    PutUniqueExactly(s.schemas[t], s.tables[t], r, row);
  }

  lemma NullDisagrees(a: Row, b: Row, column: string)
    requires IsNullAt(a, column)
    ensures !Agree(a, b, [column])
  {
    assert [column][0] == column;
  }

  // ---------------------------------------------------------------- runs

  lemma RemoveKeepsUnique(schema: Schema, rows: Table, r: RowId)
    requires UniqueTable(schema, rows)
    ensures UniqueTable(schema, rows - {r})
  {
    hide Clash;
  }

  lemma StepKeepsUnique(dom: Domains, w: World, s: State, tx: TxId, step: Step)
    requires LawfulDomains(dom) && AllComplete(dom, s) && NamesMatch(s.schemas) && AllUnique(s)
    requires StepLawful(dom, s.schemas, step) && Checked(s, step) && (IsWriteStep(step) ==> step.t in s.tables)
    ensures AllUnique(Apply(w, s, tx, step))
  {
    hide UniqueTable, UpdateIndexes, FtsChange, PassesUnique, RowLawful;
    if step.Ins? {
      CheckedKeepsUnique(dom, s, step.t, step.row, step.r);
    } else if step.Upd? {
      CheckedKeepsUnique(dom, s, step.t, step.now, step.r);
    } else if step.Del? && step.t in s.schemas {
      RemoveKeepsUnique(s.schemas[step.t], s.tables[step.t], step.r);
    }
  }

  lemma {:induction false} RunKeepsUnique(dom: Domains, w: World, s: State, tx: TxId, floor: map<string, int>,
      steps: seq<Step>)
    requires LawfulDomains(dom) && AllNamesDistinct(s) && NamesMatch(s.schemas) && AllComplete(dom, s) && AllUnique(s)
    requires Ready(s, tx) && LegalRun(w, s, tx, floor, steps) && CheckedRun(w, s, tx, steps)
               && StepsLawful(dom, s.schemas, steps)
    ensures AllUnique(Replay(w, s, tx, steps))
    decreases |steps|
  {
    hide AllUnique, AllComplete, Apply, Follows, Ready, Checked, StepLawful;
    if steps != [] {
      var before := steps[..|steps| - 1];
      RunKeepsUnique(dom, w, s, tx, floor, before);
      RunKeepsComplete(dom, w, s, tx, floor, before);
      RunKeeps(w, s, tx, floor, before);
      var s1 := Replay(w, s, tx, before);
      FollowsFrame(s, s1, tx);
      StepKeepsUnique(dom, w, s1, tx, steps[|steps| - 1]);
    }
  }

  /** A transaction of any statements, with trigger cascades and errors, while
      nobody else writes and no cascade of a BEFORE trigger writes to the table it
      fires for: uniqueness holds when it has run, and when it has been rolled back. The
      rows it stores or journals are `steps`, whose values must be lawful for the
      indexes they go into. */
  lemma UniqueThroughout(dom: Domains, w: World, s: State, tx: TxId, calls: seq<Call>) returns (steps: seq<Step>)
    requires LawfulDomains(dom) && AllNamesDistinct(s) && NamesMatch(s.schemas) && AllComplete(dom, s) && AllUnique(s)
    requires Ready(s, tx) && s.active[tx] == [] && BeforeSafe(s.schemas, s.triggers)
    ensures Run(w, s, tx, steps, Session(w, s, tx, calls))
    ensures StepsLawful(dom, s.schemas, steps) ==> AllUnique(Session(w, s, tx, calls))
    ensures AllUnique(Rollback(w, Session(w, s, tx, calls), tx).0)
  {
    steps := SessionRuns(w, s, tx, calls);
    var s1 := Session(w, s, tx, calls);
    RunFacts(w, s, tx, steps, s1);
    if StepsLawful(dom, s.schemas, steps) {
      RunKeepsUnique(dom, w, s, tx, s.counters, steps);
    }
    RollbackTables(w, s, tx, steps, s1);
  }

  lemma RollbackTables(w: World, s: State, tx: TxId, steps: seq<Step>, s1: State)
    requires Run(w, s, tx, steps, s1) && s.active[tx] == [] && tx in s1.active
    ensures Rollback(w, s1, tx).0.tables == s.tables && Rollback(w, s1, tx).0.schemas == s.schemas
  {
    hide UndoAll;
    RunFacts(w, s, tx, steps, s1);
    LegalRunRollsBack(w, s, tx, s.counters, steps);
    UndoAllKeeps(w, s1.(active := s1.active - {tx}), s1.active[tx]);
  }
}
