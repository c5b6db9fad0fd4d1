/** Which tables a trigger cascade can write to.

    A set of tables that contains the targets of a statement, and is closed under
    the triggers of its members, bounds everything the statement changes. */
module Reach {
  import opened Wrappers
  import opened Values
  import opened Externals
  import opened Expressions
  import opened Store
  import opened Constraints
  import opened Interpreter

  ghost predicate StmtWithin(stmt: Stmt, z: iset<string>) {
    IsWrite(stmt) ==> stmt.table in z
  }

  ghost predicate AllWithin(stmts: seq<Stmt>, z: iset<string>) {
    forall i :: 0 <= i < |stmts| ==> StmtWithin(stmts[i], z)
  }

  /** Whatever rows the trigger fires for, its statements write to tables in `z`. */
  ghost predicate BodyWithin(tr: Trigger, z: iset<string>) {
    forall was, now :: tr.body(was, now).Some? ==> AllWithin(tr.body(was, now).value, z)
  }

  ghost predicate BodiesWithin(trs: seq<Trigger>, z: iset<string>) {
    forall i :: 0 <= i < |trs| ==> BodyWithin(trs[i], z)
  }

  ghost predicate Closed(triggers: map<string, seq<Trigger>>, z: iset<string>) {
    forall t :: t in z && t in triggers ==> BodiesWithin(triggers[t], z)
  }

  /** No cascade that starts with the trigger writes to the table. */
  ghost predicate Aside(triggers: map<string, seq<Trigger>>, tr: Trigger, t: string) {
    exists z: iset<string> :: t !in z && Closed(triggers, z) && BodyWithin(tr, z)
  }

  /** As CREATE TABLE leaves it: a schema bears the name of its table. */
  ghost predicate NamesMatch(schemas: map<string, Schema>) {
    forall t :: t in schemas ==> schemas[t].name == t
  }

  /** No cascade of a BEFORE trigger of `t` writes to `u`. */
  ghost predicate BeforeAvoids(triggers: map<string, seq<Trigger>>, t: string, u: string) {
    forall i :: t in triggers && 0 <= i < |triggers[t]| && triggers[t][i].timing.Before? ==>
      Aside(triggers, triggers[t][i], u)
  }

  /** No cascade of a BEFORE trigger writes to the table that it fires for. */
  ghost predicate BeforeSafe(schemas: map<string, Schema>, triggers: map<string, seq<Trigger>>) {
    forall t :: t in schemas ==> BeforeAvoids(triggers, t, schemas[t].name)
  }

  /** Everything outside `z` is as it was, and so are triggers and schemas. */
  ghost predicate Leaves(s: State, s': State, z: iset<string>) {
    && s'.triggers == s.triggers && s'.schemas == s.schemas && s'.tables.Keys == s.tables.Keys
    && (forall t :: t in s.tables && t !in z ==> s'.tables[t] == s.tables[t])
    && (forall t, name :: t !in z ==> TreeOf(s'.indexes, IndexId(t, name)) == TreeOf(s.indexes, IndexId(t, name)))
  }

  lemma {:induction false} OtherTrees(ix: Indexes, t: string, defs: seq<IndexDef>, r: RowId, was: Option<Row>,
      now: Option<Row>, id: IndexId)
    requires id.table != t
    ensures TreeOf(UpdateEach(ix, t, defs, r, was, now), id) == TreeOf(ix, id)
    decreases defs
  {
    if defs != [] {
      OtherTrees(UpdateIndex(ix, t, defs[0], r, was, now), t, defs[1..], r, was, now, id);
    }
  }

  lemma WriteLeaves(s: State, s': State, t: string, r: RowId, was: Option<Row>, now: Option<Row>, z: iset<string>)
    requires t in z && s'.triggers == s.triggers && s'.schemas == s.schemas
    requires s'.tables.Keys == s.tables.Keys && (forall u :: u in s.tables && u != t ==> s'.tables[u] == s.tables[u])
    requires s'.indexes == UpdateIndexes(s, t, r, was, now)
    ensures Leaves(s, s', z)
  {
    hide UpdateEach, TreeOf;
    forall u, name | u !in z ensures TreeOf(s'.indexes, IndexId(u, name)) == TreeOf(s.indexes, IndexId(u, name)) {
      OtherTrees(s.indexes, t, IndicesOf(s.schemas, t), r, was, now, IndexId(u, name));
    }
  }

  lemma WritesLeave(w: World, s: State, tx: Option<TxId>, t: string, r: RowId, was: Row, now: Row, z: iset<string>)
    requires t in z
    ensures Leaves(s, WriteInsert(w, s, tx, t, r, now), z)
    ensures Leaves(s, WriteUpdate(w, s, tx, t, r, was, now), z)
    ensures Leaves(s, WriteDelete(w, s, tx, t, r, was), z)
  {
    hide UpdateIndexes, SyncFts, Leaves;
    WriteLeaves(s, WriteInsert(w, s, tx, t, r, now), t, r, None, Some(now), z);
    WriteLeaves(s, WriteUpdate(w, s, tx, t, r, was, now), t, r, Some(was), Some(now), z);
    WriteLeaves(s, WriteDelete(w, s, tx, t, r, was), t, r, Some(was), None, z);
  }

  lemma LeavesTrans(s: State, s1: State, s2: State, z: iset<string>)
    requires Leaves(s, s1, z) && Leaves(s1, s2, z)
    ensures Leaves(s, s2, z)
  {
  }

  // ---------------------------------------------------------------- executions stay within

  /** A statement changes nothing outside a closed set that has its target. */
  lemma {:induction false} ExecLeaves(w: World, s: State, stmt: Stmt, params: seq<Value>, tx: Option<TxId>, fuel: nat,
      z: iset<string>)
    requires Closed(s.triggers, z) && StmtWithin(stmt, z)
    ensures Leaves(s, Exec(w, s, stmt, params, tx, fuel).0, z)
    decreases fuel, 6, 0
  {
    hide Candidates, Capture, InsertAll, UpdateAll, DeleteAll, TreeOf, Closed;
    match stmt
    case Insert(t, columns, source) =>
      if t in s.schemas && t in s.tables {
        var rows := Candidates(w, s, s.schemas[t], columns, source, params);
        if rows.Ok? { InsertLeaves(w, s, t, s.schemas[t], rows.value, tx, fuel, z); }
      }
    case Update(t, sets, where) =>
      if t in s.schemas && t in s.tables {
        var caught := Capture(w, s, t, ScanOrder(w, s, t), where, params, CountAssignments(sets));
        UpdateLeaves(w, Scanned(s), t, s.schemas[t], caught, sets, params, tx, fuel, z);
        LeavesTrans(s, Scanned(s), UpdateAll(w, Scanned(s), t, s.schemas[t], caught, sets, params, tx, fuel).0, z);
      }
    case Delete(t, where) =>
      if t in s.tables {
        var caught := Capture(w, s, t, ScanOrder(w, s, t), where, params, 0);
        DeleteLeaves(w, Scanned(s), t, caught, tx, fuel, z);
        LeavesTrans(s, Scanned(s), DeleteAll(w, Scanned(s), t, caught, tx, fuel).0, z);
      }
    case Select(_) =>
    case OtherStmt =>
  }

  lemma {:induction false} InsertLeaves(w: World, s: State, t: string, schema: Schema, rows: seq<Row>,
      tx: Option<TxId>, fuel: nat, z: iset<string>)
    requires Closed(s.triggers, z) && t in z
    ensures Leaves(s, InsertAll(w, s, t, schema, rows, tx, fuel).0, z)
    decreases fuel, 5, |rows|
  {
    hide InsertOne, TreeOf, Closed;
    if rows != [] {
      var (s1, o1) := InsertOne(w, s, t, schema, rows[0], tx, fuel);
      InsertOneLeaves(w, s, t, schema, rows[0], tx, fuel, z);
      if o1.Ok? {
        InsertLeaves(w, s1, t, schema, rows[1..], tx, fuel, z);
        LeavesTrans(s, s1, InsertAll(w, s1, t, schema, rows[1..], tx, fuel).0, z);
      }
    }
  }

  lemma {:induction false} InsertOneLeaves(w: World, s: State, t: string, schema: Schema, given: Row,
      tx: Option<TxId>, fuel: nat, z: iset<string>)
    requires Closed(s.triggers, z) && t in z
    ensures Leaves(s, InsertOne(w, s, t, schema, given, tx, fuel).0, z)
    decreases fuel, 4, 0
  {
    hide Fire, Validate, WriteInsert, TreeOf, Closed;
    var r, s0 := CounterOf(s, t), BumpCounter(s, t);
    var row := WithDefaults(given, schema.columns, r);
    if Validate(w, s0, schema, row, r).None? {
      var (s1, o1) := Fire(w, s0, t, OnInsert, Before, None, Some(row), tx, fuel);
      FireLeaves(w, s0, t, OnInsert, Before, None, Some(row), tx, fuel, z);
      LeavesTrans(s, s0, s1, z);
      if o1.Ok? {
        WritesLeave(w, s1, tx, t, r, row, row, z);
        var s2 := WriteInsert(w, s1, tx, t, r, row);
        LeavesTrans(s, s1, s2, z);
        FireLeaves(w, s2, t, OnInsert, After, None, Some(row), tx, fuel, z);
        LeavesTrans(s, s2, Fire(w, s2, t, OnInsert, After, None, Some(row), tx, fuel).0, z);
      }
    }
  }

  lemma {:induction false} UpdateLeaves(w: World, s: State, t: string, schema: Schema, caught: seq<Captured>,
      sets: seq<Assignment>, params: seq<Value>, tx: Option<TxId>, fuel: nat, z: iset<string>)
    requires Closed(s.triggers, z) && t in z
    ensures Leaves(s, UpdateAll(w, s, t, schema, caught, sets, params, tx, fuel).0, z)
    decreases fuel, 5, |caught|
  {
    hide UpdateOne, TreeOf, Closed;
    if caught != [] {
      var (s1, o1) := UpdateOne(w, s, t, schema, caught[0], sets, params, tx, fuel);
      UpdateOneLeaves(w, s, t, schema, caught[0], sets, params, tx, fuel, z);
      if o1.Ok? {
        UpdateLeaves(w, s1, t, schema, caught[1..], sets, params, tx, fuel, z);
        LeavesTrans(s, s1, UpdateAll(w, s1, t, schema, caught[1..], sets, params, tx, fuel).0, z);
      }
    }
  }

  lemma {:induction false} UpdateOneLeaves(w: World, s: State, t: string, schema: Schema, c: Captured,
      sets: seq<Assignment>, params: seq<Value>, tx: Option<TxId>, fuel: nat, z: iset<string>)
    requires Closed(s.triggers, z) && t in z
    ensures Leaves(s, UpdateOne(w, s, t, schema, c, sets, params, tx, fuel).0, z)
    decreases fuel, 4, 0
  {
    hide Fire, Validate, WriteUpdate, Assign, TreeOf, Closed;
    var now := Assign(w, c.row, c.row, sets, params, 0);
    if Validate(w, s, schema, now, c.rowid).None? {
      var (s1, o1) := Fire(w, s, t, OnUpdate, Before, Some(c.row), Some(now), tx, fuel);
      FireLeaves(w, s, t, OnUpdate, Before, Some(c.row), Some(now), tx, fuel, z);
      if o1.Ok? {
        WritesLeave(w, s1, tx, t, c.rowid, c.row, now, z);
        var s2 := WriteUpdate(w, s1, tx, t, c.rowid, c.row, now);
        LeavesTrans(s, s1, s2, z);
        FireLeaves(w, s2, t, OnUpdate, After, Some(c.row), Some(now), tx, fuel, z);
        LeavesTrans(s, s2, Fire(w, s2, t, OnUpdate, After, Some(c.row), Some(now), tx, fuel).0, z);
      }
    }
  }

  lemma {:induction false} DeleteLeaves(w: World, s: State, t: string, caught: seq<Captured>, tx: Option<TxId>,
      fuel: nat, z: iset<string>)
    requires Closed(s.triggers, z) && t in z
    ensures Leaves(s, DeleteAll(w, s, t, caught, tx, fuel).0, z)
    decreases fuel, 5, |caught|
  {
    hide DeleteOne, TreeOf, Closed;
    if caught != [] {
      var (s1, o1) := DeleteOne(w, s, t, caught[0], tx, fuel);
      DeleteOneLeaves(w, s, t, caught[0], tx, fuel, z);
      if o1.Ok? {
        DeleteLeaves(w, s1, t, caught[1..], tx, fuel, z);
        LeavesTrans(s, s1, DeleteAll(w, s1, t, caught[1..], tx, fuel).0, z);
      }
    }
  }

  lemma {:induction false} DeleteOneLeaves(w: World, s: State, t: string, c: Captured, tx: Option<TxId>, fuel: nat,
      z: iset<string>)
    requires Closed(s.triggers, z) && t in z
    ensures Leaves(s, DeleteOne(w, s, t, c, tx, fuel).0, z)
    decreases fuel, 4, 0
  {
    hide Fire, WriteDelete, TreeOf, Closed;
    var (s1, o1) := Fire(w, s, t, OnDelete, Before, Some(c.row), None, tx, fuel);
    FireLeaves(w, s, t, OnDelete, Before, Some(c.row), None, tx, fuel, z);
    if o1.Ok? {
      WritesLeave(w, s1, tx, t, c.rowid, c.row, c.row, z);
      var s2 := WriteDelete(w, s1, tx, t, c.rowid, c.row);
      LeavesTrans(s, s1, s2, z);
      FireLeaves(w, s2, t, OnDelete, After, Some(c.row), None, tx, fuel, z);
      LeavesTrans(s, s2, Fire(w, s2, t, OnDelete, After, Some(c.row), None, tx, fuel).0, z);
    }
  }

  lemma {:induction false} FireLeaves(w: World, s: State, t: string, event: Event, timing: Timing, was: Option<Row>,
      now: Option<Row>, tx: Option<TxId>, fuel: nat, z: iset<string>)
    requires Closed(s.triggers, z) && t in z
    ensures Leaves(s, Fire(w, s, t, event, timing, was, now, tx, fuel).0, z)
    decreases fuel, 3, 0
  {
    FireEachLeaves(w, s, TriggersOf(s, t), event, timing, was, now, tx, fuel, z);
  }

  lemma {:induction false} FireEachLeaves(w: World, s: State, trs: seq<Trigger>, event: Event, timing: Timing,
      was: Option<Row>, now: Option<Row>, tx: Option<TxId>, fuel: nat, z: iset<string>)
    requires Closed(s.triggers, z) && BodiesWithin(trs, z)
    ensures Leaves(s, FireEach(w, s, trs, event, timing, was, now, tx, fuel).0, z)
    decreases fuel, 2, |trs|
  {
    hide FireOne, FireEach, TreeOf, Closed, BodyWithin;
    if trs == [] {
      FireNone(w, s, event, timing, was, now, tx, fuel);
    } else {
      var (s1, o1) := FireOne(w, s, trs[0], event, timing, was, now, tx, fuel);
      FireOneLeaves(w, s, trs[0], event, timing, was, now, tx, fuel, z);
      FireTurn(w, s, trs, 0, event, timing, was, now, tx, fuel);
      assert trs[0..] == trs;
      if o1.Ok? {
        FireEachLeaves(w, s1, trs[1..], event, timing, was, now, tx, fuel, z);
        LeavesTrans(s, s1, FireEach(w, s1, trs[1..], event, timing, was, now, tx, fuel).0, z);
      }
    }
  }

  lemma {:induction false} FireOneLeaves(w: World, s: State, tr: Trigger, event: Event, timing: Timing,
      was: Option<Row>, now: Option<Row>, tx: Option<TxId>, fuel: nat, z: iset<string>)
    requires Closed(s.triggers, z) && BodyWithin(tr, z)
    ensures Leaves(s, FireOne(w, s, tr, event, timing, was, now, tx, fuel).0, z)
    decreases fuel, 2, 0
  {
    hide Applies, RunBody, TreeOf, Closed;
    if tr.body(was, now).Some? { RunBodyLeaves(w, s, tr.body(was, now).value, tx, fuel, z); }
  }

  lemma {:induction false} RunBodyLeaves(w: World, s: State, stmts: seq<Stmt>, tx: Option<TxId>, fuel: nat,
      z: iset<string>)
    requires Closed(s.triggers, z) && AllWithin(stmts, z)
    ensures Leaves(s, RunBody(w, s, stmts, tx, fuel).0, z)
    decreases fuel, 1, |stmts|
  {
    hide Exec, TreeOf, Closed;
    if stmts != [] && fuel > 0 {
      var (s1, o1) := Exec(w, s, stmts[0], [], tx, fuel - 1);
      ExecLeaves(w, s, stmts[0], [], tx, fuel - 1, z);
      if o1.Ok? {
        RunBodyLeaves(w, s1, stmts[1..], tx, fuel, z);
        LeavesTrans(s, s1, RunBody(w, s1, stmts[1..], tx, fuel).0, z);
      }
    }
  }

  // ---------------------------------------------------------------- triggers that leave their table alone

  /** The table and its indexes are as they were. */
  ghost predicate Kept(s: State, s': State, t: string) {
    && s'.triggers == s.triggers && s'.schemas == s.schemas && s'.tables.Keys == s.tables.Keys
    && (t in s.tables ==> s'.tables[t] == s.tables[t])
    && (forall name :: TreeOf(s'.indexes, IndexId(t, name)) == TreeOf(s.indexes, IndexId(t, name)))
  }

  /** Triggers of which none reaches the table leave it alone. */
  lemma {:induction false} AsideKeeps(w: World, s: State, trs: seq<Trigger>, t: string, event: Event, timing: Timing,
      was: Option<Row>, now: Option<Row>, tx: Option<TxId>, fuel: nat)
    requires forall i :: 0 <= i < |trs| && trs[i].timing == timing ==> Aside(s.triggers, trs[i], t)
    ensures Kept(s, FireEach(w, s, trs, event, timing, was, now, tx, fuel).0, t)
    decreases |trs|
  {
    hide FireOne, FireEach, TreeOf, Aside;
    if trs == [] {
      FireNone(w, s, event, timing, was, now, tx, fuel);
    } else {
      var (s1, o1) := FireOne(w, s, trs[0], event, timing, was, now, tx, fuel);
      OneKeeps(w, s, trs[0], t, event, timing, was, now, tx, fuel);
      FireTurn(w, s, trs, 0, event, timing, was, now, tx, fuel);
      assert trs[0..] == trs;
      if o1.Ok? { AsideKeeps(w, s1, trs[1..], t, event, timing, was, now, tx, fuel); }
    }
  }

  lemma OneKeeps(w: World, s: State, tr: Trigger, t: string, event: Event, timing: Timing, was: Option<Row>,
      now: Option<Row>, tx: Option<TxId>, fuel: nat)
    requires tr.timing == timing ==> Aside(s.triggers, tr, t)
    ensures Kept(s, FireOne(w, s, tr, event, timing, was, now, tx, fuel).0, t)
  {
    hide RunBody, Applies, TreeOf, Closed, BodyWithin;
    if tr.timing == timing {
      var z: iset<string> :| t !in z && Closed(s.triggers, z) && BodyWithin(tr, z);
      FireOneLeaves(w, s, tr, event, timing, was, now, tx, fuel, z);
    }
  }

  lemma BeforeKeeps(w: World, s: State, t: string, u: string, event: Event, was: Option<Row>, now: Option<Row>,
      tx: Option<TxId>, fuel: nat)
    requires BeforeAvoids(s.triggers, t, u)
    ensures Kept(s, Fire(w, s, t, event, Before, was, now, tx, fuel).0, u)
  {
    hide Aside;
    AsideKeeps(w, s, TriggersOf(s, t), u, event, Before, was, now, tx, fuel);
  }

  /** The uniqueness checks look at nothing but the table and its indexes. */
  lemma KeptKeepsCheck(s: State, s': State, schema: Schema, row: Row, r: RowId)
    requires Kept(s, s', schema.name) && PassesUnique(s, schema, row, r)
    ensures PassesUnique(s', schema, row, r)
  {
    forall columns, values: seq<Value> | |columns| == |values|
      ensures ValueExistsElsewhere(s', schema, columns, values, r) ==
                ValueExistsElsewhere(s, schema, columns, values, r)
    {
      if |columns| == 1 && FindIndex(schema.indices, columns[0]).Some? {
        var name := FindIndex(schema.indices, columns[0]).value.name;
        assert TreeOf(s'.indexes, IndexId(schema.name, name)) == TreeOf(s.indexes, IndexId(schema.name, name));
      }
    }
  }
}
