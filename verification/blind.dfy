/** Journals are written and never read: what a statement does to everything else
    depends neither on them nor on the id it runs under. */
module JournalBlind {
  import opened Wrappers
  import opened Values
  import opened Externals
  import opened Expressions
  import opened Store
  import opened Constraints
  import opened Interpreter

  /** Equal but for the journals. */
  ghost predicate SameData(a: State, b: State) {
    a.(active := b.active) == b
  }

  ghost predicate SameResult(a: (State, Outcome), b: (State, Outcome)) {
    SameData(a.0, b.0) && a.1 == b.1
  }

  /** An id that records nothing. */
  predicate Idle(s: State, tx: Option<TxId>) {
    tx.None? || tx.value !in s.active
  }

  lemma WritesBlind(w: World, a: State, b: State, x: Option<TxId>, y: Option<TxId>, t: string, r: RowId, was: Row,
      now: Row)
    requires SameData(a, b)
    ensures SameData(WriteInsert(w, a, x, t, r, now), WriteInsert(w, b, y, t, r, now))
    ensures SameData(WriteUpdate(w, a, x, t, r, was, now), WriteUpdate(w, b, y, t, r, was, now))
    ensures SameData(WriteDelete(w, a, x, t, r, was), WriteDelete(w, b, y, t, r, was))
    ensures Idle(a, x) ==> WriteInsert(w, a, x, t, r, now).active == a.active
    ensures Idle(a, x) ==> WriteUpdate(w, a, x, t, r, was, now).active == a.active
    ensures Idle(a, x) ==> WriteDelete(w, a, x, t, r, was).active == a.active
  {
    hide UpdateEach, FtsChange;
  }

  lemma ValidateBlind(w: World, a: State, b: State, schema: Schema, row: Row, r: RowId)
    requires SameData(a, b)
    ensures Validate(w, a, schema, row, r) == Validate(w, b, schema, row, r)
  {
    forall c ensures ColumnClashes(a, schema, c, row, r) == ColumnClashes(b, schema, c, row, r) {}
    forall g ensures GroupClashes(a, schema, g, row, r) == GroupClashes(b, schema, g, row, r) {}
    forall fk ensures Dangles(a, fk, row) == Dangles(b, fk, row) {}
  }

  lemma {:induction false} CaptureBlind(w: World, a: State, b: State, t: string, order: seq<RowId>,
      where: Option<Expr>, params: seq<Value>, k: nat)
    requires SameData(a, b)
    ensures Capture(w, a, t, order, where, params, k) == Capture(w, b, t, order, where, params, k)
    decreases order
  {
    hide EvalWhere;
    if order != [] { CaptureBlind(w, a, b, t, order[1..], where, params, k); }
  }

  // ---------------------------------------------------------------- executions

  /** What a statement reads before it writes. */
  lemma ReadsBlind(w: World, a: State, b: State, t: string, where: Option<Expr>, params: seq<Value>, k: nat)
    requires SameData(a, b)
    ensures a.tables == b.tables && a.schemas == b.schemas && DataOf(a) == DataOf(b)
    ensures SameData(Scanned(a), Scanned(b)) && Scanned(a).active == a.active
    ensures Capture(w, a, t, ScanOrder(w, a, t), where, params, k) ==
              Capture(w, b, t, ScanOrder(w, b, t), where, params, k)
  {
    CaptureBlind(w, a, b, t, ScanOrder(w, a, t), where, params, k);
  }

  lemma {:induction false} ExecBlind(w: World, a: State, b: State, stmt: Stmt, params: seq<Value>, x: Option<TxId>,
      y: Option<TxId>, fuel: nat)
    requires SameData(a, b)
    ensures SameResult(Exec(w, a, stmt, params, x, fuel), Exec(w, b, stmt, params, y, fuel))
    ensures Idle(a, x) ==> Exec(w, a, stmt, params, x, fuel).0.active == a.active
    decreases fuel, 6, 0
  {
    hide Candidates, Capture, InsertAll, UpdateAll, DeleteAll, SameData, ScanOrder, Scanned, SameFrame;
    match stmt
    case Insert(t, columns, source) =>
      ReadsBlind(w, a, b, t, None, params, 0);
      if t in a.schemas && t in a.tables {
        CandidatesBlind(w, a, b, a.schemas[t], columns, source, params);
        var rows := Candidates(w, a, a.schemas[t], columns, source, params);
        if rows.Ok? { InsertBlind(w, a, b, t, a.schemas[t], rows.value, x, y, fuel); }
      }
    case Update(t, sets, where) =>
      ReadsBlind(w, a, b, t, where, params, CountAssignments(sets));
      if t in a.schemas && t in a.tables {
        var caught := Capture(w, a, t, ScanOrder(w, a, t), where, params, CountAssignments(sets));
        UpdateBlind(w, Scanned(a), Scanned(b), t, a.schemas[t], caught, sets, params, x, y, fuel);
      }
    case Delete(t, where) =>
      ReadsBlind(w, a, b, t, where, params, 0);
      if t in a.tables {
        var caught := Capture(w, a, t, ScanOrder(w, a, t), where, params, 0);
        DeleteBlind(w, Scanned(a), Scanned(b), t, caught, x, y, fuel);
      }
    case Select(_) => ReadsBlind(w, a, b, "", None, params, 0);
    case OtherStmt =>
  }

  lemma CandidatesBlind(w: World, a: State, b: State, schema: Schema, columns: seq<string>, source: Source,
      params: seq<Value>)
    requires SameData(a, b)
    ensures Candidates(w, a, schema, columns, source, params) == Candidates(w, b, schema, columns, source, params)
  {
    hide TupleRows, QueryRows, ColumnNames;
  }

  lemma {:induction false} InsertBlind(w: World, a: State, b: State, t: string, schema: Schema, rows: seq<Row>,
      x: Option<TxId>, y: Option<TxId>, fuel: nat)
    requires SameData(a, b)
    ensures SameResult(InsertAll(w, a, t, schema, rows, x, fuel), InsertAll(w, b, t, schema, rows, y, fuel))
    ensures Idle(a, x) ==> InsertAll(w, a, t, schema, rows, x, fuel).0.active == a.active
    decreases fuel, 5, |rows|
  {
    hide InsertOne;
    if rows != [] {
      InsertOneBlind(w, a, b, t, schema, rows[0], x, y, fuel);
      var (a1, o) := InsertOne(w, a, t, schema, rows[0], x, fuel);
      var (b1, _) := InsertOne(w, b, t, schema, rows[0], y, fuel);
      if o.Ok? { InsertBlind(w, a1, b1, t, schema, rows[1..], x, y, fuel); }
    }
  }

  lemma {:induction false} InsertOneBlind(w: World, a: State, b: State, t: string, schema: Schema, given: Row,
      x: Option<TxId>, y: Option<TxId>, fuel: nat)
    requires SameData(a, b)
    ensures SameResult(InsertOne(w, a, t, schema, given, x, fuel), InsertOne(w, b, t, schema, given, y, fuel))
    ensures Idle(a, x) ==> InsertOne(w, a, t, schema, given, x, fuel).0.active == a.active
    decreases fuel, 4, 0
  {
    hide Fire, Validate, WriteInsert, WithDefaults;
    var r, a0, b0 := CounterOf(a, t), BumpCounter(a, t), BumpCounter(b, t);
    var row := WithDefaults(given, schema.columns, r);
    ValidateBlind(w, a0, b0, schema, row, r);
    if Validate(w, a0, schema, row, r).None? {
      FireBlind(w, a0, b0, t, OnInsert, Before, None, Some(row), x, y, fuel);
      var (a1, o) := Fire(w, a0, t, OnInsert, Before, None, Some(row), x, fuel);
      var (b1, _) := Fire(w, b0, t, OnInsert, Before, None, Some(row), y, fuel);
      if o.Ok? {
        WritesBlind(w, a1, b1, x, y, t, r, row, row);
        FireBlind(w, WriteInsert(w, a1, x, t, r, row), WriteInsert(w, b1, y, t, r, row), t, OnInsert, After, None,
          Some(row), x, y, fuel);
      }
    }
  }

  lemma {:induction false} UpdateBlind(w: World, a: State, b: State, t: string, schema: Schema, caught: seq<Captured>,
      sets: seq<Assignment>, params: seq<Value>, x: Option<TxId>, y: Option<TxId>, fuel: nat)
    requires SameData(a, b)
    ensures SameResult(UpdateAll(w, a, t, schema, caught, sets, params, x, fuel),
              UpdateAll(w, b, t, schema, caught, sets, params, y, fuel))
    ensures Idle(a, x) ==> UpdateAll(w, a, t, schema, caught, sets, params, x, fuel).0.active == a.active
    decreases fuel, 5, |caught|
  {
    hide UpdateOne;
    if caught != [] {
      UpdateOneBlind(w, a, b, t, schema, caught[0], sets, params, x, y, fuel);
      var (a1, o) := UpdateOne(w, a, t, schema, caught[0], sets, params, x, fuel);
      var (b1, _) := UpdateOne(w, b, t, schema, caught[0], sets, params, y, fuel);
      if o.Ok? { UpdateBlind(w, a1, b1, t, schema, caught[1..], sets, params, x, y, fuel); }
    }
  }

  lemma {:induction false} UpdateOneBlind(w: World, a: State, b: State, t: string, schema: Schema, c: Captured,
      sets: seq<Assignment>, params: seq<Value>, x: Option<TxId>, y: Option<TxId>, fuel: nat)
    requires SameData(a, b)
    ensures SameResult(UpdateOne(w, a, t, schema, c, sets, params, x, fuel),
              UpdateOne(w, b, t, schema, c, sets, params, y, fuel))
    ensures Idle(a, x) ==> UpdateOne(w, a, t, schema, c, sets, params, x, fuel).0.active == a.active
    decreases fuel, 4, 0
  {
    hide Fire, Validate, WriteUpdate, Assign;
    var now := Assign(w, c.row, c.row, sets, params, 0);
    ValidateBlind(w, a, b, schema, now, c.rowid);
    if Validate(w, a, schema, now, c.rowid).None? {
      FireBlind(w, a, b, t, OnUpdate, Before, Some(c.row), Some(now), x, y, fuel);
      var (a1, o) := Fire(w, a, t, OnUpdate, Before, Some(c.row), Some(now), x, fuel);
      var (b1, _) := Fire(w, b, t, OnUpdate, Before, Some(c.row), Some(now), y, fuel);
      if o.Ok? {
        WritesBlind(w, a1, b1, x, y, t, c.rowid, c.row, now);
        FireBlind(w, WriteUpdate(w, a1, x, t, c.rowid, c.row, now), WriteUpdate(w, b1, y, t, c.rowid, c.row, now),
                  t, OnUpdate, After, Some(c.row), Some(now), x, y, fuel);
      }
    }
  }

  lemma {:induction false} DeleteBlind(w: World, a: State, b: State, t: string, caught: seq<Captured>, x: Option<TxId>,
      y: Option<TxId>, fuel: nat)
    requires SameData(a, b)
    ensures SameResult(DeleteAll(w, a, t, caught, x, fuel), DeleteAll(w, b, t, caught, y, fuel))
    ensures Idle(a, x) ==> DeleteAll(w, a, t, caught, x, fuel).0.active == a.active
    decreases fuel, 5, |caught|
  {
    hide DeleteOne;
    if caught != [] {
      DeleteOneBlind(w, a, b, t, caught[0], x, y, fuel);
      var (a1, o) := DeleteOne(w, a, t, caught[0], x, fuel);
      var (b1, _) := DeleteOne(w, b, t, caught[0], y, fuel);
      if o.Ok? { DeleteBlind(w, a1, b1, t, caught[1..], x, y, fuel); }
    }
  }

  lemma {:induction false} DeleteOneBlind(w: World, a: State, b: State, t: string, c: Captured, x: Option<TxId>,
      y: Option<TxId>, fuel: nat)
    requires SameData(a, b)
    ensures SameResult(DeleteOne(w, a, t, c, x, fuel), DeleteOne(w, b, t, c, y, fuel))
    ensures Idle(a, x) ==> DeleteOne(w, a, t, c, x, fuel).0.active == a.active
    decreases fuel, 4, 0
  {
    hide Fire, WriteDelete;
    FireBlind(w, a, b, t, OnDelete, Before, Some(c.row), None, x, y, fuel);
    var (a1, o) := Fire(w, a, t, OnDelete, Before, Some(c.row), None, x, fuel);
    var (b1, _) := Fire(w, b, t, OnDelete, Before, Some(c.row), None, y, fuel);
    if o.Ok? {
      WritesBlind(w, a1, b1, x, y, t, c.rowid, c.row, c.row);
      FireBlind(w, WriteDelete(w, a1, x, t, c.rowid, c.row), WriteDelete(w, b1, y, t, c.rowid, c.row),
                t, OnDelete, After, Some(c.row), None, x, y, fuel);
    }
  }

  lemma {:induction false} FireBlind(w: World, a: State, b: State, t: string, event: Event, timing: Timing,
      was: Option<Row>, now: Option<Row>, x: Option<TxId>, y: Option<TxId>, fuel: nat)
    requires SameData(a, b)
    ensures SameResult(Fire(w, a, t, event, timing, was, now, x, fuel), Fire(w, b, t, event, timing, was, now, y, fuel))
    ensures Idle(a, x) ==> Fire(w, a, t, event, timing, was, now, x, fuel).0.active == a.active
    decreases fuel, 3, 0
  {
    hide FireEach;
    FireEachBlind(w, a, b, TriggersOf(a, t), event, timing, was, now, x, y, fuel);
  }

  lemma {:induction false} FireEachBlind(w: World, a: State, b: State, trs: seq<Trigger>, event: Event, timing: Timing,
      was: Option<Row>, now: Option<Row>, x: Option<TxId>, y: Option<TxId>, fuel: nat)
    requires SameData(a, b)
    ensures SameResult(FireEach(w, a, trs, event, timing, was, now, x, fuel),
              FireEach(w, b, trs, event, timing, was, now, y, fuel))
    ensures Idle(a, x) ==> FireEach(w, a, trs, event, timing, was, now, x, fuel).0.active == a.active
    decreases fuel, 2, |trs|
  {
    hide FireOne, FireEach;
    if trs == [] {
      FireNone(w, a, event, timing, was, now, x, fuel);
      FireNone(w, b, event, timing, was, now, y, fuel);
    } else {
      FireOneBlind(w, a, b, trs[0], event, timing, was, now, x, y, fuel);
      var (a1, o) := FireOne(w, a, trs[0], event, timing, was, now, x, fuel);
      var (b1, _) := FireOne(w, b, trs[0], event, timing, was, now, y, fuel);
      FireTurn(w, a, trs, 0, event, timing, was, now, x, fuel);
      FireTurn(w, b, trs, 0, event, timing, was, now, y, fuel);
      assert trs[0..] == trs;
      FireKeepsKeys(w, a, trs[0], event, timing, was, now, x, fuel);
      if o.Ok? { FireEachBlind(w, a1, b1, trs[1..], event, timing, was, now, x, y, fuel); }
    }
  }

  lemma FireKeepsKeys(w: World, s: State, tr: Trigger, event: Event, timing: Timing, was: Option<Row>, now: Option<Row>,
      x: Option<TxId>, fuel: nat)
    ensures FireOne(w, s, tr, event, timing, was, now, x, fuel).0.active.Keys == s.active.Keys
  {
    hide Applies, RunBody;
  }

  lemma {:induction false} FireOneBlind(w: World, a: State, b: State, tr: Trigger, event: Event, timing: Timing,
      was: Option<Row>, now: Option<Row>, x: Option<TxId>, y: Option<TxId>, fuel: nat)
    requires SameData(a, b)
    ensures SameResult(FireOne(w, a, tr, event, timing, was, now, x, fuel),
              FireOne(w, b, tr, event, timing, was, now, y, fuel))
    ensures Idle(a, x) ==> FireOne(w, a, tr, event, timing, was, now, x, fuel).0.active == a.active
    decreases fuel, 2, 0
  {
    hide EvalWhere, TriggerContext, RunBody;
    if tr.body(was, now).Some? { RunBodyBlind(w, a, b, tr.body(was, now).value, x, y, fuel); }
  }

  lemma {:induction false} RunBodyBlind(w: World, a: State, b: State, stmts: seq<Stmt>, x: Option<TxId>,
      y: Option<TxId>, fuel: nat)
    requires SameData(a, b)
    ensures SameResult(RunBody(w, a, stmts, x, fuel), RunBody(w, b, stmts, y, fuel))
    ensures Idle(a, x) ==> RunBody(w, a, stmts, x, fuel).0.active == a.active
    decreases fuel, 1, |stmts|
  {
    hide Exec;
    if stmts != [] && fuel > 0 {
      ExecBlind(w, a, b, stmts[0], [], x, y, fuel - 1);
      var (a1, o) := Exec(w, a, stmts[0], [], x, fuel - 1);
      var (b1, _) := Exec(w, b, stmts[0], [], y, fuel - 1);
      if o.Ok? { RunBodyBlind(w, a1, b1, stmts[1..], x, y, fuel); }
    }
  }
}
