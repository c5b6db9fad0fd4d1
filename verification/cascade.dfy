/** The bound on the depth of trigger cascades is only a bound: what a statement
    does within it, it does within every larger one. */
module Cascades {
  import opened Wrappers
  import opened Values
  import opened Externals
  import opened Expressions
  import opened Store
  import opened Constraints
  import opened Interpreter

  /** The cascade ended before the bound was reached. */
  predicate Finished(res: (State, Outcome)) {
    res.1 != Err(TooDeep)
  }

  lemma {:induction false} DeeperIsTheSame(w: World, s: State, stmt: Stmt, params: seq<Value>, tx: Option<TxId>,
      f: nat, g: nat)
    requires f <= g && Finished(Exec(w, s, stmt, params, tx, f))
    ensures Exec(w, s, stmt, params, tx, g) == Exec(w, s, stmt, params, tx, f)
    decreases f, 6, 0
  {
    hide Candidates, Capture;
    match stmt
    case Insert(t, columns, source) =>
      if t in s.schemas && t in s.tables {
        var rows := Candidates(w, s, s.schemas[t], columns, source, params);
        if rows.Ok? { InsertDeeper(w, s, t, s.schemas[t], rows.value, tx, f, g); }
      }
    case Update(t, sets, where) =>
      if t in s.schemas && t in s.tables {
        var caught := Capture(w, s, t, ScanOrder(w, s, t), where, params, CountAssignments(sets));
        UpdateDeeper(w, Scanned(s), t, s.schemas[t], caught, sets, params, tx, f, g);
      }
    case Delete(t, where) =>
      if t in s.tables {
        var caught := Capture(w, s, t, ScanOrder(w, s, t), where, params, 0);
        DeleteDeeper(w, Scanned(s), t, caught, tx, f, g);
      }
    case Select(_) =>
    case OtherStmt =>
  }

  lemma {:induction false} InsertDeeper(w: World, s: State, t: string, schema: Schema, rows: seq<Row>,
      tx: Option<TxId>, f: nat, g: nat)
    requires f <= g && Finished(InsertAll(w, s, t, schema, rows, tx, f))
    ensures InsertAll(w, s, t, schema, rows, tx, g) == InsertAll(w, s, t, schema, rows, tx, f)
    decreases f, 5, |rows|
  {
    hide InsertOne;
    if rows != [] {
      InsertOneDeeper(w, s, t, schema, rows[0], tx, f, g);
      var (s1, o1) := InsertOne(w, s, t, schema, rows[0], tx, f);
      if o1.Ok? { InsertDeeper(w, s1, t, schema, rows[1..], tx, f, g); }
    }
  }

  lemma {:induction false} InsertOneDeeper(w: World, s: State, t: string, schema: Schema, given: Row,
      tx: Option<TxId>, f: nat, g: nat)
    requires f <= g && Finished(InsertOne(w, s, t, schema, given, tx, f))
    ensures InsertOne(w, s, t, schema, given, tx, g) == InsertOne(w, s, t, schema, given, tx, f)
    decreases f, 4, 0
  {
    hide Fire, Validate, WriteInsert;
    var r, s0 := CounterOf(s, t), BumpCounter(s, t);
    var row := WithDefaults(given, schema.columns, r);
    if Validate(w, s0, schema, row, r).None? {
      FireDeeper(w, s0, t, OnInsert, Before, None, Some(row), tx, f, g);
      var (s1, o1) := Fire(w, s0, t, OnInsert, Before, None, Some(row), tx, f);
      if o1.Ok? { FireDeeper(w, WriteInsert(w, s1, tx, t, r, row), t, OnInsert, After, None, Some(row), tx, f, g); }
    }
  }

  lemma {:induction false} UpdateDeeper(w: World, s: State, t: string, schema: Schema, caught: seq<Captured>,
      sets: seq<Assignment>, params: seq<Value>, tx: Option<TxId>, f: nat, g: nat)
    requires f <= g && Finished(UpdateAll(w, s, t, schema, caught, sets, params, tx, f))
    ensures UpdateAll(w, s, t, schema, caught, sets, params, tx, g) ==
              UpdateAll(w, s, t, schema, caught, sets, params, tx, f)
    decreases f, 5, |caught|
  {
    hide UpdateOne;
    if caught != [] {
      UpdateOneDeeper(w, s, t, schema, caught[0], sets, params, tx, f, g);
      var (s1, o1) := UpdateOne(w, s, t, schema, caught[0], sets, params, tx, f);
      if o1.Ok? { UpdateDeeper(w, s1, t, schema, caught[1..], sets, params, tx, f, g); }
    }
  }

  lemma {:induction false} UpdateOneDeeper(w: World, s: State, t: string, schema: Schema, c: Captured,
      sets: seq<Assignment>, params: seq<Value>, tx: Option<TxId>, f: nat, g: nat)
    requires f <= g && Finished(UpdateOne(w, s, t, schema, c, sets, params, tx, f))
    ensures UpdateOne(w, s, t, schema, c, sets, params, tx, g) == UpdateOne(w, s, t, schema, c, sets, params, tx, f)
    decreases f, 4, 0
  {
    hide Fire, Validate, WriteUpdate, Assign;
    var now := Assign(w, c.row, c.row, sets, params, 0);
    if Validate(w, s, schema, now, c.rowid).None? {
      FireDeeper(w, s, t, OnUpdate, Before, Some(c.row), Some(now), tx, f, g);
      var (s1, o1) := Fire(w, s, t, OnUpdate, Before, Some(c.row), Some(now), tx, f);
      if o1.Ok? {
        FireDeeper(w, WriteUpdate(w, s1, tx, t, c.rowid, c.row, now), t, OnUpdate, After, Some(c.row), Some(now), tx,
          f, g);
      }
    }
  }

  lemma {:induction false} DeleteDeeper(w: World, s: State, t: string, caught: seq<Captured>, tx: Option<TxId>,
      f: nat, g: nat)
    requires f <= g && Finished(DeleteAll(w, s, t, caught, tx, f))
    ensures DeleteAll(w, s, t, caught, tx, g) == DeleteAll(w, s, t, caught, tx, f)
    decreases f, 5, |caught|
  {
    hide Fire, WriteDelete;
    if caught != [] {
      var c := caught[0];
      FireDeeper(w, s, t, OnDelete, Before, Some(c.row), None, tx, f, g);
      var (s1, o1) := Fire(w, s, t, OnDelete, Before, Some(c.row), None, tx, f);
      if o1.Ok? {
        FireDeeper(w, WriteDelete(w, s1, tx, t, c.rowid, c.row), t, OnDelete, After, Some(c.row), None, tx, f, g);
        var (s2, o2) := DeleteOne(w, s, t, c, tx, f);
        if o2.Ok? { DeleteDeeper(w, s2, t, caught[1..], tx, f, g); }
      }
    }
  }

  lemma {:induction false} FireDeeper(w: World, s: State, t: string, event: Event, timing: Timing, was: Option<Row>,
      now: Option<Row>, tx: Option<TxId>, f: nat, g: nat)
    requires f <= g && Finished(Fire(w, s, t, event, timing, was, now, tx, f))
    ensures Fire(w, s, t, event, timing, was, now, tx, g) == Fire(w, s, t, event, timing, was, now, tx, f)
    decreases f, 3, 0
  {
    FireEachDeeper(w, s, TriggersOf(s, t), event, timing, was, now, tx, f, g);
  }

  lemma {:induction false} FireEachDeeper(w: World, s: State, trs: seq<Trigger>, event: Event, timing: Timing,
      was: Option<Row>, now: Option<Row>, tx: Option<TxId>, f: nat, g: nat)
    requires f <= g && Finished(FireEach(w, s, trs, event, timing, was, now, tx, f))
    ensures FireEach(w, s, trs, event, timing, was, now, tx, g) == FireEach(w, s, trs, event, timing, was, now, tx, f)
    decreases f, 2, |trs|
  {
    if trs != [] {
      hide FireEach, FireOne;
      assert trs[0..] == trs;
      FireTurn(w, s, trs, 0, event, timing, was, now, tx, f);
      FireTurn(w, s, trs, 0, event, timing, was, now, tx, g);
      FireOneDeeper(w, s, trs[0], event, timing, was, now, tx, f, g);
      var (s1, o1) := FireOne(w, s, trs[0], event, timing, was, now, tx, f);
      if o1.Ok? { FireEachDeeper(w, s1, trs[1..], event, timing, was, now, tx, f, g); }
    }
  }

  lemma {:induction false} FireOneDeeper(w: World, s: State, tr: Trigger, event: Event, timing: Timing,
      was: Option<Row>, now: Option<Row>, tx: Option<TxId>, f: nat, g: nat)
    requires f <= g && Finished(FireOne(w, s, tr, event, timing, was, now, tx, f))
    ensures FireOne(w, s, tr, event, timing, was, now, tx, g) == FireOne(w, s, tr, event, timing, was, now, tx, f)
    decreases f, 2, 0
  {
    hide RunBody, Applies;
    if tr.event == event && tr.timing == timing && !tr.condition.Unparsable?
      && Applies(w, s, tr, event, timing, was, now)
    {
      if tr.body(was, now).Some? { BodyDeeper(w, s, tr.body(was, now).value, tx, f, g); }
    }
  }

  lemma {:induction false} BodyDeeper(w: World, s: State, stmts: seq<Stmt>, tx: Option<TxId>, f: nat, g: nat)
    requires f <= g && Finished(RunBody(w, s, stmts, tx, f))
    ensures RunBody(w, s, stmts, tx, g) == RunBody(w, s, stmts, tx, f)
    decreases f, 1, |stmts|
  {
    hide Exec;
    if stmts != [] && f > 0 {
      DeeperIsTheSame(w, s, stmts[0], [], tx, f - 1, g - 1);
      var (s1, o1) := Exec(w, s, stmts[0], [], tx, f - 1);
      if o1.Ok? { BodyDeeper(w, s1, stmts[1..], tx, f, g); }
    }
  }
}
