/** Which statements are fresh runs: those whose triggers never write to a table
    that a statement above them is still working through. */
module Freshness {
  import opened Wrappers
  import opened Values
  import opened Externals
  import opened Expressions
  import opened Store
  import opened Constraints
  import opened Interpreter
  import opened Reach
  import opened Runs
  import opened Exactness

  /** No cascade of a trigger of a table in `z` writes to that table. */
  ghost predicate AllAside(triggers: map<string, seq<Trigger>>, z: iset<string>) {
    forall t, i {:trigger triggers[t][i]} :: t in z && t in triggers && 0 <= i < |triggers[t]| ==>
      Aside(triggers, triggers[t][i], t)
  }

  /** What a statement may set off: a closed set of tables without such cascades. */
  ghost predicate Tame(triggers: map<string, seq<Trigger>>, z: iset<string>) {
    Closed(triggers, z) && AllAside(triggers, z)
  }

  /** A fresh run from `s` to `s'`, both in good order. */
  ghost predicate Freshly(w: World, s: State, tx: TxId, steps: seq<Step>, s': State) {
    && Ready(s, tx) && Ready(s', tx) && FreshRun(w, s, tx, steps) && s' == Replay(w, s, tx, steps)
    && s'.triggers == s.triggers && s'.schemas == s.schemas && s'.tables.Keys == s.tables.Keys
    && forall t :: CounterOf(s, t) <= CounterOf(s', t)
  }

  lemma FreshlyNothing(w: World, s: State, tx: TxId)
    requires Ready(s, tx)
    ensures Freshly(w, s, tx, [], s)
  {
  }

  lemma FreshlyJoin(w: World, s: State, tx: TxId, a: seq<Step>, s1: State, b: seq<Step>, s2: State)
    requires Freshly(w, s, tx, a, s1) && Freshly(w, s1, tx, b, s2)
    ensures Freshly(w, s, tx, a + b, s2)
  {
    hide Ready;
    FreshConcat(w, s, tx, a, b);
    ReplayConcat(w, s, tx, a, b);
  }

  lemma FreshlyOne(w: World, s: State, tx: TxId, step: Step)
    requires Ready(s, tx) && Fresh(s, step) && (step.Ins? ==> step.r < CounterOf(s, step.t))
    ensures Freshly(w, s, tx, [step], Apply(w, s, tx, step))
  {
    hide Apply, Ahead;
    OneFresh(w, s, tx, step);
    var floor := if step.Ins? then map[step.t := step.r] else map[];
    StepKeepsAhead(w, s, tx, floor, step);
    StepFollows(w, s, tx, step);
  }

  // ---------------------------------------------------------------- one row at a time

  /** The rows of the table but one are as they were. */
  ghost predicate OnlyRow(s: State, s': State, t: string, r: RowId) {
    t in s'.tables && forall x: RowId :: x != r ==> RowAt(s'.tables, t, x) == RowAt(s.tables, t, x)
  }

  lemma FireKeeps(w: World, s: State, t: string, event: Event, timing: Timing, was: Option<Row>, now: Option<Row>,
      tx: Option<TxId>, fuel: nat, z: iset<string>)
    requires t in z && AllAside(s.triggers, z)
    ensures Kept(s, Fire(w, s, t, event, timing, was, now, tx, fuel).0, t)
  {
    hide FireEach, Aside;
    AsideKeeps(w, s, TriggersOf(s, t), t, event, timing, was, now, tx, fuel);
  }

  lemma WritesOnlyRow(w: World, s: State, tx: TxId, step: Step)
    requires IsWriteStep(step) && step.t in s.tables
    ensures OnlyRow(s, Apply(w, s, tx, step), step.t, step.r)
  {
    hide UpdateIndexes, SyncFts;
  }

  /** A fresh write between the triggers before it and the triggers after it. */
  lemma {:induction false} WriteFresh(w: World, s: State, tx: TxId, steps: seq<Step>, s1: State, step: Step,
      event: Event,
      was: Option<Row>, now: Option<Row>, fuel: nat, z: iset<string>) returns (all: seq<Step>)
    requires Freshly(w, s, tx, steps, s1) && w.ScansOnce() && Tame(s.triggers, z)
    requires IsWriteStep(step) && step.t in z && Fresh(s1, step) && (step.Ins? ==> step.r < CounterOf(s1, step.t))
    requires OnlyRow(s, s1, step.t, step.r)
    ensures var s' := Fire(w, Apply(w, s1, tx, step), step.t, event, After, was, now, Some(tx), fuel).0;
            Freshly(w, s, tx, all, s') && OnlyRow(s, s', step.t, step.r)
    decreases fuel, 3, 1
  {
    hide Ready, Apply, Fire, Aside, Closed, FreshRun;
    var s2 := Apply(w, s1, tx, step);
    var s' := Fire(w, s2, step.t, event, After, was, now, Some(tx), fuel).0;
    FreshlyOne(w, s1, tx, step);
    WritesOnlyRow(w, s1, tx, step);
    FreshlyJoin(w, s, tx, steps, s1, [step], s2);
    var after := FireFresh(w, s2, step.t, event, After, was, now, tx, fuel, z);
    FireKeeps(w, s2, step.t, event, After, was, now, Some(tx), fuel, z);
    FreshlyJoin(w, s, tx, steps + [step], s2, after, s');
    all := steps + [step] + after;
  }

  lemma {:induction false} InsertOneFresh(w: World, s: State, t: string, schema: Schema, given: Row, tx: TxId,
      fuel: nat,
      z: iset<string>) returns (steps: seq<Step>)
    requires Ready(s, tx) && w.ScansOnce() && Tame(s.triggers, z) && t in z && t in s.tables
    ensures Freshly(w, s, tx, steps, InsertOne(w, s, t, schema, given, Some(tx), fuel).0)
    decreases fuel, 4, 0
  {
    hide Ready, WriteInsert, Fire, Validate, Aside, Closed, FreshRun, Freshly, WithDefaults;
    var r, s0 := CounterOf(s, t), BumpCounter(s, t);
    var row := WithDefaults(given, schema.columns, r);
    steps := [Alloc(t)];
    FreshlyOne(w, s, tx, Alloc(t));
    FreshlyFrame(w, s, tx, steps, s0);
    if Validate(w, s0, schema, row, r).None? {
      var (s1, o1) := Fire(w, s0, t, OnInsert, Before, None, Some(row), Some(tx), fuel);
      var before := FireFresh(w, s0, t, OnInsert, Before, None, Some(row), tx, fuel, z);
      FireKeeps(w, s0, t, OnInsert, Before, None, Some(row), Some(tx), fuel, z);
      FreshlyFrame(w, s0, tx, before, s1);
      FreshlyJoin(w, s, tx, steps, s0, before, s1);
      steps := steps + before;
      if o1.Ok? {
        NewIdUnused(s, tx, t);
        var step := Ins(t, r, row);
        steps := WriteFresh(w, s, tx, steps, s1, step, OnInsert, None, Some(row), fuel, z);
      }
    }
  }

  lemma FreshlyFrame(w: World, s: State, tx: TxId, steps: seq<Step>, s': State)
    requires Freshly(w, s, tx, steps, s')
    ensures Ready(s', tx) && s'.triggers == s.triggers && s'.schemas == s.schemas && s'.tables.Keys == s.tables.Keys
    ensures forall t :: CounterOf(s, t) <= CounterOf(s', t)
  {
  }

  lemma NewIdUnused(s: State, tx: TxId, t: string)
    requires Ready(s, tx)
    ensures RowAt(s.tables, t, CounterOf(s, t)).None?
  {
  }

  lemma {:induction false} UpdateOneFresh(w: World, s: State, t: string, schema: Schema, c: Captured,
      sets: seq<Assignment>, params: seq<Value>, tx: TxId, fuel: nat, z: iset<string>) returns (steps: seq<Step>)
    requires Ready(s, tx) && w.ScansOnce() && Tame(s.triggers, z) && t in z && t in s.tables
    requires RowAt(s.tables, t, c.rowid) == Some(c.row)
    ensures var s' := UpdateOne(w, s, t, schema, c, sets, params, Some(tx), fuel).0;
            Freshly(w, s, tx, steps, s') && OnlyRow(s, s', t, c.rowid)
    decreases fuel, 4, 0
  {
    hide Ready, WriteUpdate, Fire, Validate, Aside, Closed, FreshRun, Freshly, Assign;
    var now := Assign(w, c.row, c.row, sets, params, 0);
    steps := [];
    FreshlyNothing(w, s, tx);
    if Validate(w, s, schema, now, c.rowid).None? {
      var (s1, o1) := Fire(w, s, t, OnUpdate, Before, Some(c.row), Some(now), Some(tx), fuel);
      steps := FireFresh(w, s, t, OnUpdate, Before, Some(c.row), Some(now), tx, fuel, z);
      FireKeeps(w, s, t, OnUpdate, Before, Some(c.row), Some(now), Some(tx), fuel, z);
      if o1.Ok? {
        var step := Upd(t, c.rowid, c.row, now);
        steps := WriteFresh(w, s, tx, steps, s1, step, OnUpdate, Some(c.row), Some(now), fuel, z);
      }
    }
  }

  lemma {:induction false} DeleteOneFresh(w: World, s: State, t: string, c: Captured, tx: TxId, fuel: nat,
      z: iset<string>) returns (steps: seq<Step>)
    requires Ready(s, tx) && w.ScansOnce() && Tame(s.triggers, z) && t in z && t in s.tables
    requires RowAt(s.tables, t, c.rowid) == Some(c.row)
    ensures var s' := DeleteOne(w, s, t, c, Some(tx), fuel).0;
            Freshly(w, s, tx, steps, s') && OnlyRow(s, s', t, c.rowid)
    decreases fuel, 4, 0
  {
    hide Ready, WriteDelete, Fire, Aside, Closed, FreshRun, Freshly;
    var (s1, o1) := Fire(w, s, t, OnDelete, Before, Some(c.row), None, Some(tx), fuel);
    steps := FireFresh(w, s, t, OnDelete, Before, Some(c.row), None, tx, fuel, z);
    FireKeeps(w, s, t, OnDelete, Before, Some(c.row), None, Some(tx), fuel, z);
    if o1.Ok? {
      steps := WriteFresh(w, s, tx, steps, s1, Del(t, c.rowid, c.row), OnDelete, Some(c.row), None, fuel, z);
    }
  }

  // ---------------------------------------------------------------- whole statements

  lemma CurrentRest(s: State, s': State, t: string, caught: seq<Captured>)
    requires caught != [] && AllCurrent(s, t, caught) && OnlyRow(s, s', t, caught[0].rowid)
    ensures AllCurrent(s', t, caught[1..])
  {
    forall i | 0 <= i < |caught[1..]| ensures RowAt(s'.tables, t, caught[1..][i].rowid) == Some(caught[1..][i].row) {
      assert caught[1..][i] == caught[i + 1];
    }
  }

  lemma {:induction false} InsertAllFresh(w: World, s: State, t: string, schema: Schema, rows: seq<Row>, tx: TxId,
      fuel: nat, z: iset<string>) returns (steps: seq<Step>)
    requires Ready(s, tx) && w.ScansOnce() && Tame(s.triggers, z) && t in z && t in s.tables
    ensures Freshly(w, s, tx, steps, InsertAll(w, s, t, schema, rows, Some(tx), fuel).0)
    decreases fuel, 5, |rows|
  {
    hide Ready, InsertOne, Aside, Closed, FreshRun, Freshly;
    steps := [];
    FreshlyNothing(w, s, tx);
    if rows != [] {
      var (s1, o1) := InsertOne(w, s, t, schema, rows[0], Some(tx), fuel);
      steps := InsertOneFresh(w, s, t, schema, rows[0], tx, fuel, z);
      FreshlyFrame(w, s, tx, steps, s1);
      if o1.Ok? {
        var rest := InsertAllFresh(w, s1, t, schema, rows[1..], tx, fuel, z);
        FreshlyJoin(w, s, tx, steps, s1, rest, InsertAll(w, s1, t, schema, rows[1..], Some(tx), fuel).0);
        steps := steps + rest;
      }
    }
  }

  lemma {:induction false} UpdateAllFresh(w: World, s: State, t: string, schema: Schema, caught: seq<Captured>,
      sets: seq<Assignment>, params: seq<Value>, tx: TxId, fuel: nat, z: iset<string>) returns (steps: seq<Step>)
    requires Ready(s, tx) && w.ScansOnce() && Tame(s.triggers, z) && t in z && t in s.tables && AllCurrent(s, t, caught)
    ensures Freshly(w, s, tx, steps, UpdateAll(w, s, t, schema, caught, sets, params, Some(tx), fuel).0)
    decreases fuel, 5, |caught|
  {
    hide Ready, UpdateOne, Aside, Closed, FreshRun, Freshly, OnlyRow, RowAt;
    steps := [];
    FreshlyNothing(w, s, tx);
    if caught != [] {
      var (s1, o1) := UpdateOne(w, s, t, schema, caught[0], sets, params, Some(tx), fuel);
      steps := UpdateOneFresh(w, s, t, schema, caught[0], sets, params, tx, fuel, z);
      FreshlyFrame(w, s, tx, steps, s1);
      if o1.Ok? {
        CurrentRest(s, s1, t, caught);
        var rest := UpdateAllFresh(w, s1, t, schema, caught[1..], sets, params, tx, fuel, z);
        FreshlyJoin(w, s, tx, steps, s1, rest,
          UpdateAll(w, s1, t, schema, caught[1..], sets, params, Some(tx), fuel).0);
        steps := steps + rest;
      }
    }
  }

  lemma {:induction false} DeleteAllFresh(w: World, s: State, t: string, caught: seq<Captured>, tx: TxId, fuel: nat,
      z: iset<string>) returns (steps: seq<Step>)
    requires Ready(s, tx) && w.ScansOnce() && Tame(s.triggers, z) && t in z && t in s.tables && AllCurrent(s, t, caught)
    ensures Freshly(w, s, tx, steps, DeleteAll(w, s, t, caught, Some(tx), fuel).0)
    decreases fuel, 5, |caught|
  {
    hide Ready, DeleteOne, Aside, Closed, FreshRun, Freshly, OnlyRow, RowAt;
    steps := [];
    FreshlyNothing(w, s, tx);
    if caught != [] {
      var (s1, o1) := DeleteOne(w, s, t, caught[0], Some(tx), fuel);
      steps := DeleteOneFresh(w, s, t, caught[0], tx, fuel, z);
      FreshlyFrame(w, s, tx, steps, s1);
      if o1.Ok? {
        CurrentRest(s, s1, t, caught);
        var rest := DeleteAllFresh(w, s1, t, caught[1..], tx, fuel, z);
        FreshlyJoin(w, s, tx, steps, s1, rest, DeleteAll(w, s1, t, caught[1..], Some(tx), fuel).0);
        steps := steps + rest;
      }
    }
  }

  /** A scan captures rows as they are. */
  lemma ScanIsCurrent(w: World, s: State, tx: TxId, t: string, where: Option<Expr>, params: seq<Value>, k: nat)
    requires Ready(s, tx) && w.ScansOnce() && t in s.tables
    ensures AllCurrent(Scanned(s), t, Capture(w, s, t, ScanOrder(w, s, t), where, params, k))
    ensures Freshly(w, s, tx, [Scan], Scanned(s))
  {
    hide Capture, Ready;
    CaptureCurrent(w, s, t, ScanOrder(w, s, t), where, params, k);
    FreshlyOne(w, s, tx, Scan);
  }

  /** A statement on a table in a tame set is a fresh run, whatever it sets off and
      wherever it stops. */
  lemma {:induction false} TameStatementIsFresh(w: World, s: State, stmt: Stmt, params: seq<Value>, tx: TxId, fuel: nat,
      z: iset<string>) returns (steps: seq<Step>)
    requires Ready(s, tx) && w.ScansOnce() && Tame(s.triggers, z) && StmtWithin(stmt, z)
    ensures Freshly(w, s, tx, steps, Exec(w, s, stmt, params, Some(tx), fuel).0)
    decreases fuel, 6, 0
  {
    hide Ready, InsertAll, UpdateAll, DeleteAll, Capture, Candidates, Aside, Closed, FreshRun, Freshly;
    steps := [];
    FreshlyNothing(w, s, tx);
    match stmt
    case Insert(t, columns, source) =>
      if t in s.schemas && t in s.tables {
        var rows := Candidates(w, s, s.schemas[t], columns, source, params);
        if rows.Ok? { steps := InsertAllFresh(w, s, t, s.schemas[t], rows.value, tx, fuel, z); }
      }
    case Update(t, sets, where) =>
      if t in s.schemas && t in s.tables {
        var k := CountAssignments(sets);
        var caught := Capture(w, s, t, ScanOrder(w, s, t), where, params, k);
        ScanIsCurrent(w, s, tx, t, where, params, k);
        FreshlyFrame(w, s, tx, [Scan], Scanned(s));
        var rest := UpdateAllFresh(w, Scanned(s), t, s.schemas[t], caught, sets, params, tx, fuel, z);
        FreshlyJoin(w, s, tx, [Scan], Scanned(s), rest, Exec(w, s, stmt, params, Some(tx), fuel).0);
        steps := [Scan] + rest;
      }
    case Delete(t, where) =>
      if t in s.tables {
        var caught := Capture(w, s, t, ScanOrder(w, s, t), where, params, 0);
        ScanIsCurrent(w, s, tx, t, where, params, 0);
        FreshlyFrame(w, s, tx, [Scan], Scanned(s));
        var rest := DeleteAllFresh(w, Scanned(s), t, caught, tx, fuel, z);
        FreshlyJoin(w, s, tx, [Scan], Scanned(s), rest, Exec(w, s, stmt, params, Some(tx), fuel).0);
        steps := [Scan] + rest;
      }
    case Select(_) =>
    case OtherStmt =>
  }

  // ---------------------------------------------------------------- triggers

  lemma {:induction false} FireFresh(w: World, s: State, t: string, event: Event, timing: Timing, was: Option<Row>,
      now: Option<Row>, tx: TxId, fuel: nat, z: iset<string>) returns (steps: seq<Step>)
    requires Ready(s, tx) && w.ScansOnce() && Tame(s.triggers, z) && t in z
    ensures Freshly(w, s, tx, steps, Fire(w, s, t, event, timing, was, now, Some(tx), fuel).0)
    decreases fuel, 3, 0
  {
    hide Ready, FireEach, AllAside, BodyWithin, Freshly;
    steps := FireEachFresh(w, s, TriggersOf(s, t), event, timing, was, now, tx, fuel, z);
  }

  lemma {:induction false} FireEachFresh(w: World, s: State, trs: seq<Trigger>, event: Event, timing: Timing,
      was: Option<Row>, now: Option<Row>, tx: TxId, fuel: nat, z: iset<string>) returns (steps: seq<Step>)
    requires Ready(s, tx) && w.ScansOnce() && Tame(s.triggers, z) && BodiesWithin(trs, z)
    ensures Freshly(w, s, tx, steps, FireEach(w, s, trs, event, timing, was, now, Some(tx), fuel).0)
    decreases fuel, 2, |trs|
  {
    hide Ready, FireOne, FireEach, Tame, BodyWithin, Freshly;
    if trs == [] {
      steps := [];
      FreshlyNothing(w, s, tx);
      FireNone(w, s, event, timing, was, now, Some(tx), fuel);
    } else {
      var (s1, o1) := FireOne(w, s, trs[0], event, timing, was, now, Some(tx), fuel);
      steps := FireOneFresh(w, s, trs[0], event, timing, was, now, tx, fuel, z);
      FreshlyFrame(w, s, tx, steps, s1);
      FireTurn(w, s, trs, 0, event, timing, was, now, Some(tx), fuel);
      assert trs[0..] == trs;
      if o1.Ok? {
        var rest := FireEachFresh(w, s1, trs[1..], event, timing, was, now, tx, fuel, z);
        FreshlyJoin(w, s, tx, steps, s1, rest, FireEach(w, s1, trs[1..], event, timing, was, now, Some(tx), fuel).0);
        steps := steps + rest;
      }
    }
  }

  lemma {:induction false} FireOneFresh(w: World, s: State, tr: Trigger, event: Event, timing: Timing, was: Option<Row>,
      now: Option<Row>, tx: TxId, fuel: nat, z: iset<string>) returns (steps: seq<Step>)
    requires Ready(s, tx) && w.ScansOnce() && Tame(s.triggers, z) && BodyWithin(tr, z)
    ensures Freshly(w, s, tx, steps, FireOne(w, s, tr, event, timing, was, now, Some(tx), fuel).0)
    decreases fuel, 2, 0
  {
    hide Ready, Applies, RunBody, Tame, Freshly;
    steps := [];
    FreshlyNothing(w, s, tx);
    if tr.event == event && tr.timing == timing && !tr.condition.Unparsable?
      && Applies(w, s, tr, event, timing, was, now)
       && tr.body(was, now).Some?
    {
      steps := RunBodyFresh(w, s, tr.body(was, now).value, tx, fuel, z);
    }
  }

  lemma {:induction false} RunBodyFresh(w: World, s: State, stmts: seq<Stmt>, tx: TxId, fuel: nat,
      z: iset<string>) returns (steps: seq<Step>)
    requires Ready(s, tx) && w.ScansOnce() && Tame(s.triggers, z) && AllWithin(stmts, z)
    ensures Freshly(w, s, tx, steps, RunBody(w, s, stmts, Some(tx), fuel).0)
    decreases fuel, 1, |stmts|
  {
    hide Ready, Exec, Tame, Freshly;
    steps := [];
    FreshlyNothing(w, s, tx);
    if stmts != [] && fuel > 0 {
      var (s1, o1) := Exec(w, s, stmts[0], [], Some(tx), fuel - 1);
      steps := TameStatementIsFresh(w, s, stmts[0], [], tx, fuel - 1, z);
      FreshlyFrame(w, s, tx, steps, s1);
      if o1.Ok? {
        var rest := RunBodyFresh(w, s1, stmts[1..], tx, fuel, z);
        FreshlyJoin(w, s, tx, steps, s1, rest, RunBody(w, s1, stmts[1..], Some(tx), fuel).0);
        steps := steps + rest;
      }
    }
  }

  /** In particular a statement on a table without triggers. */
  lemma PlainStatementIsFresh(w: World, s: State, stmt: Stmt, params: seq<Value>, tx: TxId,
      fuel: nat) returns (steps: seq<Step>)
    requires Ready(s, tx) && w.ScansOnce() && IsWrite(stmt) && TriggersOf(s, stmt.table) == []
    ensures FreshRun(w, s, tx, steps)
    ensures Replay(w, s, tx, steps) == Exec(w, s, stmt, params, Some(tx), fuel).0
  {
    hide Ready, Exec, FreshRun;
    steps := TameStatementIsFresh(w, s, stmt, params, tx, fuel, iset{stmt.table});
  }
}
