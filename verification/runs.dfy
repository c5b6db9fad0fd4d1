/** Every execution is a run of single steps, each of which is legal.

    A step is one write with everything that goes with it, or one of the two
    silent moves (taking a row id, scanning a table). What makes a write legal is
    the key to rollback: the row it journals is the row now stored, unless the
    same transaction has already journaled that row id. */
module Runs {
  import opened Wrappers
  import opened Values
  import opened Externals
  import opened Expressions
  import opened Store
  import opened Constraints
  import opened Interpreter
  import opened Reach

  datatype Step =
    | Alloc(t: string)
    | Scan
    | Ins(t: string, r: RowId, row: Row)
    | Upd(t: string, r: RowId, was: Row, now: Row)
    | Del(t: string, r: RowId, was: Row)

  function Apply(w: World, s: State, tx: TxId, step: Step): State {
    match step
    case Alloc(t) => BumpCounter(s, t)
    case Scan => Scanned(s)
    case Ins(t, r, row) => WriteInsert(w, s, Some(tx), t, r, row)
    case Upd(t, r, was, now) => WriteUpdate(w, s, Some(tx), t, r, was, now)
    case Del(t, r, was) => WriteDelete(w, s, Some(tx), t, r, was)
  }

  predicate IsWriteStep(step: Step) {
    step.Ins? || step.Upd? || step.Del?
  }

  /** What a write journals. */
  function Entry(step: Step): UndoOp
    requires IsWriteStep(step)
  {
    if step.Ins? then UndoInsert(step.t, step.r)
    else if step.Upd? then UndoUpdate(step.t, step.r, step.was)
    else UndoDelete(step.t, step.r, step.was)
  }

  function Replay(w: World, s: State, tx: TxId, steps: seq<Step>): State
    decreases |steps|
  {
    if steps == [] then s
    else Apply(w, Replay(w, s, tx, steps[..|steps| - 1]), tx, steps[|steps| - 1])
  }

  lemma {:induction false} ReplayConcat(w: World, s: State, tx: TxId, a: seq<Step>, b: seq<Step>)
    ensures Replay(w, s, tx, a + b) == Replay(w, Replay(w, s, tx, a), tx, b)
    decreases |b|
  {
    if b == [] {
      assert a + b == a;
    } else {
      assert (a + b)[..|a + b| - 1] == a + b[..|b| - 1];
      ReplayConcat(w, s, tx, a, b[..|b| - 1]);
    }
  }

  // ---------------------------------------------------------------- journals

  /** What undoing an entry leaves at its row id. */
  function Restores(op: UndoOp): Option<Row> {
    match op
    case UndoInsert(_, _) => None
    case UndoDelete(_, _, row) => Some(row)
    case UndoUpdate(_, _, was) => Some(was)
  }

  /** The first entry for a row id, and what undoing it leaves there. */
  function FirstTouch(ops: seq<UndoOp>, t: string, r: RowId): Option<Option<Row>>
    decreases |ops|
  {
    if ops == [] then None
    else
      var earlier := FirstTouch(ops[..|ops| - 1], t, r);
      var last := ops[|ops| - 1];
      if earlier.Some? then earlier
      else if last.table == t && last.rowid == r then Some(Restores(last))
      else None
  }

  predicate Touched(s: State, tx: TxId, t: string, r: RowId) {
    FirstTouch(JournalOf(s, tx), t, r).Some?
  }

  lemma FirstTouchAppend(ops: seq<UndoOp>, op: UndoOp, t: string, r: RowId)
    ensures FirstTouch(ops + [op], t, r) ==
              if FirstTouch(ops, t, r).Some? then FirstTouch(ops, t, r)
              else if op.table == t && op.rowid == r then Some(Restores(op))
              else None
  {
    assert (ops + [op])[..|ops + [op]| - 1] == ops;
  }

  lemma {:induction false} TouchedByEntry(ops: seq<UndoOp>, t: string, r: RowId) returns (i: nat)
    requires FirstTouch(ops, t, r).Some?
    ensures i < |ops| && ops[i].table == t && ops[i].rowid == r
    decreases |ops|
  {
    if FirstTouch(ops[..|ops| - 1], t, r).Some? {
      i := TouchedByEntry(ops[..|ops| - 1], t, r);
    } else {
      i := |ops| - 1;
    }
  }

  // ---------------------------------------------------------------- legality

  function FloorOf(floor: map<string, int>, t: string): int {
    if t in floor then floor[t] else 1
  }

  /** What a write journals is the row now stored under its id, or that id has
      already been journaled. */
  predicate Faithful(s: State, tx: TxId, step: Step)
    requires IsWriteStep(step)
  {
    && step.t in s.tables
    && (RowAt(s.tables, step.t, step.r) == Restores(Entry(step)) || Touched(s, tx, step.t, step.r))
  }

  /** `floor` holds the row-id counters at the start of the run: a run inserts
      only under ids it has taken itself. */
  predicate Legal(s: State, tx: TxId, floor: map<string, int>, step: Step) {
    && (IsWriteStep(step) ==> Faithful(s, tx, step))
    && (step.Ins? ==> FloorOf(floor, step.t) <= step.r < CounterOf(s, step.t))
  }

  predicate LegalRun(w: World, s: State, tx: TxId, floor: map<string, int>, steps: seq<Step>)
    decreases |steps|
  {
    steps == [] ||
    (LegalRun(w, s, tx, floor, steps[..|steps| - 1])
     && Legal(Replay(w, s, tx, steps[..|steps| - 1]), tx, floor, steps[|steps| - 1]))
  }

  /** The row passes the checks that look at other rows: the uniqueness checks, and
      those foreign keys whose table no cascade of a BEFORE trigger writes to. */
  ghost predicate Passes(s: State, t: string, row: Row, r: RowId) {
    t in s.schemas &&
    var schema := s.schemas[t];
    && PassesUnique(s, schema, row, r)
    && forall i :: 0 <= i < |schema.foreignKeys| && BeforeAvoids(s.triggers, t, schema.foreignKeys[i].refTable) ==>
         !Dangles(s, schema.foreignKeys[i], row)
  }

  /** The new row of a write passes them in the state it meets. */
  ghost predicate Checked(s: State, step: Step) {
    match step
    case Ins(t, r, row) => Passes(s, t, row, r)
    case Upd(t, r, _, now) => Passes(s, t, now, r)
    case _ => true
  }

  ghost predicate CheckedRun(w: World, s: State, tx: TxId, steps: seq<Step>)
    decreases |steps|
  {
    steps == [] ||
    (CheckedRun(w, s, tx, steps[..|steps| - 1])
     && Checked(Replay(w, s, tx, steps[..|steps| - 1]), steps[|steps| - 1]))
  }

  /** The new row of a write satisfies NOT NULL and CHECK. */
  ghost predicate StepRowOk(w: World, schemas: map<string, Schema>, step: Step) {
    match step
    case Ins(t, _, row) => t in schemas ==> RowOk(w, schemas[t], row)
    case Upd(t, _, _, now) => t in schemas ==> RowOk(w, schemas[t], now)
    case _ => true
  }

  ghost predicate RowsOk(w: World, schemas: map<string, Schema>, steps: seq<Step>) {
    forall i :: 0 <= i < |steps| ==> StepRowOk(w, schemas, steps[i])
  }

  lemma {:induction false} LegalConcat(w: World, s: State, tx: TxId, floor: map<string, int>, a: seq<Step>,
      floor': map<string, int>, b: seq<Step>)
    requires LegalRun(w, s, tx, floor, a) && LegalRun(w, Replay(w, s, tx, a), tx, floor', b)
    requires forall t :: FloorOf(floor, t) <= FloorOf(floor', t)
    ensures LegalRun(w, s, tx, floor, a + b)
    decreases |b|
  {
    if b == [] {
      assert a + b == a;
    } else {
      var b0 := b[..|b| - 1];
      assert (a + b)[..|a + b| - 1] == a + b0;
      LegalConcat(w, s, tx, floor, a, floor', b0);
      ReplayConcat(w, s, tx, a, b0);
    }
  }

  lemma {:induction false} CheckedConcat(w: World, s: State, tx: TxId, a: seq<Step>, b: seq<Step>)
    requires CheckedRun(w, s, tx, a) && CheckedRun(w, Replay(w, s, tx, a), tx, b)
    ensures CheckedRun(w, s, tx, a + b)
    decreases |b|
  {
    if b == [] {
      assert a + b == a;
    } else {
      var b0 := b[..|b| - 1];
      assert (a + b)[..|a + b| - 1] == a + b0;
      CheckedConcat(w, s, tx, a, b0);
      ReplayConcat(w, s, tx, a, b0);
    }
  }

  // ---------------------------------------------------------------- what a run keeps

  ghost predicate RowsAhead(s: State) {
    forall t, r: RowId :: RowAt(s.tables, t, r).Some? ==> r < CounterOf(s, t)
  }

  /** Row ids in use, in tables and in journals, are below their counters. */
  ghost predicate Ahead(s: State) {
    && RowsAhead(s)
    && (forall tx, i :: tx in s.active && 0 <= i < |s.active[tx]| ==>
          s.active[tx][i].rowid < CounterOf(s, s.active[tx][i].table))
  }

  ghost predicate Ready(s: State, tx: TxId) {
    tx in s.active && Ahead(s)
  }

  lemma TouchedIsAhead(s: State, tx: TxId, t: string, r: RowId)
    requires Ready(s, tx) && Touched(s, tx, t, r)
    ensures r < CounterOf(s, t)
  {
    var i := TouchedByEntry(s.active[tx], t, r);
  }

  /** What no step of `tx` changes, and what it can only increase. */
  ghost predicate Follows(s: State, s': State, tx: TxId) {
    && s'.tables.Keys == s.tables.Keys && s'.schemas == s.schemas && s'.triggers == s.triggers
    && s'.active.Keys == s.active.Keys && s'.nextTx == s.nextTx && s'.fts.Keys == s.fts.Keys
    && (forall t :: CounterOf(s, t) <= CounterOf(s', t))
    && (forall t, r: RowId :: Touched(s, tx, t, r) ==> Touched(s', tx, t, r))
    && (forall t, r: RowId :: Touched(s', tx, t, r) || RowAt(s'.tables, t, r) == RowAt(s.tables, t, r))
  }

  lemma StepFollows(w: World, s: State, tx: TxId, step: Step)
    requires tx in s.active
    ensures Follows(s, Apply(w, s, tx, step), tx)
  {
    hide UpdateIndexes, FtsChange;
    var s' := Apply(w, s, tx, step);
    if IsWriteStep(step) {
      var op := Entry(step);
      assert JournalOf(s', tx) == JournalOf(s, tx) + [op];
      forall t, r: RowId
        ensures Touched(s', tx, t, r) <==> Touched(s, tx, t, r) || (t == step.t && r == step.r)
      {
        FirstTouchAppend(JournalOf(s, tx), op, t, r);
      }
    } else {
      assert s'.active == s.active;
    }
  }

  lemma StepKeepsAhead(w: World, s: State, tx: TxId, floor: map<string, int>, step: Step)
    requires Ready(s, tx) && Legal(s, tx, floor, step)
    ensures Ready(Apply(w, s, tx, step), tx)
  {
    hide UpdateIndexes, FtsChange;
    var s' := Apply(w, s, tx, step);
    if IsWriteStep(step) {
      if Touched(s, tx, step.t, step.r) { TouchedIsAhead(s, tx, step.t, step.r); }
      assert step.r < CounterOf(s, step.t);
      assert s'.counters == s.counters;
      forall t, r: RowId | RowAt(s'.tables, t, r).Some? ensures r < CounterOf(s', t) {
        assert (t == step.t && r == step.r) || RowAt(s.tables, t, r).Some?;
      }
    } else {
      assert forall t :: CounterOf(s, t) <= CounterOf(s', t);
    }
  }

  lemma {:induction false} RunKeeps(w: World, s: State, tx: TxId, floor: map<string, int>, steps: seq<Step>)
    requires Ready(s, tx) && LegalRun(w, s, tx, floor, steps)
    ensures Ready(Replay(w, s, tx, steps), tx)
    ensures Follows(s, Replay(w, s, tx, steps), tx)
    decreases |steps|
  {
    if steps != [] {
      var s1 := Replay(w, s, tx, steps[..|steps| - 1]);
      RunKeeps(w, s, tx, floor, steps[..|steps| - 1]);
      StepKeepsAhead(w, s1, tx, floor, steps[|steps| - 1]);
      StepFollows(w, s1, tx, steps[|steps| - 1]);
    }
  }

  ghost predicate Free(s: State, tx: TxId, t: string, r: RowId) {
    RowAt(s.tables, t, r).None? && !Touched(s, tx, t, r)
  }

  lemma StepElsewhere(w: World, s: State, tx: TxId, step: Step, t: string, r: RowId)
    requires IsWriteStep(step) ==> step.t != t || step.r != r
    ensures RowAt(Apply(w, s, tx, step).tables, t, r) == RowAt(s.tables, t, r)
    ensures tx in s.active ==>
              JournalOf(Apply(w, s, tx, step), tx) ==
                if IsWriteStep(step) then JournalOf(s, tx) + [Entry(step)] else JournalOf(s, tx)
  {
    hide UpdateEach, FtsChange;
  }

  lemma StepKeepsFree(w: World, s: State, tx: TxId, floor: map<string, int>, step: Step, t: string, r: RowId)
    requires tx in s.active && Legal(s, tx, floor, step) && r < FloorOf(floor, t) && Free(s, tx, t, r)
    ensures Free(Apply(w, s, tx, step), tx, t, r)
  {
    hide Apply, FirstTouch;
    StepElsewhere(w, s, tx, step, t, r);
    if IsWriteStep(step) {
      FirstTouchAppend(JournalOf(s, tx), Entry(step), t, r);
    }
  }

  /** An id below the floor of a run that is free and untouched stays so. */
  lemma {:induction false} RunKeepsFree(w: World, s: State, tx: TxId, floor: map<string, int>, steps: seq<Step>,
      t: string, r: RowId)
    requires Ready(s, tx) && LegalRun(w, s, tx, floor, steps)
    requires r < FloorOf(floor, t) && Free(s, tx, t, r)
    ensures Free(Replay(w, s, tx, steps), tx, t, r)
    decreases |steps|
  {
    hide Apply, Free, Legal;
    if steps != [] {
      var s1, step := Replay(w, s, tx, steps[..|steps| - 1]), steps[|steps| - 1];
      RunKeepsFree(w, s, tx, floor, steps[..|steps| - 1], t, r);
      RunKeeps(w, s, tx, floor, steps[..|steps| - 1]);
      StepKeepsFree(w, s1, tx, floor, step, t, r);
    }
  }

  // ---------------------------------------------------------------- runs of the interpreter

  /** `steps` is a run of `tx` from `s` to `s'`, legal from `s`'s own counters;
      every row it writes satisfies NOT NULL and CHECK; and if no cascade of a
      BEFORE trigger writes to the table it fires for, every row it writes passes
      the checks against other rows in the state it meets. */
  ghost predicate Run(w: World, s: State, tx: TxId, steps: seq<Step>, s': State) {
    && Ready(s, tx)
    && LegalRun(w, s, tx, s.counters, steps)
    && s' == Replay(w, s, tx, steps)
    && RowsOk(w, s.schemas, steps)
    && (BeforeSafe(s.schemas, s.triggers) ==> CheckedRun(w, s, tx, steps))
  }

  lemma RunNothing(w: World, s: State, tx: TxId)
    requires Ready(s, tx)
    ensures Run(w, s, tx, [], s)
  {
  }

  lemma RunOne(w: World, s: State, tx: TxId, step: Step)
    requires Ready(s, tx) && Legal(s, tx, s.counters, step) && StepRowOk(w, s.schemas, step)
    requires BeforeSafe(s.schemas, s.triggers) ==> Checked(s, step)
    ensures Run(w, s, tx, [step], Apply(w, s, tx, step))
  {
    assert [step][..|[step]| - 1] == [];
    assert Replay(w, s, tx, []) == s;
  }

  lemma RunFacts(w: World, s: State, tx: TxId, steps: seq<Step>, s': State)
    requires Run(w, s, tx, steps, s')
    ensures Ready(s', tx) && Follows(s, s', tx)
  {
    RunKeeps(w, s, tx, s.counters, steps);
  }

  lemma RunJoin(w: World, s: State, tx: TxId, a: seq<Step>, s1: State, b: seq<Step>, s2: State)
    requires Run(w, s, tx, a, s1) && Run(w, s1, tx, b, s2)
    ensures Run(w, s, tx, a + b, s2)
  {
    RunFacts(w, s, tx, a, s1);
    forall t ensures FloorOf(s.counters, t) <= FloorOf(s1.counters, t) {
      assert CounterOf(s, t) <= CounterOf(s1, t);
    }
    LegalConcat(w, s, tx, s.counters, a, s1.counters, b);
    ReplayConcat(w, s, tx, a, b);
    if BeforeSafe(s.schemas, s.triggers) { CheckedConcat(w, s, tx, a, b); }
  }

  /** Each captured row is still the stored one, or its id is already journaled. */
  ghost predicate Pending(s: State, tx: TxId, t: string, caught: seq<Captured>) {
    forall i :: 0 <= i < |caught| ==>
      RowAt(s.tables, t, caught[i].rowid) == Some(caught[i].row) || Touched(s, tx, t, caught[i].rowid)
  }

  lemma PendingKept(s: State, s': State, tx: TxId, t: string, caught: seq<Captured>)
    requires Pending(s, tx, t, caught) && Follows(s, s', tx)
    ensures Pending(s', tx, t, caught)
  {
    forall i | 0 <= i < |caught|
      ensures RowAt(s'.tables, t, caught[i].rowid) == Some(caught[i].row) || Touched(s', tx, t, caught[i].rowid)
    {
      assert Touched(s', tx, t, caught[i].rowid)
             || RowAt(s'.tables, t, caught[i].rowid) == RowAt(s.tables, t, caught[i].rowid);
    }
  }

  lemma {:induction false} CapturePending(w: World, s: State, tx: TxId, t: string, order: seq<RowId>,
      where: Option<Expr>, params: seq<Value>, k: nat)
    ensures Pending(s, tx, t, Capture(w, s, t, order, where, params, k))
    decreases order
  {
    if order != [] { CapturePending(w, s, tx, t, order[1..], where, params, k); }
  }

  /** A row that was validated still passes when its BEFORE triggers have run. */
  lemma StillChecked(w: World, s: State, t: string, event: Event, was: Option<Row>, row: Row, r: RowId, tx: TxId,
      fuel: nat)
    requires BeforeSafe(s.schemas, s.triggers) && t in s.schemas && Validate(w, s, s.schemas[t], row, r).None?
    ensures var s1 := Fire(w, s, t, event, Before, was, Some(row), Some(tx), fuel).0;
            s1.schemas == s.schemas && Passes(s1, t, row, r)
  {
    hide Fire, Validate, PassesUnique, BeforeAvoids;
    var schema, s1 := s.schemas[t], Fire(w, s, t, event, Before, was, Some(row), Some(tx), fuel).0;
    ValidatedIsUnique(w, s, schema, row, r);
    BeforeKeeps(w, s, t, schema.name, event, was, Some(row), Some(tx), fuel);
    KeptKeepsCheck(s, s1, schema, row, r);
    forall i | 0 <= i < |schema.foreignKeys| && BeforeAvoids(s1.triggers, t, schema.foreignKeys[i].refTable)
      ensures !Dangles(s1, schema.foreignKeys[i], row)
    {
      BeforeKeeps(w, s, t, schema.foreignKeys[i].refTable, event, was, Some(row), Some(tx), fuel);
    }
  }

  // ------------------------------------------------ every execution is a run

  lemma {:induction false} ExecRuns(w: World, s: State, stmt: Stmt, params: seq<Value>, tx: TxId,
      fuel: nat) returns (steps: seq<Step>)
    requires Ready(s, tx)
    ensures Run(w, s, tx, steps, Exec(w, s, stmt, params, Some(tx), fuel).0)
    decreases fuel, 6, 0
  {
    hide Run, Ready, Follows, BeforeSafe, Validate, RowOk;
    steps := [];
    RunNothing(w, s, tx);
    match stmt
    case Insert(t, columns, source) =>
      if t in s.schemas && t in s.tables {
        var rows := Candidates(w, s, s.schemas[t], columns, source, params);
        if rows.Ok? { steps := InsertAllRuns(w, s, t, rows.value, tx, fuel); }
      }
    case Update(t, assignments, where) =>
      if t in s.schemas && t in s.tables {
        var k := CountAssignments(assignments);
        var caught := Capture(w, s, t, ScanOrder(w, s, t), where, params, k);
        CapturePending(w, s, tx, t, ScanOrder(w, s, t), where, params, k);
        RunOne(w, s, tx, Scan);
        RunFacts(w, s, tx, [Scan], Scanned(s));
        PendingKept(s, Scanned(s), tx, t, caught);
        var rest := UpdateAllRuns(w, Scanned(s), t, caught, assignments, params, tx, fuel);
        steps := [Scan] + rest;
        RunJoin(w, s, tx, [Scan], Scanned(s), rest, Exec(w, s, stmt, params, Some(tx), fuel).0);
      }
    case Delete(t, where) =>
      if t in s.tables {
        var caught := Capture(w, s, t, ScanOrder(w, s, t), where, params, 0);
        CapturePending(w, s, tx, t, ScanOrder(w, s, t), where, params, 0);
        RunOne(w, s, tx, Scan);
        RunFacts(w, s, tx, [Scan], Scanned(s));
        PendingKept(s, Scanned(s), tx, t, caught);
        var rest := DeleteAllRuns(w, Scanned(s), t, caught, tx, fuel);
        steps := [Scan] + rest;
        RunJoin(w, s, tx, [Scan], Scanned(s), rest, Exec(w, s, stmt, params, Some(tx), fuel).0);
      }
    case Select(_) =>
    case OtherStmt =>
  }

  lemma {:induction false} InsertAllRuns(w: World, s: State, t: string, rows: seq<Row>, tx: TxId,
      fuel: nat) returns (steps: seq<Step>)
    requires Ready(s, tx) && t in s.tables && t in s.schemas
    ensures Run(w, s, tx, steps, InsertAll(w, s, t, s.schemas[t], rows, Some(tx), fuel).0)
    decreases fuel, 5, |rows|
  {
    hide Run, Ready, Follows, BeforeSafe, Apply, Validate, RowOk, Passes;
    if rows == [] {
      steps := [];
      RunNothing(w, s, tx);
    } else {
      var (s1, o1) := InsertOne(w, s, t, s.schemas[t], rows[0], Some(tx), fuel);
      steps := InsertOneRuns(w, s, t, rows[0], tx, fuel);
      RunFacts(w, s, tx, steps, s1);
      if o1.Ok? {
        var rest := InsertAllRuns(w, s1, t, rows[1..], tx, fuel);
        RunJoin(w, s, tx, steps, s1, rest, InsertAll(w, s1, t, s.schemas[t], rows[1..], Some(tx), fuel).0);
        steps := steps + rest;
      }
    }
  }

  lemma {:induction false} InsertOneRuns(w: World, s: State, t: string, given: Row, tx: TxId,
      fuel: nat) returns (steps: seq<Step>)
    requires Ready(s, tx) && t in s.tables && t in s.schemas
    ensures Run(w, s, tx, steps, InsertOne(w, s, t, s.schemas[t], given, Some(tx), fuel).0)
    decreases fuel, 4, 0
  {
    hide Run, Ready, Follows, BeforeSafe, Validate, RowOk, Passes, WriteInsert, WriteUpdate, WriteDelete;
    var schema, r, s0 := s.schemas[t], CounterOf(s, t), BumpCounter(s, t);
    var row := WithDefaults(given, schema.columns, r);
    steps := [Alloc(t)];
    RunOne(w, s, tx, Alloc(t));
    RunFacts(w, s, tx, steps, s0);
    if Validate(w, s0, schema, row, r).None? {
      var (s1, o1) := Fire(w, s0, t, OnInsert, Before, None, Some(row), Some(tx), fuel);
      var before := FireRuns(w, s0, t, OnInsert, Before, None, Some(row), tx, fuel);
      RunFacts(w, s0, tx, before, s1);
      RunJoin(w, s, tx, steps, s0, before, s1);
      steps := steps + before;
      if o1.Ok? {
        NewIdIsFree(w, s, tx, t, before, s1);
        if BeforeSafe(s.schemas, s.triggers) { StillChecked(w, s0, t, OnInsert, None, row, r, tx, fuel); }
        ValidatedIsRowOk(w, s0, schema, row, r);
        var ins := Ins(t, r, row);
        steps := WriteAndFireRuns(w, s, tx, steps, s1, ins, t, OnInsert, None, Some(row), fuel);
      }
    }
  }

  /** The id an INSERT has taken is still free after its BEFORE triggers. */
  lemma NewIdIsFree(w: World, s: State, tx: TxId, t: string, before: seq<Step>, s1: State)
    requires Ready(s, tx) && Run(w, BumpCounter(s, t), tx, before, s1)
    ensures RowAt(s1.tables, t, CounterOf(s, t)).None? && CounterOf(s, t) < CounterOf(s1, t)
    ensures s1.schemas == s.schemas && s1.tables.Keys == s.tables.Keys
  {
    var s0, r := BumpCounter(s, t), CounterOf(s, t);
    if Touched(s, tx, t, r) { TouchedIsAhead(s, tx, t, r); }
    assert Free(s0, tx, t, r);
    RunKeepsFree(w, s0, tx, s0.counters, before, t, r);
    RunFacts(w, s0, tx, before, s1);
    assert CounterOf(s0, t) <= CounterOf(s1, t);
  }

  lemma {:induction false} UpdateAllRuns(w: World, s: State, t: string, caught: seq<Captured>,
      assignments: seq<Assignment>, params: seq<Value>, tx: TxId, fuel: nat) returns (steps: seq<Step>)
    requires Ready(s, tx) && t in s.tables && t in s.schemas && Pending(s, tx, t, caught)
    ensures Run(w, s, tx, steps, UpdateAll(w, s, t, s.schemas[t], caught, assignments, params, Some(tx), fuel).0)
    decreases fuel, 5, |caught|
  {
    hide Run, Ready, Follows, BeforeSafe, Apply, Validate, RowOk, Passes;
    if caught == [] {
      steps := [];
      RunNothing(w, s, tx);
    } else {
      var (s1, o1) := UpdateOne(w, s, t, s.schemas[t], caught[0], assignments, params, Some(tx), fuel);
      steps := UpdateOneRuns(w, s, t, caught[0], assignments, params, tx, fuel);
      RunFacts(w, s, tx, steps, s1);
      if o1.Ok? {
        PendingKept(s, s1, tx, t, caught);
        assert Pending(s1, tx, t, caught[1..]);
        var rest := UpdateAllRuns(w, s1, t, caught[1..], assignments, params, tx, fuel);
        RunJoin(w, s, tx, steps, s1, rest,
          UpdateAll(w, s1, t, s.schemas[t], caught[1..], assignments, params, Some(tx), fuel).0);
        steps := steps + rest;
      }
    }
  }

  lemma {:induction false} UpdateOneRuns(w: World, s: State, t: string, c: Captured, assignments: seq<Assignment>,
      params: seq<Value>, tx: TxId, fuel: nat) returns (steps: seq<Step>)
    requires Ready(s, tx) && t in s.tables && t in s.schemas && Pending(s, tx, t, [c])
    ensures Run(w, s, tx, steps, UpdateOne(w, s, t, s.schemas[t], c, assignments, params, Some(tx), fuel).0)
    decreases fuel, 4, 0
  {
    hide Run, Ready, Follows, BeforeSafe, Validate, RowOk, Passes, WriteInsert, WriteUpdate, WriteDelete;
    steps := [];
    RunNothing(w, s, tx);
    var was := c.row;
    var now := Assign(w, was, was, assignments, params, 0);
    if Validate(w, s, s.schemas[t], now, c.rowid).None? {
      var (s1, o1) := Fire(w, s, t, OnUpdate, Before, Some(was), Some(now), Some(tx), fuel);
      steps := FireRuns(w, s, t, OnUpdate, Before, Some(was), Some(now), tx, fuel);
      RunFacts(w, s, tx, steps, s1);
      if o1.Ok? {
        PendingKept(s, s1, tx, t, [c]);
        assert [c][0] == c;
        if BeforeSafe(s.schemas, s.triggers) { StillChecked(w, s, t, OnUpdate, Some(was), now, c.rowid, tx, fuel); }
        ValidatedIsRowOk(w, s, s.schemas[t], now, c.rowid);
        var upd := Upd(t, c.rowid, was, now);
        steps := WriteAndFireRuns(w, s, tx, steps, s1, upd, t, OnUpdate, Some(was), Some(now), fuel);
      }
    }
  }

  lemma {:induction false} DeleteAllRuns(w: World, s: State, t: string, caught: seq<Captured>, tx: TxId,
      fuel: nat) returns (steps: seq<Step>)
    requires Ready(s, tx) && t in s.tables && Pending(s, tx, t, caught)
    ensures Run(w, s, tx, steps, DeleteAll(w, s, t, caught, Some(tx), fuel).0)
    decreases fuel, 5, |caught|
  {
    hide Run, Ready, Follows, BeforeSafe, Apply, Validate, RowOk, Passes;
    if caught == [] {
      steps := [];
      RunNothing(w, s, tx);
    } else {
      var (s1, o1) := DeleteOne(w, s, t, caught[0], Some(tx), fuel);
      steps := DeleteOneRuns(w, s, t, caught[0], tx, fuel);
      RunFacts(w, s, tx, steps, s1);
      if o1.Ok? {
        PendingKept(s, s1, tx, t, caught);
        assert Pending(s1, tx, t, caught[1..]);
        var rest := DeleteAllRuns(w, s1, t, caught[1..], tx, fuel);
        RunJoin(w, s, tx, steps, s1, rest, DeleteAll(w, s1, t, caught[1..], Some(tx), fuel).0);
        steps := steps + rest;
      }
    }
  }

  lemma {:induction false} DeleteOneRuns(w: World, s: State, t: string, c: Captured, tx: TxId,
      fuel: nat) returns (steps: seq<Step>)
    requires Ready(s, tx) && t in s.tables && Pending(s, tx, t, [c])
    ensures Run(w, s, tx, steps, DeleteOne(w, s, t, c, Some(tx), fuel).0)
    decreases fuel, 4, 0
  {
    hide Run, Ready, Follows, BeforeSafe, Validate, RowOk, Passes, WriteInsert, WriteUpdate, WriteDelete;
    var (s1, o1) := Fire(w, s, t, OnDelete, Before, Some(c.row), None, Some(tx), fuel);
    steps := FireRuns(w, s, t, OnDelete, Before, Some(c.row), None, tx, fuel);
    RunFacts(w, s, tx, steps, s1);
    if o1.Ok? {
      PendingKept(s, s1, tx, t, [c]);
      assert [c][0] == c;
      var del := Del(t, c.rowid, c.row);
      steps := WriteAndFireRuns(w, s, tx, steps, s1, del, t, OnDelete, Some(c.row), None, fuel);
    }
  }

  /** Extending a run by one step that is legal for the whole run. */
  lemma RunStep(w: World, s: State, tx: TxId, steps: seq<Step>, s1: State, step: Step)
    requires Run(w, s, tx, steps, s1) && Legal(s1, tx, s.counters, step) && StepRowOk(w, s.schemas, step)
    requires BeforeSafe(s.schemas, s.triggers) ==> Checked(s1, step)
    ensures Run(w, s, tx, steps + [step], Apply(w, s1, tx, step))
  {
    assert (steps + [step])[..|steps + [step]| - 1] == steps;
  }

  /** A write and the AFTER triggers it fires, at the end of a run. */
  lemma {:induction false} WriteAndFireRuns(w: World, s: State, tx: TxId, steps: seq<Step>, s1: State, step: Step,
      t: string, event: Event, was: Option<Row>, now: Option<Row>, fuel: nat) returns (all: seq<Step>)
    requires Run(w, s, tx, steps, s1) && Legal(s1, tx, s.counters, step) && StepRowOk(w, s.schemas, step)
    requires BeforeSafe(s.schemas, s.triggers) ==> Checked(s1, step)
    ensures Run(w, s, tx, all, Fire(w, Apply(w, s1, tx, step), t, event, After, was, now, Some(tx), fuel).0)
    decreases fuel, 3, 1
  {
    hide Run, Ready, Follows, BeforeSafe, Apply, Validate, RowOk, Passes;
    var s2 := Apply(w, s1, tx, step);
    RunStep(w, s, tx, steps, s1, step);
    RunFacts(w, s, tx, steps + [step], s2);
    var after := FireRuns(w, s2, t, event, After, was, now, tx, fuel);
    all := steps + [step] + after;
    RunJoin(w, s, tx, steps + [step], s2, after, Fire(w, s2, t, event, After, was, now, Some(tx), fuel).0);
  }

  lemma {:induction false} FireRuns(w: World, s: State, t: string, event: Event, timing: Timing, was: Option<Row>,
      now: Option<Row>, tx: TxId, fuel: nat) returns (steps: seq<Step>)
    requires Ready(s, tx)
    ensures Run(w, s, tx, steps, Fire(w, s, t, event, timing, was, now, Some(tx), fuel).0)
    decreases fuel, 3, 0
  {
    steps := FireEachRuns(w, s, TriggersOf(s, t), event, timing, was, now, tx, fuel);
  }

  lemma {:induction false} FireEachRuns(w: World, s: State, trs: seq<Trigger>, event: Event, timing: Timing,
      was: Option<Row>, now: Option<Row>, tx: TxId, fuel: nat) returns (steps: seq<Step>)
    requires Ready(s, tx)
    ensures Run(w, s, tx, steps, FireEach(w, s, trs, event, timing, was, now, Some(tx), fuel).0)
    decreases fuel, 2, |trs|
  {
    hide Run, Ready, Follows, RunBody, Applies;
    steps := [];
    RunNothing(w, s, tx);
    if trs != [] {
      var tr := trs[0];
      if tr.event == event && tr.timing == timing && tr.condition.Unparsable? {
      } else if !Applies(w, s, tr, event, timing, was, now) {
        steps := FireEachRuns(w, s, trs[1..], event, timing, was, now, tx, fuel);
      } else if tr.body(was, now).Some? {
        var (s1, o1) := RunBody(w, s, tr.body(was, now).value, Some(tx), fuel);
        steps := RunBodyRuns(w, s, tr.body(was, now).value, tx, fuel);
        RunFacts(w, s, tx, steps, s1);
        if o1.Ok? {
          var rest := FireEachRuns(w, s1, trs[1..], event, timing, was, now, tx, fuel);
          RunJoin(w, s, tx, steps, s1, rest, FireEach(w, s1, trs[1..], event, timing, was, now, Some(tx), fuel).0);
          steps := steps + rest;
        }
      }
    }
  }

  lemma {:induction false} RunBodyRuns(w: World, s: State, stmts: seq<Stmt>, tx: TxId,
      fuel: nat) returns (steps: seq<Step>)
    requires Ready(s, tx)
    ensures Run(w, s, tx, steps, RunBody(w, s, stmts, Some(tx), fuel).0)
    decreases fuel, 1, |stmts|
  {
    hide Run, Ready, Follows, BeforeSafe, Apply, Validate, RowOk, Passes;
    steps := [];
    RunNothing(w, s, tx);
    if stmts != [] && fuel > 0 {
      var (s1, o1) := Exec(w, s, stmts[0], [], Some(tx), fuel - 1);
      steps := ExecRuns(w, s, stmts[0], [], tx, fuel - 1);
      RunFacts(w, s, tx, steps, s1);
      if o1.Ok? {
        var rest := RunBodyRuns(w, s1, stmts[1..], tx, fuel);
        RunJoin(w, s, tx, steps, s1, rest, RunBody(w, s1, stmts[1..], Some(tx), fuel).0);
        steps := steps + rest;
      }
    }
  }
}
