/** NOT NULL and CHECK in every state an engine can get into: of every stored row,
    and of every row that the rollback of some transaction would put back. */
module Guarantees {
  import opened Wrappers
  import opened Values
  import opened Externals
  import opened Store
  import opened Constraints
  import opened Interpreter
  import opened JournalBlind
  import opened Runs
  import opened Rollbacks
  import opened RowConstraints
  import opened Indexing
  import opened Interleaving
  import opened TransactionIds
  import opened Rebuilding
  import opened Reachability

  /** What undoing the journal of `tx` would leave at a row id satisfies the row
      constraints. */
  ghost predicate RestoredOk(w: World, s: State, tx: TxId, t: string, r: RowId) {
    var first := FirstTouch(JournalOf(s, tx), t, r);
    t in s.schemas && first.Some? && first.value.Some? ==> RowOk(w, s.schemas[t], first.value.value)
  }

  ghost predicate Good(w: World, s: State) {
    AllOk(w, s) && forall tx, t, r: RowId :: RestoredOk(w, s, tx, t, r)
  }

  lemma BlankIsGood(w: World)
    ensures Good(w, BLANK)
  {
  }

  /** Where neither the journal nor the schema says anything new. */
  lemma RestoredFrame(w: World, s: State, s': State, tx: TxId, t: string, r: RowId)
    requires RestoredOk(w, s, tx, t, r) && JournalOf(s', tx) == JournalOf(s, tx)
    requires t in s'.schemas ==>
               t in s.schemas && s'.schemas[t].columns == s.schemas[t].columns
                 && s'.schemas[t].checks == s.schemas[t].checks
    ensures RestoredOk(w, s', tx, t, r)
  {
    hide FirstTouch, IsTrue, Filled;
  }

  // ---------------------------------------------------------------- steps

  lemma StoredRowOk(w: World, s: State, t: string, r: RowId)
    requires AllOk(w, s) && t in s.schemas && RowAt(s.tables, t, r).Some?
    ensures RowOk(w, s.schemas[t], RowAt(s.tables, t, r).value)
  {
    hide RowOk;
  }

  /** One write of any transaction, among any others. */
  lemma StepGood(w: World, s: State, tx: TxId, step: Step)
    requires Good(w, s) && StepRowOk(w, s.schemas, step)
    requires tx in s.active && IsWriteStep(step) ==> Faithful(s, tx, step)
    ensures Good(w, Apply(w, s, tx, step))
  {
    hide Apply, FirstTouch, RowOk, AllOk, RowAt;
    var s' := Apply(w, s, tx, step);
    StepKeepsOk(w, s, tx, step);
    forall x, t, r: RowId ensures RestoredOk(w, s', x, t, r) {
      assert RestoredOk(w, s, x, t, r);
      StepJournals(w, s, tx, step, x);
      if x == tx && tx in s.active && IsWriteStep(step) {
        FirstTouchAppend(JournalOf(s, tx), Entry(step), t, r);
        if t == step.t && r == step.r && t in s.schemas && RowAt(s.tables, t, r).Some? { StoredRowOk(w, s, t, r); }
      }
    }
  }

  lemma {:induction false} RunGood(w: World, s: State, tx: TxId, floor: map<string, int>, steps: seq<Step>)
    requires Good(w, s) && LegalRun(w, s, tx, floor, steps) && RowsOk(w, s.schemas, steps)
    ensures Good(w, Replay(w, s, tx, steps)) && Replay(w, s, tx, steps).schemas == s.schemas
    decreases |steps|
  {
    hide Good, Apply, StepRowOk, Faithful;
    if steps != [] {
      var s1, step := Replay(w, s, tx, steps[..|steps| - 1]), steps[|steps| - 1];
      RunGood(w, s, tx, floor, steps[..|steps| - 1]);
      StepGood(w, s1, tx, step);
      StepSchemas(w, s1, tx, step);
    }
  }

  lemma StepSchemas(w: World, s: State, tx: TxId, step: Step)
    ensures Apply(w, s, tx, step).schemas == s.schemas
  {
    hide UpdateIndexes, SyncFts;
  }

  /** Single writes of any transactions that take turns in any order. */
  lemma {:induction false} PlayGood(w: World, s: State, turns: seq<Turn>)
    requires Good(w, s) && forall a :: FaithfulTurns(w, s, turns, a)
    requires forall i :: 0 <= i < |turns| ==> StepRowOk(w, s.schemas, turns[i].step)
    ensures Good(w, Play(w, s, turns)) && Play(w, s, turns).schemas == s.schemas
    decreases |turns|
  {
    hide Good, Apply, StepRowOk, Faithful;
    if turns != [] {
      var before, last := turns[..|turns| - 1], turns[|turns| - 1];
      forall a ensures FaithfulTurns(w, s, before, a) {
        assert FaithfulTurns(w, s, turns, a);
      }
      PlayGood(w, s, before);
      assert FaithfulTurns(w, s, turns, last.tx);
      assert last == turns[|turns| - 1];
      StepGood(w, Play(w, s, before), last.tx, last.step);
      StepSchemas(w, Play(w, s, before), last.tx, last.step);
    }
  }

  // ---------------------------------------------------------------- requests

  lemma BeginGood(w: World, s: State)
    requires Good(w, s)
    ensures Good(w, Begin(s))
  {
    hide FirstTouch, RowOk;
    forall x, t, r: RowId ensures RestoredOk(w, Begin(s), x, t, r) {
      assert RestoredOk(w, s, x, t, r);
      if x == s.nextTx { NothingTouched(t, r); }
    }
  }

  lemma EndingGood(w: World, s: State, tx: TxId)
    requires Good(w, s)
    ensures Good(w, s.(active := s.active - {tx}))
  {
    hide FirstTouch, RowOk;
    var s' := s.(active := s.active - {tx});
    forall x, t, r: RowId ensures RestoredOk(w, s', x, t, r) {
      assert RestoredOk(w, s, x, t, r);
      if x == tx { NothingTouched(t, r); }
    }
  }

  /** The rows that a rollback puts back are as good as the others. */
  lemma RollbackGood(w: World, s: State, tx: TxId)
    requires Good(w, s)
    ensures Good(w, Rollback(w, s, tx).0) && Rollback(w, s, tx).0.schemas == s.schemas
  {
    hide UndoAll, FirstTouch, RowOk, RowAt;
    if tx in s.active {
      var ended, ops := s.(active := s.active - {tx}), s.active[tx];
      var s' := UndoAll(w, ended, ops);
      EndingGood(w, s, tx);
      UndoAllKeeps(w, ended, ops);
      forall t, r | t in s'.tables && t in s'.schemas && r in s'.tables[t]
        ensures RowOk(w, s'.schemas[t], s'.tables[t][r])
      {
        FirstEntryDecides(w, ended, ops, t, r);
        assert RestoredOk(w, s, tx, t, r);
        IsStored(s'.tables, t, r);
        if FirstTouch(ops, t, r).None? { StoredRowOk(w, s, t, r); }
      }
      forall x, t, r: RowId ensures RestoredOk(w, s', x, t, r) {
        assert RestoredOk(w, ended, x, t, r);
        RestoredFrame(w, ended, s', x, t, r);
      }
    }
  }

  lemma IsStored(tables: Tables, t: string, r: RowId)
    requires t in tables && r in tables[t]
    ensures RowAt(tables, t, r) == Some(tables[t][r])
  {
  }

  lemma ActiveExecGood(w: World, s: State, stmt: Stmt, params: seq<Value>, tx: TxId, fuel: nat)
    requires Sound(s) && Good(w, s) && tx in s.active
    ensures var s' := Exec(w, s, stmt, params, Some(tx), fuel).0; Good(w, s') && s'.schemas == s.schemas
  {
    hide Exec, LegalRun, Replay, JournalsKnown, Ahead, Good, RowsOk;
    var steps := ExecRuns(w, s, stmt, params, tx, fuel);
    RunGood(w, s, tx, s.counters, steps);
  }

  lemma IdleExecGood(w: World, s: State, stmt: Stmt, params: seq<Value>, tx: TxId, fuel: nat)
    requires Sound(s) && Good(w, s) && tx !in s.active
    ensures var s' := Exec(w, s, stmt, params, Some(tx), fuel).0; Good(w, s') && s'.schemas == s.schemas
  {
    hide Exec, Sound, FirstTouch, AllOk;
    var open := Opened(s, tx);
    OpenedSound(s, tx);
    OpenedGood(w, s, tx);
    ExecBlind(w, s, open, stmt, params, Some(tx), Some(tx), fuel);
    ActiveExecGood(w, open, stmt, params, tx, fuel);
    var s', open' := Exec(w, s, stmt, params, Some(tx), fuel).0, Exec(w, open, stmt, params, Some(tx), fuel).0;
    SameRowsOk(w, open', s');
    forall x, t, r: RowId ensures RestoredOk(w, s', x, t, r) {
      assert RestoredOk(w, s, x, t, r);
      RestoredFrame(w, s, s', x, t, r);
    }
  }

  lemma OpenedGood(w: World, s: State, tx: TxId)
    requires Good(w, s)
    ensures Good(w, Opened(s, tx))
  {
    hide FirstTouch, RowOk;
    forall x, t, r: RowId ensures RestoredOk(w, Opened(s, tx), x, t, r) {
      assert RestoredOk(w, s, x, t, r);
      if x == tx { NothingTouched(t, r); }
    }
  }

  lemma ServeGood(w: World, s: State, a: Ask)
    requires Sound(s) && Good(w, s)
    ensures Good(w, Serve(w, s, a))
  {
    hide Sound, Good, Exec, Begin, Rollback;
    match a.req
    case BeginTx => BeginGood(w, s);
    case CommitTx => if a.tx.Some? { EndingGood(w, s, a.tx.value); }
    case RollbackTx => if a.tx.Some? { RollbackGood(w, s, a.tx.value); }
    case Dml(stmt) =>
      if !IsWrite(stmt) {
        ReadsOnly(w, s, stmt, a.params, a.tx, a.fuel);
      } else if a.tx.None? {
        BeginSound(s);
        BeginGood(w, s);
        BeginOpens(s);
        ActiveExecGood(w, Begin(s), stmt, a.params, s.nextTx, a.fuel);
        var s1 := Exec(w, Begin(s), stmt, a.params, Some(s.nextTx), a.fuel).0;
        EndingGood(w, s1, s.nextTx);
        RollbackGood(w, s1, s.nextTx);
      } else if a.tx.value in s.active {
        ActiveExecGood(w, s, stmt, a.params, a.tx.value, a.fuel);
      } else {
        IdleExecGood(w, s, stmt, a.params, a.tx.value, a.fuel);
      }
  }

  // ---------------------------------------------------------------- data definition and restarts

  lemma CreateTableGood(w: World, s: State, schema: Schema)
    requires Sound(s) && Good(w, s)
    ensures Good(w, CreateTable(s, schema))
  {
    hide FirstTouch, RowOk, Ahead;
    var s' := CreateTable(s, schema);
    if s' != s {
      forall x, t, r: RowId ensures RestoredOk(w, s', x, t, r) {
        assert RestoredOk(w, s, x, t, r);
        if t == schema.name {
          UnknownUntouched(s, x, t, r);
        } else {
          RestoredFrame(w, s, s', x, t, r);
        }
      }
    }
  }

  /** Tables, journals and the parts of schemas that constrain rows are the same. */
  lemma FrameGood(w: World, s: State, s': State)
    requires Good(w, s) && s'.tables == s.tables && s'.active == s.active && s'.schemas.Keys == s.schemas.Keys
    requires forall t :: t in s.schemas ==> s'.schemas[t] == s.schemas[t].(indices := s'.schemas[t].indices)
    ensures Good(w, s')
  {
    hide FirstTouch, IsTrue, Filled;
    forall x, t, r: RowId ensures RestoredOk(w, s', x, t, r) {
      assert RestoredOk(w, s, x, t, r);
      RestoredFrame(w, s, s', x, t, r);
    }
  }

  lemma RestartGood(w: World, s: State, dump: seq<Saved>)
    requires w.ScansOnce() && Good(w, s) && Snapshot(s, dump)
    ensures Good(w, Obey(w, s, Restart(dump)))
  {
    hide LoadSnapshot, Snapshot, RowOk, FirstTouch;
    var s' := Obey(w, s, Restart(dump));
    SnapshotCopies(w, BLANK.(triggers := s.triggers, scans := s.scans), s, dump);
    forall x, t, r: RowId ensures RestoredOk(w, s', x, t, r) {
      NothingTouched(t, r);
    }
  }

  lemma ObeyGood(w: World, s: State, c: Command)
    requires w.ScansOnce() && Sound(s) && Good(w, s) && (c.Restart? ==> Snapshot(s, c.dump))
    ensures Good(w, Obey(w, s, c))
  {
    hide Sound, Good, Serve, LoadSnapshot, CreateTable, CreateIndex, Snapshot;
    match c
    case Sql(ask) => ServeGood(w, s, ask);
    case NewTable(schema) => CreateTableGood(w, s, schema);
    case NewIndex(t, idx, ifNotExists) =>
      CreateIndexFrame(w, s, t, idx, ifNotExists);
      FrameGood(w, s, Obey(w, s, c));
    case NewTrigger(t, tr) => FrameGood(w, s, Obey(w, s, c));
    case Restart(dump) => RestartGood(w, s, dump);
  }

  /** In every state that an engine reaches from empty every stored row satisfies NOT
      NULL and CHECK, and so does every row that a rollback would put back. */
  lemma {:induction false} RowsGoodEverywhere(w: World, cs: seq<Command>)
    requires w.ScansOnce() && Faithfully(w, BLANK, cs)
    ensures Good(w, ObeyAll(w, BLANK, cs))
    decreases |cs|
  {
    hide Sound, Good, Obey, Snapshot;
    if cs == [] {
      BlankIsGood(w);
    } else {
      var s := ObeyAll(w, BLANK, cs[..|cs| - 1]);
      SoundEverywhere(w, cs[..|cs| - 1]);
      RowsGoodEverywhere(w, cs[..|cs| - 1]);
      ObeyGood(w, s, cs[|cs| - 1]);
    }
  }
}
