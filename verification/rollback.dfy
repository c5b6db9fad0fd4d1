/** Rolling back restores the tables exactly.

    Writes go live at once and the journal entry of an UPDATE or DELETE holds the
    row its statement captured earlier, which a trigger may since have changed.
    Undoing in reverse order still restores every row, because only the first
    entry for a row id decides what is left there. */
module Rollbacks {
  import opened Wrappers
  import opened Values
  import opened Externals
  import opened Store
  import opened Interpreter
  import opened Runs

  // ---------------------------------------------------------------- what undoing leaves

  lemma UndoRow(w: World, s: State, op: UndoOp, t: string, r: RowId)
    requires t in s.tables
    ensures RowAt(Undo(w, s, op).tables, t, r) ==
              if op.table == t && op.rowid == r then Restores(op) else RowAt(s.tables, t, r)
  {
    hide UpdateIndexes, SyncFts;
  }

  lemma UndoKeeps(w: World, s: State, op: UndoOp)
    ensures Undo(w, s, op).tables.Keys == s.tables.Keys
    ensures Undo(w, s, op).active == s.active && Undo(w, s, op).schemas == s.schemas
  {
    hide UpdateIndexes, SyncFts;
  }

  /** The first entry for a row id decides. */
  lemma {:induction false} FirstEntryDecides(w: World, s: State, ops: seq<UndoOp>, t: string, r: RowId)
    requires t in s.tables
    ensures RowAt(UndoAll(w, s, ops).tables, t, r) ==
              if FirstTouch(ops, t, r).Some? then FirstTouch(ops, t, r).value else RowAt(s.tables, t, r)
    decreases |ops|
  {
    hide Undo, RowAt;
    if ops != [] {
      var last := ops[|ops| - 1];
      UndoRow(w, s, last, t, r);
      UndoKeeps(w, s, last);
      FirstEntryDecides(w, Undo(w, s, last), ops[..|ops| - 1], t, r);
    }
  }

  lemma {:induction false} UndoAllKeeps(w: World, s: State, ops: seq<UndoOp>)
    ensures UndoAll(w, s, ops).tables.Keys == s.tables.Keys
    ensures UndoAll(w, s, ops).active == s.active && UndoAll(w, s, ops).schemas == s.schemas
    decreases |ops|
  {
    hide Undo;
    if ops != [] {
      UndoKeeps(w, s, ops[|ops| - 1]);
      UndoAllKeeps(w, Undo(w, s, ops[|ops| - 1]), ops[..|ops| - 1]);
    }
  }

  // ---------------------------------------------------------------- the invariant

  /** Undoing the journal of `tx` in `s` would leave the tables `base`. */
  ghost predicate RollsBackTo(s: State, tx: TxId, base: Tables) {
    && s.tables.Keys == base.Keys
    && forall t, r: RowId {:trigger RowAt(s.tables, t, r)} {:trigger FirstTouch(JournalOf(s, tx), t, r)} ::
         var first := FirstTouch(JournalOf(s, tx), t, r);
         RowAt(base, t, r) == if first.Some? then first.value else RowAt(s.tables, t, r)
  }

  /** What undoing would leave at a row id, before and after a write. */
  lemma WriteKeepsRow(w: World, s: State, tx: TxId, floor: map<string, int>, step: Step, base: Tables, t: string,
      r: RowId)
    requires tx in s.active && IsWriteStep(step) && Legal(s, tx, floor, step)
    requires var first := FirstTouch(JournalOf(s, tx), t, r);
             RowAt(base, t, r) == if first.Some? then first.value else RowAt(s.tables, t, r)
    ensures var s' := Apply(w, s, tx, step);
            var first := FirstTouch(JournalOf(s', tx), t, r);
            RowAt(base, t, r) == if first.Some? then first.value else RowAt(s'.tables, t, r)
  {
    hide Apply, FirstTouch;
    FirstTouchAppend(JournalOf(s, tx), Entry(step), t, r);
    WriteJournals(w, s, tx, step);
    if t != step.t || r != step.r { StepElsewhere(w, s, tx, step, t, r); }
  }

  lemma WriteJournals(w: World, s: State, tx: TxId, step: Step)
    requires tx in s.active && IsWriteStep(step)
    ensures JournalOf(Apply(w, s, tx, step), tx) == JournalOf(s, tx) + [Entry(step)]
    ensures Apply(w, s, tx, step).tables.Keys == s.tables.Keys
  {
    hide UpdateIndexes, SyncFts;
  }

  lemma StepKeepsRollback(w: World, s: State, tx: TxId, floor: map<string, int>, step: Step, base: Tables)
    requires tx in s.active && Legal(s, tx, floor, step) && RollsBackTo(s, tx, base)
    ensures RollsBackTo(Apply(w, s, tx, step), tx, base)
  {
    hide WriteInsert, WriteUpdate, WriteDelete, FirstTouch, RowAt;
    var s' := Apply(w, s, tx, step);
    if IsWriteStep(step) {
      WriteJournals(w, s, tx, step);
      forall t, r: RowId
        ensures var first := FirstTouch(JournalOf(s', tx), t, r);
                RowAt(base, t, r) == if first.Some? then first.value else RowAt(s'.tables, t, r)
      {
        assert RowAt(base, t, r) ==
               if FirstTouch(JournalOf(s, tx), t, r).Some? then FirstTouch(JournalOf(s, tx), t, r).value
                 else RowAt(s.tables, t, r);
        WriteKeepsRow(w, s, tx, floor, step, base, t, r);
      }
    }
  }

  lemma {:induction false} RunKeepsRollback(w: World, s: State, tx: TxId, floor: map<string, int>, steps: seq<Step>,
      base: Tables)
    requires Ready(s, tx) && LegalRun(w, s, tx, floor, steps) && RollsBackTo(s, tx, base)
    ensures RollsBackTo(Replay(w, s, tx, steps), tx, base)
    decreases |steps|
  {
    if steps != [] {
      var before := steps[..|steps| - 1];
      RunKeepsRollback(w, s, tx, floor, before, base);
      RunKeeps(w, s, tx, floor, before);
      StepKeepsRollback(w, Replay(w, s, tx, before), tx, floor, steps[|steps| - 1], base);
    }
  }

  lemma RollbackReaches(w: World, s: State, tx: TxId, base: Tables)
    requires tx in s.active && RollsBackTo(s, tx, base)
    ensures Rollback(w, s, tx).0.tables == base
  {
    var ended := s.(active := s.active - {tx});
    var s' := UndoAll(w, ended, s.active[tx]);
    UndoAllKeeps(w, ended, s.active[tx]);
    forall t, r: RowId ensures RowAt(s'.tables, t, r) == RowAt(base, t, r) {
      if t in s.tables {
        FirstEntryDecides(w, ended, s.active[tx], t, r);
      }
      assert RowAt(base, t, r) ==
             if FirstTouch(JournalOf(s, tx), t, r).Some? then FirstTouch(JournalOf(s, tx), t, r).value
               else RowAt(s.tables, t, r);
    }
    SameTables(s'.tables, base);
  }

  /** Any legal run of a transaction that starts with an empty journal. */
  lemma LegalRunRollsBack(w: World, s: State, tx: TxId, floor: map<string, int>, steps: seq<Step>)
    requires Ready(s, tx) && s.active[tx] == [] && LegalRun(w, s, tx, floor, steps)
    ensures Rollback(w, Replay(w, s, tx, steps), tx).0.tables == s.tables
  {
    assert RollsBackTo(s, tx, s.tables);
    RunKeepsRollback(w, s, tx, floor, steps, s.tables);
    RunKeeps(w, s, tx, floor, steps);
    RollbackReaches(w, Replay(w, s, tx, steps), tx, s.tables);
  }

  // ---------------------------------------------------------------- sessions

  datatype Call = Call(stmt: Stmt, params: seq<Value>, fuel: nat)

  /** Statements run one after the other under `tx`, whether or not they fail. */
  function Session(w: World, s: State, tx: TxId, calls: seq<Call>): State
    decreases calls
  {
    if calls == [] then s
    else
      var c := calls[0];
      Session(w, Execute(w, s, Dml(c.stmt), c.params, Some(tx), c.fuel).0, tx, calls[1..])
  }

  lemma {:induction false} SessionRuns(w: World, s: State, tx: TxId, calls: seq<Call>) returns (steps: seq<Step>)
    requires Ready(s, tx)
    ensures Run(w, s, tx, steps, Session(w, s, tx, calls))
    decreases calls
  {
    if calls == [] {
      steps := [];
      RunNothing(w, s, tx);
    } else {
      var c := calls[0];
      var s1 := Exec(w, s, c.stmt, c.params, Some(tx), c.fuel).0;
      steps := ExecRuns(w, s, c.stmt, c.params, tx, c.fuel);
      RunFacts(w, s, tx, steps, s1);
      var rest := SessionRuns(w, s1, tx, calls[1..]);
      RunJoin(w, s, tx, steps, s1, rest, Session(w, s1, tx, calls[1..]));
      steps := steps + rest;
    }
  }

  lemma BeginIsReady(s: State)
    requires Ahead(s)
    ensures Ready(Begin(s), s.nextTx) && Begin(s).active[s.nextTx] == []
  {
    assert forall t :: CounterOf(Begin(s), t) == CounterOf(s, t);
  }

  /** BEGIN, any statements with any trigger cascades and any errors, ROLLBACK:
      every table has exactly the rows it had at BEGIN. */
  lemma {:induction false} RollbackExact(w: World, s: State, calls: seq<Call>)
    requires Ahead(s)
    ensures var tx := s.nextTx;
            var (s', o) := Execute(w, Session(w, Begin(s), tx, calls), RollbackTx, [], Some(tx), 0);
            o.Ok? && s'.tables == s.tables && s'.active == s.active - {tx}
  {
    var tx := s.nextTx;
    var s0 := Begin(s);
    BeginIsReady(s);
    var steps := SessionRuns(w, s0, tx, calls);
    RunFacts(w, s0, tx, steps, Session(w, s0, tx, calls));
    LegalRunRollsBack(w, s0, tx, s0.counters, steps);
    var s1 := Session(w, s0, tx, calls);
    UndoAllKeeps(w, s1.(active := s1.active - {tx}), s1.active[tx]);
    OnlyOwnJournal(w, s0, tx, steps);
    assert s0.active - {tx} == s.active - {tx};
  }

  /** A run writes to no journal but its own. */
  lemma {:induction false} OnlyOwnJournal(w: World, s: State, tx: TxId, steps: seq<Step>)
    ensures Replay(w, s, tx, steps).active - {tx} == s.active - {tx}
    decreases |steps|
  {
    hide Apply;
    if steps != [] {
      OnlyOwnJournal(w, s, tx, steps[..|steps| - 1]);
      StepOwnJournal(w, Replay(w, s, tx, steps[..|steps| - 1]), tx, steps[|steps| - 1]);
    }
  }

  lemma StepOwnJournal(w: World, s: State, tx: TxId, step: Step)
    ensures Apply(w, s, tx, step).active - {tx} == s.active - {tx}
  {
    hide UpdateIndexes, SyncFts;
  }

  // ---------------------------------------------------------------- autocommit

  /** A write statement without a transaction id: an error leaves every table as
      it was, success keeps all effects. The set of active transactions is as
      before exactly when the id taken for it was not in use (ids wrap). */
  lemma {:induction false} AutocommitAtomic(w: World, s: State, stmt: Stmt, params: seq<Value>, fuel: nat)
    requires Ahead(s)
    ensures var (s', o) := Execute(w, s, Dml(stmt), params, None, fuel);
            var (live, result) := Exec(w, Begin(s), stmt, params, Some(s.nextTx), fuel);
            && o == result
            && (o.Err? ==> s'.tables == s.tables)
            && (o.Ok? ==> s'.tables == live.tables && s'.indexes == live.indexes && s'.fts == live.fts)
            && (stmt.Insert? || stmt.Update? || stmt.Delete? ==> (s'.active == s.active <==> s.nextTx !in s.active))
  {
    hide Exec, Rollback;
    var tx, s0 := s.nextTx, Begin(s);
    if IsWrite(stmt) {
      var (s1, o) := Exec(w, s0, stmt, params, Some(tx), fuel);
      ShadowEnds(w, s, stmt, params, fuel);
      assert tx !in s.active - {tx};
    } else {
      AnswersOnly(w, s, stmt, params, None, fuel);
      AnswersOnly(w, s0, stmt, params, Some(tx), fuel);
    }
  }

  /** A statement that is no write reads the data and the parameters, if it is executed
      at all. */
  lemma AnswersOnly(w: World, s: State, stmt: Stmt, params: seq<Value>, tx: Option<TxId>, fuel: nat)
    requires stmt.Select? || stmt.OtherStmt?
    ensures Exec(w, s, stmt, params, tx, fuel) ==
              (s, if stmt.Select? then stmt.answer(Data(s.tables, s.schemas, s.indexes, s.fts, s.scans), params)
                  else Err(UnsupportedStatement))
  {
  }

  /** The transaction that an autocommit statement runs under, at its end. */
  lemma ShadowEnds(w: World, s: State, stmt: Stmt, params: seq<Value>, fuel: nat)
    requires Ahead(s)
    ensures var s1 := Exec(w, Begin(s), stmt, params, Some(s.nextTx), fuel).0;
            && s.nextTx in s1.active && s1.active - {s.nextTx} == s.active - {s.nextTx}
            && Rollback(w, s1, s.nextTx).0.tables == s.tables
            && Rollback(w, s1, s.nextTx).0.active == s.active - {s.nextTx}
  {
    hide Exec, UndoAll, LegalRun, Replay, Ahead;
    var tx, s0 := s.nextTx, Begin(s);
    BeginIsReady(s);
    var steps := ExecRuns(w, s0, stmt, params, tx, fuel);
    var s1 := Exec(w, s0, stmt, params, Some(tx), fuel).0;
    RunFacts(w, s0, tx, steps, s1);
    LegalRunRollsBack(w, s0, tx, s0.counters, steps);
    UndoAllKeeps(w, s1.(active := s1.active - {tx}), s1.active[tx]);
    OnlyOwnJournal(w, s0, tx, steps);
    assert s0.active - {tx} == s.active - {tx};
  }
}
