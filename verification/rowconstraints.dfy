/** NOT NULL and CHECK hold of every stored row. They look at nothing but the row
    that is stored, so unlike UNIQUE they survive BEFORE triggers that write. */
module RowConstraints {
  import opened Wrappers
  import opened Values
  import opened Externals
  import opened Store
  import opened Constraints
  import opened Interpreter
  import opened Runs
  import opened Rollbacks

  ghost predicate TableOk(w: World, schema: Schema, rows: Table) {
    forall r :: r in rows ==> RowOk(w, schema, rows[r])
  }

  ghost predicate AllOk(w: World, s: State) {
    forall t :: t in s.tables && t in s.schemas ==> TableOk(w, s.schemas[t], s.tables[t])
  }

  lemma StepKeepsOk(w: World, s: State, tx: TxId, step: Step)
    requires AllOk(w, s) && StepRowOk(w, s.schemas, step)
    ensures AllOk(w, Apply(w, s, tx, step)) && Apply(w, s, tx, step).schemas == s.schemas
  {
    hide RowOk, UpdateEach, FtsChange;
  }

  lemma {:induction false} RunKeepsOk(w: World, s: State, tx: TxId, steps: seq<Step>)
    requires AllOk(w, s) && RowsOk(w, s.schemas, steps)
    ensures AllOk(w, Replay(w, s, tx, steps)) && Replay(w, s, tx, steps).schemas == s.schemas
    decreases |steps|
  {
    hide AllOk, StepRowOk, Apply;
    if steps != [] {
      RunKeepsOk(w, s, tx, steps[..|steps| - 1]);
      StepKeepsOk(w, Replay(w, s, tx, steps[..|steps| - 1]), tx, steps[|steps| - 1]);
    }
  }

  /** A transaction of any statements with any cascades and errors: every stored
      row satisfies NOT NULL and CHECK when it has run, and when it has been
      rolled back. */
  lemma {:induction false} RowConstraintsThroughout(w: World, s: State, tx: TxId, calls: seq<Call>)
    requires Ready(s, tx) && s.active[tx] == [] && AllOk(w, s)
    ensures AllOk(w, Session(w, s, tx, calls))
    ensures AllOk(w, Rollback(w, Session(w, s, tx, calls), tx).0)
  {
    hide AllOk, Session, UndoAll, Follows, Ready, LegalRun, RowsOk;
    var steps := SessionRuns(w, s, tx, calls);
    var s1 := Session(w, s, tx, calls);
    RunRowsOk(w, s, tx, steps, s1);
    RunKeepsOk(w, s, tx, steps);
    RunEndsActive(w, s, tx, steps, s1);
    LegalRunRollsBack(w, s, tx, s.counters, steps);
    UndoAllKeeps(w, s1.(active := s1.active - {tx}), s1.active[tx]);
    SameRowsOk(w, s, Rollback(w, s1, tx).0);
  }

  lemma RunRowsOk(w: World, s: State, tx: TxId, steps: seq<Step>, s1: State)
    requires Run(w, s, tx, steps, s1)
    ensures RowsOk(w, s.schemas, steps) && LegalRun(w, s, tx, s.counters, steps) && s1 == Replay(w, s, tx, steps)
  {
  }

  lemma RunEndsActive(w: World, s: State, tx: TxId, steps: seq<Step>, s1: State)
    requires Run(w, s, tx, steps, s1)
    ensures tx in s1.active
  {
    RunFacts(w, s, tx, steps, s1);
  }

  lemma SameRowsOk(w: World, s: State, s': State)
    requires AllOk(w, s) && s'.tables == s.tables && s'.schemas == s.schemas
    ensures AllOk(w, s')
  {
  }
}
