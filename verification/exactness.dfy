/** Runs in which every captured row is still the stored one.

    Such runs, and their rollbacks, keep the secondary indexes and the full-text
    index exact. */
module Exactness {
  import opened Wrappers
  import opened Values
  import opened Externals
  import opened Expressions
  import opened Store
  import opened Constraints
  import opened Interpreter
  import opened Runs
  import opened Rollbacks
  import opened Indexing
  import FullText

  // ---------------------------------------------------------------- full text of one table

  /** The documents a full-text index should hold: the token lists of the rows
      whose content column is text. */
  function DocsOf(w: World, rows: Table, column: string): map<RowId, seq<string>> {
    map r | r in rows && Content(rows[r], column).Some? :: w.tokenize(Content(rows[r], column).value)
  }

  ghost predicate FtsExact(w: World, f: FtsTable, rows: Table) {
    FullText.Agrees(f.index, DocsOf(w, rows, f.column))
  }

  lemma DropKeepsFts(w: World, f: FtsTable, rows: Table, r: RowId)
    requires FtsExact(w, f, rows)
    ensures var f' := if r in rows then FtsDrop(w, f, r, rows[r]) else f;
            FtsExact(w, f', rows - {r}) && f'.column == f.column
  {
    hide FullText.Agrees, FullText.Remove;
    var docs := DocsOf(w, rows, f.column);
    if r in docs {
      FullText.RemoveAgrees(f.index, docs, r);
      assert docs - {r} == DocsOf(w, rows - {r}, f.column);
    } else {
      assert docs == DocsOf(w, rows - {r}, f.column);
    }
  }

  lemma PutKeepsFts(w: World, f: FtsTable, rows: Table, r: RowId, row: Row)
    requires FtsExact(w, f, rows) && r !in rows
    ensures FtsExact(w, FtsPut(w, f, r, row), rows[r := row])
  {
    hide FullText.Agrees, FullText.Add;
    var docs := DocsOf(w, rows, f.column);
    var text := Content(row, f.column);
    if text.Some? {
      FullText.AddAgrees(f.index, docs, r, w.tokenize(text.value));
      assert docs[r := w.tokenize(text.value)] == DocsOf(w, rows[r := row], f.column);
    } else {
      assert docs == DocsOf(w, rows[r := row], f.column);
    }
  }

  /** Moving a row's entry from its stored content to its new content. */
  lemma ChangeKeepsFts(w: World, f: FtsTable, rows: Table, r: RowId, now: Option<Row>)
    requires FtsExact(w, f, rows)
    ensures FtsExact(w, FtsChange(w, f, r, RowIn(rows, r), now), SetRow(rows, r, now))
  {
    hide FtsExact, FtsDrop, FtsPut;
    DropKeepsFts(w, f, rows, r);
    if now.Some? {
      var dropped := if r in rows then FtsDrop(w, f, r, rows[r]) else f;
      PutKeepsFts(w, dropped, rows - {r}, r, now.value);
      assert (rows - {r})[r := now.value] == rows[r := now.value];
    }
  }

  /** The tokens of a row's indexed text. */
  function TokensOf(w: World, row: Option<Row>, column: string): Option<seq<string>> {
    if row.Some? && Content(row.value, column).Some? then Some(w.tokenize(Content(row.value, column).value)) else None
  }

  lemma FtsChangeIsMove(w: World, f: FtsTable, r: RowId, was: Option<Row>, now: Option<Row>)
    ensures FtsChange(w, f, r, was, now) ==
              f.(index := FullText.Move(f.index, r, TokensOf(w, was, f.column), TokensOf(w, now, f.column)))
  {
  }

  /** Whichever content is taken out: exactly when there is content to take out
      just if some is stored, and no stored token is left behind. */
  lemma ChangeKeepsFtsExactly(w: World, f: FtsTable, rows: Table, r: RowId, was: Option<Row>, now: Option<Row>)
    requires FtsExact(w, f, rows)
    ensures var stored, out, into := TokensOf(w, RowIn(rows, r), f.column), TokensOf(w, was, f.column),
              TokensOf(w, now, f.column);
            FtsExact(w, FtsChange(w, f, r, was, now), SetRow(rows, r, now)) <==>
              && (out.Some? <==> stored.Some?)
              && (stored.Some? ==> forall t :: t in stored.value ==> t in out.value || (into.Some? && t in into.value))
  {
    hide FullText.Agrees, FullText.Remove, FullText.Add, FtsChange;
    var docs, docs' := DocsOf(w, rows, f.column), DocsOf(w, SetRow(rows, r, now), f.column);
    var out, into := TokensOf(w, was, f.column), TokensOf(w, now, f.column);
    FtsChangeIsMove(w, f, r, was, now);
    assert docs' == if into.Some? then docs[r := into.value] else docs - {r};
    FullText.MoveAgreesExactly(f.index, docs, r, out, into);
  }

  ghost predicate AllFtsExact(w: World, s: State) {
    forall t :: t in s.fts && t in s.tables ==> FtsExact(w, s.fts[t], s.tables[t])
  }

  /** One row changed, and both kinds of index told which row it was. */
  ghost predicate FullyChanged(w: World, s: State, s': State, t: string, r: RowId, now: Option<Row>) {
    && t in s.tables
    && Changed(s, s', t, r, RowIn(s.tables[t], r), now)
    && s'.fts == SyncFts(w, s.fts, t, r, RowIn(s.tables[t], r), now)
  }

  lemma ChangeKeepsAllFts(w: World, s: State, s': State, t: string, r: RowId, now: Option<Row>)
    requires AllFtsExact(w, s) && FullyChanged(w, s, s', t, r, now)
    ensures AllFtsExact(w, s')
  {
    hide FtsExact, FtsChange, SetRow, UpdateIndexes;
    if t in s.fts { ChangeKeepsFts(w, s.fts[t], s.tables[t], r, now); }
  }

  // ---------------------------------------------------------------- fresh runs

  /** The journaled row is the stored row. */
  predicate Fresh(s: State, step: Step) {
    IsWriteStep(step) ==> step.t in s.tables && RowAt(s.tables, step.t, step.r) == Restores(Entry(step))
  }

  predicate FreshRun(w: World, s: State, tx: TxId, steps: seq<Step>)
    decreases |steps|
  {
    steps == [] ||
    (FreshRun(w, s, tx, steps[..|steps| - 1]) && Fresh(Replay(w, s, tx, steps[..|steps| - 1]), steps[|steps| - 1]))
  }

  ghost predicate Consistent(dom: Domains, w: World, s: State) {
    AllExact(dom, s) && AllFtsExact(w, s)
  }

  lemma FreshStepIsChange(w: World, s: State, tx: TxId, step: Step)
    requires IsWriteStep(step) && Fresh(s, step)
    ensures FullyChanged(w, s, Apply(w, s, tx, step), step.t, step.r, NewRow(step))
  {
    hide UpdateEach, FtsChange;
    StepIsChange(w, s, tx, step);
  }

  lemma FreshStepKeeps(dom: Domains, w: World, s: State, tx: TxId, step: Step)
    requires LawfulDomains(dom) && AllNamesDistinct(s) && Consistent(dom, w, s)
    requires Fresh(s, step) && StepLawful(dom, s.schemas, step)
    ensures Consistent(dom, w, Apply(w, s, tx, step)) && Apply(w, s, tx, step).schemas == s.schemas
  {
    hide Exact, FtsExact, WriteInsert, WriteUpdate, WriteDelete;
    var s' := Apply(w, s, tx, step);
    if IsWriteStep(step) {
      FreshStepIsChange(w, s, tx, step);
      ChangeKeepsAllExact(dom, s, s', step.t, step.r, NewRow(step));
      ChangeKeepsAllFts(w, s, s', step.t, step.r, NewRow(step));
    }
  }

  lemma {:induction false} FreshRunKeeps(dom: Domains, w: World, s: State, tx: TxId, steps: seq<Step>)
    requires LawfulDomains(dom) && AllNamesDistinct(s) && Consistent(dom, w, s)
    requires FreshRun(w, s, tx, steps) && StepsLawful(dom, s.schemas, steps)
    ensures Consistent(dom, w, Replay(w, s, tx, steps)) && Replay(w, s, tx, steps).schemas == s.schemas
    decreases |steps|
  {
    hide Consistent, Apply, Fresh;
    if steps != [] {
      FreshRunKeeps(dom, w, s, tx, steps[..|steps| - 1]);
      FreshStepKeeps(dom, w, Replay(w, s, tx, steps[..|steps| - 1]), tx, steps[|steps| - 1]);
    }
  }

  // ---------------------------------------------------------------- and back

  /** The entry meets the table as its own write left it. */
  predicate Fits(tables: Tables, op: UndoOp) {
    op.table in tables && (op.UndoDelete? <==> op.rowid !in tables[op.table])
  }

  function SetBack(tables: Tables, op: UndoOp): Tables
    requires op.table in tables
  {
    tables[op.table := SetRow(tables[op.table], op.rowid, Restores(op))]
  }

  predicate AllFit(tables: Tables, ops: seq<UndoOp>)
    decreases |ops|
  {
    ops == [] ||
    var last := ops[|ops| - 1];
    Fits(tables, last) && AllFit(SetBack(tables, last), ops[..|ops| - 1])
  }

  lemma UndoIsFullChange(w: World, s: State, op: UndoOp)
    requires Fits(s.tables, op)
    ensures FullyChanged(w, s, Undo(w, s, op), op.table, op.rowid, Restores(op))
    ensures Undo(w, s, op).tables == SetBack(s.tables, op)
  {
    hide UpdateEach, FtsChange;
  }

  lemma {:induction false} UndoAllKeepsConsistent(dom: Domains, w: World, s: State, ops: seq<UndoOp>)
    requires LawfulDomains(dom) && AllNamesDistinct(s) && Consistent(dom, w, s)
    requires AllFit(s.tables, ops) && OpsLawful(dom, s.schemas, ops)
    ensures Consistent(dom, w, UndoAll(w, s, ops))
    decreases |ops|
  {
    hide Undo, Exact, FtsExact, SetBack, Fits;
    if ops != [] {
      var last := ops[|ops| - 1];
      var s1 := Undo(w, s, last);
      assert Fits(s.tables, last);
      UndoIsFullChange(w, s, last);
      ChangeKeepsAllExact(dom, s, s1, last.table, last.rowid, Restores(last));
      ChangeKeepsAllFts(w, s, s1, last.table, last.rowid, Restores(last));
      UndoAllKeepsConsistent(dom, w, s1, ops[..|ops| - 1]);
    }
  }

  lemma WriteThenBack(w: World, s: State, tx: TxId, step: Step)
    requires IsWriteStep(step) && Fresh(s, step)
    ensures Fits(Apply(w, s, tx, step).tables, Entry(step))
    ensures SetBack(Apply(w, s, tx, step).tables, Entry(step)) == s.tables
  {
    hide UpdateIndexes, FtsChange;
    var rows := s.tables[step.t];
    assert SetRow(SetRow(rows, step.r, NewRow(step)), step.r, Restores(Entry(step))) == rows;
  }

  lemma {:induction false} FreshRunFits(w: World, s: State, tx: TxId, steps: seq<Step>)
    requires tx in s.active && s.active[tx] == [] && FreshRun(w, s, tx, steps)
    ensures tx in Replay(w, s, tx, steps).active
    ensures AllFit(Replay(w, s, tx, steps).tables, Replay(w, s, tx, steps).active[tx])
    decreases |steps|
  {
    hide SetBack, Fits, Fresh, WriteInsert, WriteUpdate, WriteDelete;
    if steps != [] {
      var s1, step := Replay(w, s, tx, steps[..|steps| - 1]), steps[|steps| - 1];
      FreshRunFits(w, s, tx, steps[..|steps| - 1]);
      StepEntry(w, s1, tx, step);
      if IsWriteStep(step) {
        WriteThenBack(w, s1, tx, step);
        var j := s1.active[tx] + [Entry(step)];
        assert j[..|j| - 1] == s1.active[tx];
      }
    }
  }

  lemma StepEntry(w: World, s: State, tx: TxId, step: Step)
    requires tx in s.active
    ensures tx in Apply(w, s, tx, step).active
    ensures Apply(w, s, tx, step).active[tx] == if IsWriteStep(step) then s.active[tx] + [Entry(step)] else s.active[tx]
    ensures !IsWriteStep(step) ==> Apply(w, s, tx, step).tables == s.tables
  {
    hide UpdateIndexes, FtsChange;
  }

  /** After a fresh run, and again after its rollback, both kinds of index hold
      exactly what the tables hold. */
  lemma ConsistentThroughout(dom: Domains, w: World, s: State, tx: TxId, steps: seq<Step>)
    requires LawfulDomains(dom) && AllNamesDistinct(s) && Consistent(dom, w, s)
    requires tx in s.active && s.active[tx] == []
    requires FreshRun(w, s, tx, steps) && StepsLawful(dom, s.schemas, steps)
    ensures Consistent(dom, w, Replay(w, s, tx, steps))
    ensures Consistent(dom, w, Rollback(w, Replay(w, s, tx, steps), tx).0)
  {
    hide FtsExact, Exact, Replay, UndoAll;
    FreshRunKeeps(dom, w, s, tx, steps);
    FreshRunFits(w, s, tx, steps);
    JournalLawful(dom, w, s, tx, steps);
    var s1 := Replay(w, s, tx, steps);
    var ended := s1.(active := s1.active - {tx});
    assert Consistent(dom, w, ended);
    UndoAllKeepsConsistent(dom, w, ended, s1.active[tx]);
  }

  /** A search in a table with an exact full-text index finds exactly the rows whose
      indexed column is a text with every token of the query; a search in any other
      table finds nothing. */
  lemma SearchAgreesWithRows(w: World, s: State, t: string, query: string, r: RowId)
    requires t in s.tables && AllFtsExact(w, s)
    ensures r in FtsHits(w, s.fts)(t, query) <==>
              && t in s.fts && w.tokenize(query) != [] && r in s.tables[t]
              && exists text ::
                   && s.tables[t][r].Get(s.fts[t].column) == Some(Text(text))
                   && forall token :: token in w.tokenize(query) ==> token in w.tokenize(text)
  {
    if t in s.fts {
      var f, rows := s.fts[t], s.tables[t];
      assert FtsExact(w, f, rows);
      FullText.SearchExactly(f.index, DocsOf(w, rows, f.column), w.tokenize(query), r);
      if r in rows && rows[r].Has(f.column) && rows[r].vals[f.column].Text? {
        assert rows[r].Get(f.column) == Some(Text(rows[r].vals[f.column].s));
      }
    }
  }

  // ---------------------------------------------------------------- fresh steps and captures

  lemma {:induction false} FreshConcat(w: World, s: State, tx: TxId, a: seq<Step>, b: seq<Step>)
    requires FreshRun(w, s, tx, a) && FreshRun(w, Replay(w, s, tx, a), tx, b)
    ensures FreshRun(w, s, tx, a + b)
    decreases |b|
  {
    hide Apply, Fresh;
    if b == [] {
      assert a + b == a;
    } else {
      var b0 := b[..|b| - 1];
      assert (a + b)[..|a + b| - 1] == a + b0;
      FreshConcat(w, s, tx, a, b0);
      ReplayConcat(w, s, tx, a, b0);
    }
  }

  /** The captured rows are distinct, and still stored as captured. */
  ghost predicate AllCurrent(s: State, t: string, caught: seq<Captured>) {
    && (forall i :: 0 <= i < |caught| ==> RowAt(s.tables, t, caught[i].rowid) == Some(caught[i].row))
    && (forall i, j :: 0 <= i < j < |caught| ==> caught[i].rowid != caught[j].rowid)
  }

  lemma {:induction false} CaptureCurrent(w: World, s: State, t: string, order: seq<RowId>, where: Option<Expr>,
      params: seq<Value>, k: nat)
    requires forall i, j :: 0 <= i < j < |order| ==> order[i] != order[j]
    ensures AllCurrent(s, t, Capture(w, s, t, order, where, params, k))
    ensures forall i :: 0 <= i < |Capture(w, s, t, order, where, params, k)| ==>
              Capture(w, s, t, order, where, params, k)[i].rowid in order
    decreases order
  {
    hide Store.RowAt, Interpreter.Matches;
    if order != [] {
      CaptureCurrent(w, s, t, order[1..], where, params, k);
      assert order[0] !in order[1..];
    }
  }

  lemma FireNothing(w: World, s: State, t: string, event: Event, timing: Timing, was: Option<Row>, now: Option<Row>,
      tx: Option<TxId>, fuel: nat)
    requires TriggersOf(s, t) == []
    ensures Fire(w, s, t, event, timing, was, now, tx, fuel) == (s, Ok(0))
  {
  }

  /** One fresh write, as a run, leaving the rest as it was. */
  lemma OneFresh(w: World, s: State, tx: TxId, step: Step)
    requires Fresh(s, step)
    ensures FreshRun(w, s, tx, [step]) && Replay(w, s, tx, [step]) == Apply(w, s, tx, step)
  {
    hide Apply;
    assert [step][..|[step]| - 1] == [];
    assert Replay(w, s, tx, []) == s;
  }
}
