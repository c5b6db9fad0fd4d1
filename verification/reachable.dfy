/** Everything that is proved of an engine in good order holds of every state that
    an engine can get into: from empty, by any requests of any transactions in any
    order, CREATE TABLE, CREATE INDEX and CREATE TRIGGER, and restarts. */
module Reachability {
  import opened Wrappers
  import opened Values
  import opened Externals
  import opened Store
  import opened Interpreter
  import opened JournalBlind
  import opened Runs
  import opened Rollbacks
  import opened Indexing
  import opened Interleaving
  import opened TransactionIds
  import opened Exactness
  import opened Rebuilding
  import Tree = OrderedIndex
  import FullText

  // ---------------------------------------------------------------- commands

  datatype Command =
    | Sql(ask: Ask)
    | NewTable(schema: Schema)
    | NewIndex(table: string, idx: IndexDef, ifNotExists: bool)
    | NewTrigger(table: string, trigger: Trigger)
    | Restart(dump: seq<Saved>)  // what the snapshot holds, in some order

  const BLANK := State(map[], map[], map[], map[], map[], map[], 1, map[], 0)

  /** CREATE TABLE and CREATE VIRTUAL TABLE; nothing if the schema is there. */
  function CreateTable(s: State, schema: Schema): State {
    var t := schema.name;
    if t in s.schemas then s
    else
      s.(schemas := s.schemas[t := schema.(indices := [])],
         tables := s.tables[t := map[]],
         counters := s.counters[t := 1],
         fts := if schema.ftsColumn.Some? then s.fts[t := FtsTable(FullText.EMPTY_FTS, schema.ftsColumn.value)]
           else s.fts)
  }

  function Obey(w: World, s: State, c: Command): State {
    match c
    case Sql(ask) => Serve(w, s, ask)
    case NewTable(schema) => CreateTable(s, schema)
    case NewIndex(t, idx, ifNotExists) =>
      var made := CreateIndex(w, s, t, idx, ifNotExists);
      if made.Some? then made.value else s
    case NewTrigger(t, tr) => s.(triggers := s.triggers[t := TriggersOf(s, t) + [tr]])
    case Restart(dump) => LoadSnapshot(w, BLANK.(triggers := s.triggers, scans := s.scans), dump)
  }

  function ObeyAll(w: World, s: State, cs: seq<Command>): State
    decreases |cs|
  {
    if cs == [] then s else Obey(w, ObeyAll(w, s, cs[..|cs| - 1]), cs[|cs| - 1])
  }

  /** Every restart loads a snapshot of the state it found. */
  ghost predicate Faithfully(w: World, s: State, cs: seq<Command>)
    decreases |cs|
  {
    cs == [] ||
    var before, last := cs[..|cs| - 1], cs[|cs| - 1];
    Faithfully(w, s, before) && (last.Restart? ==> Snapshot(ObeyAll(w, s, before), last.dump))
  }

  // ---------------------------------------------------------------- good order

  ghost predicate JournalsKnown(s: State) {
    forall tx, i :: tx in s.active && 0 <= i < |s.active[tx]| ==> s.active[tx][i].table in s.tables
  }

  /** Row ids are below their counters, tables have schemas, and journals speak of
      tables that exist. */
  ghost predicate Sound(s: State) {
    Ahead(s) && s.tables.Keys <= s.schemas.Keys && JournalsKnown(s)
  }

  lemma BlankIsSound()
    ensures Sound(BLANK)
  {
  }

  lemma NothingTouched(t: string, r: RowId)
    ensures FirstTouch([], t, r).None?
  {
  }

  /** Journals say nothing of a table that does not exist. */
  lemma UnknownUntouched(s: State, tx: TxId, t: string, r: RowId)
    requires JournalsKnown(s) && t !in s.tables
    ensures FirstTouch(JournalOf(s, tx), t, r).None?
  {
    hide FirstTouch;
    if FirstTouch(JournalOf(s, tx), t, r).Some? {
      NothingTouched(t, r);
      var i := TouchedByEntry(JournalOf(s, tx), t, r);
      assert false;
    }
  }

  // Transaction control.

  lemma BeginSound(s: State)
    requires Sound(s)
    ensures Sound(Begin(s))
  {
    BeginIsReady(s);
  }

  lemma CommitSound(s: State, tx: TxId)
    requires Sound(s)
    ensures Sound(Commit(s, tx).0)
  {
    assert forall t :: CounterOf(Commit(s, tx).0, t) == CounterOf(s, t);
  }

  lemma {:induction false} UndoAllKeepsCounters(w: World, s: State, ops: seq<UndoOp>)
    ensures UndoAll(w, s, ops).counters == s.counters
    decreases |ops|
  {
    hide UpdateIndexes, SyncFts;
    if ops != [] {
      assert Undo(w, s, ops[|ops| - 1]).counters == s.counters;
      UndoAllKeepsCounters(w, Undo(w, s, ops[|ops| - 1]), ops[..|ops| - 1]);
    }
  }

  /** The ids a rollback brings back are in the journal, hence below the counters. */
  lemma RollbackSound(w: World, s: State, tx: TxId)
    requires Sound(s)
    ensures Sound(Rollback(w, s, tx).0)
  {
    hide UndoAll, FirstTouch;
    if tx in s.active {
      var ended, ops := s.(active := s.active - {tx}), s.active[tx];
      var s' := UndoAll(w, ended, ops);
      UndoAllKeeps(w, ended, ops);
      UndoAllKeepsCounters(w, ended, ops);
      forall t, r: RowId | RowAt(s'.tables, t, r).Some? ensures r < CounterOf(s', t) {
        FirstEntryDecides(w, ended, ops, t, r);
        if FirstTouch(ops, t, r).Some? {
          var i := TouchedByEntry(ops, t, r);
          assert r < CounterOf(s, t);
        } else {
          assert RowAt(s.tables, t, r).Some?;
        }
      }
    }
  }

  // Statements.

  lemma StepKnown(w: World, s: State, tx: TxId, floor: map<string, int>, step: Step)
    requires JournalsKnown(s) && Legal(s, tx, floor, step)
    ensures JournalsKnown(Apply(w, s, tx, step))
  {
    hide Apply;
    var s' := Apply(w, s, tx, step);
    forall x, i | x in s'.active && 0 <= i < |s'.active[x]| ensures s'.active[x][i].table in s'.tables {
      StepJournals(w, s, tx, step, x);
      assert JournalOf(s', x) == s'.active[x] && JournalOf(s, x) == s.active[x];
      if i < |s.active[x]| { assert s'.active[x][i] == s.active[x][i]; }
    }
  }

  lemma {:induction false} RunKnown(w: World, s: State, tx: TxId, floor: map<string, int>, steps: seq<Step>)
    requires JournalsKnown(s) && LegalRun(w, s, tx, floor, steps)
    ensures JournalsKnown(Replay(w, s, tx, steps))
    decreases |steps|
  {
    hide JournalsKnown, Apply, Legal;
    if steps != [] {
      RunKnown(w, s, tx, floor, steps[..|steps| - 1]);
      StepKnown(w, Replay(w, s, tx, steps[..|steps| - 1]), tx, floor, steps[|steps| - 1]);
    }
  }

  lemma ActiveExecSound(w: World, s: State, stmt: Stmt, params: seq<Value>, tx: TxId, fuel: nat)
    requires Sound(s) && tx in s.active
    ensures Sound(Exec(w, s, stmt, params, Some(tx), fuel).0)
  {
    hide Exec, LegalRun, Replay, JournalsKnown, Ahead;
    var steps := ExecRuns(w, s, stmt, params, tx, fuel);
    RunFacts(w, s, tx, steps, Exec(w, s, stmt, params, Some(tx), fuel).0);
    RunKnown(w, s, tx, s.counters, steps);
  }

  /** An id as if it were active, with nothing in its journal. */
  function Opened(s: State, tx: TxId): State {
    if tx in s.active then s else s.(active := s.active[tx := []])
  }

  lemma OpenedSound(s: State, tx: TxId)
    requires Sound(s)
    ensures Sound(Opened(s, tx)) && SameData(s, Opened(s, tx))
  {
    assert forall t :: CounterOf(Opened(s, tx), t) == CounterOf(s, t);
  }

  /** Under an id that is not active everything happens but the journaling. */
  lemma IdleExecSound(w: World, s: State, stmt: Stmt, params: seq<Value>, tx: TxId, fuel: nat)
    requires Sound(s) && tx !in s.active
    ensures Sound(Exec(w, s, stmt, params, Some(tx), fuel).0)
  {
    hide Exec;
    var open := Opened(s, tx);
    OpenedSound(s, tx);
    ExecBlind(w, s, open, stmt, params, Some(tx), Some(tx), fuel);
    ActiveExecSound(w, open, stmt, params, tx, fuel);
    var steps := ExecRuns(w, open, stmt, params, tx, fuel);
    RunFacts(w, open, tx, steps, Exec(w, open, stmt, params, Some(tx), fuel).0);
    SoundData(s, open, Exec(w, s, stmt, params, Some(tx), fuel).0, Exec(w, open, stmt, params, Some(tx), fuel).0, tx);
  }

  lemma SoundData(s: State, open: State, s': State, open': State, tx: TxId)
    requires Sound(s) && SameData(s, open) && Sound(open') && SameData(s', open') && s'.active == s.active
    requires Follows(open, open', tx)
    ensures Sound(s')
  {
    forall t, r: RowId | RowAt(s'.tables, t, r).Some? ensures r < CounterOf(s', t) {
      assert RowAt(open'.tables, t, r).Some?;
    }
    forall x, i | x in s'.active && 0 <= i < |s'.active[x]|
      ensures s'.active[x][i].rowid < CounterOf(s', s'.active[x][i].table)
    {
      assert CounterOf(open, s.active[x][i].table) <= CounterOf(open', s.active[x][i].table);
    }
  }

  lemma ExecSound(w: World, s: State, stmt: Stmt, params: seq<Value>, tx: Option<TxId>, fuel: nat)
    requires Sound(s) && (tx.None? ==> !IsWrite(stmt))
    ensures Sound(Exec(w, s, stmt, params, tx, fuel).0)
  {
    hide Sound, InsertAll, UpdateAll, DeleteAll, Candidates, Capture;
    if tx.Some? && tx.value in s.active {
      ActiveExecSound(w, s, stmt, params, tx.value, fuel);
    } else if tx.Some? {
      IdleExecSound(w, s, stmt, params, tx.value, fuel);
    }
  }

  /** Every request of anybody leaves the engine in good order. */
  lemma ServeSound(w: World, s: State, a: Ask)
    requires Sound(s)
    ensures Sound(Serve(w, s, a))
  {
    hide Sound, Exec, Begin, Commit, Rollback;
    match a.req
    case BeginTx => BeginSound(s);
    case CommitTx => if a.tx.Some? { CommitSound(s, a.tx.value); }
    case RollbackTx => if a.tx.Some? { RollbackSound(w, s, a.tx.value); }
    case Dml(stmt) =>
      if a.tx.None? && IsWrite(stmt) {
        BeginSound(s);
        ExecSound(w, Begin(s), stmt, a.params, Some(s.nextTx), a.fuel);
        var s1 := Exec(w, Begin(s), stmt, a.params, Some(s.nextTx), a.fuel).0;
        CommitSound(s1, s.nextTx);
        RollbackSound(w, s1, s.nextTx);
      } else {
        ExecSound(w, s, stmt, a.params, a.tx, a.fuel);
      }
  }

  // Data definition and restarts.

  lemma CreateTableSound(s: State, schema: Schema)
    requires Sound(s)
    ensures Sound(CreateTable(s, schema))
  {
    var s' := CreateTable(s, schema);
    if s' != s {
      forall t, r: RowId | RowAt(s'.tables, t, r).Some? ensures r < CounterOf(s', t) {
        assert t != schema.name && RowAt(s.tables, t, r).Some?;
      }
      forall x, i | x in s'.active && 0 <= i < |s'.active[x]|
        ensures s'.active[x][i].rowid < CounterOf(s', s'.active[x][i].table)
      {
        assert s.active[x][i].table in s.tables && s.active[x][i].table != schema.name;
      }
    }
  }

  lemma SoundFrame(s: State, s': State)
    requires Sound(s) && s'.tables == s.tables && s'.counters == s.counters && s'.active == s.active
    requires s.schemas.Keys <= s'.schemas.Keys
    ensures Sound(s')
  {
    assert forall t :: CounterOf(s', t) == CounterOf(s, t);
  }

  lemma CreateIndexSound(w: World, s: State, t: string, idx: IndexDef, ifNotExists: bool)
    requires Sound(s)
    ensures Sound(Obey(w, s, NewIndex(t, idx, ifNotExists)))
  {
    hide CreateIndex, Sound;
    CreateIndexFrame(w, s, t, idx, ifNotExists);
    SoundFrame(s, Obey(w, s, NewIndex(t, idx, ifNotExists)));
  }

  lemma CreateIndexFrame(w: World, s: State, t: string, idx: IndexDef, ifNotExists: bool)
    ensures var made := CreateIndex(w, s, t, idx, ifNotExists);
            made.Some? ==>
              var s' := made.value;
              && s'.tables == s.tables && s'.counters == s.counters && s'.active == s.active
              && s'.schemas.Keys == s.schemas.Keys
              && forall u :: u in s.schemas ==> s'.schemas[u] == s.schemas[u].(indices := s'.schemas[u].indices)
  {
    hide BuildFrom;
  }

  lemma TriggerSound(w: World, s: State, t: string, tr: Trigger)
    requires Sound(s)
    ensures Sound(Obey(w, s, NewTrigger(t, tr)))
  {
    hide Sound;
    SoundFrame(s, Obey(w, s, NewTrigger(t, tr)));
  }

  lemma RestartSound(w: World, s: State, dump: seq<Saved>)
    requires w.ScansOnce() && Sound(s) && Snapshot(s, dump)
    ensures Sound(Obey(w, s, Restart(dump)))
  {
    hide LoadSnapshot, Ahead, Snapshot, AllFtsExact;
    SnapshotCopies(w, BLANK.(triggers := s.triggers, scans := s.scans), s, dump);
  }

  /** So every state that an engine reaches from empty is in good order. */
  lemma {:induction false} SoundEverywhere(w: World, cs: seq<Command>)
    requires w.ScansOnce() && Faithfully(w, BLANK, cs)
    ensures Sound(ObeyAll(w, BLANK, cs))
    decreases |cs|
  {
    hide Sound, Obey, Snapshot;
    if cs == [] {
      BlankIsSound();
    } else {
      var s := ObeyAll(w, BLANK, cs[..|cs| - 1]);
      SoundEverywhere(w, cs[..|cs| - 1]);
      ObeySound(w, s, cs[|cs| - 1]);
    }
  }

  lemma ObeySound(w: World, s: State, c: Command)
    requires w.ScansOnce() && Sound(s) && (c.Restart? ==> Snapshot(s, c.dump))
    ensures Sound(Obey(w, s, c))
  {
    hide Sound, Serve, LoadSnapshot, CreateTable, CreateIndex, Snapshot;
    match c
    case Sql(ask) => ServeSound(w, s, ask);
    case NewTable(schema) => CreateTableSound(s, schema);
    case NewIndex(t, idx, ifNotExists) => CreateIndexSound(w, s, t, idx, ifNotExists);
    case NewTrigger(t, tr) => TriggerSound(w, s, t, tr);
    case Restart(dump) => RestartSound(w, s, dump);
  }

  /** Wherever an engine has got to: BEGIN, any statements with any cascades and
      errors, ROLLBACK give back exactly the rows at BEGIN. */
  lemma RollbackExactEverywhere(w: World, cs: seq<Command>, calls: seq<Call>)
    requires w.ScansOnce() && Faithfully(w, BLANK, cs)
    ensures var s := ObeyAll(w, BLANK, cs);
            var tx := s.nextTx;
            var (s', o) := Execute(w, Session(w, Begin(s), tx, calls), RollbackTx, [], Some(tx), 0);
            o.Ok? && s'.tables == s.tables && s'.active == s.active - {tx}
  {
    hide ObeyAll, Session, Faithfully, Execute, Ahead;
    SoundEverywhere(w, cs);
    RollbackExact(w, ObeyAll(w, BLANK, cs), calls);
  }

  /** And a write on its own takes effect as a whole or not at all. */
  lemma AutocommitAtomicEverywhere(w: World, cs: seq<Command>, stmt: Stmt, params: seq<Value>, fuel: nat)
    requires w.ScansOnce() && Faithfully(w, BLANK, cs)
    ensures var s := ObeyAll(w, BLANK, cs);
            var (s', o) := Execute(w, s, Dml(stmt), params, None, fuel);
            var (live, result) := Exec(w, Begin(s), stmt, params, Some(s.nextTx), fuel);
            && o == result
            && (o.Err? ==> s'.tables == s.tables)
            && (o.Ok? ==> s'.tables == live.tables && s'.indexes == live.indexes && s'.fts == live.fts)
            && (stmt.Insert? || stmt.Update? || stmt.Delete? ==> (s'.active == s.active <==> s.nextTx !in s.active))
  {
    hide ObeyAll, Faithfully, Execute, Exec, Ahead;
    SoundEverywhere(w, cs);
    AutocommitAtomic(w, ObeyAll(w, BLANK, cs), stmt, params, fuel);
  }

  // ---------------------------------------------------------------- complete indexes, everywhere

  ghost predicate JournalsLawful(dom: Domains, s: State) {
    forall tx :: tx in s.active ==> OpsLawful(dom, s.schemas, s.active[tx])
  }

  /** Complete indexes, and nothing in the journals that could spoil them. */
  ghost predicate Whole(dom: Domains, s: State) {
    AllNamesDistinct(s) && AllComplete(dom, s) && JournalsLawful(dom, s)
  }

  /** The rows that a statement stores and journals, as some run of it, have
      lawful indexed values. */
  ghost predicate LawfulExec(dom: Domains, w: World, s: State, stmt: Stmt, params: seq<Value>, tx: TxId, fuel: nat) {
    exists steps :: Run(w, s, tx, steps, Exec(w, s, stmt, params, Some(tx), fuel).0)
      && StepsLawful(dom, s.schemas, steps)
  }

  /** What a command must bring for the indexes to stay complete: lawful values. */
  ghost predicate LawfulCommand(dom: Domains, w: World, s: State, c: Command) {
    match c
    case Sql(ask) =>
      ask.req.Dml? && IsWrite(ask.req.stmt) ==>
        if ask.tx.None? then LawfulExec(dom, w, Begin(s), ask.req.stmt, ask.params, s.nextTx, ask.fuel)
        else LawfulExec(dom, w, Opened(s, ask.tx.value), ask.req.stmt, ask.params, ask.tx.value, ask.fuel)
    case NewIndex(t, idx, _) =>
      && (t in s.tables ==> ColumnLawful(dom(IndexId(t, idx.name)), s.tables[t], idx))
      && forall tx, i :: tx in s.active && 0 <= i < |s.active[tx]| && s.active[tx][i].table == t ==>
           InDomain(dom(IndexId(t, idx.name)), ValueOf(idx, Restores(s.active[tx][i])))
    case _ => true
  }

  ghost predicate LawfulCommands(dom: Domains, w: World, s: State, cs: seq<Command>)
    decreases |cs|
  {
    cs == [] ||
    (LawfulCommands(dom, w, s, cs[..|cs| - 1]) && LawfulCommand(dom, w, ObeyAll(w, s, cs[..|cs| - 1]), cs[|cs| - 1]))
  }

  lemma ActiveExecWhole(dom: Domains, w: World, s: State, stmt: Stmt, params: seq<Value>, tx: TxId, fuel: nat)
    requires LawfulDomains(dom) && Sound(s) && Whole(dom, s) && tx in s.active
    requires LawfulExec(dom, w, s, stmt, params, tx, fuel)
    ensures Whole(dom, Exec(w, s, stmt, params, Some(tx), fuel).0)
    ensures Exec(w, s, stmt, params, Some(tx), fuel).0.schemas == s.schemas
  {
    hide Exec, LegalRun, Replay, AllComplete, OpsLawful, Ahead, CheckedRun, RowsOk, Follows;
    var s' := Exec(w, s, stmt, params, Some(tx), fuel).0;
    var steps :| Run(w, s, tx, steps, s') && StepsLawful(dom, s.schemas, steps);
    RunFacts(w, s, tx, steps, s');
    FollowsFrame(s, s', tx);
    RunKeepsComplete(dom, w, s, tx, s.counters, steps);
    JournalLawful(dom, w, s, tx, steps);
    OnlyOwnJournal(w, s, tx, steps);
    forall x | x in s'.active ensures OpsLawful(dom, s.schemas, s'.active[x]) {
      if x != tx { assert x in s'.active - {tx} && (s'.active - {tx})[x] == (s.active - {tx})[x]; }
    }
  }

  lemma CompleteData(dom: Domains, a: State, b: State)
    requires SameData(a, b)
    ensures AllComplete(dom, a) == AllComplete(dom, b) && AllNamesDistinct(a) == AllNamesDistinct(b)
  {
    hide Complete;
  }

  lemma OpenedWhole(dom: Domains, s: State, tx: TxId)
    requires Whole(dom, s)
    ensures Whole(dom, Opened(s, tx))
  {
    hide Complete;
  }

  lemma IdleExecWhole(dom: Domains, w: World, s: State, stmt: Stmt, params: seq<Value>, tx: TxId, fuel: nat)
    requires LawfulDomains(dom) && Sound(s) && Whole(dom, s) && tx !in s.active
    requires LawfulExec(dom, w, Opened(s, tx), stmt, params, tx, fuel)
    ensures Whole(dom, Exec(w, s, stmt, params, Some(tx), fuel).0)
  {
    hide Exec, AllComplete, LawfulExec, OpsLawful, Sound;
    var open := Opened(s, tx);
    OpenedSound(s, tx);
    OpenedWhole(dom, s, tx);
    ExecBlind(w, s, open, stmt, params, Some(tx), Some(tx), fuel);
    ActiveExecWhole(dom, w, open, stmt, params, tx, fuel);
    CompleteData(dom, Exec(w, s, stmt, params, Some(tx), fuel).0, Exec(w, open, stmt, params, Some(tx), fuel).0);
  }

  lemma EndWhole(dom: Domains, w: World, s: State, tx: TxId)
    requires LawfulDomains(dom) && Whole(dom, s)
    ensures Whole(dom, Commit(s, tx).0) && Whole(dom, Rollback(w, s, tx).0)
  {
    hide Complete, UndoAll, OpsLawful;
    if tx in s.active {
      var ended := s.(active := s.active - {tx});
      assert AllComplete(dom, ended);
      UndoAllKeepsComplete(dom, w, ended, s.active[tx]);
      UndoAllKeeps(w, ended, s.active[tx]);
    }
  }

  lemma BeginWhole(dom: Domains, s: State)
    requires Whole(dom, s)
    ensures Whole(dom, Begin(s))
  {
    hide Complete;
  }

  lemma ServeWhole(dom: Domains, w: World, s: State, a: Ask)
    requires LawfulDomains(dom) && Sound(s) && Whole(dom, s) && LawfulCommand(dom, w, s, Sql(a))
    ensures Whole(dom, Serve(w, s, a))
  {
    hide Sound, Whole, Exec, Begin, Commit, Rollback, LawfulExec;
    match a.req
    case BeginTx => BeginWhole(dom, s);
    case CommitTx => if a.tx.Some? { EndWhole(dom, w, s, a.tx.value); }
    case RollbackTx => if a.tx.Some? { EndWhole(dom, w, s, a.tx.value); }
    case Dml(stmt) =>
      if !IsWrite(stmt) {
        ReadsOnly(w, s, stmt, a.params, a.tx, a.fuel);
      } else if a.tx.None? {
        BeginSound(s);
        BeginWhole(dom, s);
        BeginOpens(s);
        ActiveExecWhole(dom, w, Begin(s), stmt, a.params, s.nextTx, a.fuel);
        EndWhole(dom, w, Exec(w, Begin(s), stmt, a.params, Some(s.nextTx), a.fuel).0, s.nextTx);
      } else if a.tx.value in s.active {
        ActiveExecWhole(dom, w, s, stmt, a.params, a.tx.value, a.fuel);
      } else {
        IdleExecWhole(dom, w, s, stmt, a.params, a.tx.value, a.fuel);
      }
  }

  lemma BeginOpens(s: State)
    ensures s.nextTx in Begin(s).active
  {
  }

  lemma ReadsOnly(w: World, s: State, stmt: Stmt, params: seq<Value>, tx: Option<TxId>, fuel: nat)
    requires !IsWrite(stmt)
    ensures Exec(w, s, stmt, params, tx, fuel).0 == s
  {
  }

  lemma SameIndices(dom: Domains, schemas: map<string, Schema>, schemas': map<string, Schema>, t: string,
      row: Option<Row>)
    requires RowLawful(dom, schemas, t, row) && IndicesOf(schemas', t) == IndicesOf(schemas, t)
    ensures RowLawful(dom, schemas', t, row)
  {
  }

  lemma MoreIndices(dom: Domains, schemas: map<string, Schema>, schemas': map<string, Schema>, t: string, idx: IndexDef,
      row: Option<Row>)
    requires RowLawful(dom, schemas, t, row) && IndicesOf(schemas', t) == IndicesOf(schemas, t) + [idx]
    requires InDomain(dom(IndexId(t, idx.name)), ValueOf(idx, row))
    ensures RowLawful(dom, schemas', t, row)
  {
    hide InDomain, ValueOf;
  }

  lemma CreateTableWhole(dom: Domains, s: State, schema: Schema)
    requires Sound(s) && Whole(dom, s)
    ensures Whole(dom, CreateTable(s, schema))
  {
    hide Complete;
    var s' := CreateTable(s, schema);
    if s' != s {
      forall tx | tx in s'.active ensures OpsLawful(dom, s'.schemas, s'.active[tx]) {
        forall i | 0 <= i < |s'.active[tx]|
          ensures RowLawful(dom, s'.schemas, s'.active[tx][i].table, Restores(s'.active[tx][i]))
        {
          var op := s.active[tx][i];
          assert OpsLawful(dom, s.schemas, s.active[tx]) && op.table in s.tables;
          SameIndices(dom, s.schemas, s'.schemas, op.table, Restores(op));
        }
      }
      assert IndicesOf(s'.schemas, schema.name) == [];
      forall t, i | t in s'.tables && 0 <= i < |IndicesOf(s'.schemas, t)|
        ensures var x := IndicesOf(s'.schemas, t)[i];
                Complete(dom(IndexId(t, x.name)), TreeOf(s'.indexes, IndexId(t, x.name)), s'.tables[t], x)
      {
        var x := IndicesOf(s.schemas, t)[i];
        assert t in s.tables;
      }
    }
  }

  /** CREATE INDEX fills the new index and leaves the others alone. */
  lemma CreateIndexComplete(dom: Domains, w: World, s: State, t: string, idx: IndexDef, ifNotExists: bool)
    requires w.ScansOnce() && AllNamesDistinct(s) && AllComplete(dom, s)
    requires t in s.tables ==> ColumnLawful(dom(IndexId(t, idx.name)), s.tables[t], idx)
    ensures var made := CreateIndex(w, s, t, idx, ifNotExists);
            made.Some? ==> AllNamesDistinct(made.value) && AllComplete(dom, made.value)
  {
    hide Complete, BuildFrom, ColumnLawful, Exact;
    var made := CreateIndex(w, s, t, idx, ifNotExists);
    if made.Some? && made.value != s {
      var s' := made.value;
      var with := s.(schemas := s'.schemas);
      if t in s.tables {
        RebuildExact(dom(IndexId(t, idx.name)), w, with, t, idx);
        ExactIsComplete(dom(IndexId(t, idx.name)), TreeOf(s'.indexes, IndexId(t, idx.name)), s.tables[t], idx);
      }
      forall u, i | u in s'.tables && 0 <= i < |IndicesOf(s'.schemas, u)|
        ensures var x := IndicesOf(s'.schemas, u)[i];
                Complete(dom(IndexId(u, x.name)), TreeOf(s'.indexes, IndexId(u, x.name)), s'.tables[u], x)
      {
        if u != t || i < |IndicesOf(s.schemas, u)| {
          var x := IndicesOf(s.schemas, u)[i];
          assert Complete(dom(IndexId(u, x.name)), TreeOf(s.indexes, IndexId(u, x.name)), s.tables[u], x);
        }
      }
    }
  }

  lemma CreateIndexWhole(dom: Domains, w: World, s: State, t: string, idx: IndexDef, ifNotExists: bool)
    requires w.ScansOnce() && Whole(dom, s) && LawfulCommand(dom, w, s, NewIndex(t, idx, ifNotExists))
    ensures Whole(dom, Obey(w, s, NewIndex(t, idx, ifNotExists)))
  {
    hide AllComplete, BuildFrom, ColumnLawful, InDomain;
    CreateIndexComplete(dom, w, s, t, idx, ifNotExists);
    var s' := Obey(w, s, NewIndex(t, idx, ifNotExists));
    if s' != s {
      forall tx, i | tx in s'.active && 0 <= i < |s'.active[tx]|
        ensures RowLawful(dom, s'.schemas, s'.active[tx][i].table, Restores(s'.active[tx][i]))
      {
        var op := s.active[tx][i];
        assert OpsLawful(dom, s.schemas, s.active[tx]);
        if op.table == t {
          MoreIndices(dom, s.schemas, s'.schemas, t, idx, Restores(op));
        } else {
          SameIndices(dom, s.schemas, s'.schemas, op.table, Restores(op));
        }
      }
    }
  }

  lemma TriggerWhole(dom: Domains, w: World, s: State, t: string, tr: Trigger)
    requires Whole(dom, s)
    ensures Whole(dom, Obey(w, s, NewTrigger(t, tr)))
  {
    hide Complete;
  }

  /** Complete indexes hold lawful values, so what is rebuilt from them is exact. */
  lemma RestartWhole(dom: Domains, w: World, s: State, dump: seq<Saved>)
    requires w.ScansOnce() && LawfulDomains(dom) && Sound(s) && Whole(dom, s) && Snapshot(s, dump)
    ensures Whole(dom, Obey(w, s, Restart(dump)))
  {
    hide Tree.Ids, LoadSnapshot, Snapshot, FtsExact, Ahead, JournalsKnown, JournalsLawful;
    forall t, i | t in s.tables && 0 <= i < |IndicesOf(s.schemas, t)|
      ensures ColumnLawful(dom(IndexId(t, IndicesOf(s.schemas, t)[i].name)), s.tables[t], IndicesOf(s.schemas, t)[i])
    {
      var idx := IndicesOf(s.schemas, t)[i];
      assert Complete(dom(IndexId(t, idx.name)), TreeOf(s.indexes, IndexId(t, idx.name)), s.tables[t], idx);
    }
    var anew := BLANK.(triggers := s.triggers, scans := s.scans);
    SnapshotRoundTrip(dom, w, anew, s, dump);
    SnapshotCopies(w, anew, s, dump);
    WholeAfresh(dom, w, LoadSnapshot(w, anew, dump), s);
  }

  lemma WholeAfresh(dom: Domains, w: World, s': State, s: State)
    requires AllNamesDistinct(s) && SameTablesAndSchemas(s', s) && AllExact(dom, s') && s'.active == map[]
    requires s'.schemas.Keys <= s'.tables.Keys
    ensures Whole(dom, s')
  {
    hide Complete, Exact;
    forall t, i | t in s'.tables && 0 <= i < |IndicesOf(s'.schemas, t)|
      ensures var x := IndicesOf(s'.schemas, t)[i];
              Complete(dom(IndexId(t, x.name)), TreeOf(s'.indexes, IndexId(t, x.name)), s'.tables[t], x)
    {
      var x := IndicesOf(s'.schemas, t)[i];
      ExactIsComplete(dom(IndexId(t, x.name)), TreeOf(s'.indexes, IndexId(t, x.name)), s'.tables[t], x);
    }
  }

  lemma ObeyWhole(dom: Domains, w: World, s: State, c: Command)
    requires w.ScansOnce() && LawfulDomains(dom) && Sound(s) && Whole(dom, s) && LawfulCommand(dom, w, s, c)
    requires c.Restart? ==> Snapshot(s, c.dump)
    ensures Whole(dom, Obey(w, s, c))
  {
    hide Sound, Whole, Serve, LoadSnapshot, CreateTable, CreateIndex, Snapshot, LawfulCommand;
    match c
    case Sql(ask) => ServeWhole(dom, w, s, ask);
    case NewTable(schema) => CreateTableWhole(dom, s, schema);
    case NewIndex(t, idx, ifNotExists) => CreateIndexWhole(dom, w, s, t, idx, ifNotExists);
    case NewTrigger(t, tr) => TriggerWhole(dom, w, s, t, tr);
    case Restart(dump) => RestartWhole(dom, w, s, dump);
  }

  /** As long as all values are lawful for the indexes they go into, every index of
      every state that is reached from empty is complete. */
  lemma {:induction false} CompleteEverywhere(dom: Domains, w: World, cs: seq<Command>)
    requires w.ScansOnce() && LawfulDomains(dom) && Faithfully(w, BLANK, cs) && LawfulCommands(dom, w, BLANK, cs)
    ensures Whole(dom, ObeyAll(w, BLANK, cs))
    decreases |cs|
  {
    hide Sound, Whole, Obey, Snapshot, LawfulCommand;
    if cs == [] {
      BlankIsWhole(dom);
    } else {
      var s := ObeyAll(w, BLANK, cs[..|cs| - 1]);
      SoundEverywhere(w, cs[..|cs| - 1]);
      CompleteEverywhere(dom, w, cs[..|cs| - 1]);
      ObeyWhole(dom, w, s, cs[|cs| - 1]);
    }
  }

  lemma BlankIsWhole(dom: Domains)
    ensures Whole(dom, BLANK)
  {
  }
}
