/** UNIQUE and PRIMARY KEY over whole histories: they hold in every state reached
    by writes of any transactions in any order, as long as no cascade of a BEFORE
    trigger writes to the table it fires for, indexed values are lawful, and no
    transaction is rolled back after somebody else has written. */
module UniqueHistory {
  import opened Wrappers
  import opened Values
  import opened Externals
  import opened Store
  import opened Interpreter
  import opened JournalBlind
  import opened Reach
  import opened Runs
  import opened Rollbacks
  import opened Indexing
  import opened TransactionIds
  import opened Uniqueness
  import opened Rebuilding
  import opened Reachability

  // ---------------------------------------------------------------- histories

  /** A command that leaves it to `a` alone to write. */
  predicate LeavesTo(s: State, c: Command, a: TxId) {
    match c
    case Sql(ask) =>
      (match ask.req
       case BeginTx => s.nextTx != a
       case CommitTx => ask.tx != Some(a)
       case RollbackTx => ask.tx.None?
       case Dml(stmt) => !IsWrite(stmt) || ask.tx == Some(a))
    case Restart(_) => false
    case _ => true
  }

  /** Transaction `a` has begun, and since then nobody else has written. */
  ghost predicate AloneSince(w: World, cs: seq<Command>, a: TxId)
    decreases |cs|
  {
    cs != [] &&
    var before, last := cs[..|cs| - 1], cs[|cs| - 1];
    var s := ObeyAll(w, BLANK, before);
    || (last.Sql? && last.ask.req.BeginTx? && s.nextTx == a)
    || (AloneSince(w, before, a) && LeavesTo(s, last, a))
  }

  /** What UNIQUE asks of a command: BEFORE cascades that leave their tables alone,
      and no rollback amid others' writes. */
  ghost predicate Careful(w: World, before: seq<Command>, c: Command) {
    var s := ObeyAll(w, BLANK, before);
    c.Sql? ==>
      && (c.ask.req.Dml? && IsWrite(c.ask.req.stmt) ==> BeforeSafe(s.schemas, s.triggers))
      && (c.ask.req.RollbackTx? && c.ask.tx.Some? && c.ask.tx.value in s.active ==>
           AloneSince(w, before, c.ask.tx.value))
  }

  ghost predicate AllCareful(w: World, cs: seq<Command>)
    decreases |cs|
  {
    cs == [] || (AllCareful(w, cs[..|cs| - 1]) && Careful(w, cs[..|cs| - 1], cs[|cs| - 1]))
  }

  // ---------------------------------------------------------------- schemas

  /** Same tables, and schemas that differ in their indexes at most. */
  lemma SameUnique(schemas: map<string, Schema>, schemas': map<string, Schema>, tables: Tables)
    requires UniqueTables(schemas, tables)
    requires forall t :: t in tables && t in schemas' ==>
               t in schemas && schemas'[t].columns == schemas[t].columns
                 && schemas'[t].uniqueGroups == schemas[t].uniqueGroups
    ensures UniqueTables(schemas', tables)
  {
    hide Agree;
  }

  lemma ExecSchemas(w: World, s: State, stmt: Stmt, params: seq<Value>, tx: TxId, fuel: nat)
    requires Sound(s)
    ensures Exec(w, s, stmt, params, Some(tx), fuel).0.schemas == s.schemas
  {
    hide Exec, LegalRun, Replay, JournalsKnown, Ahead, RowsOk, CheckedRun, Follows;
    var open := Opened(s, tx);
    OpenedSound(s, tx);
    ExecBlind(w, s, open, stmt, params, Some(tx), Some(tx), fuel);
    var steps := ExecRuns(w, open, stmt, params, tx, fuel);
    RunFacts(w, open, tx, steps, Exec(w, open, stmt, params, Some(tx), fuel).0);
    FollowsFrame(open, Exec(w, open, stmt, params, Some(tx), fuel).0, tx);
  }

  lemma RollbackSchemas(w: World, s: State, tx: TxId)
    ensures Rollback(w, s, tx).0.schemas == s.schemas
  {
    hide UndoAll;
    if tx in s.active { UndoAllKeeps(w, s.(active := s.active - {tx}), s.active[tx]); }
  }

  lemma ControlSchemas(s: State, tx: TxId)
    ensures Begin(s).schemas == s.schemas && Commit(s, tx).0.schemas == s.schemas
  {
  }

  lemma ServeSchemas(w: World, s: State, a: Ask)
    requires Sound(s)
    ensures Serve(w, s, a).schemas == s.schemas
  {
    hide Sound, Exec, Rollback, Begin, Commit;
    match a.req
    case BeginTx => ControlSchemas(s, 0);
    case CommitTx => if a.tx.Some? { ControlSchemas(s, a.tx.value); }
    case RollbackTx => if a.tx.Some? { RollbackSchemas(w, s, a.tx.value); }
    case Dml(stmt) =>
      if !IsWrite(stmt) {
        ReadsOnly(w, s, stmt, a.params, a.tx, a.fuel);
      } else if a.tx.None? {
        BeginSound(s);
        ExecSchemas(w, Begin(s), stmt, a.params, s.nextTx, a.fuel);
        var s1 := Exec(w, Begin(s), stmt, a.params, Some(s.nextTx), a.fuel).0;
        ControlSchemas(s, 0);
        ControlSchemas(s1, s.nextTx);
        RollbackSchemas(w, s1, s.nextTx);
      } else {
        ExecSchemas(w, s, stmt, a.params, a.tx.value, a.fuel);
      }
  }

  lemma ObeyNames(w: World, s: State, c: Command)
    requires w.ScansOnce() && Sound(s) && NamesMatch(s.schemas) && (c.Restart? ==> Snapshot(s, c.dump))
    ensures NamesMatch(Obey(w, s, c).schemas)
  {
    hide Sound, Serve, LoadSnapshot, CreateIndex, Snapshot, Ahead;
    match c
    case Sql(ask) => ServeSchemas(w, s, ask);
    case NewTable(schema) =>
    case NewIndex(t, idx, ifNotExists) => CreateIndexFrame(w, s, t, idx, ifNotExists);
    case NewTrigger(t, tr) =>
    case Restart(dump) => SnapshotCopies(w, BLANK.(triggers := s.triggers, scans := s.scans), s, dump);
  }

  lemma {:induction false} NamesEverywhere(w: World, cs: seq<Command>)
    requires w.ScansOnce() && Faithfully(w, BLANK, cs)
    ensures NamesMatch(ObeyAll(w, BLANK, cs).schemas)
    decreases |cs|
  {
    hide Sound, Obey, Snapshot;
    if cs != [] {
      SoundEverywhere(w, cs[..|cs| - 1]);
      NamesEverywhere(w, cs[..|cs| - 1]);
      ObeyNames(w, ObeyAll(w, BLANK, cs[..|cs| - 1]), cs[|cs| - 1]);
    }
  }

  // ---------------------------------------------------------------- writes

  lemma ActiveExecUnique(dom: Domains, w: World, s: State, stmt: Stmt, params: seq<Value>, tx: TxId, fuel: nat)
    requires LawfulDomains(dom) && Sound(s) && Whole(dom, s) && AllUnique(s) && NamesMatch(s.schemas) && tx in s.active
    requires BeforeSafe(s.schemas, s.triggers) && LawfulExec(dom, w, s, stmt, params, tx, fuel)
    ensures AllUnique(Exec(w, s, stmt, params, Some(tx), fuel).0)
  {
    hide Exec, LegalRun, Replay, AllComplete, AllUnique, NamesMatch, StepsLawful, Ahead, CheckedRun, RowsOk, BeforeSafe;
    var s' := Exec(w, s, stmt, params, Some(tx), fuel).0;
    var steps :| Run(w, s, tx, steps, s') && StepsLawful(dom, s.schemas, steps);
    RunKeepsUnique(dom, w, s, tx, s.counters, steps);
  }

  lemma IdleExecUnique(dom: Domains, w: World, s: State, stmt: Stmt, params: seq<Value>, tx: TxId, fuel: nat)
    requires LawfulDomains(dom) && Sound(s) && Whole(dom, s) && AllUnique(s) && NamesMatch(s.schemas) && tx !in s.active
    requires BeforeSafe(s.schemas, s.triggers) && LawfulExec(dom, w, Opened(s, tx), stmt, params, tx, fuel)
    ensures AllUnique(Exec(w, s, stmt, params, Some(tx), fuel).0)
  {
    hide Exec, Whole, LawfulExec, UniqueTables, Sound, NamesMatch, BeforeSafe;
    var open := Opened(s, tx);
    OpenedSound(s, tx);
    OpenedWhole(dom, s, tx);
    ExecBlind(w, s, open, stmt, params, Some(tx), Some(tx), fuel);
    ActiveExecUnique(dom, w, open, stmt, params, tx, fuel);
  }

  /** A write on its own is kept as a whole or undone at once. */
  lemma AutocommitUnique(dom: Domains, w: World, s: State, a: Ask)
    requires LawfulDomains(dom) && Sound(s) && Whole(dom, s) && AllUnique(s) && NamesMatch(s.schemas)
    requires a.req.Dml? && IsWrite(a.req.stmt) && a.tx.None? && BeforeSafe(s.schemas, s.triggers)
    requires LawfulExec(dom, w, Begin(s), a.req.stmt, a.params, s.nextTx, a.fuel)
    ensures AllUnique(Serve(w, s, a))
  {
    hide Exec, Rollback, Whole, LawfulExec, UniqueTables, Sound, NamesMatch, BeforeSafe;
    var stmt := a.req.stmt;
    BeginSound(s);
    BeginWhole(dom, s);
    BeginOpens(s);
    ActiveExecUnique(dom, w, Begin(s), stmt, a.params, s.nextTx, a.fuel);
    ExecSchemas(w, Begin(s), stmt, a.params, s.nextTx, a.fuel);
    var s1 := Exec(w, Begin(s), stmt, a.params, Some(s.nextTx), a.fuel).0;
    RollbackSchemas(w, s1, s.nextTx);
    SoundIsAhead(s);
    ShadowEnds(w, s, stmt, a.params, a.fuel);
  }

  lemma SoundIsAhead(s: State)
    requires Sound(s)
    ensures Ahead(s)
  {
  }

  // ---------------------------------------------------------------- what a rollback goes back to

  lemma RollsBackFrame(s: State, s': State, a: TxId, base: Tables)
    requires RollsBackTo(s, a, base) && s'.tables == s.tables && JournalOf(s', a) == JournalOf(s, a)
    ensures RollsBackTo(s', a, base)
  {
    hide FirstTouch, RowAt;
    forall t, r: RowId
      ensures var first := FirstTouch(JournalOf(s', a), t, r);
              RowAt(base, t, r) == if first.Some? then first.value else RowAt(s'.tables, t, r)
    {
      assert RowAt(base, t, r) ==
             if FirstTouch(JournalOf(s, a), t, r).Some? then FirstTouch(JournalOf(s, a), t, r).value
               else RowAt(s.tables, t, r);
    }
  }

  lemma BeginRollsBack(s: State)
    ensures RollsBackTo(Begin(s), s.nextTx, s.tables)
  {
  }

  lemma ExecRollsBack(w: World, s: State, stmt: Stmt, params: seq<Value>, a: TxId, fuel: nat, base: Tables)
    requires Sound(s) && a in s.active && RollsBackTo(s, a, base)
    ensures RollsBackTo(Exec(w, s, stmt, params, Some(a), fuel).0, a, base)
    ensures a in Exec(w, s, stmt, params, Some(a), fuel).0.active
  {
    hide Exec, LegalRun, Replay, RollsBackTo, Ahead, RowsOk, CheckedRun, JournalsKnown;
    var steps := ExecRuns(w, s, stmt, params, a, fuel);
    RunKeepsRollback(w, s, a, s.counters, steps, base);
    RunFacts(w, s, a, steps, Exec(w, s, stmt, params, Some(a), fuel).0);
  }

  /** A new table is empty before and after. */
  lemma NewTableRollsBack(s: State, schema: Schema, a: TxId, base: Tables)
    requires Sound(s) && RollsBackTo(s, a, base) && schema.name !in s.schemas
    ensures RollsBackTo(CreateTable(s, schema), a, base[schema.name := map[]])
  {
    hide FirstTouch, Ahead;
    var s', base' := CreateTable(s, schema), base[schema.name := map[]];
    forall t, r: RowId
      ensures var first := FirstTouch(JournalOf(s', a), t, r);
              RowAt(base', t, r) == if first.Some? then first.value else RowAt(s'.tables, t, r)
    {
      assert RowAt(base, t, r) ==
             if FirstTouch(JournalOf(s, a), t, r).Some? then FirstTouch(JournalOf(s, a), t, r).value
               else RowAt(s.tables, t, r);
      if t == schema.name { UnknownUntouched(s, a, t, r); }
    }
  }

  lemma NewTableUnique(s: State, schema: Schema, base: Tables)
    requires UniqueTables(s.schemas, base) && schema.name !in s.schemas
    ensures UniqueTables(CreateTable(s, schema).schemas, base[schema.name := map[]])
  {
    hide Agree;
  }

  lemma OtherBegins(s: State, a: TxId)
    requires a in s.active && s.nextTx != a
    ensures var s' := Begin(s); a in s'.active && s'.tables == s.tables && JournalOf(s', a) == JournalOf(s, a)
  {
  }

  lemma OtherCommits(s: State, x: TxId, a: TxId)
    requires a in s.active && x != a
    ensures var s' := Commit(s, x).0; a in s'.active && s'.tables == s.tables && JournalOf(s', a) == JournalOf(s, a)
  {
  }

  /** Another transaction's BEGIN or COMMIT changes nothing for `a`. */
  lemma ControlFrame(w: World, s: State, ask: Ask, a: TxId)
    requires !ask.req.Dml? && a in s.active && LeavesTo(s, Sql(ask), a)
    ensures var s' := Serve(w, s, ask); a in s'.active && s'.tables == s.tables && JournalOf(s', a) == JournalOf(s, a)
  {
    hide Rollback, Exec, Begin, Commit, JournalOf;
    if ask.req.BeginTx? {
      OtherBegins(s, a);
    } else if ask.req.CommitTx? && ask.tx.Some? {
      OtherCommits(s, ask.tx.value, a);
    }
  }

  lemma ServeIsExec(w: World, s: State, ask: Ask)
    requires ask.req.Dml? && (ask.tx.Some? || !IsWrite(ask.req.stmt))
    ensures Serve(w, s, ask) == Exec(w, s, ask.req.stmt, ask.params, ask.tx, ask.fuel).0
  {
    hide Exec, Rollback;
  }

  lemma ServeAlone(w: World, s: State, ask: Ask, a: TxId, base: Tables)
    requires Sound(s) && a in s.active && RollsBackTo(s, a, base) && LeavesTo(s, Sql(ask), a)
    ensures a in Serve(w, s, ask).active && RollsBackTo(Serve(w, s, ask), a, base)
  {
    hide Sound, RollsBackTo, Exec, Serve;
    if !ask.req.Dml? {
      ControlFrame(w, s, ask, a);
      RollsBackFrame(s, Serve(w, s, ask), a, base);
    } else {
      ServeIsExec(w, s, ask);
      if IsWrite(ask.req.stmt) {
        ExecRollsBack(w, s, ask.req.stmt, ask.params, a, ask.fuel, base);
      } else {
        ReadsOnly(w, s, ask.req.stmt, ask.params, ask.tx, ask.fuel);
      }
    }
  }

  /** One command that leaves it to `a` to write: where its rollback would lead. */
  lemma StillAlone(w: World, s: State, c: Command, a: TxId, base: Tables) returns (base': Tables)
    requires Sound(s) && a in s.active && RollsBackTo(s, a, base) && UniqueTables(s.schemas, base) && LeavesTo(s, c, a)
    ensures a in Obey(w, s, c).active && RollsBackTo(Obey(w, s, c), a, base')
              && UniqueTables(Obey(w, s, c).schemas, base')
  {
    hide Sound, RollsBackTo, UniqueTables, Serve, CreateIndex, CreateTable;
    base' := base;
    var s' := Obey(w, s, c);
    match c
    case Sql(ask) =>
      ServeAlone(w, s, ask, a, base);
      ServeSchemas(w, s, ask);
    case NewTable(schema) =>
      NewTableFrame(s, schema);
      if schema.name !in s.schemas {
        base' := base[schema.name := map[]];
        NewTableRollsBack(s, schema, a, base);
        NewTableUnique(s, schema, base);
      }
    case NewIndex(t, idx, ifNotExists) =>
      CreateIndexFrame(w, s, t, idx, ifNotExists);
      RollsBackFrame(s, s', a, base);
      SameUnique(s.schemas, s'.schemas, base);
    case NewTrigger(t, tr) => RollsBackFrame(s, s', a, base);
  }

  lemma NewTableFrame(s: State, schema: Schema)
    ensures CreateTable(s, schema).active == s.active
    ensures schema.name in s.schemas ==> CreateTable(s, schema) == s
  {
  }

  // ---------------------------------------------------------------- everywhere

  /** What a history must satisfy. */
  ghost predicate Admissible(dom: Domains, w: World, cs: seq<Command>) {
    w.ScansOnce() && LawfulDomains(dom) && Faithfully(w, BLANK, cs) && LawfulCommands(dom, w, BLANK, cs)
      && AllCareful(w, cs)
  }

  lemma AdmissibleBefore(dom: Domains, w: World, cs: seq<Command>)
    requires Admissible(dom, w, cs) && cs != []
    ensures Admissible(dom, w, cs[..|cs| - 1])
  {
  }

  /** While `a` is alone, its rollback leads to tables that are unique. */
  lemma {:induction false} AloneBase(dom: Domains, w: World, cs: seq<Command>, a: TxId) returns (base: Tables)
    requires Admissible(dom, w, cs) && AloneSince(w, cs, a)
    ensures var s := ObeyAll(w, BLANK, cs); a in s.active && RollsBackTo(s, a, base) && UniqueTables(s.schemas, base)
    decreases |cs|, 0
  {
    hide Sound, Obey, RollsBackTo, UniqueTables, Admissible, LeavesTo;
    var before, last := cs[..|cs| - 1], cs[|cs| - 1];
    var s := ObeyAll(w, BLANK, before);
    AdmissibleBefore(dom, w, cs);
    AdmissibleIsFaithful(dom, w, before);
    SoundEverywhere(w, before);
    if last.Sql? && last.ask.req.BeginTx? && s.nextTx == a {
      UniqueEverywhere(dom, w, before);
      base := s.tables;
      BeginRollsBack(s);
      ObeyBegins(w, s, last);
    } else {
      base := AloneBase(dom, w, before, a);
      base := StillAlone(w, s, last, a, base);
    }
  }

  lemma AdmissibleIsFaithful(dom: Domains, w: World, cs: seq<Command>)
    requires Admissible(dom, w, cs)
    ensures w.ScansOnce() && LawfulDomains(dom) && Faithfully(w, BLANK, cs) && LawfulCommands(dom, w, BLANK, cs)
  {
  }

  lemma ObeyBegins(w: World, s: State, c: Command)
    requires c.Sql? && c.ask.req.BeginTx?
    ensures Obey(w, s, c) == Begin(s) && s.nextTx in Begin(s).active && Begin(s).schemas == s.schemas
  {
  }

  lemma RollbackUnique(w: World, s: State, a: TxId, base: Tables)
    requires a in s.active && RollsBackTo(s, a, base) && UniqueTables(s.schemas, base)
    ensures AllUnique(Rollback(w, s, a).0)
  {
    hide Rollback, RollsBackTo, UniqueTables;
    RollbackReaches(w, s, a, base);
    RollbackSchemas(w, s, a);
  }

  /** Every other command keeps the tables unique. */
  lemma ObeyUnique(dom: Domains, w: World, s: State, c: Command)
    requires w.ScansOnce() && LawfulDomains(dom) && Sound(s) && Whole(dom, s) && NamesMatch(s.schemas) && AllUnique(s)
    requires LawfulCommand(dom, w, s, c) && (c.Restart? ==> Snapshot(s, c.dump))
    requires c.Sql? && c.ask.req.Dml? && IsWrite(c.ask.req.stmt) ==> BeforeSafe(s.schemas, s.triggers)
    requires c.Sql? && c.ask.req.RollbackTx? ==> c.ask.tx.None? || c.ask.tx.value !in s.active
    ensures AllUnique(Obey(w, s, c))
  {
    hide Sound, Whole, NamesMatch, UniqueTables, Exec, CreateIndex, LoadSnapshot, Snapshot, BeforeSafe, LawfulExec,
      CreateTable;
    match c
    case Sql(ask) =>
      if ask.req.Dml? {
        var stmt := ask.req.stmt;
        if !IsWrite(stmt) {
          ReadsOnly(w, s, stmt, ask.params, ask.tx, ask.fuel);
        } else if ask.tx.None? {
          AutocommitUnique(dom, w, s, ask);
        } else if ask.tx.value in s.active {
          ActiveExecUnique(dom, w, s, stmt, ask.params, ask.tx.value, ask.fuel);
        } else {
          IdleExecUnique(dom, w, s, stmt, ask.params, ask.tx.value, ask.fuel);
        }
      }
    case NewTable(schema) =>
      NewTableFrame(s, schema);
      if schema.name !in s.schemas { NewTableAllUnique(s, schema); }
    case NewIndex(t, idx, ifNotExists) =>
      CreateIndexFrame(w, s, t, idx, ifNotExists);
      SameUnique(s.schemas, Obey(w, s, c).schemas, s.tables);
    case NewTrigger(t, tr) =>
    case Restart(dump) => RestartUnique(w, s, dump);
  }

  lemma NewTableAllUnique(s: State, schema: Schema)
    requires AllUnique(s) && schema.name !in s.schemas
    ensures AllUnique(CreateTable(s, schema))
  {
    hide UniqueTables;
    NewTableUnique(s, schema, s.tables);
  }

  lemma RestartUnique(w: World, s: State, dump: seq<Saved>)
    requires w.ScansOnce() && AllUnique(s) && Snapshot(s, dump)
    ensures AllUnique(Obey(w, s, Restart(dump)))
  {
    hide LoadSnapshot, Snapshot, UniqueTables, Ahead;
    SnapshotCopies(w, BLANK.(triggers := s.triggers, scans := s.scans), s, dump);
    SameUnique(s.schemas, Obey(w, s, Restart(dump)).schemas, s.tables);
  }

  /** Every UNIQUE and PRIMARY KEY column and group is unique in every state that an
      admissible history reaches. */
  lemma {:induction false} UniqueEverywhere(dom: Domains, w: World, cs: seq<Command>)
    requires Admissible(dom, w, cs)
    ensures AllUnique(ObeyAll(w, BLANK, cs))
    decreases |cs|, 1
  {
    hide Sound, Whole, NamesMatch, Obey, UniqueTables, RollsBackTo, Snapshot, LawfulCommand, BeforeSafe, AloneSince;
    if cs == [] {
      BlankIsUnique();
    } else {
      var before, last := cs[..|cs| - 1], cs[|cs| - 1];
      var s := ObeyAll(w, BLANK, before);
      AdmissibleBefore(dom, w, cs);
      SoundEverywhere(w, before);
      CompleteEverywhere(dom, w, before);
      NamesEverywhere(w, before);
      UniqueEverywhere(dom, w, before);
      if last.Sql? && last.ask.req.RollbackTx? && last.ask.tx.Some? && last.ask.tx.value in s.active {
        var base := AloneBase(dom, w, before, last.ask.tx.value);
        RollbackUnique(w, s, last.ask.tx.value, base);
        ObeyRollsBack(w, s, last);
      } else {
        ObeyUnique(dom, w, s, last);
      }
    }
  }

  lemma ObeyRollsBack(w: World, s: State, c: Command)
    requires c.Sql? && c.ask.req.RollbackTx? && c.ask.tx.Some?
    ensures Obey(w, s, c) == Rollback(w, s, c.ask.tx.value).0
  {
    hide Rollback;
  }

  lemma BlankIsUnique()
    ensures AllUnique(BLANK)
  {
  }
}
