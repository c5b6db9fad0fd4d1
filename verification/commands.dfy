/** What the commands around the statements do: transaction control and the
    definition of tables, indexes and triggers. */
module Commands {
  import opened Wrappers
  import opened Values
  import opened Externals
  import opened Store
  import opened Interpreter
  import opened Rebuilding
  import opened Reachability
  import opened Statements
  import FullText

  // ---------------------------------------------------------------- BEGIN, COMMIT, ROLLBACK

  /** BEGIN answers with an id that is active from then on, with nothing in its
      journal. COMMIT ends an active transaction and keeps everything else as it is;
      a COMMIT or ROLLBACK of any other is refused. */
  lemma ControlExactly(w: World, s: State, params: seq<Value>, tx: Option<TxId>, fuel: nat)
    ensures var (s1, o1) := Execute(w, s, BeginTx, params, tx, fuel);
            && o1 == Ok(s.nextTx) && JournalOf(s1, s.nextTx) == [] && s.nextTx in s1.active
            && s1 == s.(active := s.active[s.nextTx := []], nextTx := s1.nextTx)
            && (0 <= s.nextTx < TX_IDS ==> s1.nextTx == if s.nextTx == TX_IDS - 1 then 0 else s.nextTx + 1)
    ensures tx.Some? && tx.value in s.active ==>
              Execute(w, s, CommitTx, params, tx, fuel) == (s.(active := s.active - {tx.value}), Ok(0))
    ensures tx.None? || tx.value !in s.active ==>
              Execute(w, s, CommitTx, params, tx, fuel) == Execute(w, s, RollbackTx, params, tx, fuel)
                == (s, Err(NoSuchTransaction))
  {
    hide UndoAll;
  }

  // ---------------------------------------------------------------- CREATE

  /** CREATE TABLE makes an empty table without indexes whose ids start at 1, with an
      empty full-text index if it is a full-text table, and changes nothing else;
      or it changes nothing at all if there is such a schema. */
  lemma NewTableExactly(w: World, s: State, schema: Schema, u: string)
    ensures var t, s' := schema.name, Obey(w, s, NewTable(schema));
            if t in s.schemas then s' == s
            else
              && s'.tables.Keys == s.tables.Keys + {t} && s'.tables[t] == map[] && CounterOf(s', t) == 1
              && s'.schemas.Keys == s.schemas.Keys + {t} && s'.schemas[t] == schema.(indices := [])
              && (schema.ftsColumn.Some? ==>
                    t in s'.fts && s'.fts[t].column == schema.ftsColumn.value
                    && forall tokens :: FullText.Search(s'.fts[t].index, tokens) == {})
              && (u != t && u in s.tables ==> s'.tables[u] == s.tables[u] && CounterOf(s', u) == CounterOf(s, u))
              && s' == s.(tables := s'.tables, schemas := s'.schemas, counters := s'.counters, fts := s'.fts)
  {
    hide FullText.Narrow;
  }

  /** Without triggers, the rows that an INSERT stores in a table just made have the
      ids from 1 on. */
  lemma FirstIds(w: World, s: State, schema: Schema, columns: seq<string>, source: Source, rows: seq<Row>,
      params: seq<Value>, tx: Option<TxId>, fuel: nat)
    requires schema.name !in s.schemas && schema.name !in s.triggers
    requires var s1 := Obey(w, s, NewTable(schema));
             && Candidates(w, s1, s1.schemas[schema.name], columns, source, params) == Ok(rows)
             && Exec(w, s1, Stmt.Insert(schema.name, columns, source), params, tx, fuel).1.Ok?
    ensures var s' := Exec(w, Obey(w, s, NewTable(schema)), Stmt.Insert(schema.name, columns, source), params, tx,
                        fuel).0;
            && schema.name in s'.tables
            && forall r :: r in s'.tables[schema.name] <==> 1 <= r <= |rows|
  {
    hide Exec, Candidates, StoreEach, StoreError;
    var t, s1 := schema.name, Obey(w, s, NewTable(schema));
    var n := InsertExactly(w, s1, t, columns, source, rows, params, tx, fuel);
    assert rows[..|rows|] == rows;
    var s' := Exec(w, s1, Stmt.Insert(t, columns, source), params, tx, fuel).0;
    forall r ensures r in s'.tables[t] <==> 1 <= r <= |rows| {
      assert RowAt(s'.tables, t, r) == AfterInsert(RowAt(s1.tables, t, r), rows, s1.schemas[t].columns, 1, r);
    }
  }

  /** CREATE INDEX is refused without the table, or, unless it says IF NOT EXISTS, if the
      table has an index of that name; the index joins the schema as its last. */
  lemma NewIndexExactly(w: World, s: State, t: string, idx: IndexDef, ifNotExists: bool)
    ensures var taken := t in s.schemas && exists i :: 0 <= i < |s.schemas[t].indices|
                                                       && s.schemas[t].indices[i].name == idx.name;
            var made := CreateIndex(w, s, t, idx, ifNotExists);
            && (made.None? <==> t !in s.schemas || (taken && !ifNotExists))
            && (made.Some? && taken ==> made.value == s)
            && (made.Some? && !taken ==>
                  made.value.schemas == s.schemas[t := s.schemas[t].(indices := s.schemas[t].indices + [idx])])
            && Obey(w, s, NewIndex(t, idx, ifNotExists)) == if made.Some? then made.value else s
  {
    hide BuildFrom;
  }

  /** A new trigger is the last of its table. */
  lemma NewTriggerExactly(w: World, s: State, t: string, tr: Trigger, u: string)
    ensures var s' := Obey(w, s, NewTrigger(t, tr));
            && TriggersOf(s', u) == TriggersOf(s, u) + (if u == t then [tr] else [])
            && s' == s.(triggers := s'.triggers)
  {
  }

  // ---------------------------------------------------------------- restarts

  lemma {:induction false} GreatestIsThere(rows: seq<(RowId, Row)>) returns (n: int)
    ensures MaxRowId(rows) == 0 || (0 <= n < |rows| && rows[n].0 == MaxRowId(rows))
    ensures MaxRowId(rows) >= 0 && forall i :: 0 <= i < |rows| ==> rows[i].0 <= MaxRowId(rows)
    decreases |rows|
  {
    n := 0;
    if rows != [] {
      var before, last := rows[..|rows| - 1], |rows| - 1;
      n := GreatestIsThere(before);
      if rows[last].0 > MaxRowId(before) { n := last; }
      forall i | 0 <= i < |rows| ensures rows[i].0 <= MaxRowId(rows) {
        if i < last { assert before[i].0 <= MaxRowId(before); }
      }
    }
  }

  /** A restored table goes on right after its greatest id, or at 1 if it has none that is
      positive; a counter is never moved back. */
  lemma RestoredCounter(w: World, s: State, saved: Saved)
    ensures var c := CounterOf(RestoreTable(w, s, saved), saved.name);
            && c >= CounterOf(s, saved.name) && c >= 1 && (forall i :: 0 <= i < |saved.rows| ==> saved.rows[i].0 < c)
            && (c == CounterOf(s, saved.name) || c == 1
                || exists i :: 0 <= i < |saved.rows| && saved.rows[i].0 == c - 1)
  {
    hide RebuildEach, PutAll, MaxRowId;
    var s1 := Reloaded(s, saved);
    var n := GreatestIsThere(saved.rows);
    RebuildEachFrame(w, s1, saved.name, IndicesOf(s1.schemas, saved.name));
  }
}
