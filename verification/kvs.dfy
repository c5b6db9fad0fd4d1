/** The engine object: its methods change its fields step by step, and each is
    proved to compute the function of the same step. */
module Engine {
  import opened Wrappers
  import opened Values
  import opened Externals
  import opened Expressions
  import opened Store
  import opened Constraints
  import opened Interpreter
  import opened Rebuilding
  import opened Exactness
  import opened Statements
  import Tree = OrderedIndex
  import FullText

  // ---------------------------------------------------------------- one turn of a range lookup

  lemma RangeTurn(b: Tree.BTree, lower: Tree.Bound, upper: Tree.Bound, i: nat, out: seq<RowId>)
    requires i < |b|
    ensures out + Tree.Range(b[i..], lower, upper) ==
              (if Tree.InRange(lower, upper, b[i].key) then out + b[i].ids
                else out) + Tree.Range(b[i + 1..], lower, upper)
  {
    hide Tree.InRange;
    assert b[i..][1..] == b[i + 1..];
    var rest := Tree.Range(b[i + 1..], lower, upper);
    assert (out + b[i].ids) + rest == out + (b[i].ids + rest);
    assert [] + rest == rest;
  }

  lemma RangeNone(b: Tree.BTree, lower: Tree.Bound, upper: Tree.Bound, out: seq<RowId>)
    ensures out + Tree.Range(b[|b|..], lower, upper) == out
  {
  }

  class Kvs {
    const w: World
    var tables: Tables
    var schemas: map<string, Schema>
    var counters: map<string, int>
    var indexes: Indexes
    var fts: map<string, FtsTable>
    var triggers: map<string, seq<Trigger>>
    var nextTx: TxId
    var active: map<TxId, seq<UndoOp>>
    var scans: int

    function View(): State
      reads this
    {
      State(tables, schemas, counters, indexes, fts, triggers, nextTx, active, scans)
    }

    constructor (w: World)
      ensures this.w == w
      ensures View() == State(map[], map[], map[], map[], map[], map[], 1, map[], 0)
    {
      this.w := w;
      tables, schemas, counters, indexes, fts, triggers := map[], map[], map[], map[], map[], map[];
      nextTx, active, scans := 1, map[], 0;
    }

    // -------------------------------------------------------------- row ids

    method GetNextRowid(t: string) returns (r: RowId)
      modifies this
      ensures View() == BumpCounter(old(View()), t)
      ensures r == (if t in old(counters) then old(counters)[t] else 1) && counters == old(counters)[t := r + 1]
    {
      if t !in counters { counters := counters[t := 1]; }
      r := counters[t];
      counters := counters[t := r + 1];
    }

    method SetMinNextRowid(t: string, min: int)
      modifies this
      ensures View() == SetMinNextRowId(old(View()), t, min)
      ensures var c := if t in old(counters) then old(counters)[t] else 1;
              counters == old(counters)[t := if c < min then min else c]
    {
      if t !in counters { counters := counters[t := 1]; }
      if counters[t] < min { counters := counters[t := min]; }
    }

    // -------------------------------------------------------------- transactions

    method BeginTransaction() returns (tx: TxId)
      modifies this
      ensures View() == Begin(old(View())) && tx == old(nextTx)
    {
      tx := nextTx;
      nextTx := (nextTx + 1) % TX_IDS;
      active := active[tx := []];
    }

    method Journal(tx: Option<TxId>, op: UndoOp)
      modifies this
      ensures View() == old(View()).(active := Record(old(active), tx, op))
    {
      if tx.Some? && tx.value in active {
        active := active[tx.value := active[tx.value] + [op]];
      }
    }

    method CommitTransaction(tx: TxId) returns (o: Outcome)
      modifies this
      ensures (View(), o) == Commit(old(View()), tx)
    {
      if tx !in active { return Err(NoSuchTransaction); }
      active := active - {tx};
      return Ok(0);
    }

    // -------------------------------------------------------------- indexes

    method AddEntry(t: string, idx: IndexDef, row: Row, r: RowId)
      modifies this
      ensures View() == old(View()).(indexes := AddToIndex(old(indexes), t, idx, row, r))
    {
      var v := IndexValue(idx, row);
      if v.Some? {
        var id := IndexId(t, idx.name);
        indexes := indexes[id := Tree.Add(if id in indexes then indexes[id] else [], v.value, r)];
      }
    }

    method RemoveEntry(t: string, idx: IndexDef, row: Row, r: RowId)
      modifies this
      ensures View() == old(View()).(indexes := RemoveFromIndex(old(indexes), t, idx, row, r))
    {
      var v := IndexValue(idx, row);
      if v.Some? {
        var id := IndexId(t, idx.name);
        indexes := indexes[id := Tree.Remove(if id in indexes then indexes[id] else [], v.value, r)];
      }
    }

    /** Tells all indexes of a table that a row changed from `was` to `now`. */
    method SyncIndexes(t: string, r: RowId, was: Option<Row>, now: Option<Row>)
      modifies this
      ensures View() == old(View()).(indexes := UpdateIndexes(old(View()), t, r, was, now))
    {
      hide AddToIndex, RemoveFromIndex;
      var defs := IndicesOf(schemas, t);
      for i := 0 to |defs|
        invariant View() == old(View()).(indexes := indexes)
        invariant UpdateEach(indexes, t, defs[i..], r, was, now) == UpdateEach(old(indexes), t, defs, r, was, now)
      {
        assert defs[i..][1..] == defs[i + 1..];
        if was.Some? { RemoveEntry(t, defs[i], was.value, r); }
        if now.Some? { AddEntry(t, defs[i], now.value, r); }
      }
    }

    method RangeLookup(t: string, name: string, lower: Tree.Bound, upper: Tree.Bound) returns (out: seq<RowId>)
      ensures out == Tree.Range(TreeOf(indexes, IndexId(t, name)), lower, upper)
    {
      hide Tree.InRange, Tree.Range;
      var b := TreeOf(indexes, IndexId(t, name));
      out := [];
      assert b[0..] == b;
      for i := 0 to |b|
        invariant out + Tree.Range(b[i..], lower, upper) == Tree.Range(b, lower, upper)
      {
        RangeTurn(b, lower, upper, i, out);
        if Tree.InRange(lower, upper, b[i].key) { out := out + b[i].ids; }
      }
      RangeNone(b, lower, upper, out);
    }

    // -------------------------------------------------------------- full text

    method SyncFullText(t: string, r: RowId, was: Option<Row>, now: Option<Row>)
      modifies this
      ensures View() == old(View()).(fts := SyncFts(w, old(fts), t, r, was, now))
    {
      hide FtsDrop, FtsPut;
      if t in fts {
        if was.Some? { fts := fts[t := FtsDrop(w, fts[t], r, was.value)]; }
        if now.Some? { fts := fts[t := FtsPut(w, fts[t], r, now.value)]; }
        assert fts == old(fts)[t := FtsChange(w, old(fts)[t], r, was, now)];
      }
    }

    // -------------------------------------------------------------- rolling back

    method UndoOne(op: UndoOp)
      modifies this
      ensures View() == Undo(w, old(View()), op)
    {
      hide UpdateEach, FtsChange;
      match op
      case UndoInsert(t, r) =>
        var row := RowAt(tables, t, r);
        if row.Some? {
          tables := tables[t := tables[t] - {r}];
          SyncIndexes(t, r, row, None);
          SyncFullText(t, r, row, None);
        }
      case UndoDelete(t, r, row) =>
        if t in tables {
          tables := tables[t := tables[t][r := row]];
          SyncIndexes(t, r, None, Some(row));
          SyncFullText(t, r, None, Some(row));
        }
      case UndoUpdate(t, r, was) =>
        if t in tables {
          var current := RowAt(tables, t, r);
          tables := tables[t := tables[t][r := was]];
          SyncIndexes(t, r, Some(if current.Some? then current.value else EMPTY_ROW), Some(was));
          if current.Some? { SyncFullText(t, r, current, Some(was)); }
        }
    }

    method RollbackTransaction(tx: TxId) returns (o: Outcome)
      modifies this
      ensures (View(), o) == Rollback(w, old(View()), tx)
    {
      hide Undo;
      if tx !in active { return Err(NoSuchTransaction); }
      var ops := active[tx];
      active := active - {tx};
      ghost var ended := View();
      assert ops[..|ops|] == ops;
      for i := |ops| downto 0
        invariant UndoAll(w, View(), ops[..i]) == UndoAll(w, ended, ops)
      {
        assert ops[..i + 1][..i] == ops[..i] && ops[..i + 1][i] == ops[i];
        UndoOne(ops[i]);
      }
      return Ok(0);
    }

    // -------------------------------------------------------------- triggers

    method FireTrigger(tr: Trigger, event: Event, timing: Timing, was: Option<Row>, now: Option<Row>,
        tx: Option<TxId>, fuel: nat) returns (o: Outcome)
      modifies this
      ensures (View(), o) == FireOne(w, old(View()), tr, event, timing, was, now, tx, fuel)
      decreases fuel, 2, 0
    {
      hide Applies, RunBody;
      if tr.event != event || tr.timing != timing { return Ok(0); }
      if tr.condition.Unparsable? { return Err(Malformed); }
      if !Applies(w, View(), tr, event, timing, was, now) { return Ok(0); }
      var body := tr.body(was, now);
      if body.None? { return Err(Malformed); }
      o := RunStatements(body.value, tx, fuel);
    }

    method FireList(trs: seq<Trigger>, event: Event, timing: Timing, was: Option<Row>, now: Option<Row>,
        tx: Option<TxId>, fuel: nat) returns (o: Outcome)
      modifies this
      ensures (View(), o) == FireEach(w, old(View()), trs, event, timing, was, now, tx, fuel)
      decreases fuel, 3, 0
    {
      hide FireOne, FireEach;
      ghost var all := FireEach(w, View(), trs, event, timing, was, now, tx, fuel);
      assert trs[0..] == trs;
      for i := 0 to |trs|
        invariant FireEach(w, View(), trs[i..], event, timing, was, now, tx, fuel) == all
      {
        FireTurn(w, View(), trs, i, event, timing, was, now, tx, fuel);
        o := FireTrigger(trs[i], event, timing, was, now, tx, fuel);
        if o.Err? { return; }
      }
      assert trs[|trs|..] == [];
      FireNone(w, View(), event, timing, was, now, tx, fuel);
      return Ok(0);
    }

    method FireTriggers(t: string, event: Event, timing: Timing, was: Option<Row>, now: Option<Row>, tx: Option<TxId>,
        fuel: nat) returns (o: Outcome)
      modifies this
      ensures (View(), o) == Fire(w, old(View()), t, event, timing, was, now, tx, fuel)
      decreases fuel, 3, 1
    {
      o := FireList(TriggersOf(View(), t), event, timing, was, now, tx, fuel);
    }

    method RunStatements(stmts: seq<Stmt>, tx: Option<TxId>, fuel: nat) returns (o: Outcome)
      modifies this
      ensures (View(), o) == RunBody(w, old(View()), stmts, tx, fuel)
      decreases fuel, 1, |stmts|
    {
      hide Exec;
      for i := 0 to |stmts|
        invariant RunBody(w, View(), stmts[i..], tx, fuel) == RunBody(w, old(View()), stmts, tx, fuel)
      {
        assert stmts[i..][1..] == stmts[i + 1..];
        if fuel == 0 { return Err(TooDeep); }
        o := ExecuteStatement(stmts[i], [], tx, fuel - 1);
        if o.Err? { return; }
      }
      return Ok(0);
    }

    // -------------------------------------------------------------- writes

    static method ApplyDefaults(given: Row, columns: seq<ColumnDef>, r: RowId) returns (row: Row)
      ensures row == WithDefaults(given, columns, r)
    {
      row := given;
      for i := 0 to |columns|
        invariant WithDefaults(row, columns[i..], r) == WithDefaults(given, columns, r)
      {
        assert columns[i..][1..] == columns[i + 1..];
        row := row.PutIfAbsent(columns[i].name, DefaultFor(columns[i], r));
      }
    }

    /** Stores a new row, with its journal entry and index updates. */
    method StoreInsert(tx: Option<TxId>, t: string, r: RowId, row: Row)
      modifies this
      ensures View() == WriteInsert(w, old(View()), tx, t, r, row)
    {
      hide UpdateEach, FtsChange;
      if t in tables { tables := tables[t := tables[t][r := row]]; }
      Journal(tx, UndoOp.UndoInsert(t, r));
      SyncIndexes(t, r, None, Some(row));
      SyncFullText(t, r, None, Some(row));
    }

    method StoreUpdate(tx: Option<TxId>, t: string, r: RowId, was: Row, now: Row)
      modifies this
      ensures View() == WriteUpdate(w, old(View()), tx, t, r, was, now)
    {
      hide UpdateEach, FtsChange;
      if t in tables { tables := tables[t := tables[t][r := now]]; }
      Journal(tx, UndoOp.UndoUpdate(t, r, was));
      SyncIndexes(t, r, Some(was), Some(now));
      SyncFullText(t, r, Some(was), Some(now));
    }

    method StoreDelete(tx: Option<TxId>, t: string, r: RowId, was: Row)
      modifies this
      ensures View() == WriteDelete(w, old(View()), tx, t, r, was)
    {
      hide UpdateEach, FtsChange;
      if t in tables { tables := tables[t := tables[t] - {r}]; }
      Journal(tx, UndoOp.UndoDelete(t, r, was));
      SyncIndexes(t, r, Some(was), None);
      SyncFullText(t, r, Some(was), None);
    }

    // -------------------------------------------------------------- INSERT

    method InsertRow(t: string, schema: Schema, given: Row, tx: Option<TxId>, fuel: nat) returns (o: Outcome)
      modifies this
      ensures (View(), o) == InsertOne(w, old(View()), t, schema, given, tx, fuel)
      decreases fuel, 4, 0
    {
      hide Fire, WriteInsert, Validate;
      var r := GetNextRowid(t);
      var row := ApplyDefaults(given, schema.columns, r);
      var bad := Validate(w, View(), schema, row, r);
      if bad.Some? { return Err(bad.value); }
      o := FireTriggers(t, OnInsert, Before, None, Some(row), tx, fuel);
      if o.Err? { return; }
      StoreInsert(tx, t, r, row);
      o := FireTriggers(t, OnInsert, After, None, Some(row), tx, fuel);
    }

    method InsertRows(t: string, schema: Schema, rows: seq<Row>, tx: Option<TxId>, fuel: nat) returns (o: Outcome)
      modifies this
      ensures (View(), o) == InsertAll(w, old(View()), t, schema, rows, tx, fuel)
      decreases fuel, 5, 0
    {
      hide InsertOne, InsertAll, Later;
      var affected := 0;
      assert rows[0..] == rows;
      NothingBefore(InsertAll(w, View(), t, schema, rows, tx, fuel));
      for i := 0 to |rows|
        invariant InsertAll(w, old(View()), t, schema, rows, tx, fuel) ==
          Later(affected, InsertAll(w, View(), t, schema, rows[i..], tx, fuel))
      {
        InsertTurn(w, View(), t, schema, rows, i, affected, tx, fuel);
        o := InsertRow(t, schema, rows[i], tx, fuel);
        if o.Err? { return; }
        affected := affected + 1;
      }
      InsertNone(w, View(), t, schema, rows, affected, tx, fuel);
      return Ok(affected);
    }

    method ExecuteInsert(t: string, columns: seq<string>, source: Source, params: seq<Value>, tx: Option<TxId>,
        fuel: nat) returns (o: Outcome)
      modifies this
      ensures (View(), o) == Exec(w, old(View()), Stmt.Insert(t, columns, source), params, tx, fuel)
      decreases fuel, 6, 0
    {
      hide InsertAll, Candidates;
      if t !in schemas || t !in tables { return Err(NoSuchTable(t)); }
      var candidates := Candidates(w, View(), schemas[t], columns, source, params);
      if candidates.Err? { return Err(candidates.error); }
      o := InsertRows(t, schemas[t], candidates.value, tx, fuel);
    }

    // -------------------------------------------------------------- UPDATE and DELETE

    /** One pass over a table's rows in the order of a scan. */
    method CopyMatching(t: string, order: seq<RowId>, where: Option<Expr>, params: seq<Value>,
        k: nat) returns (caught: seq<Captured>)
      ensures caught == Capture(w, View(), t, order, where, params, k)
    {
      hide EvalWhere, FtsHits;
      caught := [];
      for i := 0 to |order|
        invariant caught + Capture(w, View(), t, order[i..], where, params, k) ==
          Capture(w, View(), t, order, where, params, k)
      {
        assert order[i..][1..] == order[i + 1..];
        var row := RowAt(tables, t, order[i]);
        if row.Some? && Interpreter.Matches(w, View(), row.value, where, params, k) {
          caught := caught + [Captured(order[i], row.value)];
        }
      }
    }

    /** The rows that the WHERE selects, copied before anything is changed. */
    method CaptureRows(t: string, where: Option<Expr>, params: seq<Value>, k: nat) returns (caught: seq<Captured>)
      modifies this
      ensures caught == Capture(w, old(View()), t, ScanOrder(w, old(View()), t), where, params, k)
      ensures View() == Scanned(old(View()))
      ensures w.ScansOnce() && t in tables ==>
                && AllCurrent(old(View()), t, caught)
                && forall r :: Caught(caught, r) <==> r in Selection(w, old(View()), t, where, params, k)
    {
      hide Capture, ScanOrder, AllCurrent, Caught, Selection;
      caught := CopyMatching(t, ScanOrder(w, View(), t), where, params, k);
      if w.ScansOnce() && t in tables { ScanFacts(w, View(), t, where, params, k); }
      scans := scans + 1;
    }

    method AssignColumns(was: Row, sets: seq<Assignment>, params: seq<Value>) returns (now: Row)
      ensures now == Assign(w, was, was, sets, params, 0)
    {
      hide Eval;
      now := was;
      var k: nat := 0;
      for i := 0 to |sets|
        invariant Assign(w, was, now, sets[i..], params, k) == Assign(w, was, was, sets, params, 0)
      {
        assert sets[i..][1..] == sets[i + 1..];
        var (v, k1) := Eval(w, sets[i].value, Some(was), params, k);
        now := now.Put(sets[i].column, v);
        k := k1;
      }
    }

    method UpdateRow(t: string, schema: Schema, c: Captured, sets: seq<Assignment>, params: seq<Value>,
        tx: Option<TxId>, fuel: nat) returns (o: Outcome)
      modifies this
      ensures (View(), o) == UpdateOne(w, old(View()), t, schema, c, sets, params, tx, fuel)
      decreases fuel, 4, 0
    {
      hide Fire, WriteUpdate, Validate, Assign;
      var now := AssignColumns(c.row, sets, params);
      var bad := Validate(w, View(), schema, now, c.rowid);
      if bad.Some? { return Err(bad.value); }
      o := FireTriggers(t, OnUpdate, Before, Some(c.row), Some(now), tx, fuel);
      if o.Err? { return; }
      StoreUpdate(tx, t, c.rowid, c.row, now);
      o := FireTriggers(t, OnUpdate, After, Some(c.row), Some(now), tx, fuel);
    }

    method UpdateRows(t: string, schema: Schema, caught: seq<Captured>, sets: seq<Assignment>, params: seq<Value>,
        tx: Option<TxId>, fuel: nat) returns (o: Outcome)
      modifies this
      ensures (View(), o) == UpdateAll(w, old(View()), t, schema, caught, sets, params, tx, fuel)
      decreases fuel, 5, 0
    {
      hide UpdateOne, UpdateAll, Later;
      var affected := 0;
      assert caught[0..] == caught;
      NothingBefore(UpdateAll(w, View(), t, schema, caught, sets, params, tx, fuel));
      for i := 0 to |caught|
        invariant UpdateAll(w, old(View()), t, schema, caught, sets, params, tx, fuel) ==
                  Later(affected, UpdateAll(w, View(), t, schema, caught[i..], sets, params, tx, fuel))
      {
        UpdateTurn(w, View(), t, schema, caught, i, affected, sets, params, tx, fuel);
        o := UpdateRow(t, schema, caught[i], sets, params, tx, fuel);
        if o.Err? { return; }
        affected := affected + 1;
      }
      UpdateNone(w, View(), t, schema, caught, affected, sets, params, tx, fuel);
      return Ok(affected);
    }

    method ExecuteUpdate(t: string, sets: seq<Assignment>, where: Option<Expr>, params: seq<Value>, tx: Option<TxId>,
        fuel: nat) returns (o: Outcome)
      modifies this
      ensures (View(), o) == Exec(w, old(View()), Stmt.Update(t, sets, where), params, tx, fuel)
      decreases fuel, 6, 0
    {
      hide UpdateAll, Capture;
      if t !in schemas || t !in tables { return Err(NoSuchTable(t)); }
      var caught := CaptureRows(t, where, params, CountAssignments(sets));
      o := UpdateRows(t, schemas[t], caught, sets, params, tx, fuel);
    }

    method DeleteRow(t: string, c: Captured, tx: Option<TxId>, fuel: nat) returns (o: Outcome)
      modifies this
      ensures (View(), o) == DeleteOne(w, old(View()), t, c, tx, fuel)
      decreases fuel, 4, 0
    {
      hide Fire, WriteDelete;
      o := FireTriggers(t, OnDelete, Before, Some(c.row), None, tx, fuel);
      if o.Err? { return; }
      StoreDelete(tx, t, c.rowid, c.row);
      o := FireTriggers(t, OnDelete, After, Some(c.row), None, tx, fuel);
    }

    method DeleteRows(t: string, caught: seq<Captured>, tx: Option<TxId>, fuel: nat) returns (o: Outcome)
      modifies this
      ensures (View(), o) == DeleteAll(w, old(View()), t, caught, tx, fuel)
      decreases fuel, 5, 0
    {
      hide DeleteOne, DeleteAll, Later;
      var affected := 0;
      assert caught[0..] == caught;
      NothingBefore(DeleteAll(w, View(), t, caught, tx, fuel));
      for i := 0 to |caught|
        invariant DeleteAll(w, old(View()), t, caught, tx, fuel) ==
          Later(affected, DeleteAll(w, View(), t, caught[i..], tx, fuel))
      {
        DeleteTurn(w, View(), t, caught, i, affected, tx, fuel);
        o := DeleteRow(t, caught[i], tx, fuel);
        if o.Err? { return; }
        affected := affected + 1;
      }
      DeleteNone(w, View(), t, caught, affected, tx, fuel);
      return Ok(affected);
    }

    method ExecuteDelete(t: string, where: Option<Expr>, params: seq<Value>, tx: Option<TxId>,
        fuel: nat) returns (o: Outcome)
      modifies this
      ensures (View(), o) == Exec(w, old(View()), Stmt.Delete(t, where), params, tx, fuel)
      decreases fuel, 6, 0
    {
      hide DeleteAll, Capture;
      if t !in tables { return Err(NoSuchTable(t)); }
      var caught := CaptureRows(t, where, params, 0);
      o := DeleteRows(t, caught, tx, fuel);
    }

    // -------------------------------------------------------------- statements

    method ExecuteStatement(stmt: Stmt, params: seq<Value>, tx: Option<TxId>, fuel: nat) returns (o: Outcome)
      modifies this
      ensures (View(), o) == Exec(w, old(View()), stmt, params, tx, fuel)
      decreases fuel, 7, 0
    {
      hide InsertAll, UpdateAll, DeleteAll, Capture, Candidates;
      match stmt
      case Insert(t, columns, source) => o := ExecuteInsert(t, columns, source, params, tx, fuel);
      case Update(t, sets, where) => o := ExecuteUpdate(t, sets, where, params, tx, fuel);
      case Delete(t, where) => o := ExecuteDelete(t, where, params, tx, fuel);
      case Select(answer) => o := answer(Data(tables, schemas, indexes, fts, scans), params);
      case OtherStmt => o := Err(UnsupportedStatement);
    }

    /** The entry point: transaction control, and a transaction of its own for a
        write that comes without one. */
    method Execute(req: Request, params: seq<Value>, tx: Option<TxId>, fuel: nat) returns (o: Outcome)
      modifies this
      ensures (View(), o) == Interpreter.Execute(w, old(View()), req, params, tx, fuel)
    {
      hide Exec, UndoAll;
      match req
      case BeginTx =>
        var id := BeginTransaction();
        o := Ok(id);
      case CommitTx =>
        if tx.None? { return Err(NoSuchTransaction); }
        o := CommitTransaction(tx.value);
      case RollbackTx =>
        if tx.None? { return Err(NoSuchTransaction); }
        o := RollbackTransaction(tx.value);
      case Dml(stmt) =>
        if tx.None? && IsWrite(stmt) {
          var shadow := BeginTransaction();
          o := ExecuteStatement(stmt, params, Some(shadow), fuel);
          if o.Ok? {
            var _ := CommitTransaction(shadow);
          } else {
            var _ := RollbackTransaction(shadow);
          }
        } else {
          o := ExecuteStatement(stmt, params, tx, fuel);
        }
    }

    // -------------------------------------------------------------- rebuilding

    method ClearAndRebuild(t: string, idx: IndexDef)
      modifies this
      ensures View() == RebuildIndex(w, old(View()), t, idx)
    {
      hide Append;
      if t in tables {
        var rows, order := tables[t], w.scan(scans, tables[t]);
        var b: Tree.BTree := [];
        assert order[..|order|] == order;
        for i := 0 to |order|
          invariant b == BuildFrom(rows, order[..i], idx)
        {
          assert order[..i + 1][..i] == order[..i] && order[..i + 1][i] == order[i];
          if order[i] in rows {
            var v := IndexValue(idx, rows[order[i]]);
            if v.Some? { b := Append(b, v.value, order[i]); }
          }
        }
        indexes := indexes[IndexId(t, idx.name) := b];
        scans := scans + 1;
      }
    }

    /** One table of a snapshot: schema, rows, counter, indexes. */
    method LoadTable(saved: Saved)
      modifies this
      ensures View() == RestoreTable(w, old(View()), saved)
    {
      hide RebuildIndex;
      var t, rows := saved.name, saved.rows;
      if saved.schema.Some? { schemas := schemas[t := saved.schema.value]; }
      var store: Table := if t in tables then tables[t] else map[];
      ghost var store0 := store;
      var max := 0;
      assert rows[..|rows|] == rows;
      for i := 0 to |rows|
        invariant store == PutAll(store0, rows[..i]) && max == MaxRowId(rows[..i])
      {
        assert rows[..i + 1][..i] == rows[..i] && rows[..i + 1][i] == rows[i];
        if rows[i].0 > max { max := rows[i].0; }
        store := store[rows[i].0 := rows[i].1];
      }
      tables := tables[t := store];
      SetMinNextRowid(t, max + 1);
      assert View() == Reloaded(old(View()), saved);
      var defs := IndicesOf(schemas, t);
      ghost var loaded := View();
      for i := 0 to |defs|
        invariant RebuildEach(w, View(), t, defs[i..]) == RebuildEach(w, loaded, t, defs)
      {
        assert defs[i..][1..] == defs[i + 1..];
        ClearAndRebuild(t, defs[i]);
      }
    }

    /** The full-text index of a restored table, row by row. */
    method RefillFullText(saved: Saved)
      modifies this
      ensures View() == RefillFts(w, old(View()), saved)
    {
      hide FtsPut;
      if saved.schema.Some? && saved.schema.value.ftsColumn.Some? {
        var t := saved.name;
        var f := FtsTable(FullText.EMPTY_FTS, saved.schema.value.ftsColumn.value);
        if t in tables {
          var rows, order := tables[t], w.scan(scans, tables[t]);
          ghost var empty := f;
          assert order[..|order|] == order;
          for i := 0 to |order|
            invariant f == BuildFts(w, rows, order[..i], empty)
          {
            assert order[..i + 1][..i] == order[..i] && order[..i + 1][i] == order[i];
            if order[i] in rows { f := FtsPut(w, f, order[i], rows[order[i]]); }
          }
          scans := scans + 1;
        }
        fts := fts[t := f];
      }
    }

    method Load(dump: seq<Saved>)
      modifies this
      ensures View() == LoadSnapshot(w, old(View()), dump)
    {
      hide RestoreTable, RefillFts;
      assert dump[..|dump|] == dump;
      for i := 0 to |dump|
        invariant View() == RestoreAll(w, old(View()), dump[..i])
      {
        assert dump[..i + 1][..i] == dump[..i] && dump[..i + 1][i] == dump[i];
        LoadTable(dump[i]);
      }
      ghost var restored := View();
      for i := 0 to |dump|
        invariant View() == RefillAllFts(w, restored, dump[..i])
      {
        assert dump[..i + 1][..i] == dump[..i] && dump[..i + 1][i] == dump[i];
        RefillFullText(dump[i]);
      }
    }
  }
}
