/** What a whole statement does to a table without triggers. */
module Statements {
  import opened Wrappers
  import opened Values
  import opened Externals
  import opened Expressions
  import opened Store
  import opened Constraints
  import opened Interpreter
  import opened Exactness

  // ---------------------------------------------------------------- what a scan captures

  /** The row stored under `r` satisfies the WHERE, if there is one. */
  predicate Picks(w: World, s: State, t: string, where: Option<Expr>, params: seq<Value>, k: nat, r: RowId) {
    && t in s.tables && r in s.tables[t]
    && (where.None? || EvalWhere(w, FtsHits(w, s.fts), s.tables[t][r], where.value, params, k).0)
  }

  ghost predicate Caught(caught: seq<Captured>, r: RowId) {
    exists i :: 0 <= i < |caught| && caught[i].rowid == r
  }

  lemma {:induction false} CapturesExactly(w: World, s: State, t: string, order: seq<RowId>, where: Option<Expr>,
      params: seq<Value>, k: nat, r: RowId)
    ensures Caught(Capture(w, s, t, order, where, params, k), r) <==> r in order && Picks(w, s, t, where, params, k, r)
    decreases order
  {
    hide EvalWhere, FtsHits;
    if order != [] {
      CapturesExactly(w, s, t, order[1..], where, params, k, r);
      var rest, all := Capture(w, s, t, order[1..], where, params, k), Capture(w, s, t, order, where, params, k);
      assert order == [order[0]] + order[1..];
      if Picks(w, s, t, where, params, k, order[0]) {
        assert all[1..] == rest && all[0].rowid == order[0];
        if Caught(rest, r) {
          var i :| 0 <= i < |rest| && rest[i].rowid == r;
          assert all[i + 1].rowid == r;
        }
        if Caught(all, r) && r != order[0] {
          var i :| 0 <= i < |all| && all[i].rowid == r;
          assert rest[i - 1].rowid == r;
        }
      }
    }
  }

  /** The rows a statement selects: all that satisfy its WHERE, or all without one. */
  function Selection(w: World, s: State, t: string, where: Option<Expr>, params: seq<Value>, k: nat): set<RowId>
    requires t in s.tables
  {
    match where
    case None => s.tables[t].Keys
    case Some(e) => set r | r in s.tables[t] && EvalWhere(w, FtsHits(w, s.fts), s.tables[t][r], e, params, k).0
  }

  lemma {:induction false} CaughtCount(caught: seq<Captured>, ids: set<RowId>)
    requires forall i, j :: 0 <= i < j < |caught| ==> caught[i].rowid != caught[j].rowid
    requires forall r :: r in ids <==> Caught(caught, r)
    ensures |caught| == |ids|
    decreases caught
  {
    if caught == [] {
      forall r ensures r !in ids {
        assert r in ids <==> Caught(caught, r);
      }
      assert ids == {};
    } else {
      var first, rest := caught[0].rowid, caught[1..];
      forall r ensures r in ids - {first} <==> Caught(rest, r) {
        if r in ids - {first} {
          var i :| 0 <= i < |caught| && caught[i].rowid == r;
          assert rest[i - 1].rowid == r;
        }
        if Caught(rest, r) {
          var i :| 0 <= i < |rest| && rest[i].rowid == r;
          assert caught[i + 1].rowid == r;
        }
      }
      assert Caught(caught, first);
      CaughtCount(rest, ids - {first});
    }
  }

  /** One scan: the rows it captures are current, distinct and the selected ones. */
  lemma ScanFacts(w: World, s: State, t: string, where: Option<Expr>, params: seq<Value>, k: nat)
    requires w.ScansOnce() && t in s.tables
    ensures var caught := Capture(w, s, t, ScanOrder(w, s, t), where, params, k);
            && AllCurrent(s, t, caught) && |caught| == |Selection(w, s, t, where, params, k)|
            && forall r :: Caught(caught, r) <==> r in Selection(w, s, t, where, params, k)
  {
    hide Capture, Picks, Selection, AllCurrent;
    var caught, ids := Capture(w, s, t, ScanOrder(w, s, t), where, params, k), Selection(w, s, t, where, params, k);
    CaptureCurrent(w, s, t, ScanOrder(w, s, t), where, params, k);
    forall r ensures Caught(caught, r) <==> r in ids {
      CapturesExactly(w, s, t, ScanOrder(w, s, t), where, params, k, r);
      PicksSelected(w, s, t, where, params, k, r);
    }
    CurrentDistinct(s, t, caught);
    CaughtCount(caught, ids);
  }

  lemma PicksSelected(w: World, s: State, t: string, where: Option<Expr>, params: seq<Value>, k: nat, r: RowId)
    requires t in s.tables
    ensures r in Selection(w, s, t, where, params, k) <==> Picks(w, s, t, where, params, k, r)
    ensures Picks(w, s, t, where, params, k, r) ==> r in s.tables[t]
  {
    hide EvalWhere, FtsHits;
  }

  lemma CurrentDistinct(s: State, t: string, caught: seq<Captured>)
    requires AllCurrent(s, t, caught)
    ensures forall i, j :: 0 <= i < j < |caught| ==> caught[i].rowid != caught[j].rowid
  {
  }

  // ---------------------------------------------------------------- DELETE

  /** All tables but `t` are as before, and `t` has these rows. */
  ghost predicate OnlyTable(s: State, s': State, t: string) {
    && s'.tables.Keys == s.tables.Keys
    && (forall u :: u in s.tables && u != t ==> s'.tables[u] == s.tables[u])
  }

  /** One row of `t` is now `now`, and nothing else about rows and triggers is
      different. */
  ghost predicate Wrote(s: State, s1: State, t: string, r: RowId, now: Option<Row>) {
    && t in s.tables && OnlyTable(s, s1, t) && s1.triggers == s.triggers
    && forall x: RowId :: RowAt(s1.tables, t, x) == if x == r then now else RowAt(s.tables, t, x)
  }

  lemma WritesWrite(w: World, s: State, tx: Option<TxId>, t: string, r: RowId, was: Row, now: Row)
    requires t in s.tables
    ensures Wrote(s, WriteDelete(w, s, tx, t, r, was), t, r, None)
    ensures Wrote(s, WriteUpdate(w, s, tx, t, r, was, now), t, r, Some(now))
    ensures Wrote(s, WriteInsert(w, s, tx, t, r, now), t, r, Some(now))
              && WriteInsert(w, s, tx, t, r, now).counters == s.counters
  {
    hide UpdateIndexes, SyncFts;
  }

  // Without triggers one turn is one write.

  lemma DeleteOnePlain(w: World, s: State, t: string, c: Captured, tx: Option<TxId>, fuel: nat)
    requires TriggersOf(s, t) == [] && t in s.tables
    ensures DeleteOne(w, s, t, c, tx, fuel) == (WriteDelete(w, s, tx, t, c.rowid, c.row), Ok(0))
  {
    hide Fire, WriteDelete;
    var s1 := WriteDelete(w, s, tx, t, c.rowid, c.row);
    WritesWrite(w, s, tx, t, c.rowid, c.row, c.row);
    FireNothing(w, s, t, OnDelete, Before, Some(c.row), None, tx, fuel);
    FireNothing(w, s1, t, OnDelete, After, Some(c.row), None, tx, fuel);
  }

  lemma UpdateOnePlain(w: World, s: State, t: string, schema: Schema, c: Captured, sets: seq<Assignment>,
      params: seq<Value>, tx: Option<TxId>, fuel: nat)
    requires TriggersOf(s, t) == [] && t in s.tables
    ensures var now := Assign(w, c.row, c.row, sets, params, 0);
            var bad := Validate(w, s, schema, now, c.rowid);
            UpdateOne(w, s, t, schema, c, sets, params, tx, fuel) ==
              if bad.Some? then (s, Err(bad.value)) else (WriteUpdate(w, s, tx, t, c.rowid, c.row, now), Ok(0))
  {
    hide Fire, WriteUpdate, Validate, Assign;
    var now := Assign(w, c.row, c.row, sets, params, 0);
    if Validate(w, s, schema, now, c.rowid).None? {
      hide UpdateOne;
      FireNothing(w, s, t, OnUpdate, Before, Some(c.row), Some(now), tx, fuel);
      UpdateOneBy(w, s, t, schema, c, sets, params, tx, fuel, now, s);
      WritesWrite(w, s, tx, t, c.rowid, c.row, now);
      FireNothing(w, WriteUpdate(w, s, tx, t, c.rowid, c.row, now), t, OnUpdate, After, Some(c.row), Some(now), tx,
        fuel);
    }
  }

  lemma InsertOnePlain(w: World, s: State, t: string, schema: Schema, given: Row, tx: Option<TxId>, fuel: nat)
    requires TriggersOf(s, t) == [] && t in s.tables
    ensures var r, s0 := CounterOf(s, t), BumpCounter(s, t);
            var row := WithDefaults(given, schema.columns, r);
            var bad := Validate(w, s0, schema, row, r);
            InsertOne(w, s, t, schema, given, tx, fuel) ==
              if bad.Some? then (s0, Err(bad.value)) else (WriteInsert(w, s0, tx, t, r, row), Ok(0))
  {
    hide Fire, WriteInsert, WriteUpdate, WriteDelete, Validate, WithDefaults;
    var r, s0 := CounterOf(s, t), BumpCounter(s, t);
    var row := WithDefaults(given, schema.columns, r);
    if Validate(w, s0, schema, row, r).None? {
      hide InsertOne;
      FireNothing(w, s0, t, OnInsert, Before, None, Some(row), tx, fuel);
      InsertOneBy(w, s, t, schema, given, tx, fuel, row, s0);
      WritesWrite(w, s0, tx, t, r, row, row);
      FireNothing(w, WriteInsert(w, s0, tx, t, r, row), t, OnInsert, After, None, Some(row), tx, fuel);
    }
  }

  lemma {:induction false} DeleteEach(w: World, s: State, t: string, caught: seq<Captured>, tx: Option<TxId>, fuel: nat)
    requires TriggersOf(s, t) == [] && t in s.tables
    ensures var (s', o) := DeleteAll(w, s, t, caught, tx, fuel);
            && o == Ok(|caught|) && OnlyTable(s, s', t)
            && forall r: RowId :: RowAt(s'.tables, t, r) == if Caught(caught, r) then None else RowAt(s.tables, t, r)
    decreases caught
  {
    hide DeleteOne, WriteDelete, RowAt, Caught;
    if caught == [] {
      NobodyCaught();
    } else {
      var c, rest := caught[0], caught[1..];
      var s1 := WriteDelete(w, s, tx, t, c.rowid, c.row);
      DeleteOnePlain(w, s, t, c, tx, fuel);
      WritesWrite(w, s, tx, t, c.rowid, c.row, c.row);
      DeleteEach(w, s1, t, rest, tx, fuel);
      forall r: RowId ensures Caught(caught, r) <==> r == c.rowid || Caught(rest, r) {
        CaughtStep(caught, r);
      }
    }
  }

  lemma NobodyCaught()
    ensures forall r :: !Caught([], r)
  {
  }

  lemma CaughtStep(caught: seq<Captured>, r: RowId)
    requires caught != []
    ensures Caught(caught, r) <==> r == caught[0].rowid || Caught(caught[1..], r)
  {
    if Caught(caught, r) && r != caught[0].rowid {
      var i :| 0 <= i < |caught| && caught[i].rowid == r;
      assert caught[1..][i - 1].rowid == r;
    }
    if Caught(caught[1..], r) {
      var i :| 0 <= i < |caught[1..]| && caught[1..][i].rowid == r;
      assert caught[i + 1].rowid == r;
    }
  }

  /** A DELETE removes exactly the selected rows and reports how many. */
  lemma {:induction false} DeleteExactly(w: World, s: State, t: string, where: Option<Expr>, params: seq<Value>,
      tx: Option<TxId>, fuel: nat)
    requires w.ScansOnce() && TriggersOf(s, t) == [] && t in s.tables
    ensures var (s', o) := Exec(w, s, Stmt.Delete(t, where), params, tx, fuel);
            var gone := Selection(w, s, t, where, params, 0);
            && o == Ok(|gone|) && s'.tables == s.tables[t := s.tables[t] - gone]
  {
    hide DeleteAll, Capture, Selection, AllCurrent, Caught;
    var caught := Capture(w, s, t, ScanOrder(w, s, t), where, params, 0);
    var gone := Selection(w, s, t, where, params, 0);
    ScanFacts(w, s, t, where, params, 0);
    DeleteEach(w, Scanned(s), t, caught, tx, fuel);
    var s' := DeleteAll(w, Scanned(s), t, caught, tx, fuel).0;
    OneTable(s, s', t, s.tables[t] - gone);
  }

  lemma OneTable(s: State, s': State, t: string, rows: Table)
    requires t in s.tables && OnlyTable(s, s', t)
    requires forall r: RowId :: RowAt(s'.tables, t, r) == if r in rows then Some(rows[r]) else None
    ensures s'.tables == s.tables[t := rows]
  {
    var goal := s.tables[t := rows];
    forall u, r: RowId ensures RowAt(s'.tables, u, r) == RowAt(goal, u, r) {
      if u == t { assert RowAt(s'.tables, t, r) == if r in rows then Some(rows[r]) else None; }
    }
    SameTables(s'.tables, goal);
  }

  // ---------------------------------------------------------------- UPDATE

  /** The rows of a table with SET applied to some of them. */
  function SetIn(w: World, rows: Table, ids: set<RowId>, sets: seq<Assignment>, params: seq<Value>): Table {
    map r | r in rows :: if r in ids then Assign(w, rows[r], rows[r], sets, params, 0) else rows[r]
  }

  /** The state once SET has been written to these captured rows, one by one. */
  function SetEach(w: World, s: State, t: string, caught: seq<Captured>, sets: seq<Assignment>, params: seq<Value>,
      tx: Option<TxId>): State
    decreases |caught|
  {
    if caught == [] then s
    else
      var c := caught[|caught| - 1];
      WriteUpdate(w, SetEach(w, s, t, caught[..|caught| - 1], sets, params, tx), tx, t, c.rowid, c.row,
        Assign(w, c.row, c.row, sets, params, 0))
  }

  lemma SetEachTurn(w: World, s: State, t: string, caught: seq<Captured>, n: nat, sets: seq<Assignment>,
      params: seq<Value>, tx: Option<TxId>)
    requires n < |caught|
    ensures var c := caught[n];
            SetEach(w, s, t, caught[..n + 1], sets, params, tx) ==
              WriteUpdate(w, SetEach(w, s, t, caught[..n], sets, params, tx), tx, t, c.rowid, c.row,
                Assign(w, c.row, c.row, sets, params, 0))
  {
    hide WriteUpdate, Assign;
    assert caught[..n + 1][..n] == caught[..n];
  }

  /** What validation says of the `n`-th captured row when its turn comes. */
  function SetError(w: World, s: State, t: string, schema: Schema, caught: seq<Captured>, n: nat,
      sets: seq<Assignment>, params: seq<Value>, tx: Option<TxId>): Option<Error>
    requires n < |caught|
  {
    var c := caught[n];
    Validate(w, SetEach(w, s, t, caught[..n], sets, params, tx), schema, Assign(w, c.row, c.row, sets, params, 0),
      c.rowid)
  }

  /** A row of `t` after SET has been applied to the captured rows. */
  function AfterSet(w: World, was: Option<Row>, hit: bool, sets: seq<Assignment>, params: seq<Value>): Option<Row> {
    if hit && was.Some? then Some(Assign(w, was.value, was.value, sets, params, 0)) else was
  }

  lemma {:induction false} SetEachRows(w: World, s: State, t: string, caught: seq<Captured>, sets: seq<Assignment>,
      params: seq<Value>, tx: Option<TxId>)
    requires t in s.tables && AllCurrent(s, t, caught)
    ensures var s' := SetEach(w, s, t, caught, sets, params, tx);
            && OnlyTable(s, s', t) && s'.triggers == s.triggers
            && forall r: RowId ::
                 RowAt(s'.tables, t, r) == AfterSet(w, RowAt(s.tables, t, r), Caught(caught, r), sets, params)
    decreases |caught|
  {
    hide WriteUpdate, Assign, RowAt, Caught, AllCurrent;
    if caught == [] {
      NobodyCaught();
    } else {
      var n := |caught| - 1;
      var c, s0 := caught[n], SetEach(w, s, t, caught[..n], sets, params, tx);
      CurrentPrefix(s, t, caught, n);
      SetEachRows(w, s, t, caught[..n], sets, params, tx);
      WritesWrite(w, s0, tx, t, c.rowid, c.row, Assign(w, c.row, c.row, sets, params, 0));
      forall r: RowId ensures Caught(caught, r) <==> r == c.rowid || Caught(caught[..n], r) {
        CaughtLast(caught, r);
      }
    }
  }

  lemma CurrentPrefix(s: State, t: string, caught: seq<Captured>, n: nat)
    requires AllCurrent(s, t, caught) && n <= |caught|
    ensures AllCurrent(s, t, caught[..n])
    ensures n < |caught| ==> RowAt(s.tables, t, caught[n].rowid) == Some(caught[n].row)
  {
    hide RowAt;
    assert forall i :: 0 <= i < n ==> caught[..n][i] == caught[i];
  }

  lemma CaughtLast(caught: seq<Captured>, r: RowId)
    requires caught != []
    ensures Caught(caught, r) <==> r == caught[|caught| - 1].rowid || Caught(caught[..|caught| - 1], r)
  {
    var n := |caught| - 1;
    if Caught(caught, r) && r != caught[n].rowid {
      var i :| 0 <= i < |caught| && caught[i].rowid == r;
      assert caught[..n][i].rowid == r;
    }
    if Caught(caught[..n], r) {
      var i :| 0 <= i < n && caught[..n][i].rowid == r;
      assert caught[i].rowid == r;
    }
  }

  /** The loop ends at the first captured row that fails validation, if any. */
  lemma UpdateStops(w: World, s: State, t: string, schema: Schema, caught: seq<Captured>, sets: seq<Assignment>,
      params: seq<Value>, tx: Option<TxId>, fuel: nat) returns (n: nat)
    requires TriggersOf(s, t) == [] && t in s.tables && AllCurrent(s, t, caught)
    ensures n <= |caught|
    ensures forall m :: 0 <= m < n ==> SetError(w, s, t, schema, caught, m, sets, params, tx).None?
    ensures n < |caught| ==> SetError(w, s, t, schema, caught, n, sets, params, tx).Some?
    ensures UpdateAll(w, s, t, schema, caught, sets, params, tx, fuel) ==
              (SetEach(w, s, t, caught[..n], sets, params, tx),
               if n == |caught| then Ok(n) else Err(SetError(w, s, t, schema, caught, n, sets, params, tx).value))
  {
    hide UpdateOne, WriteUpdate, Assign, Validate, AllCurrent, UpdateAll, SetEach;
    n := 0;
    assert caught[0..] == caught;
    SetNone(w, s, t, caught, sets, params, tx);
    NothingBefore(UpdateAll(w, s, t, schema, caught, sets, params, tx, fuel));
    while n < |caught|
      invariant n <= |caught|
      invariant forall m :: 0 <= m < n ==> SetError(w, s, t, schema, caught, m, sets, params, tx).None?
      invariant UpdateAll(w, s, t, schema, caught, sets, params, tx, fuel) ==
                Later(n, UpdateAll(w, SetEach(w, s, t, caught[..n], sets, params, tx), t, schema, caught[n..], sets,
                  params, tx, fuel))
    {
      var s1 := SetEach(w, s, t, caught[..n], sets, params, tx);
      CurrentPrefix(s, t, caught, n);
      SetEachRows(w, s, t, caught[..n], sets, params, tx);
      UpdateTurn(w, s1, t, schema, caught, n, n, sets, params, tx, fuel);
      UpdateOnePlain(w, s1, t, schema, caught[n], sets, params, tx, fuel);
      SetEachTurn(w, s, t, caught, n, sets, params, tx);
      if SetError(w, s, t, schema, caught, n, sets, params, tx).Some? { return; }
      n := n + 1;
    }
    UpdateNone(w, SetEach(w, s, t, caught[..n], sets, params, tx), t, schema, caught, n, sets, params, tx, fuel);
  }

  lemma SetNone(w: World, s: State, t: string, caught: seq<Captured>, sets: seq<Assignment>, params: seq<Value>,
      tx: Option<TxId>)
    ensures SetEach(w, s, t, caught[..0], sets, params, tx) == s
  {
  }

  /** An UPDATE applies SET, on the rows as they were, to the selected rows in some
      order, up to the first that fails validation in the state it meets; it
      succeeds, and reports how many, exactly when none fails, and otherwise
      reports the failing row's error and leaves the rows before it changed. Its
      WHERE reads the parameters after those of SET. */
  lemma UpdateExactly(w: World, s: State, t: string, sets: seq<Assignment>, where: Option<Expr>, params: seq<Value>,
      tx: Option<TxId>, fuel: nat) returns (caught: seq<Captured>, n: nat)
    requires w.ScansOnce() && TriggersOf(s, t) == [] && t in s.tables && t in s.schemas
    ensures var ids := Selection(w, s, t, where, params, CountAssignments(sets));
            AllCurrent(s, t, caught) && |caught| == |ids| && forall r :: Caught(caught, r) <==> r in ids
    ensures n <= |caught|
    ensures forall m :: 0 <= m < n ==> SetError(w, Scanned(s), t, s.schemas[t], caught, m, sets, params, tx).None?
    ensures n < |caught| ==> SetError(w, Scanned(s), t, s.schemas[t], caught, n, sets, params, tx).Some?
    ensures var (s', o) := Exec(w, s, Stmt.Update(t, sets, where), params, tx, fuel);
            var done := set r | r in s.tables[t] && Caught(caught[..n], r);
            && s'.tables == s.tables[t := SetIn(w, s.tables[t], done, sets, params)]
            && o == if n == |caught| then Ok(|caught|)
                    else Err(SetError(w, Scanned(s), t, s.schemas[t], caught, n, sets, params, tx).value)
  {
    hide UpdateAll, Capture, Selection, AllCurrent, Caught, Assign, SetEach, SetError;
    var k := CountAssignments(sets);
    caught := Capture(w, s, t, ScanOrder(w, s, t), where, params, k);
    ScanFacts(w, s, t, where, params, k);
    CurrentScanned(s, t, caught);
    n := UpdateStops(w, Scanned(s), t, s.schemas[t], caught, sets, params, tx, fuel);
    var s' := SetEach(w, Scanned(s), t, caught[..n], sets, params, tx);
    SetTables(w, s, t, caught, n, sets, params, tx);
  }

  lemma SetTables(w: World, s: State, t: string, caught: seq<Captured>, n: nat, sets: seq<Assignment>,
      params: seq<Value>, tx: Option<TxId>)
    requires t in s.tables && AllCurrent(s, t, caught) && n <= |caught|
    ensures var done := set r | r in s.tables[t] && Caught(caught[..n], r);
            SetEach(w, Scanned(s), t, caught[..n], sets, params, tx).tables ==
              s.tables[t := SetIn(w, s.tables[t], done, sets, params)]
  {
    hide AllCurrent, Caught, Assign, SetEach;
    CurrentScanned(s, t, caught);
    CurrentPrefix(Scanned(s), t, caught, n);
    SetEachRows(w, Scanned(s), t, caught[..n], sets, params, tx);
    var s' := SetEach(w, Scanned(s), t, caught[..n], sets, params, tx);
    var done := set r | r in s.tables[t] && Caught(caught[..n], r);
    forall r: RowId
      ensures RowAt(s'.tables, t, r) ==
                if r in s.tables[t] then Some(SetIn(w, s.tables[t], done, sets, params)[r]) else None
    {
      assert RowAt(Scanned(s).tables, t, r) == RowAt(s.tables, t, r);
    }
    OneTable(s, s', t, SetIn(w, s.tables[t], done, sets, params));
  }

  lemma CurrentScanned(s: State, t: string, caught: seq<Captured>)
    requires AllCurrent(s, t, caught)
    ensures AllCurrent(Scanned(s), t, caught)
  {
  }

  // ---------------------------------------------------------------- INSERT

  /** A row of `t` after `rows` have been stored from the id `first` on. */
  function AfterInsert(was: Option<Row>, rows: seq<Row>, columns: seq<ColumnDef>, first: int, r: RowId): Option<Row> {
    if first <= r < first + |rows| then Some(WithDefaults(rows[r - first], columns, r)) else was
  }

  /** The state once these rows have been stored, one by one. */
  function StoreEach(w: World, s: State, t: string, schema: Schema, rows: seq<Row>, tx: Option<TxId>): State
    decreases |rows|
  {
    if rows == [] then s
    else
      var n, r := |rows| - 1, CounterOf(s, t) + |rows| - 1;
      WriteInsert(w, BumpCounter(StoreEach(w, s, t, schema, rows[..n], tx), t), tx, t, r,
        WithDefaults(rows[n], schema.columns, r))
  }

  lemma StoreEachTurn(w: World, s: State, t: string, schema: Schema, rows: seq<Row>, n: nat, tx: Option<TxId>)
    requires n < |rows|
    ensures var r := CounterOf(s, t) + n;
            StoreEach(w, s, t, schema, rows[..n + 1], tx) ==
              WriteInsert(w, BumpCounter(StoreEach(w, s, t, schema, rows[..n], tx), t), tx, t, r,
                WithDefaults(rows[n], schema.columns, r))
  {
    hide WriteInsert, WithDefaults;
    assert rows[..n + 1][..n] == rows[..n];
  }

  /** What validation says of the `n`-th row when its turn comes: its id is taken
      by then. */
  function StoreError(w: World, s: State, t: string, schema: Schema, rows: seq<Row>, n: nat,
      tx: Option<TxId>): Option<Error>
    requires n < |rows|
  {
    var r := CounterOf(s, t) + n;
    Validate(w, BumpCounter(StoreEach(w, s, t, schema, rows[..n], tx), t), schema,
      WithDefaults(rows[n], schema.columns, r), r)
  }

  lemma {:induction false} StoreEachRows(w: World, s: State, t: string, schema: Schema, rows: seq<Row>,
      tx: Option<TxId>)
    requires t in s.tables
    ensures var s' := StoreEach(w, s, t, schema, rows, tx);
            && OnlyTable(s, s', t) && s'.triggers == s.triggers && CounterOf(s', t) == CounterOf(s, t) + |rows|
            && forall r: RowId ::
                 RowAt(s'.tables, t, r) ==
                   AfterInsert(RowAt(s.tables, t, r), rows, schema.columns, CounterOf(s, t), r)
    decreases |rows|
  {
    hide WriteInsert, WriteUpdate, WriteDelete, WithDefaults, RowAt;
    if rows != [] {
      var n := |rows| - 1;
      var r, s0 := CounterOf(s, t) + n, StoreEach(w, s, t, schema, rows[..n], tx);
      StoreEachRows(w, s, t, schema, rows[..n], tx);
      var row := WithDefaults(rows[n], schema.columns, r);
      WritesWrite(w, BumpCounter(s0, t), tx, t, r, row, row);
      assert CounterOf(BumpCounter(s0, t), t) == CounterOf(s, t) + |rows|;
      hide CounterOf, BumpCounter;
    }
  }

  /** The loop ends at the first row that fails validation, if any. */
  lemma InsertStops(w: World, s: State, t: string, schema: Schema, rows: seq<Row>, tx: Option<TxId>,
      fuel: nat) returns (n: nat)
    requires TriggersOf(s, t) == [] && t in s.tables
    ensures n <= |rows|
    ensures forall m :: 0 <= m < n ==> StoreError(w, s, t, schema, rows, m, tx).None?
    ensures n < |rows| ==> StoreError(w, s, t, schema, rows, n, tx).Some?
    ensures var s1 := StoreEach(w, s, t, schema, rows[..n], tx);
            InsertAll(w, s, t, schema, rows, tx, fuel) ==
              if n == |rows| then (s1, Ok(n))
              else (BumpCounter(s1, t), Err(StoreError(w, s, t, schema, rows, n, tx).value))
  {
    hide InsertOne, WriteInsert, WithDefaults, Validate, InsertAll, StoreEach;
    n := 0;
    assert rows[0..] == rows;
    StoreNone(w, s, t, schema, rows, tx);
    NothingBefore(InsertAll(w, s, t, schema, rows, tx, fuel));
    while n < |rows|
      invariant n <= |rows|
      invariant forall m :: 0 <= m < n ==> StoreError(w, s, t, schema, rows, m, tx).None?
      invariant InsertAll(w, s, t, schema, rows, tx, fuel) ==
                Later(n, InsertAll(w, StoreEach(w, s, t, schema, rows[..n], tx), t, schema, rows[n..], tx, fuel))
    {
      var s1 := StoreEach(w, s, t, schema, rows[..n], tx);
      StoreEachRows(w, s, t, schema, rows[..n], tx);
      InsertTurn(w, s1, t, schema, rows, n, n, tx, fuel);
      InsertOnePlain(w, s1, t, schema, rows[n], tx, fuel);
      StoreEachTurn(w, s, t, schema, rows, n, tx);
      if StoreError(w, s, t, schema, rows, n, tx).Some? { return; }
      n := n + 1;
    }
    InsertNone(w, StoreEach(w, s, t, schema, rows[..n], tx), t, schema, rows, n, tx, fuel);
  }

  lemma StoreNone(w: World, s: State, t: string, schema: Schema, rows: seq<Row>, tx: Option<TxId>)
    ensures StoreEach(w, s, t, schema, rows[..0], tx) == s
  {
  }

  /** An INSERT stores the offered rows, with defaults, under the next ids in turn,
      up to the first that fails validation in the state it meets; it succeeds,
      and reports how many, exactly when none fails. The counter moves past the
      stored rows and the failing one; no other row is touched. */
  lemma InsertExactly(w: World, s: State, t: string, columns: seq<string>, source: Source, rows: seq<Row>,
      params: seq<Value>, tx: Option<TxId>, fuel: nat) returns (n: nat)
    requires TriggersOf(s, t) == [] && t in s.tables && t in s.schemas
    requires Candidates(w, s, s.schemas[t], columns, source, params) == Ok(rows)
    ensures n <= |rows|
    ensures forall m :: 0 <= m < n ==> StoreError(w, s, t, s.schemas[t], rows, m, tx).None?
    ensures n < |rows| ==> StoreError(w, s, t, s.schemas[t], rows, n, tx).Some?
    ensures var (s', o) := Exec(w, s, Stmt.Insert(t, columns, source), params, tx, fuel);
            && OnlyTable(s, s', t)
            && (forall r: RowId ::
                  RowAt(s'.tables, t, r) ==
                    AfterInsert(RowAt(s.tables, t, r), rows[..n], s.schemas[t].columns, CounterOf(s, t), r))
            && CounterOf(s', t) == CounterOf(s, t) + (if n == |rows| then n else n + 1)
            && o == if n == |rows| then Ok(|rows|) else Err(StoreError(w, s, t, s.schemas[t], rows, n, tx).value)
  {
    hide InsertAll, Candidates, WithDefaults, StoreEach, StoreError;
    n := InsertStops(w, s, t, s.schemas[t], rows, tx, fuel);
    StoreEachRows(w, s, t, s.schemas[t], rows[..n], tx);
  }

  /** Without a table, or without rows to offer, a statement changes nothing. */
  lemma RefusedAtOnce(w: World, s: State, t: string, columns: seq<string>, source: Source, sets: seq<Assignment>,
      where: Option<Expr>, params: seq<Value>, tx: Option<TxId>, fuel: nat)
    ensures t !in s.tables || t !in s.schemas ==>
              && Exec(w, s, Stmt.Insert(t, columns, source), params, tx, fuel) == (s, Err(NoSuchTable(t)))
              && Exec(w, s, Stmt.Update(t, sets, where), params, tx, fuel) == (s, Err(NoSuchTable(t)))
    ensures t !in s.tables ==> Exec(w, s, Stmt.Delete(t, where), params, tx, fuel) == (s, Err(NoSuchTable(t)))
    ensures t in s.tables && t in s.schemas && Candidates(w, s, s.schemas[t], columns, source, params).Err? ==>
              Exec(w, s, Stmt.Insert(t, columns, source), params, tx, fuel) ==
                (s, Err(Candidates(w, s, s.schemas[t], columns, source, params).error))
  {
    hide InsertAll, UpdateAll, DeleteAll, Candidates;
  }

  /** An INSERT whose SELECT finds nothing stores one row all the same: defaults
      only, under the next id, if that row passes validation. */
  lemma NothingSelectedInsertsDefaults(w: World, s: State, t: string, columns: seq<string>, source: Source,
      params: seq<Value>, tx: Option<TxId>, fuel: nat)
    requires TriggersOf(s, t) == [] && t in s.tables && t in s.schemas
    requires source.FromSelect? && source.query(DataOf(s), params) == Ok([])
    ensures var (s', o) := Exec(w, s, Stmt.Insert(t, columns, source), params, tx, fuel);
            var id := CounterOf(s, t);
            var row := WithDefaults(EMPTY_ROW, s.schemas[t].columns, id);
            var bad := Validate(w, BumpCounter(s, t), s.schemas[t], row, id);
            && o == (if bad.None? then Ok(1) else Err(bad.value))
            && CounterOf(s', t) == id + 1 && OnlyTable(s, s', t)
            && forall r: RowId ::
                 RowAt(s'.tables, t, r) == if r == id && bad.None? then Some(row) else RowAt(s.tables, t, r)
  {
    hide Exec, WithDefaults, RowAt, Validate;
    assert Candidates(w, s, s.schemas[t], columns, source, params) == Ok([EMPTY_ROW]) by { hide ColumnNames; }
    var n := InsertExactly(w, s, t, columns, source, [EMPTY_ROW], params, tx, fuel);
    StoreNone(w, s, t, s.schemas[t], [EMPTY_ROW], tx);
    var id := CounterOf(s, t);
    assert StoreError(w, s, t, s.schemas[t], [EMPTY_ROW], 0, tx) ==
           Validate(w, BumpCounter(s, t), s.schemas[t], WithDefaults(EMPTY_ROW, s.schemas[t].columns, id), id);
    assert [EMPTY_ROW][..n] == if n == 1 then [EMPTY_ROW] else [];
  }
}
