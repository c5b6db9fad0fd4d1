/** INSERT, UPDATE and DELETE with their trigger cascades, as functions from
    state to state.

    A statement that fails part way returns its error together with the state
    it leaves behind: writes go live at once. `fuel` bounds the depth of the
    trigger cascade; running out of it is one more way to fail part way. */
module Interpreter {
  import opened Wrappers
  import opened Values
  import opened Externals
  import opened Expressions
  import opened Store
  import opened Constraints

  // ---------------------------------------------------------------- building rows

  function ZipInto(row: Row, columns: seq<string>, values: seq<Value>): Row
    decreases columns
  {
    if columns == [] || values == [] then row
    else ZipInto(row.Put(columns[0], values[0]), columns[1..], values[1..])
  }

  /** One VALUES tuple; every tuple reads its parameters from the first on. */
  function TupleRow(w: World, columns: seq<string>, exprs: seq<Expr>, params: seq<Value>): Row {
    var n := if |columns| < |exprs| then |columns| else |exprs|;
    ZipInto(EMPTY_ROW, columns, EvalAll(w, exprs[..n], None, params, 0).0)
  }

  function TupleRows(w: World, columns: seq<string>, tuples: seq<seq<Expr>>, params: seq<Value>): seq<Row>
    decreases tuples
  {
    if tuples == [] then [] else [TupleRow(w, columns, tuples[0], params)] + TupleRows(w, columns, tuples[1..], params)
  }

  function QueryRows(columns: seq<string>, answers: seq<seq<Value>>): seq<Row>
    decreases answers
  {
    if answers == [] then [] else [ZipInto(EMPTY_ROW, columns, answers[0])] + QueryRows(columns, answers[1..])
  }

  function ColumnNames(columns: seq<ColumnDef>): seq<string>
    decreases columns
  {
    if columns == [] then [] else [columns[0].name] + ColumnNames(columns[1..])
  }

  /** The rows an INSERT offers; an empty offer becomes one row of defaults. */
  function Candidates(w: World, s: State, schema: Schema, columns: seq<string>, source: Source,
      params: seq<Value>): Result<seq<Row>, Error> {
    var names := if columns == [] then ColumnNames(schema.columns) else columns;
    var rows: Result<seq<Row>, Error> :=
      match source
      case Defaults => Ok([])
      case Tuples(tuples) => Ok(TupleRows(w, names, tuples, params))
      case FromSelect(query) =>
        (match query(DataOf(s), params)
         case Ok(answers) => Ok(QueryRows(names, answers))
         case Err(e) => Err(e))
      case OtherSource => Err(UnsupportedStatement);
    if rows.Ok? && rows.value == [] then Ok([EMPTY_ROW]) else rows
  }

  function DefaultFor(c: ColumnDef, r: RowId): Value {
    if c.primaryKey && c.dataType.IntegerType? then Integer(r)
    else if c.default.Some? then c.default.value
    else Null
  }

  /** Fills in the columns the statement did not supply. */
  function WithDefaults(row: Row, columns: seq<ColumnDef>, r: RowId): Row
    decreases columns
  {
    if columns == [] then row
    else WithDefaults(row.PutIfAbsent(columns[0].name, DefaultFor(columns[0], r)), columns[1..], r)
  }

  /** SET assignments, all evaluated against the row as it was. */
  function Assign(w: World, was: Row, now: Row, assignments: seq<Assignment>, params: seq<Value>, k: nat): Row
    decreases assignments
  {
    if assignments == [] then now
    else
      var (v, k1) := Eval(w, assignments[0].value, Some(was), params, k);
      Assign(w, was, now.Put(assignments[0].column, v), assignments[1..], params, k1)
  }

  function CountAssignments(assignments: seq<Assignment>): nat
    decreases assignments
  {
    if assignments == [] then 0 else Count(assignments[0].value) + CountAssignments(assignments[1..])
  }

  // ---------------------------------------------------------------- scanning

  predicate Matches(w: World, s: State, row: Row, where: Option<Expr>, params: seq<Value>, k: nat) {
    where.Some? ==> EvalWhere(w, FtsHits(w, s.fts), row, where.value, params, k).0
  }

  datatype Captured = Captured(rowid: RowId, row: Row)

  /** The rows among `order` that the WHERE selects, as they are now. */
  function Capture(w: World, s: State, t: string, order: seq<RowId>, where: Option<Expr>, params: seq<Value>,
      k: nat): seq<Captured>
    decreases order
  {
    if order == [] then []
    else
      var rest := Capture(w, s, t, order[1..], where, params, k);
      var row := RowAt(s.tables, t, order[0]);
      if row.Some? && Matches(w, s, row.value, where, params, k) then [Captured(order[0], row.value)] + rest else rest
  }

  function ScanOrder(w: World, s: State, t: string): seq<RowId> {
    if t in s.tables then w.scan(s.scans, s.tables[t]) else []
  }

  function Scanned(s: State): State {
    s.(scans := s.scans + 1)
  }

  // ---------------------------------------------------------------- triggers

  function PrefixInto(ctx: Row, prefix: string, columns: seq<string>, row: Row): Row
    decreases columns
  {
    if columns == [] then ctx
    else PrefixInto(ctx.Put(prefix + columns[0], row.GetOrNull(columns[0])), prefix, columns[1..], row)
  }

  /** The row a trigger condition sees: `OLD.`- and `NEW.`-prefixed columns. */
  function TriggerContext(was: Option<Row>, now: Option<Row>): Row {
    var ctx := if was.Some? then PrefixInto(EMPTY_ROW, "OLD.", was.value.cols, was.value) else EMPTY_ROW;
    if now.Some? then PrefixInto(ctx, "NEW.", now.value.cols, now.value) else ctx
  }

  predicate Applies(w: World, s: State, tr: Trigger, event: Event, timing: Timing, was: Option<Row>, now: Option<Row>) {
    && tr.event == event && tr.timing == timing
    && (tr.condition.If? ==> EvalWhere(w, FtsHits(w, s.fts), TriggerContext(was, now), tr.condition.e, [], 0).0)
  }

  function TriggersOf(s: State, t: string): seq<Trigger> {
    if t in s.triggers then s.triggers[t] else []
  }

  // ---------------------------------------------------------------- execution

  /** No statement adds or drops a table, a schema, a trigger or a transaction. */
  predicate SameFrame(s: State, s': State) {
    && s'.tables.Keys == s.tables.Keys && s'.schemas.Keys == s.schemas.Keys && s'.triggers.Keys == s.triggers.Keys
    && s'.active.Keys == s.active.Keys && s'.nextTx == s.nextTx
  }

  function Exec(w: World, s: State, stmt: Stmt, params: seq<Value>, tx: Option<TxId>,
      fuel: nat): (res: (State, Outcome))
    ensures SameFrame(s, res.0)
    decreases fuel, 6, 0
  {
    match stmt
    case Insert(t, columns, source) =>
      if t !in s.schemas || t !in s.tables then (s, Err(NoSuchTable(t)))
      else
        (match Candidates(w, s, s.schemas[t], columns, source, params)
         case Err(e) => (s, Err(e))
         case Ok(rows) => InsertAll(w, s, t, s.schemas[t], rows, tx, fuel))
    case Update(t, assignments, where) =>
      if t !in s.schemas || t !in s.tables then (s, Err(NoSuchTable(t)))
      else
        var caught := Capture(w, s, t, ScanOrder(w, s, t), where, params, CountAssignments(assignments));
        UpdateAll(w, Scanned(s), t, s.schemas[t], caught, assignments, params, tx, fuel)
    case Delete(t, where) =>
      if t !in s.tables then (s, Err(NoSuchTable(t)))
      else
        var caught := Capture(w, s, t, ScanOrder(w, s, t), where, params, 0);
        DeleteAll(w, Scanned(s), t, caught, tx, fuel)
    case Select(answer) => (s, answer(DataOf(s), params))
    case OtherStmt => (s, Err(UnsupportedStatement))
  }

  function InsertAll(w: World, s: State, t: string, schema: Schema, rows: seq<Row>, tx: Option<TxId>,
      fuel: nat): (res: (State, Outcome))
    ensures SameFrame(s, res.0)
    decreases fuel, 5, |rows|
  {
    if rows == [] then (s, Ok(0))
    else
      var (s1, o1) := InsertOne(w, s, t, schema, rows[0], tx, fuel);
      if o1.Err? then (s1, o1)
      else
        var (s2, o2) := InsertAll(w, s1, t, schema, rows[1..], tx, fuel);
        (s2, if o2.Ok? then Ok(o2.value + 1) else o2)
  }

  function InsertOne(w: World, s: State, t: string, schema: Schema, given: Row, tx: Option<TxId>,
      fuel: nat): (res: (State, Outcome))
    ensures SameFrame(s, res.0)
    decreases fuel, 4, 0
  {
    var r := CounterOf(s, t);
    var s0 := BumpCounter(s, t);
    var row := WithDefaults(given, schema.columns, r);
    var bad := Validate(w, s0, schema, row, r);
    if bad.Some? then (s0, Err(bad.value))
    else
      var (s1, o1) := Fire(w, s0, t, OnInsert, Before, None, Some(row), tx, fuel);
      if o1.Err? then (s1, o1)
      else Fire(w, WriteInsert(w, s1, tx, t, r, row), t, OnInsert, After, None, Some(row), tx, fuel)
  }

  function UpdateAll(w: World, s: State, t: string, schema: Schema, caught: seq<Captured>,
      assignments: seq<Assignment>, params: seq<Value>, tx: Option<TxId>, fuel: nat): (res: (State, Outcome))
    ensures SameFrame(s, res.0)
    decreases fuel, 5, |caught|
  {
    if caught == [] then (s, Ok(0))
    else
      var (s1, o1) := UpdateOne(w, s, t, schema, caught[0], assignments, params, tx, fuel);
      if o1.Err? then (s1, o1)
      else
        var (s2, o2) := UpdateAll(w, s1, t, schema, caught[1..], assignments, params, tx, fuel);
        (s2, if o2.Ok? then Ok(o2.value + 1) else o2)
  }

  function UpdateOne(w: World, s: State, t: string, schema: Schema, c: Captured, assignments: seq<Assignment>,
      params: seq<Value>, tx: Option<TxId>, fuel: nat): (res: (State, Outcome))
    ensures SameFrame(s, res.0)
    decreases fuel, 4, 0
  {
    var was := c.row;
    var now := Assign(w, was, was, assignments, params, 0);
    var bad := Validate(w, s, schema, now, c.rowid);
    if bad.Some? then (s, Err(bad.value))
    else
      var (s1, o1) := Fire(w, s, t, OnUpdate, Before, Some(was), Some(now), tx, fuel);
      if o1.Err? then (s1, o1)
      else Fire(w, WriteUpdate(w, s1, tx, t, c.rowid, was, now), t, OnUpdate, After, Some(was), Some(now), tx, fuel)
  }

  function DeleteAll(w: World, s: State, t: string, caught: seq<Captured>, tx: Option<TxId>,
      fuel: nat): (res: (State, Outcome))
    ensures SameFrame(s, res.0)
    decreases fuel, 5, |caught|
  {
    if caught == [] then (s, Ok(0))
    else
      var (s1, o1) := DeleteOne(w, s, t, caught[0], tx, fuel);
      if o1.Err? then (s1, o1)
      else
        var (s2, o2) := DeleteAll(w, s1, t, caught[1..], tx, fuel);
        (s2, if o2.Ok? then Ok(o2.value + 1) else o2)
  }

  function DeleteOne(w: World, s: State, t: string, c: Captured, tx: Option<TxId>, fuel: nat): (res: (State, Outcome))
    ensures SameFrame(s, res.0)
    decreases fuel, 4, 0
  {
    var (s1, o1) := Fire(w, s, t, OnDelete, Before, Some(c.row), None, tx, fuel);
    if o1.Err? then (s1, o1)
    else Fire(w, WriteDelete(w, s1, tx, t, c.rowid, c.row), t, OnDelete, After, Some(c.row), None, tx, fuel)
  }

  /** Fires a table's triggers for one event, in the order they were created. */
  function Fire(w: World, s: State, t: string, event: Event, timing: Timing, was: Option<Row>, now: Option<Row>,
      tx: Option<TxId>, fuel: nat): (res: (State, Outcome))
    ensures SameFrame(s, res.0)
    decreases fuel, 3, 0
  {
    FireEach(w, s, TriggersOf(s, t), event, timing, was, now, tx, fuel)
  }

  function FireEach(w: World, s: State, trs: seq<Trigger>, event: Event, timing: Timing, was: Option<Row>,
      now: Option<Row>, tx: Option<TxId>, fuel: nat): (res: (State, Outcome))
    ensures SameFrame(s, res.0)
    decreases fuel, 2, |trs|
  {
    if trs == [] then (s, Ok(0))
    else
      var tr := trs[0];
      if tr.event == event && tr.timing == timing && tr.condition.Unparsable? then (s, Err(Malformed))
      else if !Applies(w, s, tr, event, timing, was, now)
        then FireEach(w, s, trs[1..], event, timing, was, now, tx, fuel)
      else
        (match tr.body(was, now)
         case None => (s, Err(Malformed))
         case Some(stmts) =>
           var (s1, o1) := RunBody(w, s, stmts, tx, fuel);
           if o1.Err? then (s1, o1) else FireEach(w, s1, trs[1..], event, timing, was, now, tx, fuel))
  }

  /** Trigger statements run with the transaction id of the statement that fired
      them, and without parameters. */
  function RunBody(w: World, s: State, stmts: seq<Stmt>, tx: Option<TxId>, fuel: nat): (res: (State, Outcome))
    ensures SameFrame(s, res.0)
    decreases fuel, 1, |stmts|
  {
    if stmts == [] then (s, Ok(0))
    else if fuel == 0 then (s, Err(TooDeep))
    else
      var (s1, o1) := Exec(w, s, stmts[0], [], tx, fuel - 1);
      if o1.Err? then (s1, o1) else RunBody(w, s1, stmts[1..], tx, fuel)
  }

  /** A row that passes validation and its BEFORE triggers. */
  lemma InsertOneBy(w: World, s: State, t: string, schema: Schema, given: Row, tx: Option<TxId>, fuel: nat, row: Row,
      s1: State)
    requires row == WithDefaults(given, schema.columns, CounterOf(s, t))
    requires Validate(w, BumpCounter(s, t), schema, row, CounterOf(s, t)).None?
    requires Fire(w, BumpCounter(s, t), t, OnInsert, Before, None, Some(row), tx, fuel) == (s1, Ok(0))
    ensures InsertOne(w, s, t, schema, given, tx, fuel) ==
            Fire(w, WriteInsert(w, s1, tx, t, CounterOf(s, t), row), t, OnInsert, After, None, Some(row), tx, fuel)
  {
    hide WithDefaults, Validate, Fire, WriteInsert;
  }

  lemma UpdateOneBy(w: World, s: State, t: string, schema: Schema, c: Captured, sets: seq<Assignment>,
      params: seq<Value>, tx: Option<TxId>, fuel: nat, now: Row, s1: State)
    requires now == Assign(w, c.row, c.row, sets, params, 0)
    requires Validate(w, s, schema, now, c.rowid).None?
    requires Fire(w, s, t, OnUpdate, Before, Some(c.row), Some(now), tx, fuel) == (s1, Ok(0))
    ensures UpdateOne(w, s, t, schema, c, sets, params, tx, fuel) ==
            Fire(w, WriteUpdate(w, s1, tx, t, c.rowid, c.row, now), t, OnUpdate, After, Some(c.row), Some(now), tx,
              fuel)
  {
    hide Assign, Validate, Fire, WriteUpdate;
  }

  /** One trigger of a table, if it is its turn at all. */
  function FireOne(w: World, s: State, tr: Trigger, event: Event, timing: Timing, was: Option<Row>, now: Option<Row>,
      tx: Option<TxId>, fuel: nat): (State, Outcome) {
    if tr.event != event || tr.timing != timing then (s, Ok(0))
    else if tr.condition.Unparsable? then (s, Err(Malformed))
    else if !Applies(w, s, tr, event, timing, was, now) then (s, Ok(0))
    else
      match tr.body(was, now)
      case None => (s, Err(Malformed))
      case Some(stmts) => RunBody(w, s, stmts, tx, fuel)
  }

  lemma FireNone(w: World, s: State, event: Event, timing: Timing, was: Option<Row>, now: Option<Row>,
      tx: Option<TxId>, fuel: nat)
    ensures FireEach(w, s, [], event, timing, was, now, tx, fuel) == (s, Ok(0))
  {
  }

  lemma FireTurn(w: World, s: State, trs: seq<Trigger>, i: nat, event: Event, timing: Timing, was: Option<Row>,
      now: Option<Row>, tx: Option<TxId>, fuel: nat)
    requires i < |trs|
    ensures var (s1, o1) := FireOne(w, s, trs[i], event, timing, was, now, tx, fuel);
            FireEach(w, s, trs[i..], event, timing, was, now, tx, fuel) ==
              if o1.Err? then (s1, o1) else FireEach(w, s1, trs[i + 1..], event, timing, was, now, tx, fuel)
  {
    hide EvalWhere, RunBody, TriggerContext;
    assert trs[i..][1..] == trs[i + 1..];
  }

  // ---------------------------------------------------------------- one turn of each loop

  /** The result of the rest of a loop, when `n` rows have been done before. */
  function Later(n: int, rest: (State, Outcome)): (State, Outcome) {
    (rest.0, if rest.1.Ok? then Ok(rest.1.value + n) else rest.1)
  }

  lemma NothingBefore(rest: (State, Outcome))
    ensures Later(0, rest) == rest
  {
  }

  lemma InsertTurn(w: World, s: State, t: string, schema: Schema, rows: seq<Row>, i: nat, n: int, tx: Option<TxId>,
      fuel: nat)
    requires i < |rows|
    ensures var (s1, o1) := InsertOne(w, s, t, schema, rows[i], tx, fuel);
            Later(n, InsertAll(w, s, t, schema, rows[i..], tx, fuel)) ==
              if o1.Err? then (s1, o1) else Later(n + 1, InsertAll(w, s1, t, schema, rows[i + 1..], tx, fuel))
  {
    hide InsertOne;
    assert rows[i..][1..] == rows[i + 1..];
  }

  lemma InsertNone(w: World, s: State, t: string, schema: Schema, rows: seq<Row>, n: int, tx: Option<TxId>, fuel: nat)
    ensures Later(n, InsertAll(w, s, t, schema, rows[|rows|..], tx, fuel)) == (s, Ok(n))
  {
  }

  lemma UpdateTurn(w: World, s: State, t: string, schema: Schema, caught: seq<Captured>, i: nat, n: int,
      sets: seq<Assignment>, params: seq<Value>, tx: Option<TxId>, fuel: nat)
    requires i < |caught|
    ensures var (s1, o1) := UpdateOne(w, s, t, schema, caught[i], sets, params, tx, fuel);
            Later(n, UpdateAll(w, s, t, schema, caught[i..], sets, params, tx, fuel)) ==
              if o1.Err? then (s1, o1)
                else Later(n + 1, UpdateAll(w, s1, t, schema, caught[i + 1..], sets, params, tx, fuel))
  {
    hide UpdateOne;
    assert caught[i..][1..] == caught[i + 1..];
  }

  lemma UpdateNone(w: World, s: State, t: string, schema: Schema, caught: seq<Captured>, n: int,
      sets: seq<Assignment>, params: seq<Value>, tx: Option<TxId>, fuel: nat)
    ensures Later(n, UpdateAll(w, s, t, schema, caught[|caught|..], sets, params, tx, fuel)) == (s, Ok(n))
  {
  }

  lemma DeleteTurn(w: World, s: State, t: string, caught: seq<Captured>, i: nat, n: int, tx: Option<TxId>, fuel: nat)
    requires i < |caught|
    ensures var (s1, o1) := DeleteOne(w, s, t, caught[i], tx, fuel);
            Later(n, DeleteAll(w, s, t, caught[i..], tx, fuel)) ==
              if o1.Err? then (s1, o1) else Later(n + 1, DeleteAll(w, s1, t, caught[i + 1..], tx, fuel))
  {
    hide DeleteOne;
    assert caught[i..][1..] == caught[i + 1..];
  }

  lemma DeleteNone(w: World, s: State, t: string, caught: seq<Captured>, n: int, tx: Option<TxId>, fuel: nat)
    ensures Later(n, DeleteAll(w, s, t, caught[|caught|..], tx, fuel)) == (s, Ok(n))
  {
  }

  // ---------------------------------------------------------------- top level

  datatype Request =
    | BeginTx
    | CommitTx
    | RollbackTx
    | Dml(stmt: Stmt)

  predicate IsWrite(stmt: Stmt) {
    stmt.Insert? || stmt.Update? || stmt.Delete?
  }

  /** A write statement without a transaction id runs under a short-lived one. */
  function Execute(w: World, s: State, req: Request, params: seq<Value>, tx: Option<TxId>, fuel: nat): (State,
      Outcome) {
    match req
    case BeginTx => (Begin(s), Ok(s.nextTx))
    case CommitTx => if tx.Some? then Commit(s, tx.value) else (s, Err(NoSuchTransaction))
    case RollbackTx => if tx.Some? then Rollback(w, s, tx.value) else (s, Err(NoSuchTransaction))
    case Dml(stmt) =>
      if tx.None? && IsWrite(stmt) then
        var shadow := s.nextTx;
        var (s1, o1) := Exec(w, Begin(s), stmt, params, Some(shadow), fuel);
        if o1.Ok? then (Commit(s1, shadow).0, o1) else (Rollback(w, s1, shadow).0, o1)
      else Exec(w, s, stmt, params, tx, fuel)
  }
}
