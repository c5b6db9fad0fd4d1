/** The data an engine instance holds: tables, schemas, row-id counters,
    secondary indexes, full-text indexes, triggers and undo journals. */
module Store {
  import opened Wrappers
  import opened Values
  import opened Externals
  import opened Expressions
  import Tree = OrderedIndex
  import FullText

  // ---------------------------------------------------------------- schema

  datatype DataType = NullType | IntegerType | RealType | TextType | BlobType

  datatype ColumnDef = ColumnDef(
    name: string,
    dataType: DataType,
    primaryKey: bool,
    notNull: bool,
    unique: bool,
    default: Option<Value>,
    check: Option<Expr>)

  datatype UniqueGroup = UniqueGroup(columns: seq<string>, isPrimary: bool)

  datatype ForeignKey = ForeignKey(column: string, refTable: string, refColumn: string)

  datatype IndexDef = IndexDef(name: string, columns: seq<string>)

  datatype Schema = Schema(
    name: string,
    columns: seq<ColumnDef>,
    uniqueGroups: seq<UniqueGroup>,
    indices: seq<IndexDef>,
    foreignKeys: seq<ForeignKey>,
    checks: seq<Expr>,
    ftsColumn: Option<string>)   // the indexed column of a full-text table

  // ---------------------------------------------------------------- statements

  datatype Constraint = NotNull | Unique | ReferencedRow | Check

  datatype Error =
    | NoSuchTable(table: string)
    | Violation(constraint: Constraint)
    | UnsupportedStatement
    | Malformed              // trigger text that does not parse
    | NoSuchTransaction
    | TooDeep                // a trigger cascade deeper than the model follows

  type Outcome = Result<int, Error>

  type Table = map<RowId, Row>

  type Tables = map<string, Table>

  datatype Source =
    | Defaults
    | Tuples(rows: seq<seq<Expr>>)
    | FromSelect(query: (Data, seq<Value>) -> Result<seq<seq<Value>>, Error>)
    | OtherSource

  datatype Assignment = Assignment(column: string, value: Expr)

  datatype Stmt =
    | Insert(table: string, columns: seq<string>, source: Source)
    | Update(table: string, assignments: seq<Assignment>, where: Option<Expr>)
    | Delete(table: string, where: Option<Expr>)
    | Select(answer: (Data, seq<Value>) -> Outcome)
    | OtherStmt              // anything execute_single_statement refuses

  datatype Event = OnInsert | OnUpdate | OnDelete

  datatype Timing = Before | After | InsteadOf

  datatype Condition = Always | If(e: Expr) | Unparsable

  /** A trigger's body is SQL text in which OLD and NEW columns are replaced
      before it is parsed: here, any function from the two rows to statements
      (`None` when the text does not parse). */
  datatype Trigger = Trigger(
    event: Event,
    timing: Timing,
    condition: Condition,
    body: (Option<Row>, Option<Row>) -> Option<seq<Stmt>>)

  // ---------------------------------------------------------------- state

  datatype UndoOp =
    | UndoInsert(table: string, rowid: RowId)
    | UndoDelete(table: string, rowid: RowId, row: Row)
    | UndoUpdate(table: string, rowid: RowId, oldRow: Row)

  type TxId = int

  const TX_IDS: int := 0x1_0000_0000

  datatype IndexId = IndexId(table: string, name: string)

  type Indexes = map<IndexId, Tree.BTree>

  datatype FtsTable = FtsTable(index: FullText.Fts, column: string)

  /** What a query can read, apart from its parameters. */
  datatype Data = Data(
    tables: Tables,
    schemas: map<string, Schema>,
    indexes: Indexes,
    fts: map<string, FtsTable>,
    scans: int)

  datatype State = State(
    tables: Tables,
    schemas: map<string, Schema>,
    counters: map<string, int>,
    indexes: Indexes,
    fts: map<string, FtsTable>,
    triggers: map<string, seq<Trigger>>,
    nextTx: TxId,
    active: map<TxId, seq<UndoOp>>,
    scans: int)

  function DataOf(s: State): Data {
    Data(s.tables, s.schemas, s.indexes, s.fts, s.scans)
  }

  // ---------------------------------------------------------------- tables

  function RowAt(tables: Tables, t: string, r: RowId): Option<Row> {
    if t in tables && r in tables[t] then Some(tables[t][r]) else None
  }

  function PutRow(tables: Tables, t: string, r: RowId, row: Row): Tables {
    if t in tables then
      tables[t := tables[t][r := row]]
    else tables
  }

  function DropRow(tables: Tables, t: string, r: RowId): Tables {
    if t in tables then tables[t := tables[t] - {r}] else tables
  }

  /** Tables are the same when they have the same names and rows. */
  lemma SameTables(a: Tables, b: Tables)
    requires a.Keys == b.Keys
    requires forall t, r: RowId :: RowAt(a, t, r) == RowAt(b, t, r)
    ensures a == b
  {
    forall t | t in a ensures a[t] == b[t] {
      forall r: RowId ensures r in a[t] <==> r in b[t] {
        assert RowAt(a, t, r) == RowAt(b, t, r);
      }
      forall r | r in a[t] ensures a[t][r] == b[t][r] {
        assert RowAt(a, t, r) == RowAt(b, t, r);
      }
    }
  }

  // ---------------------------------------------------------------- row ids

  /** Counters start at 1. */
  function CounterOf(s: State, t: string): int {
    if t in s.counters then s.counters[t] else 1
  }

  function BumpCounter(s: State, t: string): State {
    s.(counters := s.counters[t := CounterOf(s, t) + 1])
  }

  // ---------------------------------------------------------------- indexes

  /** Only the first column of an index is used. */
  function IndexValue(idx: IndexDef, row: Row): Option<Value> {
    if idx.columns == [] then None else row.Get(idx.columns[0])
  }

  function TreeOf(ix: Indexes, id: IndexId): Tree.BTree {
    if id in ix then ix[id] else []
  }

  function AddToIndex(ix: Indexes, t: string, idx: IndexDef, row: Row, r: RowId): Indexes {
    match IndexValue(idx, row)
    case None => ix
    case Some(v) => ix[IndexId(t, idx.name) := Tree.Add(TreeOf(ix, IndexId(t, idx.name)), v, r)]
  }

  function RemoveFromIndex(ix: Indexes, t: string, idx: IndexDef, row: Row, r: RowId): Indexes {
    match IndexValue(idx, row)
    case None => ix
    case Some(v) => ix[IndexId(t, idx.name) := Tree.Remove(TreeOf(ix, IndexId(t, idx.name)), v, r)]
  }

  /** One index after a row changed from `was` to `new` (`None`: no such row). */
  function UpdateIndex(ix: Indexes, t: string, idx: IndexDef, r: RowId, was: Option<Row>, now: Option<Row>): Indexes {
    var removed := if was.Some? then RemoveFromIndex(ix, t, idx, was.value, r) else ix;
    if now.Some? then AddToIndex(removed, t, idx, now.value, r) else removed
  }

  function UpdateEach(ix: Indexes, t: string, defs: seq<IndexDef>, r: RowId, was: Option<Row>,
      now: Option<Row>): Indexes
    decreases defs
  {
    if defs == [] then ix
    else UpdateEach(UpdateIndex(ix, t, defs[0], r, was, now), t, defs[1..], r, was, now)
  }

  function IndicesOf(schemas: map<string, Schema>, t: string): seq<IndexDef> {
    if t in schemas then schemas[t].indices else []
  }

  function UpdateIndexes(s: State, t: string, r: RowId, was: Option<Row>, now: Option<Row>): Indexes {
    UpdateEach(s.indexes, t, IndicesOf(s.schemas, t), r, was, now)
  }

  // ---------------------------------------------------------------- full text

  /** The indexed text of a row, if it is text. */
  function Content(row: Row, column: string): Option<string> {
    if row.Has(column) && row.vals[column].Text? then Some(row.vals[column].s) else None
  }

  function FtsDrop(w: World, f: FtsTable, r: RowId, row: Row): FtsTable {
    match Content(row, f.column)
    case None => f
    case Some(text) => f.(index := FullText.Remove(f.index, r, w.tokenize(text)))
  }

  function FtsPut(w: World, f: FtsTable, r: RowId, row: Row): FtsTable {
    match Content(row, f.column)
    case None => f
    case Some(text) => f.(index := FullText.Add(f.index, r, w.tokenize(text)))
  }

  function FtsChange(w: World, f: FtsTable, r: RowId, was: Option<Row>, now: Option<Row>): FtsTable {
    var dropped := if was.Some? then FtsDrop(w, f, r, was.value) else f;
    if now.Some? then FtsPut(w, dropped, r, now.value) else dropped
  }

  function SyncFts(w: World, fts: map<string, FtsTable>, t: string, r: RowId, was: Option<Row>,
      now: Option<Row>): map<string, FtsTable> {
    if t in fts then fts[t := FtsChange(w, fts[t], r, was, now)] else fts
  }

  /** What `fts_match` finds. */
  function FtsHits(w: World, fts: map<string, FtsTable>): Hits {
    (table, query) => if table in fts then FullText.Search(fts[table].index, w.tokenize(query)) else {}
  }

  // ---------------------------------------------------------------- journal

  /** Recorded only under an active transaction. */
  function Record(active: map<TxId, seq<UndoOp>>, tx: Option<TxId>, op: UndoOp): map<TxId, seq<UndoOp>> {
    if tx.Some? && tx.value in active then active[tx.value := active[tx.value] + [op]] else active
  }

  function JournalOf(s: State, tx: TxId): seq<UndoOp> {
    if tx in s.active then s.active[tx] else []
  }

  // ---------------------------------------------------------------- the three writes

  /** A row stored for the first time, with its journal entry and index updates. */
  function WriteInsert(w: World, s: State, tx: Option<TxId>, t: string, r: RowId, row: Row): State {
    s.(tables := PutRow(s.tables, t, r, row),
       active := Record(s.active, tx, UndoInsert(t, r)),
       indexes := UpdateIndexes(s, t, r, None, Some(row)),
       fts := SyncFts(w, s.fts, t, r, None, Some(row)))
  }

  /** A row overwritten. `was` is the row as the statement's scan saw it. */
  function WriteUpdate(w: World, s: State, tx: Option<TxId>, t: string, r: RowId, was: Row, now: Row): State {
    s.(tables := PutRow(s.tables, t, r, now),
       active := Record(s.active, tx, UndoUpdate(t, r, was)),
       indexes := UpdateIndexes(s, t, r, Some(was), Some(now)),
       fts := SyncFts(w, s.fts, t, r, Some(was), Some(now)))
  }

  /** A row removed. `was` is the row as the statement's scan saw it. */
  function WriteDelete(w: World, s: State, tx: Option<TxId>, t: string, r: RowId, was: Row): State {
    s.(tables := DropRow(s.tables, t, r),
       active := Record(s.active, tx, UndoDelete(t, r, was)),
       indexes := UpdateIndexes(s, t, r, Some(was), None),
       fts := SyncFts(w, s.fts, t, r, Some(was), None))
  }

  // ---------------------------------------------------------------- undo

  function Undo(w: World, s: State, op: UndoOp): State {
    match op
    case UndoInsert(t, r) =>
      var row := RowAt(s.tables, t, r);
      if row.None? then s
      else s.(tables := DropRow(s.tables, t, r),
              indexes := UpdateIndexes(s, t, r, row, None),
              fts := SyncFts(w, s.fts, t, r, row, None))
    case UndoDelete(t, r, row) =>
      if t !in s.tables then s
      else s.(tables := PutRow(s.tables, t, r, row),
              indexes := UpdateIndexes(s, t, r, None, Some(row)),
              fts := SyncFts(w, s.fts, t, r, None, Some(row)))
    case UndoUpdate(t, r, was) =>
      if t !in s.tables then s
      else
        var current := RowAt(s.tables, t, r);
        s.(tables := PutRow(s.tables, t, r, was),
           indexes := UpdateIndexes(s, t, r, Some(if current.Some? then current.value else EMPTY_ROW), Some(was)),
           fts := if current.Some? then SyncFts(w, s.fts, t, r, current, Some(was)) else s.fts)
  }

  /** Last entry first. */
  function UndoAll(w: World, s: State, ops: seq<UndoOp>): State
    decreases |ops|
  {
    if ops == [] then s
    else UndoAll(w, Undo(w, s, ops[|ops| - 1]), ops[..|ops| - 1])
  }

  // ---------------------------------------------------------------- transactions

  /** Ids are 32-bit and wrap around. */
  function Begin(s: State): State {
    s.(nextTx := (s.nextTx + 1) % TX_IDS, active := s.active[s.nextTx := []])
  }

  function Commit(s: State, tx: TxId): (State, Outcome) {
    if tx in s.active then (s.(active := s.active - {tx}), Ok(0)) else (s, Err(NoSuchTransaction))
  }

  function Rollback(w: World, s: State, tx: TxId): (State, Outcome) {
    if tx in s.active then (UndoAll(w, s.(active := s.active - {tx}), s.active[tx]), Ok(0))
    else (s, Err(NoSuchTransaction))
  }
}
