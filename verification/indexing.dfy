/** Secondary indexes follow the tables.

    Completeness holds after any write and any undo, even when the row that is
    taken out of an index is a stale copy: a lookup never misses a live row and
    never lists one twice. Exactness needs the captured row to be the stored one. */
module Indexing {
  import opened Wrappers
  import opened Values
  import opened Externals
  import opened Store
  import opened Runs
  import opened Rollbacks
  import Tree = OrderedIndex

  /** The lawful set of values that each index is used with. */
  type Domains = IndexId -> iset<Value>

  ghost predicate LawfulDomains(dom: Domains) {
    forall id :: Lawful(dom(id))
  }

  // ---------------------------------------------------------------- one index

  /** The value of an optional row in an index, if it has one. */
  function ValueOf(idx: IndexDef, row: Option<Row>): Option<Value> {
    if row.Some? then IndexValue(idx, row.value) else None
  }

  ghost predicate InDomain(d: iset<Value>, v: Option<Value>) {
    v.Some? ==> v.value in d
  }

  predicate Files(v: Option<Value>, u: Value) {
    v.Some? && Compare(u, v.value) == Equal
  }

  function UpdateTree(b: Tree.BTree, r: RowId, was: Option<Value>, now: Option<Value>): Tree.BTree {
    var removed := if was.Some? then Tree.Remove(b, was.value, r) else b;
    if now.Some? then Tree.Add(removed, now.value, r) else removed
  }

  lemma UpdateTreeLaw(d: iset<Value>, b: Tree.BTree, r: RowId, was: Option<Value>, now: Option<Value>, u: Value,
      x: RowId)
    requires Lawful(d) && Tree.WellFormed(d, b) && InDomain(d, was) && InDomain(d, now) && u in d
    ensures Tree.WellFormed(d, UpdateTree(b, r, was, now))
    ensures x in Tree.Ids(UpdateTree(b, r, was, now), u) <==>
              || (x == r && Files(now, u))
              || (x in Tree.Ids(b, u) && !(x == r && Files(was, u)))
  {
    var removed := if was.Some? then Tree.Remove(b, was.value, r) else b;
    if was.Some? {
      Tree.RemoveWellFormed(d, b, was.value, r);
      Tree.RemoveIds(d, b, was.value, r, u);
      Tree.WithoutMember(Tree.Ids(b, u), r, x);
    }
    if now.Some? {
      Tree.AddWellFormed(d, removed, now.value, r);
      Tree.AddIds(d, removed, now.value, r, u);
    }
  }

  /** Every row that has the column is listed under its value. */
  ghost predicate Complete(d: iset<Value>, b: Tree.BTree, rows: Table, idx: IndexDef) {
    && Tree.WellFormed(d, b)
    && forall r :: r in rows && IndexValue(idx, rows[r]).Some? ==>
         IndexValue(idx, rows[r]).value in d && r in Tree.Ids(b, IndexValue(idx, rows[r]).value)
  }

  /** Under every value are listed exactly the rows whose own value is Equal. */
  ghost predicate Exact(d: iset<Value>, b: Tree.BTree, rows: Table, idx: IndexDef) {
    && Tree.WellFormed(d, b)
    && (forall r :: r in rows ==> InDomain(d, IndexValue(idx, rows[r])))
    && forall u, r :: u in d ==> (r in Tree.Ids(b, u) <==> r in rows && Files(IndexValue(idx, rows[r]), u))
  }

  lemma ExactIsComplete(d: iset<Value>, b: Tree.BTree, rows: Table, idx: IndexDef)
    requires Exact(d, b, rows, idx)
    ensures Complete(d, b, rows, idx)
  {
    forall r | r in rows && IndexValue(idx, rows[r]).Some?
      ensures r in Tree.Ids(b, IndexValue(idx, rows[r]).value)
    {
      CompareReflexive(IndexValue(idx, rows[r]).value);
      assert Files(IndexValue(idx, rows[r]), IndexValue(idx, rows[r]).value);
    }
  }

  function SetRow(rows: Table, r: RowId, now: Option<Row>): Table {
    if now.Some? then rows[r := now.value] else rows - {r}
  }

  function RowIn(rows: Table, r: RowId): Option<Row> {
    if r in rows then Some(rows[r]) else None
  }

  /** Whatever row is taken out, the index stays complete. */
  lemma ChangeKeepsComplete(d: iset<Value>, b: Tree.BTree, rows: Table, idx: IndexDef, r: RowId, was: Option<Row>,
      now: Option<Row>)
    requires Lawful(d) && Complete(d, b, rows, idx)
    requires InDomain(d, ValueOf(idx, was)) && InDomain(d, ValueOf(idx, now))
    ensures Complete(d, UpdateTree(b, r, ValueOf(idx, was), ValueOf(idx, now)), SetRow(rows, r, now), idx)
  {
    var rows' := SetRow(rows, r, now);
    var v, v' := ValueOf(idx, was), ValueOf(idx, now);
    forall x | x in rows' && IndexValue(idx, rows'[x]).Some?
      ensures IndexValue(idx, rows'[x]).value in d
      ensures x in Tree.Ids(UpdateTree(b, r, v, v'), IndexValue(idx, rows'[x]).value)
    {
      var u := IndexValue(idx, rows'[x]).value;
      CompareReflexive(u);
      UpdateTreeLaw(d, b, r, v, v', u, x);
    }
    UpdateTreeWellFormed(d, b, r, v, v');
  }

  lemma UpdateTreeWellFormed(d: iset<Value>, b: Tree.BTree, r: RowId, was: Option<Value>, now: Option<Value>)
    requires Lawful(d) && Tree.WellFormed(d, b) && InDomain(d, was) && InDomain(d, now)
    ensures Tree.WellFormed(d, UpdateTree(b, r, was, now))
  {
    if was.Some? { UpdateTreeLaw(d, b, r, was, now, was.value, r); }
    else if now.Some? { UpdateTreeLaw(d, b, r, was, now, now.value, r); }
  }

  /** If the row taken out is the stored one, the index stays exact. */
  lemma ChangeKeepsExact(d: iset<Value>, b: Tree.BTree, rows: Table, idx: IndexDef, r: RowId, now: Option<Row>)
    requires Lawful(d) && Exact(d, b, rows, idx) && InDomain(d, ValueOf(idx, now))
    ensures Exact(d, UpdateTree(b, r, ValueOf(idx, RowIn(rows, r)), ValueOf(idx, now)), SetRow(rows, r, now), idx)
  {
    var rows' := SetRow(rows, r, now);
    var v, v' := ValueOf(idx, RowIn(rows, r)), ValueOf(idx, now);
    var b' := UpdateTree(b, r, v, v');
    UpdateTreeWellFormed(d, b, r, v, v');
    forall u, x: RowId | u in d
      ensures x in Tree.Ids(b', u) <==> x in rows' && Files(IndexValue(idx, rows'[x]), u)
    {
      UpdateTreeLaw(d, b, r, v, v', u, x);
      assert x in Tree.Ids(b, u) <==> x in rows && Files(IndexValue(idx, rows[x]), u);
    }
  }

  /** Whichever value is taken out: exactly when the stored value is not left
      behind, or is put back. */
  lemma ChangeKeepsExactExactly(d: iset<Value>, b: Tree.BTree, rows: Table, idx: IndexDef, r: RowId,
      was: Option<Value>, now: Option<Row>)
    requires Lawful(d) && Exact(d, b, rows, idx) && InDomain(d, was) && InDomain(d, ValueOf(idx, now))
    ensures var stored := ValueOf(idx, RowIn(rows, r));
            Exact(d, UpdateTree(b, r, was, ValueOf(idx, now)), SetRow(rows, r, now), idx) <==>
              (stored.Some? ==> Files(was, stored.value) || Files(ValueOf(idx, now), stored.value))
  {
    hide Tree.Ids, UpdateTree, Tree.WellFormed;
    var stored, v', rows' := ValueOf(idx, RowIn(rows, r)), ValueOf(idx, now), SetRow(rows, r, now);
    var b' := UpdateTree(b, r, was, v');
    UpdateTreeWellFormed(d, b, r, was, v');
    forall u, x: RowId | u in d
      ensures x in Tree.Ids(b', u) <==>
                (x == r && Files(v', u))
                  || (x in rows && Files(IndexValue(idx, rows[x]), u) && !(x == r && Files(was, u)))
    {
      UpdateTreeLaw(d, b, r, was, v', u, x);
      assert x in Tree.Ids(b, u) <==> x in rows && Files(IndexValue(idx, rows[x]), u);
    }
    if stored.Some? {
      CompareReflexive(stored.value);
      forall u | u in d && Files(stored, u)
        ensures Files(was, u) == Files(was, stored.value) && Files(v', u) == Files(v', stored.value)
      {
        if was.Some? { Chain(d, u, stored.value, was.value); }
        if v'.Some? { Chain(d, u, stored.value, v'.value); }
      }
      assert r in Tree.Ids(b', stored.value) <==> Files(v', stored.value) || !Files(was, stored.value);
      assert r in rows' && Files(IndexValue(idx, rows'[r]), stored.value) <==> Files(v', stored.value);
    }
    if stored.Some? ==> Files(was, stored.value) || Files(v', stored.value) {
      forall u, x: RowId | u in d
        ensures x in Tree.Ids(b', u) <==> x in rows' && Files(IndexValue(idx, rows'[x]), u)
      {
        if x == r { assert Files(stored, u) ==> Files(was, u) || Files(v', u); }
      }
    }
  }

  // ---------------------------------------------------------------- all indexes of a table

  ghost predicate DistinctNames(defs: seq<IndexDef>) {
    forall i, j :: 0 <= i < j < |defs| ==> defs[i].name != defs[j].name
  }

  lemma UpdateIndexTree(ix: Indexes, t: string, idx: IndexDef, r: RowId, was: Option<Row>, now: Option<Row>,
      id: IndexId)
    ensures TreeOf(UpdateIndex(ix, t, idx, r, was, now), id) ==
              if id == IndexId(t, idx.name) then UpdateTree(TreeOf(ix, id), r, ValueOf(idx, was), ValueOf(idx, now))
              else TreeOf(ix, id)
  {
    hide Tree.Add, Tree.Remove;
  }

  /** Updating all indexes of a table updates each one once, and no other. */
  lemma {:induction false} UpdateEachTree(ix: Indexes, t: string, defs: seq<IndexDef>, r: RowId, was: Option<Row>,
      now: Option<Row>, id: IndexId)
    requires DistinctNames(defs)
    ensures (forall i :: 0 <= i < |defs| ==> id != IndexId(t, defs[i].name)) ==>
              TreeOf(UpdateEach(ix, t, defs, r, was, now), id) == TreeOf(ix, id)
    ensures forall i :: 0 <= i < |defs| && id == IndexId(t, defs[i].name) ==>
              TreeOf(UpdateEach(ix, t, defs, r, was, now), id) ==
                UpdateTree(TreeOf(ix, id), r, ValueOf(defs[i], was), ValueOf(defs[i], now))
    decreases defs
  {
    hide UpdateIndex, TreeOf, UpdateTree;
    if defs != [] {
      var ix1 := UpdateIndex(ix, t, defs[0], r, was, now);
      UpdateIndexTree(ix, t, defs[0], r, was, now, id);
      UpdateEachTree(ix1, t, defs[1..], r, was, now, id);
      if id == IndexId(t, defs[0].name) {
        forall i | 0 <= i < |defs[1..]| ensures id != IndexId(t, defs[1..][i].name) {
          assert defs[1..][i] == defs[i + 1];
        }
      }
      forall i | 0 <= i < |defs| && id == IndexId(t, defs[i].name)
        ensures TreeOf(UpdateEach(ix, t, defs, r, was, now), id) ==
                  UpdateTree(TreeOf(ix, id), r, ValueOf(defs[i], was), ValueOf(defs[i], now))
      {
        if i > 0 { assert defs[1..][i - 1] == defs[i]; }
      }
      if forall i :: 0 <= i < |defs| ==> id != IndexId(t, defs[i].name) {
        assert forall i :: 0 <= i < |defs[1..]| ==> defs[1..][i] == defs[i + 1];
      }
    }
  }

  // ---------------------------------------------------------------- the whole state

  ghost predicate AllNamesDistinct(s: State) {
    forall t :: t in s.schemas ==> DistinctNames(s.schemas[t].indices)
  }

  ghost predicate AllComplete(dom: Domains, s: State) {
    forall t, i :: t in s.tables && 0 <= i < |IndicesOf(s.schemas, t)| ==>
      var idx := IndicesOf(s.schemas, t)[i];
      Complete(dom(IndexId(t, idx.name)), TreeOf(s.indexes, IndexId(t, idx.name)), s.tables[t], idx)
  }

  ghost predicate AllExact(dom: Domains, s: State) {
    forall t, i :: t in s.tables && 0 <= i < |IndicesOf(s.schemas, t)| ==>
      var idx := IndicesOf(s.schemas, t)[i];
      Exact(dom(IndexId(t, idx.name)), TreeOf(s.indexes, IndexId(t, idx.name)), s.tables[t], idx)
  }

  /** The indexed values of a row belong to the sets its indexes are used with. */
  ghost predicate RowLawful(dom: Domains, schemas: map<string, Schema>, t: string, row: Option<Row>) {
    forall i :: 0 <= i < |IndicesOf(schemas, t)| ==>
      InDomain(dom(IndexId(t, IndicesOf(schemas, t)[i].name)), ValueOf(IndicesOf(schemas, t)[i], row))
  }

  /** `s'` is `s` with one row changed and the indexes told about it. */
  ghost predicate Changed(s: State, s': State, t: string, r: RowId, was: Option<Row>, now: Option<Row>) {
    && t in s.tables && s'.schemas == s.schemas
    && s'.tables == s.tables[t := SetRow(s.tables[t], r, now)]
    && s'.indexes == UpdateIndexes(s, t, r, was, now)
  }

  lemma ChangeKeepsAllComplete(dom: Domains, s: State, s': State, t: string, r: RowId, was: Option<Row>,
      now: Option<Row>)
    requires LawfulDomains(dom) && AllNamesDistinct(s) && AllComplete(dom, s)
    requires Changed(s, s', t, r, was, now)
    requires RowLawful(dom, s.schemas, t, was) && RowLawful(dom, s.schemas, t, now)
    ensures AllComplete(dom, s')
  {
    hide Complete, UpdateEach, SetRow, UpdateTree, TreeOf;
    forall u, i | u in s'.tables && 0 <= i < |IndicesOf(s.schemas, u)|
      ensures var idx := IndicesOf(s.schemas, u)[i];
              Complete(dom(IndexId(u, idx.name)), TreeOf(s'.indexes, IndexId(u, idx.name)), s'.tables[u], idx)
    {
      var idx := IndicesOf(s.schemas, u)[i];
      var id := IndexId(u, idx.name);
      UpdateEachTree(s.indexes, t, IndicesOf(s.schemas, t), r, was, now, id);
      if u == t {
        ChangeKeepsComplete(dom(id), TreeOf(s.indexes, id), s.tables[t], idx, r, was, now);
      }
    }
  }

  lemma ChangeKeepsAllExact(dom: Domains, s: State, s': State, t: string, r: RowId, now: Option<Row>)
    requires LawfulDomains(dom) && AllNamesDistinct(s) && AllExact(dom, s)
    requires t in s.tables && Changed(s, s', t, r, RowIn(s.tables[t], r), now)
    requires RowLawful(dom, s.schemas, t, now)
    ensures AllExact(dom, s')
  {
    hide Exact, UpdateEach, SetRow, UpdateTree, TreeOf;
    forall u, i | u in s'.tables && 0 <= i < |IndicesOf(s.schemas, u)|
      ensures var idx := IndicesOf(s.schemas, u)[i];
              Exact(dom(IndexId(u, idx.name)), TreeOf(s'.indexes, IndexId(u, idx.name)), s'.tables[u], idx)
    {
      var idx := IndicesOf(s.schemas, u)[i];
      var id := IndexId(u, idx.name);
      UpdateEachTree(s.indexes, t, IndicesOf(s.schemas, t), r, RowIn(s.tables[t], r), now, id);
      if u == t {
        ChangeKeepsExact(dom(id), TreeOf(s.indexes, id), s.tables[t], idx, r, now);
      }
    }
  }

  // ---------------------------------------------------------------- steps and undo steps are changes

  function NewRow(step: Step): Option<Row>
    requires IsWriteStep(step)
  {
    if step.Ins? then Some(step.row) else if step.Upd? then Some(step.now) else None
  }

  lemma StepIsChange(w: World, s: State, tx: TxId, step: Step)
    requires IsWriteStep(step) && step.t in s.tables
    ensures Changed(s, Apply(w, s, tx, step), step.t, step.r, Restores(Entry(step)), NewRow(step))
  {
    hide UpdateEach, FtsChange;
  }

  /** The row an undo step takes out of the indexes. */
  function TakenOut(s: State, op: UndoOp): Option<Row> {
    var current := RowAt(s.tables, op.table, op.rowid);
    match op
    case UndoInsert(_, _) => current
    case UndoDelete(_, _, _) => None
    case UndoUpdate(_, _, _) => Some(if current.Some? then current.value else EMPTY_ROW)
  }

  lemma UndoIsChange(w: World, s: State, op: UndoOp)
    requires op.table in s.tables
    ensures Changed(s, Undo(w, s, op), op.table, op.rowid, TakenOut(s, op), Restores(op)) || Undo(w, s, op) == s
  {
    hide UpdateEach, FtsChange;
    if op.UndoInsert? {
      assert s.tables[op.table := s.tables[op.table]] == s.tables;
    }
  }

  // ---------------------------------------------------------------- completeness, always

  /** Every row a run writes or journals has lawful indexed values. */
  ghost predicate StepLawful(dom: Domains, schemas: map<string, Schema>, step: Step) {
    IsWriteStep(step) ==>
      RowLawful(dom, schemas, step.t, Restores(Entry(step))) && RowLawful(dom, schemas, step.t, NewRow(step))
  }

  ghost predicate StepsLawful(dom: Domains, schemas: map<string, Schema>, steps: seq<Step>) {
    forall i :: 0 <= i < |steps| ==> StepLawful(dom, schemas, steps[i])
  }

  ghost predicate OpsLawful(dom: Domains, schemas: map<string, Schema>, ops: seq<UndoOp>) {
    forall i :: 0 <= i < |ops| ==> RowLawful(dom, schemas, ops[i].table, Restores(ops[i]))
  }

  lemma StepKeepsComplete(dom: Domains, w: World, s: State, tx: TxId, step: Step)
    requires LawfulDomains(dom) && AllNamesDistinct(s) && AllComplete(dom, s)
    requires StepLawful(dom, s.schemas, step) && (IsWriteStep(step) ==> step.t in s.tables)
    ensures AllComplete(dom, Apply(w, s, tx, step)) && Apply(w, s, tx, step).schemas == s.schemas
  {
    hide Complete, WriteInsert, WriteUpdate, WriteDelete;
    if IsWriteStep(step) {
      StepIsChange(w, s, tx, step);
      ChangeKeepsAllComplete(dom, s, Apply(w, s, tx, step), step.t, step.r, Restores(Entry(step)), NewRow(step));
    }
  }

  lemma LiveRowsLawful(dom: Domains, s: State, t: string, r: RowId)
    requires AllComplete(dom, s) && t in s.tables
    ensures RowLawful(dom, s.schemas, t, RowAt(s.tables, t, r))
  {
    if r in s.tables[t] {
      forall i | 0 <= i < |IndicesOf(s.schemas, t)|
        ensures InDomain(dom(IndexId(t, IndicesOf(s.schemas, t)[i].name)),
                  ValueOf(IndicesOf(s.schemas, t)[i], Some(s.tables[t][r])))
      {
        var idx := IndicesOf(s.schemas, t)[i];
        assert Complete(dom(IndexId(t, idx.name)), TreeOf(s.indexes, IndexId(t, idx.name)), s.tables[t], idx);
      }
    }
  }

  lemma {:induction false} UndoKeepsComplete(dom: Domains, w: World, s: State, op: UndoOp)
    requires LawfulDomains(dom) && AllNamesDistinct(s) && AllComplete(dom, s)
    requires RowLawful(dom, s.schemas, op.table, Restores(op))
    ensures AllComplete(dom, Undo(w, s, op)) && Undo(w, s, op).schemas == s.schemas
  {
    hide Complete, UpdateEach, FtsChange;
    UndoKeeps(w, s, op);
    if op.table in s.tables {
      UndoIsChange(w, s, op);
      LiveRowsLawful(dom, s, op.table, op.rowid);
      if Undo(w, s, op) != s {
        ChangeKeepsAllComplete(dom, s, Undo(w, s, op), op.table, op.rowid, TakenOut(s, op), Restores(op));
      }
    } else {
      assert Undo(w, s, op) == s;
    }
  }

  lemma {:induction false} RunKeepsComplete(dom: Domains, w: World, s: State, tx: TxId, floor: map<string, int>,
      steps: seq<Step>)
    requires LawfulDomains(dom) && AllNamesDistinct(s) && AllComplete(dom, s)
    requires Ready(s, tx) && LegalRun(w, s, tx, floor, steps) && StepsLawful(dom, s.schemas, steps)
    ensures AllComplete(dom, Replay(w, s, tx, steps))
    decreases |steps|
  {
    hide AllComplete, Apply, Follows, Ready;
    if steps != [] {
      var before := steps[..|steps| - 1];
      RunKeepsComplete(dom, w, s, tx, floor, before);
      RunKeeps(w, s, tx, floor, before);
      var s1 := Replay(w, s, tx, before);
      FollowsFrame(s, s1, tx);
      StepKeepsComplete(dom, w, s1, tx, steps[|steps| - 1]);
    }
  }

  lemma FollowsFrame(s: State, s': State, tx: TxId)
    requires Follows(s, s', tx)
    ensures s'.schemas == s.schemas && s'.tables.Keys == s.tables.Keys && s'.fts.Keys == s.fts.Keys
  {
  }

  lemma {:induction false} UndoAllKeepsComplete(dom: Domains, w: World, s: State, ops: seq<UndoOp>)
    requires LawfulDomains(dom) && AllNamesDistinct(s) && AllComplete(dom, s) && OpsLawful(dom, s.schemas, ops)
    ensures AllComplete(dom, UndoAll(w, s, ops))
    decreases |ops|
  {
    hide AllComplete, Undo;
    if ops != [] {
      UndoKeepsComplete(dom, w, s, ops[|ops| - 1]);
      UndoAllKeepsComplete(dom, w, Undo(w, s, ops[|ops| - 1]), ops[..|ops| - 1]);
    }
  }

  lemma StepJournalLawful(dom: Domains, w: World, s: State, tx: TxId, step: Step)
    requires tx in s.active && OpsLawful(dom, s.schemas, s.active[tx]) && StepLawful(dom, s.schemas, step)
    ensures tx in Apply(w, s, tx, step).active && Apply(w, s, tx, step).schemas == s.schemas
    ensures OpsLawful(dom, s.schemas, Apply(w, s, tx, step).active[tx])
  {
    hide UpdateEach, FtsChange, RowLawful;
  }

  /** The journal of a lawful run is lawful. */
  lemma {:induction false} JournalLawful(dom: Domains, w: World, s: State, tx: TxId, steps: seq<Step>)
    requires tx in s.active && OpsLawful(dom, s.schemas, s.active[tx]) && StepsLawful(dom, s.schemas, steps)
    ensures tx in Replay(w, s, tx, steps).active && Replay(w, s, tx, steps).schemas == s.schemas
    ensures OpsLawful(dom, s.schemas, Replay(w, s, tx, steps).active[tx])
    decreases |steps|
  {
    hide Apply, OpsLawful, StepLawful;
    if steps != [] {
      JournalLawful(dom, w, s, tx, steps[..|steps| - 1]);
      StepJournalLawful(dom, w, Replay(w, s, tx, steps[..|steps| - 1]), tx, steps[|steps| - 1]);
    }
  }

  /** Any run of a transaction, with any cascade of stale captures, and then its
      rollback: at both ends no lookup misses a live row. */
  lemma {:induction false} CompleteThroughout(dom: Domains, w: World, s: State, tx: TxId, floor: map<string, int>,
      steps: seq<Step>)
    requires LawfulDomains(dom) && AllNamesDistinct(s) && AllComplete(dom, s)
    requires Ready(s, tx) && LegalRun(w, s, tx, floor, steps)
    requires StepsLawful(dom, s.schemas, steps) && OpsLawful(dom, s.schemas, s.active[tx])
    ensures AllComplete(dom, Replay(w, s, tx, steps))
    ensures AllComplete(dom, Rollback(w, Replay(w, s, tx, steps), tx).0)
  {
    hide Complete, UndoAll, Replay;
    RunKeepsComplete(dom, w, s, tx, floor, steps);
    JournalLawful(dom, w, s, tx, steps);
    var s1 := Replay(w, s, tx, steps);
    var ended := s1.(active := s1.active - {tx});
    assert AllComplete(dom, ended);
    UndoAllKeepsComplete(dom, w, ended, s1.active[tx]);
  }

  /** What completeness buys: an equality lookup finds every row whose value is
      `==` to the one sought, and lists no row twice. */
  lemma {:induction false} LookupNeverMisses(d: iset<Value>, b: Tree.BTree, rows: Table, idx: IndexDef, r: RowId,
      sought: Value)
    requires Lawful(d) && Complete(d, b, rows, idx) && sought in d
    requires r in rows && idx.columns != []
    requires rows[r].Has(idx.columns[0]) && Same(rows[r].vals[idx.columns[0]], sought)
    ensures r in Tree.Ids(b, sought) && Tree.NoDup(Tree.Ids(b, sought))
  {
    var v := rows[r].vals[idx.columns[0]];
    assert IndexValue(idx, rows[r]) == Some(v);
    CompareEqualExactly(v, sought);
    Tree.IdsRespectEqual(d, b, v, sought);
    Tree.IdsNoDup(d, b, sought);
  }
}
