/** Indexes built from rows that are already there: by CREATE INDEX, and when a
    snapshot is loaded, which holds rows and schemas but no index. */
module Rebuilding {
  import opened Wrappers
  import opened Values
  import opened Externals
  import opened Store
  import opened Indexing
  import opened Exactness
  import opened Runs
  import Tree = OrderedIndex
  import FullText

  // ---------------------------------------------------------------- one index

  /** Adds an id without looking whether it is there. */
  function Append(b: Tree.BTree, v: Value, r: RowId): Tree.BTree {
    if b == [] then [Tree.Entry(v, [r])]
    else match Compare(v, b[0].key)
      case Less => [Tree.Entry(v, [r])] + b
      case Equal => [b[0].(ids := b[0].ids + [r])] + b[1..]
      case Greater => [b[0]] + Append(b[1..], v, r)
  }

  lemma {:induction false} AppendIsAdd(b: Tree.BTree, v: Value, r: RowId)
    requires r !in Tree.Ids(b, v)
    ensures Append(b, v, r) == Tree.Add(b, v, r)
  {
    if b != [] && Compare(v, b[0].key) == Greater { AppendIsAdd(b[1..], v, r); }
  }

  /** The rows visited in `order`, filed under their values. */
  function BuildFrom(rows: Table, order: seq<RowId>, idx: IndexDef): Tree.BTree
    decreases |order|
  {
    if order == [] then []
    else
      var b, r := BuildFrom(rows, order[..|order| - 1], idx), order[|order| - 1];
      if r in rows && IndexValue(idx, rows[r]).Some? then Append(b, IndexValue(idx, rows[r]).value, r) else b
  }

  function Visited(rows: Table, order: seq<RowId>): Table {
    map r | r in rows && r in order :: rows[r]
  }

  lemma VisitOneMore(rows: Table, order: seq<RowId>)
    requires order != [] && Tree.NoDup(order)
    ensures var before, r := order[..|order| - 1], order[|order| - 1];
            && Tree.NoDup(before) && RowIn(Visited(rows, before), r).None?
            && Visited(rows, order) ==
                 if r in rows then SetRow(Visited(rows, before), r, Some(rows[r])) else Visited(rows, before)
  {
    var before, r := order[..|order| - 1], order[|order| - 1];
    assert order == before + [r];
    assert r !in before;
  }

  /** A rebuilt index is exact for the rows that were visited. */
  lemma {:induction false} BuildExact(d: iset<Value>, rows: Table, order: seq<RowId>, idx: IndexDef)
    requires Lawful(d) && Tree.NoDup(order)
    requires forall r :: r in rows ==> InDomain(d, IndexValue(idx, rows[r]))
    ensures Exact(d, BuildFrom(rows, order, idx), Visited(rows, order), idx)
    decreases |order|
  {
    hide Tree.Ids, Append, Tree.Add;
    if order == [] {
      NothingFiled(d, rows, idx);
    } else {
      var before, r := order[..|order| - 1], order[|order| - 1];
      VisitOneMore(rows, order);
      BuildExact(d, rows, before, idx);
      var b, seen := BuildFrom(rows, before, idx), Visited(rows, before);
      if r in rows {
        ChangeKeepsExact(d, b, seen, idx, r, Some(rows[r]));
        if IndexValue(idx, rows[r]).Some? {
          var v := IndexValue(idx, rows[r]).value;
          assert r in Tree.Ids(b, v) ==> r in seen;
          AppendIsAdd(b, v, r);
        }
      }
    }
  }

  lemma NothingFiled(d: iset<Value>, rows: Table, idx: IndexDef)
    ensures Exact(d, [], Visited(rows, []), idx)
  {
    assert forall u: Value :: Tree.Ids([], u) == [];
  }

  /** `rebuild_index` clears the index and visits every row of the table. */
  function RebuildIndex(w: World, s: State, t: string, idx: IndexDef): State {
    if t in s.tables then
      s.(indexes := s.indexes[IndexId(t, idx.name) := BuildFrom(s.tables[t], w.scan(s.scans, s.tables[t]), idx)],
        scans := s.scans + 1)
    else s
  }

  ghost predicate ColumnLawful(d: iset<Value>, rows: Table, idx: IndexDef) {
    Lawful(d) && forall r :: r in rows ==> InDomain(d, IndexValue(idx, rows[r]))
  }

  lemma RebuildExact(d: iset<Value>, w: World, s: State, t: string, idx: IndexDef)
    requires w.ScansOnce() && t in s.tables && ColumnLawful(d, s.tables[t], idx)
    ensures var s', id := RebuildIndex(w, s, t, idx), IndexId(t, idx.name);
            && Exact(d, TreeOf(s'.indexes, id), s.tables[t], idx)
            && (forall other :: other != id ==> TreeOf(s'.indexes, other) == TreeOf(s.indexes, other))
  {
    hide BuildFrom;
    var order := w.scan(s.scans, s.tables[t]);
    BuildExact(d, s.tables[t], order, idx);
    assert forall r :: r in order <==> r in s.tables[t];
    assert Visited(s.tables[t], order) == s.tables[t];
  }

  // ---------------------------------------------------------------- CREATE INDEX

  /** CREATE INDEX: `None` for an error (no such table, or the name is taken). */
  function CreateIndex(w: World, s: State, t: string, idx: IndexDef, ifNotExists: bool): Option<State> {
    if t !in s.schemas then None
    else if exists i :: 0 <= i < |s.schemas[t].indices| && s.schemas[t].indices[i].name == idx.name then
      if ifNotExists then Some(s) else None
    else
      var schema := s.schemas[t].(indices := s.schemas[t].indices + [idx]);
      Some(RebuildIndex(w, s.(schemas := s.schemas[t := schema]), t, idx))
  }

  /** An index created on a table that has rows covers all of them at once, and
      the other indexes stay as they were. */
  lemma CreateIndexExact(dom: Domains, w: World, s: State, t: string, idx: IndexDef, ifNotExists: bool)
    requires w.ScansOnce() && AllNamesDistinct(s) && AllExact(dom, s)
    requires t in s.tables ==> ColumnLawful(dom(IndexId(t, idx.name)), s.tables[t], idx)
    ensures var made := CreateIndex(w, s, t, idx, ifNotExists);
            made.Some? ==> AllNamesDistinct(made.value) && AllExact(dom, made.value) && made.value.tables == s.tables
  {
    hide Exact, BuildFrom, ColumnLawful;
    var made := CreateIndex(w, s, t, idx, ifNotExists);
    if made.Some? && made.value != s {
      var s' := made.value;
      var with := s.(schemas := s'.schemas);
      if t in s.tables {
        RebuildExact(dom(IndexId(t, idx.name)), w, with, t, idx);
      }
      forall u, i | u in s'.tables && 0 <= i < |IndicesOf(s'.schemas, u)|
        ensures var x := IndicesOf(s'.schemas, u)[i];
                Exact(dom(IndexId(u, x.name)), TreeOf(s'.indexes, IndexId(u, x.name)), s'.tables[u], x)
      {
        if u != t || i < |IndicesOf(s.schemas, u)| {
          var x := IndicesOf(s.schemas, u)[i];
          assert Exact(dom(IndexId(u, x.name)), TreeOf(s.indexes, IndexId(u, x.name)), s.tables[u], x);
        }
      }
    }
  }

  // ---------------------------------------------------------------- full text

  function BuildFts(w: World, rows: Table, order: seq<RowId>, f: FtsTable): FtsTable
    decreases |order|
  {
    if order == [] then f
    else
      var g, r := BuildFts(w, rows, order[..|order| - 1], f), order[|order| - 1];
      if r in rows then FtsPut(w, g, r, rows[r]) else g
  }

  /** The full-text index built from restored rows is exact for them. */
  lemma {:induction false} BuildFtsExact(w: World, rows: Table, order: seq<RowId>, column: string)
    requires Tree.NoDup(order)
    ensures var f := BuildFts(w, rows, order, FtsTable(FullText.EMPTY_FTS, column));
            f.column == column && FtsExact(w, f, Visited(rows, order))
    decreases |order|
  {
    hide FtsExact, FtsPut;
    var empty := FtsTable(FullText.EMPTY_FTS, column);
    if order == [] {
      EmptyFtsExact(w, rows, column);
    } else {
      var before, r := order[..|order| - 1], order[|order| - 1];
      VisitOneMore(rows, order);
      BuildFtsExact(w, rows, before, column);
      if r in rows {
        PutKeepsFts(w, BuildFts(w, rows, before, empty), Visited(rows, before), r, rows[r]);
        FtsPutColumn(w, BuildFts(w, rows, before, empty), r, rows[r]);
      }
    }
  }

  lemma FtsPutColumn(w: World, f: FtsTable, r: RowId, row: Row)
    ensures FtsPut(w, f, r, row).column == f.column
  {
  }

  lemma EmptyFtsExact(w: World, rows: Table, column: string)
    ensures FtsExact(w, FtsTable(FullText.EMPTY_FTS, column), Visited(rows, []))
  {
    assert DocsOf(w, Visited(rows, []), column) == map[];
  }

  // ---------------------------------------------------------------- snapshots

  /** One table of a snapshot. */
  datatype Saved = Saved(name: string, schema: Option<Schema>, rows: seq<(RowId, Row)>)

  function PutAll(table: Table, rows: seq<(RowId, Row)>): Table
    decreases |rows|
  {
    if rows == [] then table
    else
      var last := rows[|rows| - 1];
      PutAll(table, rows[..|rows| - 1])[last.0 := last.1]
  }

  function MaxRowId(rows: seq<(RowId, Row)>): int
    decreases |rows|
  {
    if rows == [] then 0
    else
      var m, r := MaxRowId(rows[..|rows| - 1]), rows[|rows| - 1].0;
      if r > m then r else m
  }

  /** Never moves a counter back. */
  function SetMinNextRowId(s: State, t: string, min: int): State {
    s.(counters := s.counters[t := if CounterOf(s, t) < min then min else CounterOf(s, t)])
  }

  function RebuildEach(w: World, s: State, t: string, defs: seq<IndexDef>): State
    decreases defs
  {
    if defs == [] then s else RebuildEach(w, RebuildIndex(w, s, t, defs[0]), t, defs[1..])
  }

  /** The state just before the indexes of a restored table are rebuilt. */
  function Reloaded(s: State, saved: Saved): State {
    var t := saved.name;
    var s1 := if saved.schema.Some? then s.(schemas := s.schemas[t := saved.schema.value]) else s;
    var s2 := s1.(tables := s1.tables[t := PutAll(if t in s1.tables then s1.tables[t] else map[], saved.rows)]);
    SetMinNextRowId(s2, t, MaxRowId(saved.rows) + 1)
  }

  function RestoreTable(w: World, s: State, saved: Saved): State {
    var s1 := Reloaded(s, saved);
    RebuildEach(w, s1, saved.name, IndicesOf(s1.schemas, saved.name))
  }

  function RestoreAll(w: World, s: State, dump: seq<Saved>): State
    decreases |dump|
  {
    if dump == [] then s
    else RestoreTable(w, RestoreAll(w, s, dump[..|dump| - 1]), dump[|dump| - 1])
  }

  /** The rows of a table, each once, in any order. */
  ghost predicate Lists(rows: seq<(RowId, Row)>, table: Table) {
    && (forall i, j :: 0 <= i < j < |rows| ==> rows[i].0 != rows[j].0)
    && (forall i :: 0 <= i < |rows| ==> rows[i].0 in table && table[rows[i].0] == rows[i].1)
    && (forall r :: r in table ==> exists i :: 0 <= i < |rows| && rows[i].0 == r)
  }

  /** What a snapshot of `s` holds: every table once, with its schema and rows. */
  ghost predicate Snapshot(s: State, dump: seq<Saved>) {
    && (forall i, j :: 0 <= i < j < |dump| ==> dump[i].name != dump[j].name)
    && (forall i :: 0 <= i < |dump| ==>
          && dump[i].name in s.tables
          && dump[i].schema == (if dump[i].name in s.schemas then Some(s.schemas[dump[i].name]) else None)
          && Lists(dump[i].rows, s.tables[dump[i].name]))
    && (forall t :: t in s.tables ==> exists i :: 0 <= i < |dump| && dump[i].name == t)
  }

  lemma {:induction false} PutAllAt(table: Table, rows: seq<(RowId, Row)>, r: RowId)
    requires forall i, j :: 0 <= i < j < |rows| ==> rows[i].0 != rows[j].0
    ensures forall i :: 0 <= i < |rows| && rows[i].0 == r ==>
              r in PutAll(table, rows) && PutAll(table, rows)[r] == rows[i].1
    ensures (forall i :: 0 <= i < |rows| ==> rows[i].0 != r) ==> RowIn(PutAll(table, rows), r) == RowIn(table, r)
    decreases |rows|
  {
    if rows != [] { PutAllAt(table, rows[..|rows| - 1], r); }
  }

  lemma SameRows(a: Table, b: Table)
    requires forall r: RowId :: RowIn(a, r) == RowIn(b, r)
    ensures a == b
  {
    forall r: RowId ensures r in a <==> r in b {
      assert RowIn(a, r) == RowIn(b, r);
    }
    forall r | r in a ensures a[r] == b[r] {
      assert RowIn(a, r) == RowIn(b, r);
    }
  }

  lemma PutAllLists(rows: seq<(RowId, Row)>, table: Table)
    requires Lists(rows, table)
    ensures PutAll(map[], rows) == table
  {
    hide PutAll;
    forall r: RowId ensures RowIn(PutAll(map[], rows), r) == RowIn(table, r) {
      PutAllAt(map[], rows, r);
      if r in table {
        var i :| 0 <= i < |rows| && rows[i].0 == r;
        assert PutAll(map[], rows)[r] == rows[i].1;
      } else {
        assert forall i :: 0 <= i < |rows| ==> rows[i].0 != r;
      }
    }
    SameRows(PutAll(map[], rows), table);
  }

  lemma {:induction false} MaxIsMax(rows: seq<(RowId, Row)>, i: nat)
    requires i < |rows|
    ensures rows[i].0 <= MaxRowId(rows)
    decreases |rows|
  {
    if i < |rows| - 1 { MaxIsMax(rows[..|rows| - 1], i); }
  }

  lemma {:induction false} RebuildEachExact(dom: Domains, w: World, s: State, t: string, defs: seq<IndexDef>)
    requires w.ScansOnce() && t in s.tables && DistinctNames(defs)
    requires forall i :: 0 <= i < |defs| ==> ColumnLawful(dom(IndexId(t, defs[i].name)), s.tables[t], defs[i])
    ensures var s' := RebuildEach(w, s, t, defs);
            && s' == s.(indexes := s'.indexes, scans := s'.scans)
            && (forall i :: 0 <= i < |defs| ==>
                  Exact(dom(IndexId(t, defs[i].name)), TreeOf(s'.indexes, IndexId(t, defs[i].name)), s.tables[t],
                    defs[i]))
            && (forall id {:trigger TreeOf(s'.indexes, id)} ::
                 (forall i :: 0 <= i < |defs| ==> id != IndexId(t, defs[i].name)) ==>
                  TreeOf(s'.indexes, id) == TreeOf(s.indexes, id))
    decreases defs
  {
    hide Exact, BuildFrom, ColumnLawful, TreeOf;
    if defs != [] {
      var s1 := RebuildIndex(w, s, t, defs[0]);
      RebuildExact(dom(IndexId(t, defs[0].name)), w, s, t, defs[0]);
      var rest := defs[1..];
      assert forall i :: 0 <= i < |rest| ==> rest[i] == defs[i + 1];
      RebuildEachExact(dom, w, s1, t, rest);
      var s' := RebuildEach(w, s, t, defs);
      forall i | 0 <= i < |defs|
        ensures Exact(dom(IndexId(t, defs[i].name)), TreeOf(s'.indexes, IndexId(t, defs[i].name)), s.tables[t], defs[i])
      {
        if i > 0 { assert rest[i - 1] == defs[i]; }
      }
    }
  }

  /** `s` holds some of the tables of `s0`, with their schemas. */
  ghost predicate Copied(s: State, s0: State) {
    && s.schemas.Keys <= s.tables.Keys <= s0.tables.Keys
    && (forall t :: t in s.tables ==> s.tables[t] == s0.tables[t])
    && (forall t :: t in s.tables ==> (t in s.schemas <==> t in s0.schemas))
    && (forall t :: t in s.schemas ==> s.schemas[t] == s0.schemas[t])
  }

  /** The indexed values of `s0` are lawful. */
  ghost predicate AllLawful(dom: Domains, s0: State) {
    forall t, i :: t in s0.tables && 0 <= i < |IndicesOf(s0.schemas, t)| ==>
      ColumnLawful(dom(IndexId(t, IndicesOf(s0.schemas, t)[i].name)), s0.tables[t], IndicesOf(s0.schemas, t)[i])
  }

  /** `s1` is `s` with one more table of `s0`, not yet indexed. */
  ghost predicate OneMore(s: State, s1: State, s0: State, t: string) {
    && t in s0.tables && t !in s.tables
    && s1.tables == s.tables[t := s0.tables[t]]
    && s1.schemas == (if t in s0.schemas then s.schemas[t := s0.schemas[t]] else s.schemas)
    && s1.indexes == s.indexes
    && (forall u :: u != t ==> CounterOf(s1, u) == CounterOf(s, u))
    && (forall r :: r in s0.tables[t] ==> r < CounterOf(s1, t))
  }

  lemma ReloadedIsOneMore(s: State, s0: State, saved: Saved)
    requires saved.name in s0.tables && saved.name !in s.tables && Lists(saved.rows, s0.tables[saved.name])
    requires saved.schema == if saved.name in s0.schemas then Some(s0.schemas[saved.name]) else None
    ensures OneMore(s, Reloaded(s, saved), s0, saved.name)
  {
    hide PutAll, MaxRowId;
    PutAllLists(saved.rows, s0.tables[saved.name]);
    forall r | r in s0.tables[saved.name] ensures r <= MaxRowId(saved.rows) {
      var i :| 0 <= i < |saved.rows| && saved.rows[i].0 == r;
      MaxIsMax(saved.rows, i);
    }
  }

  lemma OneMoreExact(dom: Domains, w: World, s: State, s1: State, s0: State, t: string)
    requires w.ScansOnce() && AllLawful(dom, s0) && AllNamesDistinct(s0) && Copied(s, s0) && AllExact(dom, s)
               && OneMore(s, s1, s0, t)
    ensures AllExact(dom, RebuildEach(w, s1, t, IndicesOf(s1.schemas, t)))
    ensures var s' := RebuildEach(w, s1, t, IndicesOf(s1.schemas, t));
            s' == s1.(indexes := s'.indexes, scans := s'.scans)
  {
    hide Exact, RebuildEach, ColumnLawful, TreeOf;
    var defs := IndicesOf(s1.schemas, t);
    assert defs == IndicesOf(s0.schemas, t);
    RebuildEachExact(dom, w, s1, t, defs);
    var s' := RebuildEach(w, s1, t, defs);
    forall u, i | u in s'.tables && 0 <= i < |IndicesOf(s'.schemas, u)|
      ensures var x := IndicesOf(s'.schemas, u)[i];
              Exact(dom(IndexId(u, x.name)), TreeOf(s'.indexes, IndexId(u, x.name)), s'.tables[u], x)
    {
      if u != t {
        var x := IndicesOf(s.schemas, u)[i];
        assert Exact(dom(IndexId(u, x.name)), TreeOf(s.indexes, IndexId(u, x.name)), s.tables[u], x);
        assert TreeOf(s'.indexes, IndexId(u, x.name)) == TreeOf(s1.indexes, IndexId(u, x.name));
      }
    }
  }

  lemma OneMoreCopied(s: State, s1: State, s': State, s0: State, t: string)
    requires Copied(s, s0) && OneMore(s, s1, s0, t) && s'.tables == s1.tables && s'.schemas == s1.schemas
    ensures Copied(s', s0)
  {
  }

  lemma OneMoreCounters(s: State, s1: State, s': State, s0: State, t: string)
    requires RowsAhead(s) && OneMore(s, s1, s0, t) && s'.tables == s1.tables && s'.counters == s1.counters
    ensures RowsAhead(s')
  {
    forall u, r: RowId | RowAt(s'.tables, u, r).Some? ensures r < CounterOf(s', u) {
      assert CounterOf(s', u) == CounterOf(s1, u);
      if u != t { assert RowAt(s.tables, u, r).Some?; }
    }
  }

  lemma {:induction false} RebuildEachFrame(w: World, s: State, t: string, defs: seq<IndexDef>)
    ensures var s' := RebuildEach(w, s, t, defs); s' == s.(indexes := s'.indexes, scans := s'.scans)
    decreases defs
  {
    hide BuildFrom;
    if defs != [] { RebuildEachFrame(w, RebuildIndex(w, s, t, defs[0]), t, defs[1..]); }
  }

  /** One more table has its rows, its schema and a counter beyond its rows. */
  lemma RestoreTableCopies(w: World, s: State, s0: State, saved: Saved)
    requires Copied(s, s0) && RowsAhead(s)
    requires saved.name in s0.tables && saved.name !in s.tables && Lists(saved.rows, s0.tables[saved.name])
    requires saved.schema == if saved.name in s0.schemas then Some(s0.schemas[saved.name]) else None
    ensures var s' := RestoreTable(w, s, saved);
            && Copied(s', s0) && RowsAhead(s') && OneMore(s, Reloaded(s, saved), s0, saved.name)
            && s'.tables.Keys == s.tables.Keys + {saved.name} && s'.active == s.active && s'.fts == s.fts
  {
    hide RebuildEach, Reloaded, Lists, Copied, RowsAhead;
    var s1, s' := Reloaded(s, saved), RestoreTable(w, s, saved);
    ReloadedIsOneMore(s, s0, saved);
    ReloadedFrame(s, saved);
    RebuildEachFrame(w, s1, saved.name, IndicesOf(s1.schemas, saved.name));
    OneMoreCounters(s, s1, s', s0, saved.name);
    OneMoreCopied(s, s1, s', s0, saved.name);
  }

  lemma ReloadedFrame(s: State, saved: Saved)
    ensures Reloaded(s, saved).active == s.active && Reloaded(s, saved).fts == s.fts
  {
  }

  /** What a snapshot brings back whatever its values. */
  lemma {:induction false} RestoreAllCopies(w: World, s: State, s0: State, dump: seq<Saved>, n: nat)
    requires Snapshot(s0, dump) && n <= |dump| && s.tables == map[] && s.schemas == map[]
    ensures var s' := RestoreAll(w, s, dump[..n]);
            && Copied(s', s0) && RowsAhead(s') && s'.active == s.active && s'.fts == s.fts
            && forall t :: t in s'.tables <==> exists i :: 0 <= i < n && dump[i].name == t
    decreases n
  {
    hide RestoreTable, Reloaded, Lists, Copied, RowsAhead, OneMore;
    if n == 0 {
      EmptyIsCopied(s, s0);
    } else {
      RestoreAllCopies(w, s, s0, dump, n - 1);
      var s1 := RestoreAll(w, s, dump[..n - 1]);
      RestoreAllTurn(w, s, dump, n);
      assert dump[n - 1].name !in s1.tables;
      RestoreTableCopies(w, s1, s0, dump[n - 1]);
    }
  }

  lemma RestoreAllTurn(w: World, s: State, dump: seq<Saved>, n: nat)
    requires 0 < n <= |dump|
    ensures RestoreAll(w, s, dump[..n]) == RestoreTable(w, RestoreAll(w, s, dump[..n - 1]), dump[n - 1])
  {
    hide RestoreTable;
    assert dump[..n][..n - 1] == dump[..n - 1] && dump[..n][n - 1] == dump[n - 1];
  }

  lemma EmptyIsCopied(s: State, s0: State)
    requires s.tables == map[] && s.schemas == map[]
    ensures Copied(s, s0) && RowsAhead(s)
  {
  }

  /** And if its values are lawful, with exact indexes. */
  lemma {:induction false} RestoreAllExact(dom: Domains, w: World, s: State, s0: State, dump: seq<Saved>, n: nat)
    requires w.ScansOnce() && AllLawful(dom, s0) && AllNamesDistinct(s0) && Snapshot(s0, dump) && n <= |dump|
    requires s.tables == map[] && s.schemas == map[]
    ensures AllExact(dom, RestoreAll(w, s, dump[..n]))
    decreases n
  {
    hide AllExact, AllLawful, Lists, Copied, RowsAhead, OneMore, Reloaded, RebuildEach;
    if n == 0 {
      NothingToIndex(dom, s);
    } else {
      RestoreAllExact(dom, w, s, s0, dump, n - 1);
      RestoreAllCopies(w, s, s0, dump, n - 1);
      RestoreAllTurn(w, s, dump, n);
      var s1 := RestoreAll(w, s, dump[..n - 1]);
      RestoreTableCopies(w, s1, s0, dump[n - 1]);
      OneMoreExact(dom, w, s1, Reloaded(s1, dump[n - 1]), s0, dump[n - 1].name);
    }
  }

  lemma NothingToIndex(dom: Domains, s: State)
    requires s.tables == map[]
    ensures AllExact(dom, s)
  {
  }

  // ---------------------------------------------------------------- full-text tables of a snapshot

  /** A full-text table is registered anew and filled from its rows. */
  function RefillFts(w: World, s: State, saved: Saved): State {
    var t := saved.name;
    if saved.schema.None? || saved.schema.value.ftsColumn.None? then s
    else
      var empty := FtsTable(FullText.EMPTY_FTS, saved.schema.value.ftsColumn.value);
      if t !in s.tables then s.(fts := s.fts[t := empty])
      else s.(fts := s.fts[t := BuildFts(w, s.tables[t], w.scan(s.scans, s.tables[t]), empty)], scans := s.scans + 1)
  }

  function RefillAllFts(w: World, s: State, dump: seq<Saved>): State
    decreases |dump|
  {
    if dump == [] then s
    else RefillFts(w, RefillAllFts(w, s, dump[..|dump| - 1]), dump[|dump| - 1])
  }

  /** First all tables, then the full-text indexes. */
  function LoadSnapshot(w: World, s: State, dump: seq<Saved>): State {
    RefillAllFts(w, RestoreAll(w, s, dump), dump)
  }

  predicate HasFts(saved: Saved) {
    saved.schema.Some? && saved.schema.value.ftsColumn.Some?
  }

  ghost predicate FtsRefilled(w: World, s: State, saved: Saved) {
    HasFts(saved) ==>
      && saved.name in s.fts && saved.name in s.tables && s.fts[saved.name].column == saved.schema.value.ftsColumn.value
      && FtsExact(w, s.fts[saved.name], s.tables[saved.name])
  }

  lemma RefillOne(w: World, s: State, saved: Saved)
    requires w.ScansOnce() && saved.name in s.tables
    ensures var s' := RefillFts(w, s, saved);
            && s' == s.(fts := s'.fts, scans := s'.scans) && FtsRefilled(w, s', saved)
            && (forall t :: t in s'.fts <==> t in s.fts || (HasFts(saved) && t == saved.name))
            && (forall t :: t in s.fts && t != saved.name ==> s'.fts[t] == s.fts[t])
  {
    hide BuildFts, FtsExact;
    if HasFts(saved) {
      var rows, order := s.tables[saved.name], w.scan(s.scans, s.tables[saved.name]);
      BuildFtsExact(w, rows, order, saved.schema.value.ftsColumn.value);
      assert forall r :: r in order <==> r in rows;
      assert Visited(rows, order) == rows;
    }
  }

  lemma {:induction false} RefillAll(w: World, s: State, dump: seq<Saved>, n: nat)
    requires w.ScansOnce() && n <= |dump| && s.fts == map[]
    requires forall i, j :: 0 <= i < j < |dump| ==> dump[i].name != dump[j].name
    requires forall i :: 0 <= i < |dump| ==> dump[i].name in s.tables
    ensures var s' := RefillAllFts(w, s, dump[..n]);
            && s' == s.(fts := s'.fts, scans := s'.scans)
            && (forall i :: 0 <= i < n ==> FtsRefilled(w, s', dump[i]))
            && (forall t :: t in s'.fts ==> exists i :: 0 <= i < n && dump[i].name == t && HasFts(dump[i]))
    decreases n
  {
    hide RefillFts, FtsExact;
    if n == 0 {
      assert dump[..0] == [];
    } else {
      RefillAll(w, s, dump, n - 1);
      assert dump[..n][..n - 1] == dump[..n - 1] && dump[..n][n - 1] == dump[n - 1];
      RefillOne(w, RefillAllFts(w, s, dump[..n - 1]), dump[n - 1]);
    }
  }

  /** `s` has the tables of `s0`, their schemas, and a full-text index for every
      table whose schema asks for one. */
  ghost predicate SameTablesAndSchemas(s: State, s0: State) {
    && s.tables == s0.tables
    && (forall t :: t in s0.tables ==> (t in s.schemas <==> t in s0.schemas))
    && (forall t :: t in s0.tables && t in s0.schemas ==> s.schemas[t] == s0.schemas[t])
    && (forall t :: t in s0.tables && t in s0.schemas && s0.schemas[t].ftsColumn.Some? ==>
          t in s.fts && s.fts[t].column == s0.schemas[t].ftsColumn.value)
  }

  /** Loading a snapshot into an empty engine brings back every table with its
      schema and full-text index, and counters beyond every restored row id. */
  lemma {:induction false} SnapshotCopies(w: World, s: State, s0: State, dump: seq<Saved>)
    requires w.ScansOnce() && Snapshot(s0, dump)
    requires s.tables == map[] && s.schemas == map[] && s.fts == map[] && s.active == map[]
    ensures var s' := LoadSnapshot(w, s, dump);
            SameTablesAndSchemas(s', s0) && s'.schemas.Keys <= s'.tables.Keys && AllFtsExact(w, s') && Ahead(s')
              && s'.active == map[]
  {
    hide RestoreAll, Lists, FtsExact, RefillAllFts, RowAt;
    assert dump[..|dump|] == dump;
    RestoreAllCopies(w, s, s0, dump, |dump|);
    var s1 := RestoreAll(w, s, dump);
    assert s1.tables.Keys == s0.tables.Keys;
    RefillAll(w, s1, dump, |dump|);
    var s' := LoadSnapshot(w, s, dump);
    assert s'.tables == s0.tables;
    forall t | t in s'.fts && t in s'.tables ensures FtsExact(w, s'.fts[t], s'.tables[t]) {
      var i :| 0 <= i < |dump| && dump[i].name == t && HasFts(dump[i]);
      assert FtsRefilled(w, s', dump[i]);
    }
    forall t | t in s0.tables && t in s0.schemas && s0.schemas[t].ftsColumn.Some?
      ensures t in s'.fts && s'.fts[t].column == s0.schemas[t].ftsColumn.value
    {
      var i :| 0 <= i < |dump| && dump[i].name == t;
      assert FtsRefilled(w, s', dump[i]) && HasFts(dump[i]);
    }
    assert RowsAhead(s1);
  }

  /** If the indexed values are lawful, with all indexes of both kinds exact. */
  lemma {:induction false} SnapshotRoundTrip(dom: Domains, w: World, s: State, s0: State, dump: seq<Saved>)
    requires w.ScansOnce() && AllLawful(dom, s0) && AllNamesDistinct(s0) && Snapshot(s0, dump)
    requires s.tables == map[] && s.schemas == map[] && s.fts == map[] && s.active == map[]
    ensures var s' := LoadSnapshot(w, s, dump);
            SameTablesAndSchemas(s', s0) && Consistent(dom, w, s') && Ahead(s')
  {
    hide RestoreAll, AllLawful, Lists, RefillAllFts, Ahead, SameTablesAndSchemas;
    SnapshotCopies(w, s, s0, dump);
    assert dump[..|dump|] == dump;
    RestoreAllCopies(w, s, s0, dump, |dump|);
    RestoreAllExact(dom, w, s, s0, dump, |dump|);
    var s1 := RestoreAll(w, s, dump);
    RefillAll(w, s1, dump, |dump|);
    SameIndexes(dom, s1, LoadSnapshot(w, s, dump));
  }

  lemma SameIndexes(dom: Domains, s: State, s': State)
    requires AllExact(dom, s) && s'.tables == s.tables && s'.schemas == s.schemas && s'.indexes == s.indexes
    ensures AllExact(dom, s')
  {
  }
}
