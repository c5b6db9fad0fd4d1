/** Answering a single-table SELECT from a secondary index.

    The WHERE is applied again to whatever the index lists, so the only thing
    that can go wrong is that the index does not list a row the WHERE selects.
    This module proves exactly that, and gives conditions under which it cannot
    happen. */
module FastPath {
  import opened Wrappers
  import opened Values
  import opened Externals
  import opened Expressions
  import opened Store
  import opened Constraints
  import opened Interpreter
  import opened Indexing
  import opened Placeholders
  import Tree = OrderedIndex

  // ---------------------------------------------------------------- the two paths

  const ROWID := "_rowid_"

  /** A row with its id in the internal column. */
  function Tagged(row: Row, r: RowId): Row {
    row.Put(ROWID, Integer(r))
  }

  function RowsFromIds(rows: Table, ids: seq<RowId>): seq<Row>
    decreases ids
  {
    if ids == [] then []
    else (if ids[0] in rows then [Tagged(rows[ids[0]], ids[0])] else []) + RowsFromIds(rows, ids[1..])
  }

  function Filter(w: World, hits: Hits, rows: seq<Row>, e: Expr, params: seq<Value>): seq<Row>
    decreases rows
  {
    if rows == [] then []
    else (if EvalWhere(w, hits, rows[0], e, params, 0).0 then [rows[0]] else []) + Filter(w, hits, rows[1..], e, params)
  }

  predicate IsColumn(e: Expr) {
    e.Column? || e.Qualified?
  }

  /** `col = <something>` or `<something> = col`; the something is evaluated
      without a row. Only a bare column is refused on the other side. */
  function SimpleEquality(w: World, e: Expr, params: seq<Value>): Option<(string, Value)> {
    if !(e.Binary? && e.op.Eq?) then None
    else if e.left.Column? && !IsColumn(e.right) then Some((e.left.name, Eval(w, e.right, None, params, 0).0))
    else if e.right.Column? && !IsColumn(e.left) then Some((e.right.name, Eval(w, e.left, None, params, 0).0))
    else None
  }

  /** The bounds of `col OP v`. */
  function BoundsOf(op: BinOp, v: Value): Option<(Tree.Bound, Tree.Bound)> {
    match op
    case Gt => Some((Tree.Excluded(v), Tree.Unbounded))
    case GtEq => Some((Tree.Included(v), Tree.Unbounded))
    case Lt => Some((Tree.Unbounded, Tree.Excluded(v)))
    case LtEq => Some((Tree.Unbounded, Tree.Included(v)))
    case _ => None
  }

  function Mirror(op: BinOp): BinOp {
    match op
    case Gt => Lt
    case GtEq => LtEq
    case Lt => Gt
    case LtEq => GtEq
    case _ => op
  }

  datatype ColumnRange = ColumnRange(column: string, lower: Tree.Bound, upper: Tree.Bound)

  /** One comparison of a column with something, in either orientation, or a
      BETWEEN; both bounds of a BETWEEN are evaluated with the counter at 0. */
  function SimpleRange(w: World, e: Expr, params: seq<Value>): Option<ColumnRange> {
    if e.Binary? then
      if e.left.Column? && !IsColumn(e.right) then
        var b := BoundsOf(e.op, Eval(w, e.right, None, params, 0).0);
        if b.Some? then Some(ColumnRange(e.left.name, b.value.0, b.value.1)) else None
      else if e.right.Column? && !IsColumn(e.left) then
        var b := BoundsOf(Mirror(e.op), Eval(w, e.left, None, params, 0).0);
        if b.Some? then Some(ColumnRange(e.right.name, b.value.0, b.value.1)) else None
      else None
    else if e.Between? && !e.negated && e.e.Column? then
      Some(ColumnRange(e.e.name, Tree.Included(Eval(w, e.low, None, params, 0).0),
        Tree.Included(Eval(w, e.high, None, params, 0).0)))
    else None
  }

  datatype Plan =
    | FullScan
    | ByKey(idx: IndexDef, key: Value)
    | ByRange(idx: IndexDef, lower: Tree.Bound, upper: Tree.Bound)

  function PlanFor(w: World, defs: seq<IndexDef>, e: Expr, params: seq<Value>): Plan {
    var eq := SimpleEquality(w, e, params);
    var rg := SimpleRange(w, e, params);
    if eq.Some? && FindIndex(defs, eq.value.0).Some? then ByKey(FindIndex(defs, eq.value.0).value, eq.value.1)
    else if rg.Some? && FindIndex(defs, rg.value.column).Some? then
      ByRange(FindIndex(defs, rg.value.column).value, rg.value.lower, rg.value.upper)
    else FullScan
  }

  predicate PlanRunsBackwards(p: Plan) {
    p.ByRange? && Tree.RunsBackwards(p.lower, p.upper)
  }

  /** The row ids a plan visits. */
  function Listed(w: World, s: State, t: string, p: Plan): seq<RowId> {
    match p
    case FullScan => ScanOrder(w, s, t)
    case ByKey(idx, key) => Tree.Ids(TreeOf(s.indexes, IndexId(t, idx.name)), key)
    case ByRange(idx, lo, hi) => Tree.Range(TreeOf(s.indexes, IndexId(t, idx.name)), lo, hi)
  }

  /** SELECT * FROM t WHERE e, following a plan. */
  function Answer(w: World, s: State, t: string, p: Plan, e: Expr, params: seq<Value>): seq<Row>
    requires t in s.tables
  {
    Filter(w, FtsHits(w, s.fts), RowsFromIds(s.tables[t], Listed(w, s, t, p)), e, params)
  }

  /** `col OP x` or `x OP col`, where `x` is no column and OP is `=` or an inequality,
      or `col BETWEEN low AND high`. */
  ghost predicate Plannable(e: Expr, column: string) {
    || (e.Binary? && (e.op.Eq? || e.op.Lt? || e.op.LtEq? || e.op.Gt? || e.op.GtEq?)
        && ((e.left == Column(column) && !e.right.Column? && !e.right.Qualified?)
            || (e.right == Column(column) && !e.left.Column? && !e.left.Qualified?)))
    || (e.Between? && !e.negated && e.e == Column(column))
  }

  lemma {:induction false} IndexFound(defs: seq<IndexDef>, column: string)
    ensures FindIndex(defs, column).Some? <==> exists i :: 0 <= i < |defs| && defs[i].columns == [column]
    decreases defs
  {
    if defs != [] {
      IndexFound(defs[1..], column);
      assert forall i :: 0 < i < |defs| ==> defs[i] == defs[1..][i - 1];
    }
  }

  /** An index is used for those conditions only, and for all of them whose column has an
      index of its own; NOT BETWEEN, for one, is always a scan. */
  lemma PlannedExactly(w: World, defs: seq<IndexDef>, e: Expr, params: seq<Value>)
    ensures PlanFor(w, defs, e, params) != FullScan <==>
              exists column, i :: Plannable(e, column) && 0 <= i < |defs| && defs[i].columns == [column]
  {
    hide Eval, FindIndex;
    forall column
      ensures FindIndex(defs, column).Some? <==> exists i :: 0 <= i < |defs| && defs[i].columns == [column]
    {
      IndexFound(defs, column);
    }
    forall column | Plannable(e, column)
      ensures PlanFor(w, defs, e, params) != FullScan <==> FindIndex(defs, column).Some?
    {
    }
    if PlanFor(w, defs, e, params) != FullScan {
      var column := if e.Between? then e.e.name else if e.left.Column? then e.left.name else e.right.name;
      assert Plannable(e, column);
    }
  }

  // ---------------------------------------------------------------- membership

  /** The WHERE selects the row stored under `r`. */
  ghost predicate Selected(w: World, s: State, t: string, e: Expr, params: seq<Value>, r: RowId) {
    t in s.tables && r in s.tables[t]
    && EvalWhere(w, FtsHits(w, s.fts), Tagged(s.tables[t][r], r), e, params, 0).0
  }

  /** The part of an answer that the first listed id contributes. */
  lemma AnswerStep(w: World, hits: Hits, rows: Table, ids: seq<RowId>, e: Expr, params: seq<Value>)
    requires ids != []
    ensures Filter(w, hits, RowsFromIds(rows, ids), e, params) ==
              (if ids[0] in rows && EvalWhere(w, hits, Tagged(rows[ids[0]], ids[0]), e, params, 0).0
                then [Tagged(rows[ids[0]], ids[0])] else [])
              + Filter(w, hits, RowsFromIds(rows, ids[1..]), e, params)
  {
    hide EvalWhere, Tagged;
    if ids[0] in rows {
      assert RowsFromIds(rows, ids)[1..] == RowsFromIds(rows, ids[1..]);
    } else {
      assert RowsFromIds(rows, ids) == RowsFromIds(rows, ids[1..]);
    }
  }

  lemma {:induction false} AnswerMember(w: World, hits: Hits, rows: Table, ids: seq<RowId>, e: Expr,
      params: seq<Value>, x: Row)
    ensures x in Filter(w, hits, RowsFromIds(rows, ids), e, params) <==>
              exists r :: r in ids && r in rows && x == Tagged(rows[r], r) && EvalWhere(w, hits, x, e, params, 0).0
    decreases ids
  {
    hide EvalWhere, Tagged;
    if ids != [] {
      hide Filter, RowsFromIds;
      AnswerStep(w, hits, rows, ids, e, params);
      AnswerMember(w, hits, rows, ids[1..], e, params, x);
      assert ids == [ids[0]] + ids[1..];
    }
  }

  lemma TagsDiffer(a: Row, r: RowId, b: Row, x: RowId)
    requires Tagged(a, r) == Tagged(b, x)
    ensures r == x
  {
    assert Tagged(a, r).vals[ROWID] == Integer(r);
    assert Tagged(b, x).vals[ROWID] == Integer(x);
  }

  lemma BagOfConcat<T>(a: seq<T>, b: seq<T>, x: T)
    ensures multiset(a + b)[x] == multiset(a)[x] + multiset(b)[x]
  {
  }

  lemma BagOfTail<T>(s: seq<T>, x: T)
    requires s != []
    ensures multiset(s)[x] == (if s[0] == x then 1 else 0) + multiset(s[1..])[x]
  {
    assert s == [s[0]] + s[1..];
  }

  /** A stored row comes back as often as its id is listed, if it is selected. */
  lemma {:induction false} AnswerCount(w: World, hits: Hits, rows: Table, ids: seq<RowId>, e: Expr,
      params: seq<Value>, r: RowId)
    requires r in rows
    ensures multiset(Filter(w, hits, RowsFromIds(rows, ids), e, params))[Tagged(rows[r], r)] ==
              if EvalWhere(w, hits, Tagged(rows[r], r), e, params, 0).0 then multiset(ids)[r] else 0
    decreases ids
  {
    hide EvalWhere, Tagged;
    if ids != [] {
      hide Filter, RowsFromIds;
      var x, y, rest := ids[0], Tagged(rows[r], r), Filter(w, hits, RowsFromIds(rows, ids[1..]), e, params);
      AnswerStep(w, hits, rows, ids, e, params);
      AnswerCount(w, hits, rows, ids[1..], e, params, r);
      BagOfTail(ids, r);
      if x in rows && EvalWhere(w, hits, Tagged(rows[x], x), e, params, 0).0 {
        BagOfConcat([Tagged(rows[x], x)], rest, y);
        if x != r && Tagged(rows[x], x) == y { TagsDiffer(rows[x], x, rows[r], r); }
      } else {
        BagOfConcat([], rest, y);
      }
    }
  }

  // ---------------------------------------------------------------- the exact condition

  lemma {:induction false} NoDupCount<T(!new)>(a: seq<T>, x: T)
    requires Tree.NoDup(a)
    ensures multiset(a)[x] == if x in a then 1 else 0
  {
    if a != [] {
      NoDupCount(a[1..], x);
      assert a == [a[0]] + a[1..];
    }
  }

  lemma ScanCount(w: World, s: State, t: string, r: RowId)
    requires w.ScansOnce() && t in s.tables
    ensures multiset(Listed(w, s, t, FullScan))[r] == if r in s.tables[t] then 1 else 0
  {
    NoDupCount(Listed(w, s, t, FullScan), r);
  }

  /** An indexed SELECT returns the rows of the full scan, as a multiset, exactly
      when the index lists every row that the WHERE selects once. */
  lemma FastEqualsScanExactly(w: World, s: State, t: string, p: Plan, e: Expr, params: seq<Value>)
    requires w.ScansOnce() && t in s.tables
    ensures multiset(Answer(w, s, t, p, e, params)) == multiset(Answer(w, s, t, FullScan, e, params)) <==>
              forall r :: Selected(w, s, t, e, params, r) ==> multiset(Listed(w, s, t, p))[r] == 1
  {
    hide EvalWhere, Tagged, Listed;
    var rows, hits := s.tables[t], FtsHits(w, s.fts);
    var fast, slow := Answer(w, s, t, p, e, params), Answer(w, s, t, FullScan, e, params);
    var ids, all := Listed(w, s, t, p), Listed(w, s, t, FullScan);
    forall r | r in rows
      ensures multiset(slow)[Tagged(rows[r], r)] == if Selected(w, s, t, e, params, r) then 1 else 0
      ensures multiset(fast)[Tagged(rows[r], r)] == if Selected(w, s, t, e, params, r) then multiset(ids)[r] else 0
    {
      AnswerCount(w, hits, rows, ids, e, params, r);
      AnswerCount(w, hits, rows, all, e, params, r);
      ScanCount(w, s, t, r);
    }
    if forall r :: Selected(w, s, t, e, params, r) ==> multiset(ids)[r] == 1 {
      forall x ensures multiset(fast)[x] == multiset(slow)[x] {
        AnswerMember(w, hits, rows, ids, e, params, x);
        AnswerMember(w, hits, rows, all, e, params, x);
      }
    }
  }

  /** The ids among these whose rows satisfy the WHERE. */
  function Kept(w: World, hits: Hits, rows: Table, ids: seq<RowId>, e: Expr, params: seq<Value>): seq<RowId>
    decreases ids
  {
    if ids == [] then []
    else
      var rest := Kept(w, hits, rows, ids[1..], e, params);
      if ids[0] in rows && EvalWhere(w, hits, Tagged(rows[ids[0]], ids[0]), e, params, 0).0 then [ids[0]] + rest
      else rest
  }

  lemma NoAnswer(w: World, hits: Hits, rows: Table, e: Expr, params: seq<Value>)
    ensures Filter(w, hits, RowsFromIds(rows, []), e, params) == []
  {
  }

  lemma {:induction false} KeptRows(w: World, hits: Hits, rows: Table, ids: seq<RowId>, e: Expr, params: seq<Value>)
    ensures var kept, out := Kept(w, hits, rows, ids, e, params), Filter(w, hits, RowsFromIds(rows, ids), e, params);
            && |kept| == |out|
            && forall i :: 0 <= i < |kept| ==> kept[i] in rows && out[i] == Tagged(rows[kept[i]], kept[i])
    decreases ids
  {
    hide EvalWhere, Tagged, Filter, RowsFromIds;
    if ids == [] {
      NoAnswer(w, hits, rows, e, params);
    } else {
      var rest, first := Kept(w, hits, rows, ids[1..], e, params), ids[0];
      AnswerStep(w, hits, rows, ids, e, params);
      KeptRows(w, hits, rows, ids[1..], e, params);
      assert Kept(w, hits, rows, ids, e, params) ==
             (if first in rows && EvalWhere(w, hits, Tagged(rows[first], first), e, params, 0).0 then [first] else [])
             + rest;
      hide Kept;
    }
  }

  lemma {:induction false} KeptOnce(w: World, hits: Hits, rows: Table, ids: seq<RowId>, e: Expr, params: seq<Value>)
    ensures forall r :: r in Kept(w, hits, rows, ids, e, params) <==>
              r in ids && r in rows && EvalWhere(w, hits, Tagged(rows[r], r), e, params, 0).0
    ensures Tree.NoDup(ids) ==> Tree.NoDup(Kept(w, hits, rows, ids, e, params))
    decreases ids
  {
    hide EvalWhere, Tagged;
    if ids != [] {
      KeptOnce(w, hits, rows, ids[1..], e, params);
      assert ids == [ids[0]] + ids[1..];
      if Tree.NoDup(ids) {
        assert forall i :: 0 <= i < |ids[1..]| ==> ids[1..][i] == ids[i + 1];
        assert ids[0] !in ids[1..];
      }
    }
  }

  /** A scan answers with the stored rows that satisfy the WHERE, each once and with its
      id under an internal name, which the WHERE sees too. */
  lemma ScanExactly(w: World, s: State, t: string, e: Expr, params: seq<Value>) returns (ids: seq<RowId>)
    requires w.ScansOnce() && t in s.tables
    ensures var rows, out := s.tables[t], Answer(w, s, t, FullScan, e, params);
            && |ids| == |out| && Tree.NoDup(ids)
            && (forall i :: 0 <= i < |ids| ==>
                  ids[i] in rows && out[i] == rows[ids[i]].Put("_rowid_", Integer(ids[i])))
            && forall r :: r in ids <==>
                 r in rows && EvalWhere(w, FtsHits(w, s.fts), rows[r].Put("_rowid_", Integer(r)), e, params, 0).0
  {
    hide EvalWhere, FtsHits;
    var order := ScanOrder(w, s, t);
    ids := Kept(w, FtsHits(w, s.fts), s.tables[t], order, e, params);
    KeptRows(w, FtsHits(w, s.fts), s.tables[t], order, e, params);
    KeptOnce(w, FtsHits(w, s.fts), s.tables[t], order, e, params);
  }

  // ---------------------------------------------------------------- column-free expressions

  /** Evaluates alike with any row and without one. */
  predicate ColumnFree(e: Expr)
    decreases e, 1
  {
    match e
    case Column(_) => false
    case Qualified(_) => false
    case Nested(x) => ColumnFree(x)
    case Unary(_, x) => ColumnFree(x)
    case Binary(l, _, r) => ColumnFree(l) && ColumnFree(r)
    case IsNull(x) => ColumnFree(x)
    case IsNotNull(x) => ColumnFree(x)
    case Between(x, _, lo, hi) => ColumnFree(x) && ColumnFree(lo) && ColumnFree(hi)
    case InList(x, list, _) => ColumnFree(x) && AllColumnFree(list)
    case Like(x, p, _, _) => ColumnFree(x) && ColumnFree(p)
    case Case(operand, whens, otherwise) =>
      && (operand.Some? ==> ColumnFree(operand.value)) && (otherwise.Some? ==> ColumnFree(otherwise.value))
      && forall i :: 0 <= i < |whens| ==> ColumnFree(whens[i].cond) && ColumnFree(whens[i].result)
    case Call(_, args, _) => AllColumnFree(args)
    case _ => true
  }

  predicate AllColumnFree(es: seq<Expr>)
    decreases es, 0
  {
    es == [] || (ColumnFree(es[0]) && AllColumnFree(es[1..]))
  }

  lemma {:induction false} RowBlind(w: World, e: Expr, row: Option<Row>, params: seq<Value>, k: nat)
    requires ColumnFree(e)
    ensures Eval(w, e, row, params, k) == Eval(w, e, None, params, k)
    decreases e, 1
  {
    match e
    case Nested(x) => RowBlind(w, x, row, params, k);
    case Unary(_, x) => RowBlind(w, x, row, params, k);
    case Binary(l, _, r) =>
      RowBlind(w, l, row, params, k);
      RowBlind(w, r, row, params, Eval(w, l, None, params, k).1);
    case IsNull(x) => RowBlind(w, x, row, params, k);
    case IsNotNull(x) => RowBlind(w, x, row, params, k);
    case Between(x, _, lo, hi) =>
      RowBlind(w, x, row, params, k);
      var k1 := Eval(w, x, None, params, k).1;
      RowBlind(w, lo, row, params, k1);
      RowBlind(w, hi, row, params, Eval(w, lo, None, params, k1).1);
    case InList(x, list, _) =>
      RowBlind(w, x, row, params, k);
      var (v, k1) := Eval(w, x, None, params, k);
      RowBlindAnySame(w, list, v, row, params, k1);
    case Like(x, p, _, _) =>
      RowBlind(w, x, row, params, k);
      RowBlind(w, p, row, params, Eval(w, x, None, params, k).1);
    case Case(_, _, _) => RowBlindCase(w, e, 0, row, params, k);
    case Call(_, args, _) => RowBlindAll(w, args, row, params, k);
    case _ =>
  }

  lemma {:induction false} RowBlindAll(w: World, es: seq<Expr>, row: Option<Row>, params: seq<Value>, k: nat)
    requires AllColumnFree(es)
    ensures EvalAll(w, es, row, params, k) == EvalAll(w, es, None, params, k)
    decreases es, 0
  {
    if es != [] {
      RowBlind(w, es[0], row, params, k);
      RowBlindAll(w, es[1..], row, params, Eval(w, es[0], None, params, k).1);
    }
  }

  lemma {:induction false} RowBlindAnySame(w: World, es: seq<Expr>, v: Value, row: Option<Row>, params: seq<Value>,
      k: nat)
    requires AllColumnFree(es)
    ensures AnySame(w, es, v, row, params, k) == AnySame(w, es, v, None, params, k)
    decreases es, 0
  {
    if es != [] {
      RowBlind(w, es[0], row, params, k);
      RowBlindAnySame(w, es[1..], v, row, params, Eval(w, es[0], None, params, k).1);
    }
  }

  lemma {:induction false} RowBlindCase(w: World, c: Expr, i: nat, row: Option<Row>, params: seq<Value>, k: nat)
    requires c.Case? && ColumnFree(c) && i <= |c.whens|
    ensures EvalCase(w, c, i, row, params, k) == EvalCase(w, c, i, None, params, k)
    decreases c, 0, |c.whens| - i
  {
    if i == |c.whens| {
      if c.otherwise.Some? { RowBlind(w, c.otherwise.value, row, params, k); }
    } else {
      var k1 := k;
      if c.operand.Some? {
        RowBlind(w, c.operand.value, row, params, k);
        k1 := Eval(w, c.operand.value, None, params, k).1;
      }
      RowBlind(w, c.whens[i].cond, row, params, k1);
      var k2 := Eval(w, c.whens[i].cond, None, params, k1).1;
      RowBlind(w, c.whens[i].result, row, params, k2);
      RowBlindCase(w, c, i + 1, row, params, k2);
    }
  }

  // ---------------------------------------------------------------- equality lookups

  lemma SelectedIsStored(w: World, s: State, t: string, e: Expr, params: seq<Value>, r: RowId)
    requires Selected(w, s, t, e, params, r)
    ensures t in s.tables && r in s.tables[t]
  {
  }

  /** Whatever condition led to an equality plan: the index path gives the rows of
      the scan exactly when every selected row stores the column, with a value
      that compares Equal to the planned one. */
  lemma EqualityPlanExactly(w: World, s: State, t: string, idx: IndexDef, e: Expr, column: string, v: Value,
      params: seq<Value>, d: iset<Value>)
    requires w.ScansOnce() && t in s.tables && idx.columns == [column]
    requires Lawful(d) && Exact(d, TreeOf(s.indexes, IndexId(t, idx.name)), s.tables[t], idx) && v in d
    ensures multiset(Answer(w, s, t, ByKey(idx, v), e, params)) == multiset(Answer(w, s, t, FullScan, e, params)) <==>
              forall r :: Selected(w, s, t, e, params, r) ==>
                s.tables[t][r].Has(column) && Compare(v, s.tables[t][r].vals[column]) == Equal
  {
    hide Answer, Selected, Tree.Ids, Compare;
    var b, rows, p := TreeOf(s.indexes, IndexId(t, idx.name)), s.tables[t], ByKey(idx, v);
    FastEqualsScanExactly(w, s, t, p, e, params);
    forall r | Selected(w, s, t, e, params, r)
      ensures r in rows
      ensures multiset(Listed(w, s, t, p))[r] == 1 <==> rows[r].Has(column) && Compare(v, rows[r].vals[column]) == Equal
    {
      SelectedIsStored(w, s, t, e, params, r);
      LookupLists(d, b, rows, idx, v, r);
    }
  }

  /** An exact index lists under a value, once each, the rows whose value is Equal. */
  lemma LookupLists(d: iset<Value>, b: Tree.BTree, rows: Table, idx: IndexDef, v: Value, r: RowId)
    requires Lawful(d) && Exact(d, b, rows, idx) && v in d
    ensures multiset(Tree.Ids(b, v))[r] == if r in rows && Files(IndexValue(idx, rows[r]), v) then 1 else 0
  {
    hide Files;
    Tree.IdsNoDup(d, b, v);
    NoDupCount(Tree.Ids(b, v), r);
  }

  /** The other side of `col = other`, when it does not look at the row. */
  ghost predicate EqualityWith(e: Expr, column: string, other: Expr) {
    && e.Binary? && e.op.Eq? && ColumnFree(other)
    && (e == Binary(Column(column), Eq, other) || e == Binary(other, Eq, Column(column)))
  }

  lemma EqualityValue(w: World, hits: Hits, row: Row, e: Expr, column: string, other: Expr, params: seq<Value>)
    requires EqualityWith(e, column, other)
    ensures SimpleEquality(w, e, params) == Some((column, Eval(w, other, None, params, 0).0))
    ensures EvalWhere(w, hits, row, e, params, 0).0 == Same(row.GetOrNull(column), Eval(w, other, None, params, 0).0)
  {
    RowBlind(w, other, Some(row), params, 0);
    var v := Eval(w, other, None, params, 0).0;
    assert Eval(w, Column(column), Some(row), params, 0).0 == row.GetOrNull(column);
    var x := row.GetOrNull(column);
    assert Same(x, v) == Same(v, x);
    if e.left == Column(column) {
      assert Eval(w, e, Some(row), params, 0).0 == BoolVal(Same(x, v));
    } else {
      var k := Eval(w, other, Some(row), params, 0).1;
      assert Eval(w, Column(column), Some(row), params, k) == (x, k);
      assert Eval(w, e, Some(row), params, 0).0 == BoolVal(Same(v, x));
    }
  }

  /** Every row stores the column (a row restored from an older schema may not). */
  ghost predicate Stored(rows: Table, column: string) {
    forall r :: r in rows ==> rows[r].Has(column)
  }

  lemma TaggedValue(row: Row, r: RowId, column: string)
    requires column != ROWID
    ensures Tagged(row, r).GetOrNull(column) == row.GetOrNull(column)
  {
  }

  /** `col = c` on an indexed column, in either orientation: the index path gives
      the rows of the scan, unless `c` is NULL, which a row without the column
      also equals. A complete index is enough: stale entries are filtered out. */
  lemma {:induction false} EqualityFastPath(w: World, s: State, t: string, idx: IndexDef, e: Expr, column: string,
      other: Expr, params: seq<Value>, d: iset<Value>)
    requires w.ScansOnce() && t in s.tables && column != ROWID
    requires EqualityWith(e, column, other) && idx.columns == [column]
    requires FindIndex(IndicesOf(s.schemas, t), column) == Some(idx)
    requires Lawful(d) && Complete(d, TreeOf(s.indexes, IndexId(t, idx.name)), s.tables[t], idx)
    requires Eval(w, other, None, params, 0).0 in d
    ensures var p := PlanFor(w, IndicesOf(s.schemas, t), e, params);
            var v := Eval(w, other, None, params, 0).0;
            && p == ByKey(idx, v)
            && (!v.Null? || Stored(s.tables[t], column) ==>
                  multiset(Answer(w, s, t, p, e, params)) == multiset(Answer(w, s, t, FullScan, e, params)))
  {
    hide Tree.Ids, Complete, Answer, Tagged;
    var v := Eval(w, other, None, params, 0).0;
    var b, rows := TreeOf(s.indexes, IndexId(t, idx.name)), s.tables[t];
    EqualityValue(w, FtsHits(w, s.fts), EMPTY_ROW, e, column, other, params);
    var p := ByKey(idx, v);
    FastEqualsScanExactly(w, s, t, p, e, params);
    if !v.Null? || Stored(rows, column) {
      forall r | Selected(w, s, t, e, params, r) ensures multiset(Listed(w, s, t, p))[r] == 1 {
        EqualityValue(w, FtsHits(w, s.fts), Tagged(rows[r], r), e, column, other, params);
        TaggedValue(rows[r], r, column);
        assert IndexValue(idx, rows[r]) == Some(rows[r].vals[column]);
        LookupNeverMisses(d, b, rows, idx, r, v);
        NoDupCount(Tree.Ids(b, v), r);
      }
    }
  }

  /** With an exact index that is the only exception. */
  lemma {:induction false} EqualityFastPathExactly(w: World, s: State, t: string, idx: IndexDef, e: Expr,
      column: string, other: Expr, params: seq<Value>, d: iset<Value>)
    requires w.ScansOnce() && t in s.tables && column != ROWID
    requires EqualityWith(e, column, other) && idx.columns == [column]
    requires FindIndex(IndicesOf(s.schemas, t), column) == Some(idx)
    requires Lawful(d) && Exact(d, TreeOf(s.indexes, IndexId(t, idx.name)), s.tables[t], idx)
    requires Eval(w, other, None, params, 0).0 in d
    ensures var p := PlanFor(w, IndicesOf(s.schemas, t), e, params);
            multiset(Answer(w, s, t, p, e, params)) == multiset(Answer(w, s, t, FullScan, e, params)) <==>
              (Eval(w, other, None, params, 0).0.Null? ==> Stored(s.tables[t], column))
  {
    hide Answer, Exact, Tagged, EvalWhere, Tree.Ids;
    var v, rows := Eval(w, other, None, params, 0).0, s.tables[t];
    EqualityValue(w, FtsHits(w, s.fts), EMPTY_ROW, e, column, other, params);
    EqualityPlanExactly(w, s, t, idx, e, column, v, params, d);
    forall r | r in rows ensures Selected(w, s, t, e, params, r) <==> Same(rows[r].GetOrNull(column), v) {
      EqualityValue(w, FtsHits(w, s.fts), Tagged(rows[r], r), e, column, other, params);
      TaggedValue(rows[r], r, column);
    }
    forall r | r in rows && rows[r].Has(column) && Same(rows[r].vals[column], v)
      ensures Compare(v, rows[r].vals[column]) == Equal
    {
      CompareEqualExactly(v, rows[r].vals[column]);
    }
  }

  // ---------------------------------------------------------------- range lookups

  ghost predicate BoundIn(d: iset<Value>, b: Tree.Bound) {
    !b.Unbounded? ==> b.v in d
  }

  /** An exact index lists under a range, once each, the rows whose value is in it. */
  lemma {:induction false} RangeLists(d: iset<Value>, b: Tree.BTree, rows: Table, idx: IndexDef, lo: Tree.Bound,
      hi: Tree.Bound, r: RowId)
    requires Lawful(d) && Exact(d, b, rows, idx) && BoundIn(d, lo) && BoundIn(d, hi)
    ensures multiset(Tree.Range(b, lo, hi))[r] ==
              if r in rows && IndexValue(idx, rows[r]).Some?
                && Tree.InRange(lo, hi, IndexValue(idx, rows[r]).value) then 1 else 0
  {
    hide Tree.InRange;
    Tree.RangeMember(b, lo, hi, r);
    RangeNoDup(d, b, rows, idx, lo, hi);
    NoDupCount(Tree.Range(b, lo, hi), r);
    forall i | 0 <= i < |b|
      ensures r in b[i].ids <==> r in rows && Files(IndexValue(idx, rows[r]), b[i].key)
    {
      Tree.IdsAtEntry(d, b, i);
    }
    if r in rows && IndexValue(idx, rows[r]).Some? {
      var v := IndexValue(idx, rows[r]).value;
      forall i | 0 <= i < |b| && r in b[i].ids ensures Tree.InRange(lo, hi, b[i].key) == Tree.InRange(lo, hi, v) {
        Tree.InRangeRespectsEqual(d, lo, hi, b[i].key, v);
      }
      CompareReflexive(v);
      assert r in Tree.Ids(b, v);
      var i := Tree.IdsEntry(b, v, r);
    }
  }

  /** An exact index files no id under two keys. */
  lemma OneKeyPerId(d: iset<Value>, b: Tree.BTree, rows: Table, idx: IndexDef, i: nat, j: nat, r: RowId)
    requires Lawful(d) && Exact(d, b, rows, idx) && i < j < |b|
    ensures r !in b[i].ids || r !in b[j].ids
  {
    Tree.IdsAtEntry(d, b, i);
    Tree.IdsAtEntry(d, b, j);
    if r in b[i].ids && r in b[j].ids {
      var v := IndexValue(idx, rows[r]).value;
      assert Compare(b[i].key, v) == Equal && Compare(b[j].key, v) == Equal;
      CompareFlips(b[j].key, v);
      Chain(d, b[i].key, v, b[j].key);
      assert false;
    }
  }

  ghost predicate OneEntryEach(b: Tree.BTree) {
    && (forall i :: 0 <= i < |b| ==> Tree.NoDup(b[i].ids))
    && (forall i, j, r: RowId :: 0 <= i < j < |b| ==> r !in b[i].ids || r !in b[j].ids)
  }

  lemma RangeNoDup(d: iset<Value>, b: Tree.BTree, rows: Table, idx: IndexDef, lo: Tree.Bound, hi: Tree.Bound)
    requires Lawful(d) && Exact(d, b, rows, idx)
    ensures Tree.NoDup(Tree.Range(b, lo, hi))
  {
    forall i, j, r: RowId | 0 <= i < j < |b| ensures r !in b[i].ids || r !in b[j].ids {
      OneKeyPerId(d, b, rows, idx, i, j, r);
    }
    OneEntryEachNoDup(b, lo, hi);
  }

  lemma {:induction false} OneEntryEachNoDup(b: Tree.BTree, lo: Tree.Bound, hi: Tree.Bound)
    requires OneEntryEach(b)
    ensures Tree.NoDup(Tree.Range(b, lo, hi))
  {
    hide Tree.InRange;
    if b != [] {
      OneEntryEachNoDup(b[1..], lo, hi);
      forall r | r in b[0].ids ensures r !in Tree.Range(b[1..], lo, hi) {
        Tree.RangeMember(b[1..], lo, hi, r);
        forall i | 0 <= i < |b[1..]| ensures r !in b[1..][i].ids {
          assert b[1..][i] == b[i + 1];
        }
      }
      var head, rest := if Tree.InRange(lo, hi, b[0].key) then b[0].ids else [], Tree.Range(b[1..], lo, hi);
      forall i, j | 0 <= i < j < |head + rest| ensures (head + rest)[i] != (head + rest)[j] {
        if i < |head| <= j { assert head[i] in b[0].ids && rest[j - |head|] in rest; }
      }
    }
  }

  /** Whatever condition led to a range plan that does not run backwards: the index
      path gives the rows of the scan exactly when every selected row stores the
      column, with a value in the range that was planned. */
  lemma RangePlanExactly(w: World, s: State, t: string, idx: IndexDef, e: Expr, column: string, lo: Tree.Bound,
      hi: Tree.Bound, params: seq<Value>, d: iset<Value>)
    requires w.ScansOnce() && t in s.tables && idx.columns == [column]
    requires Lawful(d) && Exact(d, TreeOf(s.indexes, IndexId(t, idx.name)), s.tables[t], idx)
    requires BoundIn(d, lo) && BoundIn(d, hi)
    ensures var p := ByRange(idx, lo, hi);
            !PlanRunsBackwards(p) ==>
              (multiset(Answer(w, s, t, p, e, params)) == multiset(Answer(w, s, t, FullScan, e, params)) <==>
                 forall r :: Selected(w, s, t, e, params, r) ==>
                   s.tables[t][r].Has(column) && Tree.InRange(lo, hi, s.tables[t][r].vals[column]))
  {
    hide Answer, Selected, Exact, Tree.InRange, Tree.Range;
    var b, rows, p := TreeOf(s.indexes, IndexId(t, idx.name)), s.tables[t], ByRange(idx, lo, hi);
    FastEqualsScanExactly(w, s, t, p, e, params);
    forall r | Selected(w, s, t, e, params, r)
      ensures r in rows
      ensures multiset(Listed(w, s, t, p))[r] == 1 <==>
                rows[r].Has(column) && Tree.InRange(lo, hi, rows[r].vals[column])
    {
      SelectedIsStored(w, s, t, e, params, r);
      RangeLists(d, b, rows, idx, lo, hi, r);
    }
  }

  /** `col OP other` or `other OP col`, with the four inequalities. */
  ghost predicate ComparisonWith(e: Expr, column: string, other: Expr) {
    && e.Binary? && ColumnFree(other) && (e.op.Lt? || e.op.LtEq? || e.op.Gt? || e.op.GtEq?)
    && (e == Binary(Column(column), e.op, other) || e == Binary(other, e.op, Column(column)))
  }

  /** `v OP x` read from the column's side. */
  lemma MirrorMeans(w: World, op: BinOp, x: Value, v: Value)
    requires op.Lt? || op.LtEq? || op.Gt? || op.GtEq?
    ensures BoundsOf(op, v).Some? && BoundsOf(Mirror(op), v).Some?
    ensures var b := BoundsOf(op, v).value; ApplyBinary(w, op, x, v) == BoolVal(Tree.InRange(b.0, b.1, x))
    ensures var b := BoundsOf(Mirror(op), v).value; ApplyBinary(w, op, v, x) == BoolVal(Tree.InRange(b.0, b.1, x))
  {
    hide Compare;
    CompareFlips(x, v);
  }

  lemma ComparisonValue(w: World, row: Row, e: Expr, column: string, other: Expr, params: seq<Value>)
    requires ComparisonWith(e, column, other)
    ensures var x, v := row.GetOrNull(column), Eval(w, other, None, params, 0).0;
            Eval(w, e, Some(row), params, 0).0 ==
              if e.left == Column(column) then ApplyBinary(w, e.op, x, v) else ApplyBinary(w, e.op, v, x)
  {
    hide ApplyBinary;
    RowBlind(w, other, Some(row), params, 0);
    var x := row.GetOrNull(column);
    assert Eval(w, Column(column), Some(row), params, 0) == (x, 0);
    if e.left != Column(column) {
      var k := Eval(w, other, Some(row), params, 0).1;
      assert Eval(w, Column(column), Some(row), params, k) == (x, k);
    }
  }

  lemma ComparisonRange(w: World, hits: Hits, row: Row, e: Expr, column: string, other: Expr, params: seq<Value>)
    requires ComparisonWith(e, column, other)
    ensures SimpleEquality(w, e, params).None? && SimpleRange(w, e, params).Some?
    ensures var rg := SimpleRange(w, e, params).value;
            && rg.column == column
            && (rg.lower.Unbounded? || rg.lower.v == Eval(w, other, None, params, 0).0)
            && (rg.upper.Unbounded? || rg.upper.v == Eval(w, other, None, params, 0).0)
            && !Tree.RunsBackwards(rg.lower, rg.upper)
            && EvalWhere(w, hits, row, e, params, 0).0 == Tree.InRange(rg.lower, rg.upper, row.GetOrNull(column))
  {
    hide Eval, ApplyBinary, Tree.InRange;
    var x, v := row.GetOrNull(column), Eval(w, other, None, params, 0).0;
    ComparisonValue(w, row, e, column, other, params);
    MirrorMeans(w, e.op, x, v);
  }

  /** An inequality on an indexed column, in either orientation: the index path
      gives the rows of the scan exactly when rows that lack the column could not
      have been selected or do not exist. */
  lemma ComparisonFastPath(w: World, s: State, t: string, idx: IndexDef, e: Expr, column: string, other: Expr,
      params: seq<Value>, d: iset<Value>)
    requires w.ScansOnce() && t in s.tables && column != ROWID
    requires ComparisonWith(e, column, other) && idx.columns == [column]
    requires FindIndex(IndicesOf(s.schemas, t), column) == Some(idx)
    requires Lawful(d) && Exact(d, TreeOf(s.indexes, IndexId(t, idx.name)), s.tables[t], idx)
    requires Eval(w, other, None, params, 0).0 in d
    ensures var p := PlanFor(w, IndicesOf(s.schemas, t), e, params);
            && p.ByRange? && !PlanRunsBackwards(p)
            && (multiset(Answer(w, s, t, p, e, params)) == multiset(Answer(w, s, t, FullScan, e, params)) <==>
                  (Tree.InRange(p.lower, p.upper, Null) ==> Stored(s.tables[t], column)))
  {
    hide Answer, Exact, Tree.InRange, EvalWhere, SimpleRange, SimpleEquality, Tagged;
    ComparisonRange(w, FtsHits(w, s.fts), EMPTY_ROW, e, column, other, params);
    var rg, rows := SimpleRange(w, e, params).value, s.tables[t];
    RangePlanExactly(w, s, t, idx, e, column, rg.lower, rg.upper, params, d);
    forall r | r in rows
      ensures Selected(w, s, t, e, params, r) <==> Tree.InRange(rg.lower, rg.upper, rows[r].GetOrNull(column))
    {
      ComparisonRange(w, FtsHits(w, s.fts), Tagged(rows[r], r), e, column, other, params);
      TaggedValue(rows[r], r, column);
    }
  }

  /** `col BETWEEN low AND high`: the scan evaluates `high` with the counter where
      `low` left it, the plan with the counter at 0 again. If the planned range does
      not run backwards, the two agree exactly when no row gets past the plan's
      upper bound or lacks the column. */
  lemma {:induction false} BetweenFastPathExactly(w: World, s: State, t: string, idx: IndexDef, column: string,
      low: Expr, high: Expr, params: seq<Value>, d: iset<Value>)
    requires w.ScansOnce() && t in s.tables && column != ROWID && ColumnFree(low) && ColumnFree(high)
    requires idx.columns == [column] && FindIndex(IndicesOf(s.schemas, t), column) == Some(idx)
    requires Lawful(d) && Exact(d, TreeOf(s.indexes, IndexId(t, idx.name)), s.tables[t], idx)
    requires Eval(w, low, None, params, 0).0 in d && Eval(w, high, None, params, 0).0 in d
    ensures var e := Between(Column(column), false, low, high);
            var p := PlanFor(w, IndicesOf(s.schemas, t), e, params);
            var (lo, k) := Eval(w, low, None, params, 0);
            var planned, hi := Eval(w, high, None, params, 0).0, Eval(w, high, None, params, k).0;
            && p == ByRange(idx, Tree.Included(lo), Tree.Included(planned))
            && (PlanRunsBackwards(p) <==> Compare(lo, planned) == Greater)
            && (!PlanRunsBackwards(p) ==>
                  (multiset(Answer(w, s, t, p, e, params)) == multiset(Answer(w, s, t, FullScan, e, params)) <==>
                     forall r :: r in s.tables[t] && Within(s.tables[t][r].GetOrNull(column), lo, hi) ==>
                       s.tables[t][r].Has(column) && Compare(s.tables[t][r].vals[column], planned) != Greater))
  {
    hide Answer, Exact, EvalWhere, Tagged;
    var e := Between(Column(column), false, low, high);
    var (lo, k) := Eval(w, low, None, params, 0);
    var planned, hi, rows := Eval(w, high, None, params, 0).0, Eval(w, high, None, params, k).0, s.tables[t];
    assert SimpleEquality(w, e, params).None?;
    RangePlanExactly(w, s, t, idx, e, column, Tree.Included(lo), Tree.Included(planned), params, d);
    forall r | r in rows
      ensures Selected(w, s, t, e, params, r) <==> Within(rows[r].GetOrNull(column), lo, hi)
    {
      BetweenValue(w, FtsHits(w, s.fts), Tagged(rows[r], r), column, low, high, params);
      TaggedValue(rows[r], r, column);
    }
  }

  lemma BetweenValue(w: World, hits: Hits, row: Row, column: string, low: Expr, high: Expr, params: seq<Value>)
    requires ColumnFree(low) && ColumnFree(high)
    ensures var (lo, k) := Eval(w, low, None, params, 0);
            EvalWhere(w, hits, row, Between(Column(column), false, low, high), params, 0).0 ==
              Within(row.GetOrNull(column), lo, Eval(w, high, None, params, k).0)
  {
    RowBlind(w, low, Some(row), params, 0);
    var k := Eval(w, low, None, params, 0).1;
    RowBlind(w, high, Some(row), params, k);
    assert Eval(w, Column(column), Some(row), params, 0) == (row.GetOrNull(column), 0);
  }

  /** When at most one bound has placeholders the plan's bounds are the scan's, so
      only rows that lack the column can make a difference. */
  lemma BetweenFastPath(w: World, s: State, t: string, idx: IndexDef, column: string, low: Expr, high: Expr,
      params: seq<Value>, d: iset<Value>)
    requires w.ScansOnce() && t in s.tables && column != ROWID && ColumnFree(low) && ColumnFree(high)
    requires idx.columns == [column] && FindIndex(IndicesOf(s.schemas, t), column) == Some(idx)
    requires Lawful(d) && Exact(d, TreeOf(s.indexes, IndexId(t, idx.name)), s.tables[t], idx)
    requires Eval(w, low, None, params, 0).0 in d && Eval(w, high, None, params, 0).0 in d
    requires Count(low) == 0 || Count(high) == 0
    ensures var e := Between(Column(column), false, low, high);
            var p := PlanFor(w, IndicesOf(s.schemas, t), e, params);
            var lo, hi := Eval(w, low, None, params, 0).0, Eval(w, high, None, params, 0).0;
            && p == ByRange(idx, Tree.Included(lo), Tree.Included(hi))
            && (!PlanRunsBackwards(p) ==>
                  (multiset(Answer(w, s, t, p, e, params)) == multiset(Answer(w, s, t, FullScan, e, params)) <==>
                     (Within(Null, lo, hi) ==> Stored(s.tables[t], column))))
  {
    hide Answer, Exact, Eval, PlanFor, Compare;
    BetweenFastPathExactly(w, s, t, idx, column, low, high, params, d);
    var k := Eval(w, low, None, params, 0).1;
    if Count(low) == 0 {
      Closed(w, low, None, params, 0, params, 0);
    } else {
      Closed(w, high, None, params, 0, params, k);
    }
  }

  // ---------------------------------------------------------------- where it fails

  /** `col BETWEEN ? AND ?` with the parameters 1 and 3: the plan looks between 1
      and 1, so a row with 2 is lost. */
  lemma {:induction false} TwoPlaceholdersWitness(w: World, s: State, t: string, idx: IndexDef, column: string,
      r: RowId, d: iset<Value>)
    requires w.ScansOnce() && t in s.tables && column != ROWID
    requires idx.columns == [column] && FindIndex(IndicesOf(s.schemas, t), column) == Some(idx)
    requires Lawful(d) && Exact(d, TreeOf(s.indexes, IndexId(t, idx.name)), s.tables[t], idx)
    requires r in s.tables[t] && s.tables[t][r].Get(column) == Some(Integer(2)) && Integer(1) in d
    ensures var e := Between(Column(column), false, Placeholder, Placeholder);
            var params := [Integer(1), Integer(3)];
            multiset(Answer(w, s, t, PlanFor(w, IndicesOf(s.schemas, t), e, params), e, params)) !=
            multiset(Answer(w, s, t, FullScan, e, params))
  {
    hide Answer, Exact, PlanFor;
    BetweenFastPathExactly(w, s, t, idx, column, Placeholder, Placeholder, [Integer(1), Integer(3)], d);
    assert Within(s.tables[t][r].GetOrNull(column), Integer(1), Integer(3));
  }

  /** `a = -b` is planned as a lookup of NULL, because `b` is evaluated without a
      row: a row that satisfies it is lost. */
  lemma {:induction false} OtherColumnWitness(w: World, s: State, t: string, idx: IndexDef, r: RowId, d: iset<Value>)
    requires w.ScansOnce() && t in s.tables
    requires idx.columns == ["a"] && FindIndex(IndicesOf(s.schemas, t), "a") == Some(idx)
    requires Lawful(d) && Exact(d, TreeOf(s.indexes, IndexId(t, idx.name)), s.tables[t], idx)
    requires r in s.tables[t] && s.tables[t][r] == Row(["a", "b"], map["a" := Integer(1), "b" := Integer(-1)])
               && Null in d
    ensures var e := Binary(Column("a"), Eq, Unary(Negate, Column("b")));
            && !ColumnFree(e.right)
            && PlanFor(w, IndicesOf(s.schemas, t), e, []) == ByKey(idx, Null)
            && multiset(Answer(w, s, t, ByKey(idx, Null), e, [])) != multiset(Answer(w, s, t, FullScan, e, []))
  {
    hide Answer;
    var other := Unary(Negate, Column("b"));
    var e := Binary(Column("a"), Eq, other);
    var row := Tagged(s.tables[t][r], r);
    assert Eval(w, Column("b"), None, [], 0) == (Null, 0);
    assert Eval(w, other, None, [], 0) == (Null, 0);
    assert Eval(w, Column("b"), Some(row), [], 0) == (Integer(-1), 0);
    assert Eval(w, other, Some(row), [], 0) == (Integer(1), 0);
    assert Eval(w, Column("a"), Some(row), [], 0) == (Integer(1), 0);
    assert Eval(w, e, Some(row), [], 0).0 == BoolVal(true);
    EqualityPlanExactly(w, s, t, idx, e, "a", Null, [], d);
    assert Selected(w, s, t, e, [], r);
  }

  /** A complete index is not enough for a range: the entry that a BEFORE trigger
      leaves behind makes the range list a row twice. */
  lemma StaleRangeWitness(row: Row, r: RowId)
    requires row.Get("a") == Some(Integer(2))
    ensures var b := [Tree.Entry(Integer(1), [r]), Tree.Entry(Integer(2), [r])];
            && Complete((iset v: Value | !v.Real?), b, map[r := row], IndexDef("i", ["a"]))
            && Tree.Range(b, Tree.Included(Integer(0)), Tree.Unbounded) == [r, r]
  {
    var b := [Tree.Entry(Integer(1), [r]), Tree.Entry(Integer(2), [r])];
    assert b[1..] == [Tree.Entry(Integer(2), [r])];
    assert b[1..][1..] == [];
    assert Tree.Range(b[1..], Tree.Included(Integer(0)), Tree.Unbounded) == [r];
    assert Tree.Ids(b[1..], Integer(2)) == [r];
    assert Tree.Ids(b, Integer(2)) == [r];
  }
}
