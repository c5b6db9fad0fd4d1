/** Statements with `?` and a flat list of parameters.

    A parameter list is read left to right in the order of the text: an UPDATE's
    SET comes before its WHERE. This module says when a statement means what its
    text means once every `?` has been replaced by its own parameter, and what a
    multi-row INSERT, which starts over for every row, means instead. */
module Prepared {
  import opened Wrappers
  import opened Values
  import opened Externals
  import opened Expressions
  import opened Store
  import opened Constraints
  import opened Interpreter
  import opened Placeholders
  import opened PlaceholderMeaning

  // ---------------------------------------------------------------- SET

  function SubstAssignments(sets: seq<Assignment>, params: seq<Value>, at: nat): seq<Assignment>
    decreases sets
  {
    if sets == [] then []
    else [Assignment(sets[0].column, Subst(sets[0].value, params, at))] + SubstAssignments(sets[1..], params,
      at + Marks(sets[0].value))
  }

  function MarksAssignments(sets: seq<Assignment>): nat
    decreases sets
  {
    if sets == [] then 0 else Marks(sets[0].value) + MarksAssignments(sets[1..])
  }

  /** Nothing that has placeholders follows an assignment that may leave some of
      its own unread. */
  predicate AlignedAssignments(sets: seq<Assignment>)
    decreases sets
  {
    sets == [] ||
    (Aligned(sets[0].value, false) && AlignedAssignments(sets[1..])
     && (MarksAssignments(sets[1..]) == 0 || Steady(sets[0].value)))
  }

  lemma {:induction false} AssignMeaning(w: World, was: Row, now: Row, sets: seq<Assignment>, params: seq<Value>,
      k: nat, at: nat, j: nat)
    requires AlignedAssignments(sets) && (MarksAssignments(sets) == 0 || k == at)
    ensures Assign(w, was, now, sets, params, k) == Assign(w, was, now, SubstAssignments(sets, params, at), [], j)
    decreases sets
  {
    hide Eval, Aligned, Subst, Full;
    if sets != [] {
      var e := sets[0].value;
      Meaning(w, e, Some(was), params, k, at, j);
      Consumes(w, e, Some(was), params, k);
      if Count(e) == 0 { Closed(w, e, Some(was), params, k, params, k); }
      var (v, k1) := Eval(w, e, Some(was), params, k);
      var tail := SubstAssignments(sets[1..], params, at + Marks(e));
      assert SubstAssignments(sets, params, at)[1..] == tail;
      AssignMeaning(w, was, now.Put(sets[0].column, v), sets[1..], params, k1, at + Marks(e),
        Eval(w, Subst(e, params, at), Some(was), [], j).1);
    }
  }

  // ---------------------------------------------------------------- WHERE

  function SubstWhere(where: Option<Expr>, params: seq<Value>, at: nat): Option<Expr> {
    if where.Some? then Some(Subst(where.value, params, at)) else None
  }

  predicate AlignedWhere(where: Option<Expr>) {
    where.Some? ==> Aligned(where.value, true)
  }

  lemma {:induction false} CaptureMeaning(w: World, s: State, t: string, order: seq<RowId>, where: Option<Expr>,
      params: seq<Value>, k: nat, at: nat, j: nat)
    requires AlignedWhere(where) && (MarksOpt(where) == 0 || k == at)
    ensures Capture(w, s, t, order, where, params, k) == Capture(w, s, t, order, SubstWhere(where, params, at), [], j)
    decreases order
  {
    hide EvalWhere, Aligned, Subst, Marks;
    if order != [] {
      CaptureMeaning(w, s, t, order[1..], where, params, k, at, j);
      var row := RowAt(s.tables, t, order[0]);
      if row.Some? && where.Some? {
        WhereMeaning(w, FtsHits(w, s.fts), row.value, where.value, params, k, at, j);
      }
    }
  }

  // ---------------------------------------------------------------- whole statements

  lemma {:induction false} UpdateAllMeaning(w: World, s: State, t: string, schema: Schema, caught: seq<Captured>,
      sets: seq<Assignment>, params: seq<Value>, tx: Option<TxId>, fuel: nat)
    requires AlignedAssignments(sets)
    ensures UpdateAll(w, s, t, schema, caught, sets, params, tx, fuel) ==
            UpdateAll(w, s, t, schema, caught, SubstAssignments(sets, params, 0), [], tx, fuel)
    decreases caught
  {
    hide Validate, WriteUpdate, Fire, Assign, AlignedAssignments;
    if caught != [] {
      var c := caught[0];
      AssignMeaning(w, c.row, c.row, sets, params, 0, 0, 0);
      assert UpdateOne(w, s, t, schema, c, sets, params, tx, fuel) ==
             UpdateOne(w, s, t, schema, c, SubstAssignments(sets, params, 0), [], tx, fuel);
      UpdateAllMeaning(w, UpdateOne(w, s, t, schema, c, sets, params, tx, fuel).0, t, schema, caught[1..], sets,
        params, tx, fuel);
    }
  }

  /** An UPDATE gives SET and WHERE exactly their own slices of the parameters:
      state, outcome, trigger cascade and all are those of the same UPDATE with
      literals in place of its placeholders. The WHERE starts where the engine's
      count of SET ends, which is where its text starts unless SET hides some. */
  lemma UpdateMeaning(w: World, s: State, t: string, sets: seq<Assignment>, where: Option<Expr>, params: seq<Value>,
      tx: Option<TxId>, fuel: nat)
    requires AlignedAssignments(sets) && AlignedWhere(where)
    requires MarksOpt(where) == 0 || CountAssignments(sets) == MarksAssignments(sets)
    ensures Exec(w, s, Update(t, sets, where), params, tx, fuel) ==
            Exec(w, s, Update(t, SubstAssignments(sets, params, 0),
              SubstWhere(where, params, MarksAssignments(sets))), [], tx, fuel)
  {
    hide UpdateAll, Capture, AlignedAssignments, AlignedWhere, SubstAssignments, SubstWhere, MarksOpt;
    if t in s.schemas && t in s.tables {
      var k, at := CountAssignments(sets), MarksAssignments(sets);
      var sets' := SubstAssignments(sets, params, 0);
      CaptureMeaning(w, s, t, ScanOrder(w, s, t), where, params, k, at, CountAssignments(sets'));
      var caught := Capture(w, s, t, ScanOrder(w, s, t), where, params, k);
      UpdateAllMeaning(w, Scanned(s), t, s.schemas[t], caught, sets, params, tx, fuel);
    }
  }

  lemma DeleteMeaning(w: World, s: State, t: string, where: Option<Expr>, params: seq<Value>, tx: Option<TxId>,
      fuel: nat)
    requires AlignedWhere(where)
    ensures Exec(w, s, Delete(t, where), params, tx, fuel) ==
              Exec(w, s, Delete(t, SubstWhere(where, params, 0)), [], tx, fuel)
  {
    hide DeleteAll, Capture, AlignedWhere, SubstWhere;
    if t in s.tables {
      CaptureMeaning(w, s, t, ScanOrder(w, s, t), where, params, 0, 0, 0);
    }
  }

  // ---------------------------------------------------------------- VALUES

  /** The expressions of a tuple that have a column to go to. */
  function Used(columns: seq<string>, tuple: seq<Expr>): seq<Expr> {
    if |columns| < |tuple| then tuple[..|columns|] else tuple
  }

  /** Every tuple read from the first parameter on. */
  function Restarted(columns: seq<string>, tuples: seq<seq<Expr>>, params: seq<Value>): seq<seq<Expr>>
    decreases tuples
  {
    if tuples == [] then []
      else [SubstAll(Used(columns, tuples[0]), params, 0)] + Restarted(columns, tuples[1..], params)
  }

  lemma TupleMeaning(w: World, columns: seq<string>, tuple: seq<Expr>, params: seq<Value>)
    requires AlignedAll(Used(columns, tuple))
    ensures TupleRow(w, columns, tuple, params) == TupleRow(w, columns, SubstAll(Used(columns, tuple), params, 0), [])
  {
    var used := Used(columns, tuple);
    SubstAllLength(used, params, 0);
    AllMeaning(w, used, None, params, 0, 0, 0);
    var sub := SubstAll(used, params, 0);
    assert sub[..|sub|] == sub && tuple[..|used|] == used;
  }

  lemma {:induction false} TuplesMeaning(w: World, columns: seq<string>, tuples: seq<seq<Expr>>, params: seq<Value>)
    requires forall i :: 0 <= i < |tuples| ==> AlignedAll(Used(columns, tuples[i]))
    ensures TupleRows(w, columns, tuples, params) == TupleRows(w, columns, Restarted(columns, tuples, params), [])
    decreases tuples
  {
    hide TupleRow, Used, SubstAll, AlignedAll;
    if tuples != [] {
      TupleMeaning(w, columns, tuples[0], params);
      TuplesMeaning(w, columns, tuples[1..], params);
      assert Restarted(columns, tuples, params)[1..] == Restarted(columns, tuples[1..], params);
    }
  }

  /** What INSERT ... VALUES means: each tuple on its own, with the parameters
      from the first on. */
  lemma InsertMeaning(w: World, s: State, t: string, columns: seq<string>, tuples: seq<seq<Expr>>, params: seq<Value>,
      tx: Option<TxId>, fuel: nat)
    requires t in s.schemas
    requires var names := if columns == [] then ColumnNames(s.schemas[t].columns) else columns;
             forall i :: 0 <= i < |tuples| ==> AlignedAll(Used(names, tuples[i]))
    ensures var names := if columns == [] then ColumnNames(s.schemas[t].columns) else columns;
            Exec(w, s, Insert(t, columns, Tuples(tuples)), params, tx, fuel) ==
            Exec(w, s, Insert(t, columns, Tuples(Restarted(names, tuples, params))), [], tx, fuel)
  {
    hide InsertAll, TupleRows, Restarted, AlignedAll, Used;
    var names := if columns == [] then ColumnNames(s.schemas[t].columns) else columns;
    TuplesMeaning(w, names, tuples, params);
  }

  /** `(?, ?, ...)` */
  predicate AllPlaceholders(tuple: seq<Expr>) {
    forall i :: 0 <= i < |tuple| ==> tuple[i].Placeholder?
  }

  function Slice(params: seq<Value>, at: nat, n: nat): (vs: seq<Value>)
    ensures |vs| == n
  {
    seq(n, i requires 0 <= i < n => Param(params, at + i))
  }

  lemma {:induction false} PlaceholdersRead(w: World, tuple: seq<Expr>, params: seq<Value>, k: nat)
    requires AllPlaceholders(tuple)
    ensures EvalAll(w, tuple, None, params, k) == (Slice(params, k, |tuple|), k + |tuple|)
    decreases tuple
  {
    if tuple != [] {
      PlaceholdersRead(w, tuple[1..], params, k + 1);
      assert Slice(params, k, |tuple|) == [Param(params, k)] + Slice(params, k + 1, |tuple[1..]|);
    }
  }

  /** The rows as the text reads: each tuple continues where the last one stopped. */
  function TextRows(columns: seq<string>, n: nat, params: seq<Value>, at: nat): seq<Row>
    decreases n
  {
    if n == 0 then []
    else [ZipInto(EMPTY_ROW, columns, Slice(params, at, |columns|))] + TextRows(columns, n - 1, params, at + |columns|)
  }

  /** Every further group of `width` parameters repeats the first. */
  predicate Repeats(params: seq<Value>, width: nat, n: nat, at: nat)
    decreases n
  {
    n == 0 || (Slice(params, at, width) == Slice(params, 0, width) && Repeats(params, width, n - 1, at + width))
  }

  ghost predicate Distinct(columns: seq<string>) {
    forall i, j :: 0 <= i < j < |columns| ==> columns[i] != columns[j]
  }

  lemma {:induction false} ZipKeeps(row: Row, columns: seq<string>, values: seq<Value>, c: string)
    requires c !in columns
    ensures ZipInto(row, columns, values).Get(c) == row.Get(c)
    decreases columns
  {
    if columns != [] && values != [] {
      assert columns == [columns[0]] + columns[1..];
      ZipKeeps(row.Put(columns[0], values[0]), columns[1..], values[1..], c);
    }
  }

  lemma {:induction false} ZipShows(row: Row, columns: seq<string>, values: seq<Value>, i: nat)
    requires Distinct(columns) && |values| == |columns| && i < |columns|
    ensures ZipInto(row, columns, values).Get(columns[i]) == Some(values[i])
    decreases columns
  {
    var row' := row.Put(columns[0], values[0]);
    if i == 0 {
      assert columns[0] !in columns[1..];
      ZipKeeps(row', columns[1..], values[1..], columns[0]);
    } else {
      ZipShows(row', columns[1..], values[1..], i - 1);
    }
  }

  lemma ZipInjective(columns: seq<string>, a: seq<Value>, b: seq<Value>)
    requires Distinct(columns) && |a| == |columns| == |b|
    ensures ZipInto(EMPTY_ROW, columns, a) == ZipInto(EMPTY_ROW, columns, b) <==> a == b
  {
    if ZipInto(EMPTY_ROW, columns, a) == ZipInto(EMPTY_ROW, columns, b) {
      forall i | 0 <= i < |a| ensures a[i] == b[i] {
        ZipShows(EMPTY_ROW, columns, a, i);
        ZipShows(EMPTY_ROW, columns, b, i);
      }
    }
  }

  /** `VALUES (?, ...), (?, ...), ...` stores the rows of its text exactly when
      every group of parameters repeats the first. */
  lemma {:induction false} MultiRowExactly(w: World, columns: seq<string>, tuples: seq<seq<Expr>>, params: seq<Value>,
      at: nat)
    requires Distinct(columns)
    requires forall i :: 0 <= i < |tuples| ==> |tuples[i]| == |columns| && AllPlaceholders(tuples[i])
    ensures TupleRows(w, columns, tuples, params) == TextRows(columns, |tuples|, params, at) <==>
              Repeats(params, |columns|, |tuples|, at)
    decreases tuples
  {
    hide Slice, ZipInto;
    if tuples != [] {
      var tuple, n := tuples[0], |columns|;
      PlaceholdersRead(w, tuple, params, 0);
      assert tuple[..n] == tuple;
      assert TupleRow(w, columns, tuple, params) == ZipInto(EMPTY_ROW, columns, Slice(params, 0, n));
      ZipInjective(columns, Slice(params, 0, n), Slice(params, at, n));
      MultiRowExactly(w, columns, tuples[1..], params, at + n);
      var a, b := TupleRows(w, columns, tuples, params), TextRows(columns, |tuples|, params, at);
      assert a[1..] == TupleRows(w, columns, tuples[1..], params)
             && b[1..] == TextRows(columns, |tuples[1..]|, params, at + n);
      if a[0] == b[0] && a[1..] == b[1..] { assert a == [a[0]] + a[1..] && b == [b[0]] + b[1..]; }
    }
  }

  /** `VALUES (?), (?)` with the parameters 1 and 2 inserts 1 twice. */
  lemma MultiRowWitness(w: World)
    ensures var rows := TupleRows(w, ["a"], [[Placeholder], [Placeholder]], [Integer(1), Integer(2)]);
            |rows| == 2 && rows[0].Get("a") == Some(Integer(1)) && rows[1].Get("a") == Some(Integer(1))
  {
    var params, one := [Integer(1), Integer(2)], [Placeholder];
    PlaceholdersRead(w, one, params, 0);
    assert one[..1] == one;
    var row := TupleRow(w, ["a"], one, params);
    ZipShows(EMPTY_ROW, ["a"], Slice(params, 0, 1), 0);
    assert [one, one][1..] == [one];
    assert TupleRows(w, ["a"], [one], params) == [row] + TupleRows(w, ["a"], [], params);
    assert TupleRows(w, ["a"], [one, one], params) == [row] + TupleRows(w, ["a"], [one], params);
  }
}
