/** The rows an INSERT offers: which value goes to which column. */
module Offers {
  import opened Wrappers
  import opened Values
  import opened Externals
  import opened Expressions
  import opened Store
  import opened Interpreter
  import opened Operators

  /** The columns that values are given for, in their order: those of the statement's
      list, or without a list those of the schema. */
  ghost predicate Targets(schema: Schema, columns: seq<string>, names: seq<string>) {
    if columns != [] then names == columns
    else |names| == |schema.columns| && forall i :: 0 <= i < |names| ==> names[i] == schema.columns[i].name
  }

  /** The last place of `c` among the first `n` names. */
  function LastPlace(names: seq<string>, c: string, n: nat): (last: Option<nat>)
    requires n <= |names|
    ensures last.Some? ==> last.value < n && names[last.value] == c
    ensures forall j :: 0 <= j < n && (last.None? || last.value < j) ==> names[j] != c
  {
    if n == 0 then None else if names[n - 1] == c then Some(n - 1) else LastPlace(names, c, n - 1)
  }

  function Fewer(m: nat, n: nat): nat {
    if m < n then m else n
  }

  lemma {:induction false} ZipFrom(row: Row, names: seq<string>, values: seq<Value>, i: nat, c: string)
    requires i <= |names| && i <= |values|
    requires var last := LastPlace(names, c, i); row.Get(c) == if last.Some? then Some(values[last.value]) else None
    ensures var last := LastPlace(names, c, Fewer(|names|, |values|));
            ZipInto(row, names[i..], values[i..]).Get(c) == if last.Some? then Some(values[last.value]) else None
    decreases |names| - i
  {
    if i < |names| && i < |values| {
      assert names[i..][1..] == names[i + 1..] && values[i..][1..] == values[i + 1..];
      ZipFrom(row.Put(names[i], values[i]), names, values, i + 1, c);
    }
  }

  /** The `i`-th value goes to the `i`-th column, as far as there are both; of a column
      named twice the last value counts. */
  lemma ZipExactly(names: seq<string>, values: seq<Value>, c: string)
    ensures var last := LastPlace(names, c, Fewer(|names|, |values|));
            ZipInto(EMPTY_ROW, names, values).Get(c) == if last.Some? then Some(values[last.value]) else None
  {
    assert names[0..] == names && values[0..] == values;
    ZipFrom(EMPTY_ROW, names, values, 0, c);
  }

  /** A row of VALUES: each expression is evaluated without a row, with the parameters
      from the first on. */
  ghost predicate FromTuple(w: World, names: seq<string>, tuple: seq<Expr>, params: seq<Value>, row: Row) {
    forall c {:trigger row.Get(c)} ::
      var last := LastPlace(names, c, Fewer(|names|, |tuple|));
      row.Get(c) == if last.Some? then Some(ItemAt(w, tuple, None, params, 0, last.value)) else None
  }

  ghost predicate FromAnswer(names: seq<string>, answer: seq<Value>, row: Row) {
    forall c {:trigger row.Get(c)} ::
      var last := LastPlace(names, c, Fewer(|names|, |answer|));
      row.Get(c) == if last.Some? then Some(answer[last.value]) else None
  }

  ghost predicate FromTuples(w: World, names: seq<string>, tuples: seq<seq<Expr>>, params: seq<Value>,
      rows: seq<Row>) {
    if tuples == [] then rows == [EMPTY_ROW]
    else
      && |rows| == |tuples|
      && forall i :: 0 <= i < |tuples| ==> FromTuple(w, names, tuples[i], params, rows[i])
  }

  ghost predicate FromAnswers(names: seq<string>, answers: seq<seq<Value>>, rows: seq<Row>) {
    if answers == [] then rows == [EMPTY_ROW]
    else |rows| == |answers| && forall i :: 0 <= i < |answers| ==> FromAnswer(names, answers[i], rows[i])
  }

  lemma {:induction false} ItemsOfPrefix(w: World, es: seq<Expr>, n: nat, params: seq<Value>, i: nat)
    requires i <= n <= |es|
    ensures CounterAt(w, es[..n], None, params, 0, i) == CounterAt(w, es, None, params, 0, i)
    ensures i < n ==> ItemAt(w, es[..n], None, params, 0, i) == ItemAt(w, es, None, params, 0, i)
    decreases i
  {
    hide Eval;
    if i > 0 { ItemsOfPrefix(w, es, n, params, i - 1); }
  }

  lemma TupleExactly(w: World, names: seq<string>, tuple: seq<Expr>, params: seq<Value>)
    ensures FromTuple(w, names, tuple, params, TupleRow(w, names, tuple, params))
  {
    hide Eval, ItemAt, CounterAt;
    var n := Fewer(|names|, |tuple|);
    var row, values := TupleRow(w, names, tuple, params), EvalAll(w, tuple[..n], None, params, 0).0;
    ItemsInOrder(w, tuple[..n], None, params, 0);
    forall c ensures var last := LastPlace(names, c, n);
                     row.Get(c) == if last.Some? then Some(ItemAt(w, tuple, None, params, 0, last.value)) else None
    {
      ZipExactly(names, values, c);
      var last := LastPlace(names, c, n);
      if last.Some? { ItemsOfPrefix(w, tuple, n, params, last.value); }
    }
  }

  lemma {:induction false} TupleAt(w: World, names: seq<string>, tuples: seq<seq<Expr>>, params: seq<Value>)
    ensures var rows := TupleRows(w, names, tuples, params);
            |rows| == |tuples| && forall i :: 0 <= i < |rows| ==> rows[i] == TupleRow(w, names, tuples[i], params)
    decreases tuples
  {
    hide TupleRow;
    if tuples != [] { TupleAt(w, names, tuples[1..], params); }
  }

  lemma {:induction false} AnswerAt(names: seq<string>, answers: seq<seq<Value>>)
    ensures var rows := QueryRows(names, answers);
            |rows| == |answers| && forall i :: 0 <= i < |rows| ==> rows[i] == ZipInto(EMPTY_ROW, names, answers[i])
    decreases answers
  {
    if answers != [] { AnswerAt(names, answers[1..]); }
  }

  lemma {:induction false} NamesInOrder(columns: seq<ColumnDef>)
    ensures |ColumnNames(columns)| == |columns|
    ensures forall i :: 0 <= i < |columns| ==> ColumnNames(columns)[i] == columns[i].name
    decreases columns
  {
    if columns != [] { NamesInOrder(columns[1..]); }
  }

  /** One row per VALUES tuple or per row of the SELECT, or a single empty one if there
      are none; the SELECT reads the data and the parameters of the statement. */
  lemma CandidatesExactly(w: World, s: State, schema: Schema, columns: seq<string>, source: Source,
      params: seq<Value>) returns (names: seq<string>)
    ensures Targets(schema, columns, names)
    ensures var res := Candidates(w, s, schema, columns, source, params);
            match source
            case Defaults => res == Ok([EMPTY_ROW])
            case Tuples(tuples) =>
              res.Ok? && FromTuples(w, names, tuples, params, res.value)
            case FromSelect(query) =>
              (match query(Data(s.tables, s.schemas, s.indexes, s.fts, s.scans), params)
               case Err(e) => res == Err(e)
               case Ok(answers) => res.Ok? && FromAnswers(names, answers, res.value))
            case OtherSource => res == Err(UnsupportedStatement)
  {
    hide FromTuple, FromAnswer, TupleRow, ZipInto, TupleRows, QueryRows, ColumnNames;
    names := if columns == [] then ColumnNames(schema.columns) else columns;
    NamesInOrder(schema.columns);
    match source
    case Tuples(tuples) =>
      TupleAt(w, names, tuples, params);
      forall i | 0 <= i < |tuples|
        ensures FromTuple(w, names, tuples[i], params, TupleRow(w, names, tuples[i], params))
      {
        TupleExactly(w, names, tuples[i], params);
      }
    case FromSelect(query) =>
      if query(DataOf(s), params).Ok? {
        var answers := query(DataOf(s), params).value;
        AnswerAt(names, answers);
        forall i | 0 <= i < |answers| ensures FromAnswer(names, answers[i], ZipInto(EMPTY_ROW, names, answers[i])) {
          AnswerShown(names, answers[i]);
        }
      }
    case _ =>
  }

  lemma AnswerShown(names: seq<string>, answer: seq<Value>)
    ensures FromAnswer(names, answer, ZipInto(EMPTY_ROW, names, answer))
  {
    forall c ensures var last := LastPlace(names, c, Fewer(|names|, |answer|));
                     ZipInto(EMPTY_ROW, names, answer).Get(c) ==
                       if last.Some? then Some(answer[last.value]) else None
    {
      ZipExactly(names, answer, c);
    }
  }

  // ---------------------------------------------------------------- the order of columns

  ghost predicate Different(names: seq<string>) {
    forall i, j :: 0 <= i < j < |names| ==> names[i] != names[j]
  }

  lemma {:induction false} ZipOrder(row: Row, names: seq<string>, values: seq<Value>)
    requires Different(names) && |names| == |values| && forall i :: 0 <= i < |names| ==> !row.Has(names[i])
    ensures ZipInto(row, names, values).cols == row.cols + names
    decreases names
  {
    if names != [] {
      assert forall i :: 0 <= i < |names[1..]| ==> names[1..][i] == names[i + 1];
      ZipOrder(row.Put(names[0], values[0]), names[1..], values[1..]);
      assert row.cols + names == (row.cols + [names[0]]) + names[1..];
    }
  }

  /** The names of the columns that a row does not have. */
  function Missing(row: Row, columns: seq<ColumnDef>): seq<string>
    decreases columns
  {
    if columns == [] then []
    else (if row.Has(columns[0].name) then [] else [columns[0].name]) + Missing(row, columns[1..])
  }

  lemma {:induction false} MissingLater(row: Row, name: string, v: Value, columns: seq<ColumnDef>)
    requires forall i :: 0 <= i < |columns| ==> columns[i].name != name
    ensures Missing(row.PutIfAbsent(name, v), columns) == Missing(row, columns)
    decreases columns
  {
    if columns != [] { MissingLater(row, name, v, columns[1..]); }
  }

  lemma AppendTwice(a: seq<string>, b: seq<string>, c: seq<string>)
    ensures (a + b) + c == a + (b + c)
  {
  }

  /** A row has the columns it was given, in their order, and after them those of the
      schema that were missing, in the schema's order. */
  lemma {:induction false} DefaultsOrder(row: Row, columns: seq<ColumnDef>, r: RowId)
    requires forall i, j :: 0 <= i < j < |columns| ==> columns[i].name != columns[j].name
    ensures WithDefaults(row, columns, r).cols == row.cols + Missing(row, columns)
    decreases columns
  {
    hide DefaultFor;
    if columns == [] {
      assert row.cols + [] == row.cols;
    } else {
      var name, rest := columns[0].name, columns[1..];
      var row' := row.PutIfAbsent(name, DefaultFor(columns[0], r));
      assert forall i :: 0 <= i < |rest| ==> rest[i] == columns[i + 1];
      DefaultsOrder(row', rest, r);
      MissingLater(row, name, DefaultFor(columns[0], r), rest);
      var first := if row.Has(name) then [] else [name];
      assert Missing(row, columns) == first + Missing(row, rest) && row'.cols == row.cols + first;
      hide WithDefaults, Missing;
      AppendTwice(row.cols, first, Missing(row, rest));
    }
  }

  /** So a row of VALUES or of a SELECT that fills different columns has them in the
      order of the statement. */
  lemma ColumnsInOrder(names: seq<string>, values: seq<Value>, columns: seq<ColumnDef>, r: RowId)
    requires Different(names) && |names| == |values|
    requires forall i, j :: 0 <= i < j < |columns| ==> columns[i].name != columns[j].name
    ensures WithDefaults(ZipInto(EMPTY_ROW, names, values), columns, r).cols ==
              names + Missing(ZipInto(EMPTY_ROW, names, values), columns)
  {
    hide WithDefaults, ZipInto;
    ZipOrder(EMPTY_ROW, names, values);
    DefaultsOrder(ZipInto(EMPTY_ROW, names, values), columns, r);
    assert EMPTY_ROW.cols + names == names;
  }
}
