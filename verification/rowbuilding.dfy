/** How statements make rows: defaults for an INSERT, SET for an UPDATE, and the
    row of OLD and NEW columns that a trigger condition sees. */
module RowBuilding {
  import opened Wrappers
  import opened Values
  import opened Externals
  import opened Expressions
  import opened Store
  import opened Interpreter

  // ---------------------------------------------------------------- defaults

  ghost predicate DistinctColumns(columns: seq<ColumnDef>) {
    forall i, j :: 0 <= i < j < |columns| ==> columns[i].name != columns[j].name
  }

  lemma {:induction false} DefaultsKeep(row: Row, columns: seq<ColumnDef>, r: RowId, c: string)
    requires row.Has(c) || forall i :: 0 <= i < |columns| ==> columns[i].name != c
    ensures WithDefaults(row, columns, r).Get(c) == row.Get(c)
    decreases columns
  {
    if columns != [] {
      DefaultsKeep(row.PutIfAbsent(columns[0].name, DefaultFor(columns[0], r)), columns[1..], r, c);
    }
  }

  /** A supplied column keeps its value; a missing one gets the row id (INTEGER
      PRIMARY KEY), its default, or NULL. Columns outside the schema stay as given. */
  lemma {:induction false} DefaultsExactly(row: Row, columns: seq<ColumnDef>, r: RowId, i: nat)
    requires DistinctColumns(columns) && i < |columns|
    ensures WithDefaults(row, columns, r).Get(columns[i].name) ==
              Some(if row.Has(columns[i].name) then row.vals[columns[i].name]
                   else if columns[i].primaryKey && columns[i].dataType == IntegerType then Integer(r)
                   else match columns[i].default case Some(v) => v case None => Null)
    ensures forall c :: (forall j :: 0 <= j < |columns| ==> columns[j].name != c) ==>
              WithDefaults(row, columns, r).Get(c) == row.Get(c)
    decreases columns
  {
    forall c | forall j :: 0 <= j < |columns| ==> columns[j].name != c
      ensures WithDefaults(row, columns, r).Get(c) == row.Get(c)
    {
      DefaultsKeep(row, columns, r, c);
    }
    var row' := row.PutIfAbsent(columns[0].name, DefaultFor(columns[0], r));
    if i == 0 {
      DefaultsKeep(row', columns[1..], r, columns[0].name);
    } else {
      DefaultsExactly(row', columns[1..], r, i - 1);
    }
  }

  // ---------------------------------------------------------------- SET

  /** The counter before the `i`-th assignment. */
  function CounterBefore(w: World, was: Row, sets: seq<Assignment>, params: seq<Value>, i: nat): nat
    requires i <= |sets|
  {
    if i == 0 then 0 else Eval(w, sets[i - 1].value, Some(was), params, CounterBefore(w, was, sets, params, i - 1)).1
  }

  /** The value of the `i`-th assignment, on the row as it was. */
  function ValueSet(w: World, was: Row, sets: seq<Assignment>, params: seq<Value>, i: nat): Value
    requires i < |sets|
  {
    Eval(w, sets[i].value, Some(was), params, CounterBefore(w, was, sets, params, i)).0
  }

  /** The last assignment to `c` among the first `n`. */
  function LastSet(sets: seq<Assignment>, c: string, n: nat): (last: Option<nat>)
    requires n <= |sets|
    ensures last.Some? ==> last.value < n && sets[last.value].column == c
    ensures forall j :: 0 <= j < n && (last.None? || last.value < j) ==> sets[j].column != c
  {
    if n == 0 then None else if sets[n - 1].column == c then Some(n - 1) else LastSet(sets, c, n - 1)
  }

  lemma {:induction false} AssignFrom(w: World, was: Row, now: Row, sets: seq<Assignment>, params: seq<Value>, i: nat,
      c: string)
    requires i <= |sets|
    requires now.Get(c) ==
               if LastSet(sets, c, i).Some? then Some(ValueSet(w, was, sets, params, LastSet(sets, c, i).value))
                 else was.Get(c)
    ensures Assign(w, was, now, sets[i..], params, CounterBefore(w, was, sets, params, i)).Get(c) ==
              if LastSet(sets, c, |sets|).Some?
                then Some(ValueSet(w, was, sets, params, LastSet(sets, c, |sets|).value)) else was.Get(c)
    decreases |sets| - i
  {
    hide Eval;
    if i < |sets| {
      assert sets[i..][0] == sets[i] && sets[i..][1..] == sets[i + 1..];
      AssignFrom(w, was, now.Put(sets[i].column, ValueSet(w, was, sets, params, i)), sets, params, i + 1, c);
    }
  }

  /** Each column gets the value of its last assignment, computed on the row as it
      was before the statement; the others keep theirs. */
  lemma AssignExactly(w: World, was: Row, sets: seq<Assignment>, params: seq<Value>, c: string)
    ensures Assign(w, was, was, sets, params, 0).Get(c) ==
              if LastSet(sets, c, |sets|).Some?
                then Some(ValueSet(w, was, sets, params, LastSet(sets, c, |sets|).value)) else was.Get(c)
  {
    assert sets[0..] == sets;
    AssignFrom(w, was, was, sets, params, 0, c);
  }

  // ---------------------------------------------------------------- OLD and NEW

  lemma PrefixesApart(p: string, c: string, q: string, d: string)
    requires |p| == |q|
    ensures p + c == q + d <==> p == q && c == d
  {
    if p + c == q + d {
      assert p == (p + c)[..|p|] && q == (q + d)[..|p|];
      assert c == (p + c)[|p|..] && d == (q + d)[|p|..];
    }
  }

  lemma {:induction false} PrefixShows(ctx: Row, prefix: string, columns: seq<string>, row: Row, p: string, c: string)
    requires |p| == |prefix|
    ensures PrefixInto(ctx, prefix, columns, row).Get(p + c) ==
              if p == prefix && c in columns then Some(row.GetOrNull(c)) else ctx.Get(p + c)
    decreases columns
  {
    if columns != [] {
      PrefixesApart(p, c, prefix, columns[0]);
      assert columns == [columns[0]] + columns[1..];
      PrefixShows(ctx.Put(prefix + columns[0], row.GetOrNull(columns[0])), prefix, columns[1..], row, p, c);
    }
  }

  /** `OLD.c` and `NEW.c` in a trigger condition are the columns of the two rows. */
  lemma ConditionSeesRows(w: World, was: Option<Row>, now: Option<Row>, c: string, params: seq<Value>, k: nat)
    ensures was.Some? && c in was.value.cols ==>
              Eval(w, Qualified(["OLD", c]), Some(TriggerContext(was, now)), params, k) == (was.value.GetOrNull(c), k)
    ensures now.Some? && c in now.value.cols ==>
              Eval(w, Qualified(["NEW", c]), Some(TriggerContext(was, now)), params, k) == (now.value.GetOrNull(c), k)
  {
    var ctx := if was.Some? then PrefixInto(EMPTY_ROW, "OLD.", was.value.cols, was.value) else EMPTY_ROW;
    assert "OLD."[0] != "NEW."[0];
    if was.Some? { PrefixShows(EMPTY_ROW, "OLD.", was.value.cols, was.value, "OLD.", c); }
    if now.Some? {
      PrefixShows(ctx, "NEW.", now.value.cols, now.value, "OLD.", c);
      PrefixShows(ctx, "NEW.", now.value.cols, now.value, "NEW.", c);
    }
    assert ["OLD", c][1..] == [c] && ["NEW", c][1..] == [c];
    assert JoinDots(["OLD", c]) == "OLD." + c && JoinDots(["NEW", c]) == "NEW." + c;
  }
}
