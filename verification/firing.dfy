/** When triggers fire, and what they see: the condition on OLD and NEW, the order of
    a table's triggers, and the state before and after the write they surround. */
module Firing {
  import opened Wrappers
  import opened Values
  import opened Externals
  import opened Expressions
  import opened Store
  import opened Constraints
  import opened Interpreter
  import opened RowBuilding
  import opened Statements

  // ---------------------------------------------------------------- the row a condition sees

  lemma {:induction false} PrefixLeaves(ctx: Row, prefix: string, columns: seq<string>, row: Row, name: string)
    requires forall c :: c in columns ==> name != prefix + c
    ensures PrefixInto(ctx, prefix, columns, row).Get(name) == ctx.Get(name)
    decreases columns
  {
    if columns != [] {
      PrefixLeaves(ctx.Put(prefix + columns[0], row.GetOrNull(columns[0])), prefix, columns[1..], row, name);
    }
  }

  /** Exactly the columns of the two rows, under `OLD.` and `NEW.`. */
  lemma ContextExactly(was: Option<Row>, now: Option<Row>, c: string, name: string)
    ensures was.Some? && c in was.value.cols ==>
              TriggerContext(was, now).Get("OLD." + c) == Some(was.value.GetOrNull(c))
    ensures now.Some? && c in now.value.cols ==>
              TriggerContext(was, now).Get("NEW." + c) == Some(now.value.GetOrNull(c))
    ensures (was.Some? ==> forall d :: d in was.value.cols ==> name != "OLD." + d)
              && (now.Some? ==> forall d :: d in now.value.cols ==> name != "NEW." + d) ==>
              !TriggerContext(was, now).Has(name)
  {
    var ctx := if was.Some? then PrefixInto(EMPTY_ROW, "OLD.", was.value.cols, was.value) else EMPTY_ROW;
    assert "OLD."[0] != "NEW."[0];
    if was.Some? { PrefixShows(EMPTY_ROW, "OLD.", was.value.cols, was.value, "OLD.", c); }
    if now.Some? {
      PrefixShows(ctx, "NEW.", now.value.cols, now.value, "OLD.", c);
      PrefixShows(ctx, "NEW.", now.value.cols, now.value, "NEW.", c);
    }
    if (was.Some? ==> forall d :: d in was.value.cols ==> name != "OLD." + d)
       && (now.Some? ==> forall d :: d in now.value.cols ==> name != "NEW." + d) {
      if was.Some? { PrefixLeaves(EMPTY_ROW, "OLD.", was.value.cols, was.value, name); }
      if now.Some? { PrefixLeaves(ctx, "NEW.", now.value.cols, now.value, name); }
      assert TriggerContext(was, now).Get(name) == None;
    }
  }

  // ---------------------------------------------------------------- which triggers fire

  /** It is the trigger's turn, and its condition, if any, holds on OLD and NEW. */
  ghost predicate Fires(w: World, s: State, tr: Trigger, event: Event, timing: Timing, was: Option<Row>,
      now: Option<Row>) {
    && tr.event == event && tr.timing == timing
    && match tr.condition
       case Always => true
       case Unparsable => false
       case If(e) => EvalWhere(w, FtsHits(w, s.fts), TriggerContext(was, now), e, [], 0).0
  }

  /** It is the trigger's turn, and its condition cannot be read. */
  ghost predicate Breaks(tr: Trigger, event: Event, timing: Timing) {
    tr.event == event && tr.timing == timing && tr.condition.Unparsable?
  }

  lemma PassedOver(w: World, s: State, tr: Trigger, event: Event, timing: Timing, was: Option<Row>, now: Option<Row>,
      tx: Option<TxId>, fuel: nat)
    ensures Breaks(tr, event, timing) ==>
              FireOne(w, s, tr, event, timing, was, now, tx, fuel) == (s, Err(Malformed))
    ensures !Breaks(tr, event, timing) && !Fires(w, s, tr, event, timing, was, now) ==>
              FireOne(w, s, tr, event, timing, was, now, tx, fuel) == (s, Ok(0))
    ensures Fires(w, s, tr, event, timing, was, now) ==>
              FireOne(w, s, tr, event, timing, was, now, tx, fuel) ==
                match tr.body(was, now)
                case None => (s, Err(Malformed))
                case Some(stmts) => RunBody(w, s, stmts, tx, fuel)
  {
    hide EvalWhere, RunBody, TriggerContext, FtsHits;
  }

  /** Of a table's triggers, in the order they were created, nothing is done until the
      first whose turn it is and whose condition holds on OLD and NEW; its
      statements run, and then the rest have their turn in the state these leave.
      A condition or a body that cannot be read ends the statement. */
  lemma FireExactly(w: World, s: State, t: string, trs: seq<Trigger>, event: Event, timing: Timing, was: Option<Row>,
      now: Option<Row>, tx: Option<TxId>, fuel: nat) returns (n: nat)
    requires trs == if t in s.triggers then s.triggers[t] else []
    ensures n <= |trs|
    ensures forall i :: 0 <= i < n ==>
              !Breaks(trs[i], event, timing) && !Fires(w, s, trs[i], event, timing, was, now)
    ensures n < |trs| ==> Breaks(trs[n], event, timing) || Fires(w, s, trs[n], event, timing, was, now)
    ensures Fire(w, s, t, event, timing, was, now, tx, fuel) ==
              if n == |trs| then (s, Ok(0))
              else if trs[n].condition.Unparsable? || trs[n].body(was, now).None? then (s, Err(Malformed))
              else
                var (s1, o1) := RunBody(w, s, trs[n].body(was, now).value, tx, fuel);
                if o1.Err? then (s1, o1) else FireEach(w, s1, trs[n + 1..], event, timing, was, now, tx, fuel)
  {
    hide FireEach, FireOne, Fires, RunBody;
    n := 0;
    assert trs[0..] == trs;
    while n < |trs|
      invariant n <= |trs|
      invariant forall i :: 0 <= i < n ==>
                  !Breaks(trs[i], event, timing) && !Fires(w, s, trs[i], event, timing, was, now)
      invariant Fire(w, s, t, event, timing, was, now, tx, fuel) ==
                FireEach(w, s, trs[n..], event, timing, was, now, tx, fuel)
    {
      PassedOver(w, s, trs[n], event, timing, was, now, tx, fuel);
      FireTurn(w, s, trs, n, event, timing, was, now, tx, fuel);
      if Breaks(trs[n], event, timing) { return; }
      if Fires(w, s, trs[n], event, timing, was, now) {
        FiresIsParsed(w, s, trs[n], event, timing, was, now);
        return;
      }
      n := n + 1;
    }
    assert trs[n..] == [];
    FireNone(w, s, event, timing, was, now, tx, fuel);
  }

  lemma FiresIsParsed(w: World, s: State, tr: Trigger, event: Event, timing: Timing, was: Option<Row>,
      now: Option<Row>)
    requires Fires(w, s, tr, event, timing, was, now)
    ensures !tr.condition.Unparsable?
  {
    hide EvalWhere;
  }

  // ---------------------------------------------------------------- the body

  /** The state after the first `n` statements of a body. */
  function BodyAt(w: World, s: State, stmts: seq<Stmt>, tx: Option<TxId>, fuel: nat, n: nat): State
    requires n <= |stmts| && fuel > 0
  {
    if n == 0 then s else Exec(w, BodyAt(w, s, stmts, tx, fuel, n - 1), stmts[n - 1], [], tx, fuel - 1).0
  }

  lemma BodyTurn(w: World, s: State, stmts: seq<Stmt>, i: nat, tx: Option<TxId>, fuel: nat)
    requires i < |stmts| && fuel > 0
    ensures var (s1, o1) := Exec(w, s, stmts[i], [], tx, fuel - 1);
            RunBody(w, s, stmts[i..], tx, fuel) ==
              if o1.Err? then (s1, o1) else RunBody(w, s1, stmts[i + 1..], tx, fuel)
  {
    hide Exec;
    assert stmts[i..][1..] == stmts[i + 1..];
  }

  /** The statements of a trigger run one after another, each in the state that the one
      before has left, without parameters and in the transaction of the statement
      that fired it, up to the first that fails, whose error is the trigger's. */
  lemma BodyExactly(w: World, s: State, stmts: seq<Stmt>, tx: Option<TxId>, fuel: nat) returns (n: nat)
    requires fuel > 0
    ensures n <= |stmts|
    ensures forall m :: 0 <= m < n ==>
              Exec(w, BodyAt(w, s, stmts, tx, fuel, m), stmts[m], [], tx, fuel - 1).1.Ok?
    ensures n == |stmts| ==> RunBody(w, s, stmts, tx, fuel) == (BodyAt(w, s, stmts, tx, fuel, n), Ok(0))
    ensures n < |stmts| ==>
              && Exec(w, BodyAt(w, s, stmts, tx, fuel, n), stmts[n], [], tx, fuel - 1).1.Err?
              && RunBody(w, s, stmts, tx, fuel) ==
                   Exec(w, BodyAt(w, s, stmts, tx, fuel, n), stmts[n], [], tx, fuel - 1)
  {
    hide Exec, RunBody;
    n := 0;
    assert stmts[0..] == stmts;
    while n < |stmts|
      invariant n <= |stmts|
      invariant forall m :: 0 <= m < n ==>
                  Exec(w, BodyAt(w, s, stmts, tx, fuel, m), stmts[m], [], tx, fuel - 1).1.Ok?
      invariant RunBody(w, s, stmts, tx, fuel) ==
                RunBody(w, BodyAt(w, s, stmts, tx, fuel, n), stmts[n..], tx, fuel)
    {
      BodyTurn(w, BodyAt(w, s, stmts, tx, fuel, n), stmts, n, tx, fuel);
      if Exec(w, BodyAt(w, s, stmts, tx, fuel, n), stmts[n], [], tx, fuel - 1).1.Err? { return; }
      n := n + 1;
    }
    assert stmts[n..] == [];
    NoBody(w, BodyAt(w, s, stmts, tx, fuel, n), tx, fuel);
  }

  lemma NoBody(w: World, s: State, tx: Option<TxId>, fuel: nat)
    ensures RunBody(w, s, [], tx, fuel) == (s, Ok(0))
  {
  }

  // ---------------------------------------------------------------- around one write

  /** An INSERT's row is validated first; its BEFORE triggers meet a table without it,
      its AFTER triggers a table with it, and both are shown the same row. */
  lemma InsertInOrder(w: World, s: State, t: string, schema: Schema, given: Row, tx: Option<TxId>, fuel: nat)
    returns (s1: State, s2: State)
    requires t in s.tables
    ensures var r := CounterOf(s, t);
            var row := WithDefaults(given, schema.columns, r);
            var bad := Validate(w, BumpCounter(s, t), schema, row, r);
            var (after, o) := InsertOne(w, s, t, schema, given, tx, fuel);
            if bad.Some? then after == BumpCounter(s, t) && o == Err(bad.value)
            else
              var (met, o1) := Fire(w, BumpCounter(s, t), t, OnInsert, Before, None, Some(row), tx, fuel);
              && s1 == met
              && if o1.Err? then after == s1 && o == o1
                 else Wrote(s1, s2, t, r, Some(row))
                        && (after, o) == Fire(w, s2, t, OnInsert, After, None, Some(row), tx, fuel)
  {
    hide Fire, WriteInsert, WriteUpdate, WriteDelete, Validate, WithDefaults;
    var r := CounterOf(s, t);
    var row := WithDefaults(given, schema.columns, r);
    s1 := Fire(w, BumpCounter(s, t), t, OnInsert, Before, None, Some(row), tx, fuel).0;
    s2 := WriteInsert(w, s1, tx, t, r, row);
    WritesWrite(w, s1, tx, t, r, row, row);
  }

  /** The same for UPDATE, with the captured row as OLD and what SET makes of it as NEW. */
  lemma UpdateInOrder(w: World, s: State, t: string, schema: Schema, c: Captured, sets: seq<Assignment>,
      params: seq<Value>, tx: Option<TxId>, fuel: nat) returns (s1: State, s2: State)
    requires t in s.tables
    ensures var now := Assign(w, c.row, c.row, sets, params, 0);
            var bad := Validate(w, s, schema, now, c.rowid);
            var (after, o) := UpdateOne(w, s, t, schema, c, sets, params, tx, fuel);
            if bad.Some? then after == s && o == Err(bad.value)
            else
              var (met, o1) := Fire(w, s, t, OnUpdate, Before, Some(c.row), Some(now), tx, fuel);
              && s1 == met
              && if o1.Err? then after == s1 && o == o1
                 else Wrote(s1, s2, t, c.rowid, Some(now))
                        && (after, o) == Fire(w, s2, t, OnUpdate, After, Some(c.row), Some(now), tx, fuel)
  {
    hide Fire, WriteInsert, WriteUpdate, WriteDelete, Validate, Assign;
    var now := Assign(w, c.row, c.row, sets, params, 0);
    s1 := Fire(w, s, t, OnUpdate, Before, Some(c.row), Some(now), tx, fuel).0;
    s2 := WriteUpdate(w, s1, tx, t, c.rowid, c.row, now);
    WritesWrite(w, s1, tx, t, c.rowid, c.row, now);
  }

  /** The same for DELETE, which validates nothing. */
  lemma DeleteInOrder(w: World, s: State, t: string, c: Captured, tx: Option<TxId>, fuel: nat)
    returns (s1: State, s2: State)
    requires t in s.tables
    ensures var (after, o) := DeleteOne(w, s, t, c, tx, fuel);
            var (met, o1) := Fire(w, s, t, OnDelete, Before, Some(c.row), None, tx, fuel);
            && s1 == met
            && if o1.Err? then after == s1 && o == o1
               else Wrote(s1, s2, t, c.rowid, None)
                      && (after, o) == Fire(w, s2, t, OnDelete, After, Some(c.row), None, tx, fuel)
  {
    hide Fire, WriteInsert, WriteUpdate, WriteDelete;
    s1 := Fire(w, s, t, OnDelete, Before, Some(c.row), None, tx, fuel).0;
    s2 := WriteDelete(w, s1, tx, t, c.rowid, c.row);
    WritesWrite(w, s1, tx, t, c.rowid, c.row, c.row);
  }
}
