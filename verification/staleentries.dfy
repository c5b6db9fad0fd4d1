/** How an engine comes by an index entry that is out of date: one table, one BEFORE
    UPDATE trigger and one UPDATE. The trigger changes the row that the UPDATE has
    captured; the UPDATE then takes the captured value out of the index, which is not
    there any more, and leaves the trigger's behind. */
module StaleEntries {
  import opened Wrappers
  import opened Values
  import opened Externals
  import opened Expressions
  import opened Store
  import opened Constraints
  import opened Interpreter
  import opened FastPath
  import opened BeforeTriggers
  import Tree = OrderedIndex

  function A(v: int): Row {
    OneColumn(Integer(v))
  }

  const ON_A := IndexDef("i", ["a"])

  const PLAIN := Schema("t", [ColumnDef("a", IntegerType, false, false, false, None, None)], [], [ON_A], [], [], None)

  function Set(v: int): seq<Assignment> {
    [Assignment("a", Literal(Integer(v)))]
  }

  function IsThree(v: Value): Expr {
    Binary(Literal(v), Eq, Literal(Integer(3)))
  }

  /** UPDATE t SET a = 2 WHERE 3 = 3, with the new value in place of NEW.a */
  function Body(now: Option<Row>): seq<Stmt> {
    [Stmt.Update("t", Set(2), Some(IsThree(ColumnValue(now, "a"))))]
  }

  /** BEFORE UPDATE ON t: UPDATE t SET a = 2 WHERE NEW.a = 3 */
  function Meddling(): Trigger {
    Trigger(OnUpdate, Before, Always, (was, now) => Some(Body(now)))
  }

  /** One row, that trigger, and the index on `a`. */
  ghost predicate Holds(s: State, v: int, b: Tree.BTree) {
    && s.tables == map["t" := map[1 := A(v)]] && s.schemas == map["t" := PLAIN]
    && s.triggers == map["t" := [Meddling()]] && s.fts == map[]
    && s.indexes == map[IndexId("t", "i") := b]
  }

  // ---------------------------------------------------------------- single steps

  lemma PlainIsValid(w: World, s: State, v: int)
    ensures Validate(w, s, PLAIN, A(v), 1).None?
  {
    assert forall x :: x in PLAIN.columns ==> x == PLAIN.columns[0];
    assert !ColumnClashes(s, PLAIN, PLAIN.columns[0], A(v), 1);
  }

  lemma SetsValue(w: World, u: int, v: int)
    ensures Assign(w, A(u), A(u), Set(v), [], 0) == A(v)
  {
    assert Set(v)[1..] == [];
    assert Eval(w, Literal(Integer(v)), Some(A(u)), [], 0) == (Integer(v), 0);
    assert A(u).Put("a", Integer(v)) == A(v);
  }

  lemma ThreeIsThree(w: World, hits: Hits, row: Row, v: int)
    ensures EvalWhere(w, hits, row, IsThree(Integer(v)), [], 0).0 == (v == 3)
  {
    assert Eval(w, Literal(Integer(v)), Some(row), [], 0) == (Integer(v), 0);
    assert Eval(w, Literal(Integer(3)), Some(row), [], 0) == (Integer(3), 0);
    assert Eval(w, IsThree(Integer(v)), Some(row), [], 0).0 == BoolVal(v == 3);
  }

  lemma Repeats(order: seq<RowId>)
    requires |order| > 1 && forall r :: r in order ==> r == 1
    ensures exists i, j :: 0 <= i < j < |order| && order[i] == order[j]
  {
    assert order[0] in order && order[1] in order;
    assert order[0] == order[1];
  }

  lemma OnlyOne(order: seq<RowId>)
    requires forall r :: r in order <==> r == 1
    requires forall i, j :: 0 <= i < j < |order| ==> order[i] != order[j]
    ensures order == [1]
  {
    assert 1 in order;
    if |order| > 1 {
      Repeats(order);
      assert false;
    }
  }

  /** What an UPDATE with `WHERE v = 3` captures. */
  lemma Captures(w: World, s: State, u: int, b: Tree.BTree, where: Option<Expr>, all: bool)
    requires w.ScansOnce() && Holds(s, u, b)
    requires where.Some? ==> forall row :: EvalWhere(w, FtsHits(w, s.fts), row, where.value, [], 0).0 == all
    requires where.None? ==> all
    ensures Capture(w, s, "t", ScanOrder(w, s, "t"), where, [], 0) == if all then [Captured(1, A(u))] else []
  {
    hide EvalWhere;
    var order := ScanOrder(w, s, "t");
    OnlyOne(order);
    assert order[1..] == [];
    assert Capture(w, s, "t", [], where, [], 0) == [];
  }

  /** Only its own event and timing fire the trigger. */
  lemma AfterIsIdle(w: World, s: State, was: Row, now: Row, tx: Option<TxId>, fuel: nat)
    requires s.triggers == map["t" := [Meddling()]]
    ensures Fire(w, s, "t", OnUpdate, After, Some(was), Some(now), tx, fuel) == (s, Ok(0))
  {
    var trs := [Meddling()];
    FireTurn(w, s, trs, 0, OnUpdate, After, Some(was), Some(now), tx, fuel);
    assert trs[0..] == trs && trs[1..] == [];
    FireNone(w, s, OnUpdate, After, Some(was), Some(now), tx, fuel);
  }

  /** When it fires, it runs its one statement. */
  lemma BeforeRuns(w: World, s: State, was: Row, now: Row, tx: Option<TxId>, fuel: nat, s1: State, o: Outcome)
    requires s.triggers == map["t" := [Meddling()]] && fuel > 0 && o.Ok?
    requires Exec(w, s, Body(Some(now))[0], [], tx, fuel - 1) == (s1, o)
    ensures Fire(w, s, "t", OnUpdate, Before, Some(was), Some(now), tx, fuel) == (s1, Ok(0))
  {
    hide Exec;
    var trs, body := [Meddling()], Body(Some(now));
    assert body[1..] == [] && RunBody(w, s1, [], tx, fuel) == (s1, Ok(0));
    assert RunBody(w, s, body, tx, fuel) == (s1, Ok(0));
    FireTurn(w, s, trs, 0, OnUpdate, Before, Some(was), Some(now), tx, fuel);
    assert trs[0..] == trs && trs[1..] == [];
    assert trs[0].body(Some(was), Some(now)) == Some(body);
    FireNone(w, s1, OnUpdate, Before, Some(was), Some(now), tx, fuel);
  }

  lemma WritesOver(w: World, s: State, tx: Option<TxId>, u: int, v: int, was: int, b: Tree.BTree)
    requires Holds(s, u, b)
    ensures Holds(WriteUpdate(w, s, tx, "t", 1, A(was), A(v)), v,
              Tree.Add(Tree.Remove(b, Integer(was), 1), Integer(v), 1))
  {
    hide Tree.Add, Tree.Remove;
    var s' := WriteUpdate(w, s, tx, "t", 1, A(was), A(v));
    var defs, id := [ON_A], IndexId("t", "i");
    assert defs[1..] == [];
    assert IndexValue(ON_A, A(was)) == Some(Integer(was)) && IndexValue(ON_A, A(v)) == Some(Integer(v));
    var removed := s.indexes[id := Tree.Remove(b, Integer(was), 1)];
    var added := removed[id := Tree.Add(TreeOf(removed, id), Integer(v), 1)];
    assert UpdateIndex(s.indexes, "t", ON_A, 1, Some(A(was)), Some(A(v))) == added;
    assert UpdateEach(added, "t", [], 1, Some(A(was)), Some(A(v))) == added;
    assert UpdateEach(s.indexes, "t", defs, 1, Some(A(was)), Some(A(v))) == added;
    assert IndicesOf(s.schemas, "t") == defs;
    assert s'.indexes == added;
    var rows: Table := map[1 := A(u)];
    assert rows[1 := A(v)] == map[1 := A(v)];
  }

  // ---------------------------------------------------------------- the trigger's own update

  /** With a new value other than 3 the trigger finds nothing to do. */
  lemma {:induction false} Unmoved(w: World, s: State, u: int, v: int, b: Tree.BTree, tx: Option<TxId>, fuel: nat)
    requires w.ScansOnce() && Holds(s, u, b) && v != 3 && fuel > 0
    ensures Fire(w, s, "t", OnUpdate, Before, Some(A(u)), Some(A(v)), tx, fuel) == (Scanned(s), Ok(0))
  {
    hide Capture, Fire, EvalWhere;
    var stmt := Body(Some(A(v)))[0];
    forall row ensures EvalWhere(w, FtsHits(w, s.fts), row, IsThree(Integer(v)), [], 0).0 == false {
      ThreeIsThree(w, FtsHits(w, s.fts), row, v);
    }
    Captures(w, s, u, b, stmt.where, false);
    CountsNone(2);
    assert UpdateAll(w, Scanned(s), "t", PLAIN, [], Set(2), [], tx, fuel - 1) == (Scanned(s), Ok(0));
    assert Exec(w, s, stmt, [], tx, fuel - 1) == (Scanned(s), Ok(0));
    BeforeRuns(w, s, A(u), A(v), tx, fuel, Scanned(s), Ok(0));
  }

  lemma CountsNone(v: int)
    ensures CountAssignments(Set(v)) == 0
  {
    assert Set(v)[1..] == [];
  }

  /** One UPDATE of the row, given what its BEFORE trigger does. */
  lemma {:induction false} UpdatesRow(w: World, s: State, u: int, v: int, b: Tree.BTree, tx: Option<TxId>, fuel: nat,
      s1: State, x: int, b1: Tree.BTree)
    requires Holds(s, u, b) && Holds(s1, x, b1)
    requires Fire(w, s, "t", OnUpdate, Before, Some(A(u)), Some(A(v)), tx, fuel) == (s1, Ok(0))
    ensures var s' := WriteUpdate(w, s1, tx, "t", 1, A(u), A(v));
            && UpdateAll(w, s, "t", PLAIN, [Captured(1, A(u))], Set(v), [], tx, fuel) == (s', Ok(1))
            && Holds(s', v, Tree.Add(Tree.Remove(b1, Integer(u), 1), Integer(v), 1))
  {
    hide Fire, Validate, WriteUpdate, UpdateOne, Assign, Tree.Add, Tree.Remove;
    var c := Captured(1, A(u));
    var s' := WriteUpdate(w, s1, tx, "t", 1, A(u), A(v));
    SetsValue(w, u, v);
    PlainIsValid(w, s, v);
    UpdateOneBy(w, s, "t", PLAIN, c, Set(v), [], tx, fuel, A(v), s1);
    WritesOver(w, s1, tx, x, v, u, b1);
    AfterIsIdle(w, s', A(u), A(v), tx, fuel);
    assert [c][1..] == [];
    assert UpdateAll(w, s', "t", PLAIN, [], Set(v), [], tx, fuel) == (s', Ok(0));
  }

  lemma IndexSteps()
    ensures var one, two := [Tree.Entry(Integer(1), [1])], [Tree.Entry(Integer(2), [1])];
            && Tree.Add(Tree.Remove(one, Integer(1), 1), Integer(2), 1) == two
            && Tree.Add(Tree.Remove(two, Integer(1), 1), Integer(3), 1) == two + [Tree.Entry(Integer(3), [1])]
  {
    var one, two := [Tree.Entry(Integer(1), [1])], [Tree.Entry(Integer(2), [1])];
    assert one[1..] == [] && two[1..] == [];
    assert Tree.Remove(one, Integer(1), 1) == [];
    assert Tree.Remove(two, Integer(1), 1) == two;
    assert Tree.Add([], Integer(3), 1) == [Tree.Entry(Integer(3), [1])];
  }

  // ---------------------------------------------------------------- the whole statement

  /** What the trigger does to the row that the outer UPDATE has captured. */
  lemma {:induction false} Meddles(w: World, s: State, tx: Option<TxId>) returns (s1: State)
    requires w.ScansOnce() && Holds(s, 1, [Tree.Entry(Integer(1), [1])])
    ensures Fire(w, s, "t", OnUpdate, Before, Some(A(1)), Some(A(3)), tx, 2) == (s1, Ok(0))
    ensures Holds(s1, 2, [Tree.Entry(Integer(2), [1])])
  {
    hide Capture, Fire, EvalWhere, UpdateAll, WriteUpdate, Tree.Add, Tree.Remove;
    var b, stmt := [Tree.Entry(Integer(1), [1])], Body(Some(A(3)))[0];
    forall row ensures EvalWhere(w, FtsHits(w, s.fts), row, IsThree(Integer(3)), [], 0).0 == true {
      ThreeIsThree(w, FtsHits(w, s.fts), row, 3);
    }
    Captures(w, s, 1, b, stmt.where, true);
    CountsNone(2);
    Unmoved(w, Scanned(s), 1, 2, b, tx, 1);
    UpdatesRow(w, Scanned(s), 1, 2, b, tx, 1, Scanned(Scanned(s)), 1, b);
    IndexSteps();
    s1 := Exec(w, s, stmt, [], tx, 1).0;
    BeforeRuns(w, s, A(1), A(3), tx, 2, s1, Ok(1));
  }

  /** UPDATE t SET a = 3: the row holds 3, and is filed under 2 and under 3. */
  lemma {:induction false} LeavesStaleEntry(w: World, s: State, tx: Option<TxId>)
    requires w.ScansOnce() && Holds(s, 1, [Tree.Entry(Integer(1), [1])])
    ensures var (s', o) := Exec(w, s, Stmt.Update("t", Set(3), None), [], tx, 2);
            o == Ok(1) && Holds(s', 3, [Tree.Entry(Integer(2), [1]), Tree.Entry(Integer(3), [1])])
  {
    hide Capture, Fire, UpdateAll, WriteUpdate, Tree.Add, Tree.Remove;
    var b := [Tree.Entry(Integer(1), [1])];
    Captures(w, s, 1, b, None, true);
    CountsNone(3);
    var s1 := Meddles(w, Scanned(s), tx);
    UpdatesRow(w, Scanned(s), 1, 3, b, tx, 2, s1, 2, [Tree.Entry(Integer(2), [1])]);
    IndexSteps();
    assert [Tree.Entry(Integer(2), [1])] + [Tree.Entry(Integer(3), [1])] ==
           [Tree.Entry(Integer(2), [1]), Tree.Entry(Integer(3), [1])];
  }

  /** After that UPDATE, `SELECT * FROM t WHERE a > 0` returns the one row twice. */
  lemma {:induction false} StaleRangeReached(w: World, s: State, tx: Option<TxId>)
    requires w.ScansOnce() && Holds(s, 1, [Tree.Entry(Integer(1), [1])])
    ensures var s' := Exec(w, s, Stmt.Update("t", Set(3), None), [], tx, 2).0;
            var e := Binary(Column("a"), Gt, Literal(Integer(0)));
            && "t" in s'.tables
            && Listed(w, s', "t", PlanFor(w, IndicesOf(s'.schemas, "t"), e, [])) == [1, 1]
            && multiset(Answer(w, s', "t", PlanFor(w, IndicesOf(s'.schemas, "t"), e, []), e, []))
                 != multiset(Answer(w, s', "t", FullScan, e, []))
  {
    hide Exec, Answer;
    LeavesStaleEntry(w, s, tx);
    var s' := Exec(w, s, Stmt.Update("t", Set(3), None), [], tx, 2).0;
    ListsTwice(w, s');
  }

  lemma ListsTwice(w: World, s: State)
    requires w.ScansOnce() && Holds(s, 3, [Tree.Entry(Integer(2), [1]), Tree.Entry(Integer(3), [1])])
    ensures var e := Binary(Column("a"), Gt, Literal(Integer(0)));
            var p := PlanFor(w, IndicesOf(s.schemas, "t"), e, []);
            && Listed(w, s, "t", p) == [1, 1]
            && multiset(Answer(w, s, "t", p, e, [])) != multiset(Answer(w, s, "t", FullScan, e, []))
  {
    hide Answer;
    var e, b := Binary(Column("a"), Gt, Literal(Integer(0))),
      [Tree.Entry(Integer(2), [1]), Tree.Entry(Integer(3), [1])];
    var p := ByRange(ON_A, Tree.Excluded(Integer(0)), Tree.Unbounded);
    assert Eval(w, Literal(Integer(0)), None, [], 0) == (Integer(0), 0);
    assert PlanFor(w, [ON_A], e, []) == p;
    assert b[1..] == [Tree.Entry(Integer(3), [1])] && b[1..][1..] == [];
    assert Tree.Range(b[1..], p.lower, p.upper) == [1];
    assert Tree.Range(b, p.lower, p.upper) == [1, 1];
    var row := Tagged(A(3), 1);
    assert Eval(w, Column("a"), Some(row), [], 0) == (Integer(3), 0);
    assert Eval(w, Literal(Integer(0)), Some(row), [], 0) == (Integer(0), 0);
    assert Eval(w, e, Some(row), [], 0).0 == BoolVal(true);
    assert Selected(w, s, "t", e, [], 1);
    FastEqualsScanExactly(w, s, "t", p, e, []);
    assert multiset([1, 1])[1] == 2;
  }
}
