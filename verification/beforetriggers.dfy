/** BEFORE triggers and UNIQUE: a row is validated before its BEFORE triggers run
    and written after them, so a trigger that writes to the same table can defeat
    the check. Exactly when it does, and one table, one trigger and one UPDATE that
    show it. */
module BeforeTriggers {
  import opened Wrappers
  import opened Values
  import opened Externals
  import opened Expressions
  import opened Store
  import opened Constraints
  import opened Interpreter
  import opened Indexing
  import opened Uniqueness

  lemma WrittenTable(w: World, s: State, tx: Option<TxId>, t: string, r: RowId, was: Row, now: Row)
    requires t in s.tables
    ensures var s1 := WriteInsert(w, s, tx, t, r, now);
            s1.tables == s.tables[t := s.tables[t][r := now]] && s1.schemas == s.schemas && s1.triggers == s.triggers
    ensures var s1 := WriteUpdate(w, s, tx, t, r, was, now);
            s1.tables == s.tables[t := s.tables[t][r := now]] && s1.triggers == s.triggers
  {
    hide UpdateIndexes, SyncFts;
  }

  /** `s1` is the state after the BEFORE triggers of an INSERT whose row passed
      validation. The write keeps the table unique exactly when no other row of
      `s1` clashes with the new one. */
  lemma InsertUniqueExactly(w: World, s: State, t: string, schema: Schema, given: Row, tx: Option<TxId>, fuel: nat,
      row: Row, r: RowId, s1: State)
    requires t in s.tables && r == CounterOf(s, t) && row == WithDefaults(given, schema.columns, r)
    requires Validate(w, BumpCounter(s, t), schema, row, r).None?
    requires Fire(w, BumpCounter(s, t), t, OnInsert, Before, None, Some(row), tx, fuel) == (s1, Ok(0))
    requires UniqueTable(schema, s1.tables[t])
    ensures var s2 := WriteInsert(w, s1, tx, t, r, row);
            && InsertOne(w, s, t, schema, given, tx, fuel) == Fire(w, s2, t, OnInsert, After, None, Some(row), tx, fuel)
            && t in s2.tables
            && (UniqueTable(schema, s2.tables[t]) <==>
                 forall x :: x in s1.tables[t] && x != r ==> !Clash(schema, row, s1.tables[t][x]))
  {
    hide Fire, Validate, InsertOne, UniqueTable, Clash;
    InsertOneBy(w, s, t, schema, given, tx, fuel, row, s1);
    WrittenTable(w, s1, tx, t, r, row, row);
    PutUniqueExactly(schema, s1.tables[t], r, row);
  }

  /** The same for one captured row of an UPDATE. */
  lemma UpdateUniqueExactly(w: World, s: State, t: string, schema: Schema, c: Captured, sets: seq<Assignment>,
      params: seq<Value>, tx: Option<TxId>, fuel: nat, now: Row, s1: State)
    requires t in s.tables && now == Assign(w, c.row, c.row, sets, params, 0)
    requires Validate(w, s, schema, now, c.rowid).None?
    requires Fire(w, s, t, OnUpdate, Before, Some(c.row), Some(now), tx, fuel) == (s1, Ok(0))
    requires UniqueTable(schema, s1.tables[t])
    ensures var s2 := WriteUpdate(w, s1, tx, t, c.rowid, c.row, now);
            && UpdateOne(w, s, t, schema, c, sets, params, tx, fuel)
                 == Fire(w, s2, t, OnUpdate, After, Some(c.row), Some(now), tx, fuel)
            && t in s2.tables
            && (UniqueTable(schema, s2.tables[t]) <==>
                  forall x :: x in s1.tables[t] && x != c.rowid ==> !Clash(schema, now, s1.tables[t][x]))
  {
    hide Fire, Validate, UpdateOne, UniqueTable, Clash;
    UpdateOneBy(w, s, t, schema, c, sets, params, tx, fuel, now, s1);
    WrittenTable(w, s1, tx, t, c.rowid, c.row, now);
    PutUniqueExactly(schema, s1.tables[t], c.rowid, now);
  }

  /** A row that clashes then is one that the triggers have written since. */
  lemma OnlyTriggersClash(dom: Domains, w: World, s: State, s1: State, t: string, row: Row, r: RowId, x: RowId)
    requires t in s.tables && t in s.schemas && s.schemas[t].name == t
    requires LawfulDomains(dom) && AllComplete(dom, s) && RowLawful(dom, s.schemas, t, Some(row))
    requires Validate(w, s, s.schemas[t], row, r).None?
    requires t in s1.tables && x in s1.tables[t] && x != r && Clash(s.schemas[t], row, s1.tables[t][x])
    ensures RowAt(s1.tables, t, x) != RowAt(s.tables, t, x)
  {
    hide Validate, Clash, AllComplete, RowLawful, PassesUnique;
    ValidatedIsUnique(w, s, s.schemas[t], row, r);
    if x in s.tables[t] { CheckedRow(dom, s, t, row, r, x); }
  }

  // ---------------------------------------------------------------- the witness

  function OneColumn(v: Value): Row {
    Row(["a"], map["a" := v])
  }

  const WITNESS_SCHEMA :=
    Schema("t", [ColumnDef("a", IntegerType, false, false, true, None, None)], [], [], [], [], None)

  const WITNESS_INSERT := Stmt.Insert("t", ["a"], Tuples([[Literal(Integer(5))]]))

  /** BEFORE UPDATE ON t: INSERT INTO t (a) VALUES (5) */
  function WitnessTrigger(): Trigger {
    Trigger(OnUpdate, Before, Always, (was, now) => Some([WITNESS_INSERT]))
  }

  /** A table with the UNIQUE column `a`, that trigger, and one row with `a` = 1. */
  ghost predicate WitnessState(s: State) {
    && s.tables == map["t" := map[1 := OneColumn(Integer(1))]]
    && s.schemas == map["t" := WITNESS_SCHEMA]
    && s.triggers == map["t" := [WitnessTrigger()]]
    && s.counters == map["t" := 2]
  }

  lemma PassesWitnessCheck(w: World, s: State, row: Row, r: RowId)
    requires "t" in s.tables && row.Has("a") && row.vals["a"] == Integer(5)
    requires forall x :: x in s.tables["t"] && x != r ==> s.tables["t"][x] == OneColumn(Integer(1))
    ensures Validate(w, s, WITNESS_SCHEMA, row, r).None?
  {
    var c := WITNESS_SCHEMA.columns[0];
    assert forall x :: x in WITNESS_SCHEMA.columns ==> x == c;
    forall x | x in s.tables["t"] && x != r ensures !HasValues(s.tables["t"][x], ["a"], [Integer(5)]) {
      assert ["a"][0] == "a";
    }
    assert !ScanFinds(s.tables["t"], ["a"], [Integer(5)], r);
    assert !ColumnClashes(s, WITNESS_SCHEMA, c, row, r);
  }

  lemma WitnessIdle(w: World, s: State, event: Event, timing: Timing, was: Option<Row>, now: Option<Row>,
      tx: Option<TxId>, fuel: nat)
    requires s.triggers == map["t" := [WitnessTrigger()]] && (event != OnUpdate || timing != Before)
    ensures Fire(w, s, "t", event, timing, was, now, tx, fuel) == (s, Ok(0))
  {
    var trs := [WitnessTrigger()];
    assert trs[1..] == [];
    assert FireEach(w, s, trs[1..], event, timing, was, now, tx, fuel) == (s, Ok(0));
  }

  lemma WitnessRow(w: World, s: State)
    ensures Candidates(w, s, WITNESS_SCHEMA, ["a"], WITNESS_INSERT.source, []) == Ok([OneColumn(Integer(5))])
  {
    var e, row := Literal(Integer(5)), OneColumn(Integer(5));
    assert [e][..1] == [e] && [e][1..] == [];
    assert Eval(w, e, None, [], 0) == (Integer(5), 0);
    assert EvalAll(w, [e], None, [], 0).0 == [Integer(5)];
    assert ["a"][1..] == [] && [Integer(5)][1..] == [];
    assert ZipInto(EMPTY_ROW, ["a"], [Integer(5)]) == row;
    assert TupleRow(w, ["a"], [e], []) == row;
    assert TupleRows(w, ["a"], [[e]], []) == [row] by { assert [[e]][1..] == []; }
    assert Candidates(w, s, WITNESS_SCHEMA, ["a"], Tuples([[e]]), []) == Ok([row]);
  }

  lemma WitnessStores(w: World, s: State, tx: Option<TxId>, fuel: nat)
    requires WitnessState(s)
    ensures var s1 := WriteInsert(w, BumpCounter(s, "t"), tx, "t", 2, OneColumn(Integer(5)));
            && InsertOne(w, s, "t", WITNESS_SCHEMA, OneColumn(Integer(5)), tx, fuel) == (s1, Ok(0))
            && s1.schemas == s.schemas && s1.triggers == s.triggers
            && s1.tables == map["t" := map[1 := OneColumn(Integer(1)), 2 := OneColumn(Integer(5))]]
  {
    hide Validate, Fire, InsertOne, WriteInsert, WriteUpdate;
    var row, s0 := OneColumn(Integer(5)), BumpCounter(s, "t");
    assert WITNESS_SCHEMA.columns[1..] == [];
    assert WithDefaults(row, WITNESS_SCHEMA.columns, 2) == row;
    PassesWitnessCheck(w, s0, row, 2);
    WitnessIdle(w, s0, OnInsert, Before, None, Some(row), tx, fuel);
    InsertOneBy(w, s, "t", WITNESS_SCHEMA, row, tx, fuel, row, s0);
    WrittenTable(w, s0, tx, "t", 2, row, row);
    WitnessIdle(w, WriteInsert(w, s0, tx, "t", 2, row), OnInsert, After, None, Some(row), tx, fuel);
  }

  /** What the trigger does: a second row, with `a` = 5. */
  lemma WitnessInserts(w: World, s: State, tx: Option<TxId>, fuel: nat)
    requires WitnessState(s)
    ensures var (s', o) := Exec(w, s, WITNESS_INSERT, [], tx, fuel);
            && o == Ok(1) && s'.schemas == s.schemas && s'.triggers == s.triggers
            && s'.tables == map["t" := map[1 := OneColumn(Integer(1)), 2 := OneColumn(Integer(5))]]
  {
    hide Candidates, InsertOne, WriteInsert, BumpCounter;
    var row := OneColumn(Integer(5));
    WitnessRow(w, s);
    WitnessStores(w, s, tx, fuel);
    var s1 := WriteInsert(w, BumpCounter(s, "t"), tx, "t", 2, row);
    assert [row][1..] == [];
    assert InsertAll(w, s1, "t", WITNESS_SCHEMA, [], tx, fuel) == (s1, Ok(0));
    assert InsertAll(w, s, "t", WITNESS_SCHEMA, [row], tx, fuel) == (s1, Ok(1));
  }

  lemma TwiceIsNotUnique()
    ensures !UniqueTable(WITNESS_SCHEMA, map[1 := OneColumn(Integer(5)), 2 := OneColumn(Integer(5))])
  {
    var both: Table := map[1 := OneColumn(Integer(5)), 2 := OneColumn(Integer(5))];
    assert WITNESS_SCHEMA.columns[0].unique;
    assert Agree(both[1], both[2], ["a"]);
    assert Clash(WITNESS_SCHEMA, both[1], both[2]);
  }

  /** The trigger fires, and the UPDATE it fired for goes on with its row. */
  lemma WitnessUpdates(w: World, s: State, tx: Option<TxId>, c: Captured, sets: seq<Assignment>)
    requires WitnessState(s) && c == Captured(1, OneColumn(Integer(1)))
               && sets == [Assignment("a", Literal(Integer(5)))]
    ensures var s1 := Exec(w, s, WITNESS_INSERT, [], tx, 0).0;
            var s2 := WriteUpdate(w, s1, tx, "t", 1, c.row, OneColumn(Integer(5)));
            && UpdateOne(w, s, "t", WITNESS_SCHEMA, c, sets, [], tx, 1) == (s2, Ok(0))
            && s2.tables == map["t" := map[1 := OneColumn(Integer(5)), 2 := OneColumn(Integer(5))]]
  {
    hide Validate, Fire, Exec, Assign, UpdateOne, WriteUpdate, WriteInsert;
    var was, now := OneColumn(Integer(1)), OneColumn(Integer(5));
    WitnessAssigns(w);
    PassesWitnessCheck(w, s, now, 1);
    var s1 := Exec(w, s, WITNESS_INSERT, [], tx, 0).0;
    WitnessInserts(w, s, tx, 0);
    WitnessFires(w, s, Some(was), Some(now), tx);
    UpdateOneBy(w, s, "t", WITNESS_SCHEMA, c, sets, [], tx, 1, now, s1);
    WrittenTable(w, s1, tx, "t", 1, was, now);
    WitnessIdle(w, WriteUpdate(w, s1, tx, "t", 1, was, now), OnUpdate, After, Some(was), Some(now), tx, 1);
    Overwritten(s1.tables, was, now);
  }

  lemma Overwritten(tables: Tables, a: Row, b: Row)
    requires tables == map["t" := map[1 := a, 2 := b]]
    ensures tables["t" := tables["t"][1 := b]] == map["t" := map[1 := b, 2 := b]]
  {
    assert tables["t"][1 := b] == map[1 := b, 2 := b];
  }

  /** The row was validated before the trigger ran, so the update goes through
      and two rows hold the same value in a UNIQUE column. */
  lemma {:induction false} BeforeTriggerWitness(w: World, s: State, tx: Option<TxId>)
    requires WitnessState(s)
    ensures UniqueTable(s.schemas["t"], s.tables["t"])
    ensures var (s', o) := UpdateOne(w, s, "t", WITNESS_SCHEMA, Captured(1, OneColumn(Integer(1))),
              [Assignment("a", Literal(Integer(5)))], [], tx, 1);
            o.Ok? && "t" in s'.tables && !UniqueTable(WITNESS_SCHEMA, s'.tables["t"])
  {
    hide UniqueTable, UpdateOne, WriteUpdate, Exec;
    OnceIsUnique();
    TwiceIsNotUnique();
    WitnessUpdates(w, s, tx, Captured(1, OneColumn(Integer(1))), [Assignment("a", Literal(Integer(5)))]);
  }

  lemma WitnessAssigns(w: World)
    ensures Assign(w, OneColumn(Integer(1)), OneColumn(Integer(1)), [Assignment("a", Literal(Integer(5)))], [], 0) ==
              OneColumn(Integer(5))
  {
    var was, e := OneColumn(Integer(1)), Literal(Integer(5));
    assert [Assignment("a", e)][1..] == [];
    assert Eval(w, e, Some(was), [], 0) == (Integer(5), 0);
    assert was.Put("a", Integer(5)) == OneColumn(Integer(5));
  }

  lemma OnceIsUnique()
    ensures UniqueTable(WITNESS_SCHEMA, map[1 := OneColumn(Integer(1))])
  {
  }

  lemma WitnessFires(w: World, s: State, was: Option<Row>, now: Option<Row>, tx: Option<TxId>)
    requires WitnessState(s)
    ensures var (s', o) := Exec(w, s, WITNESS_INSERT, [], tx, 0);
            o == Ok(1) ==> Fire(w, s, "t", OnUpdate, Before, was, now, tx, 1) == (s', Ok(0))
  {
    hide Exec;
    var tr := WitnessTrigger();
    var trs := [tr];
    var s' := Exec(w, s, WITNESS_INSERT, [], tx, 0).0;
    assert [WITNESS_INSERT][1..] == [] && trs[1..] == [] && trs[0..] == trs;
    assert RunBody(w, s', [], tx, 1) == (s', Ok(0));
    FireTurn(w, s, trs, 0, OnUpdate, Before, was, now, tx, 1);
    assert tr.body(was, now) == Some([WITNESS_INSERT]);
  }
}
