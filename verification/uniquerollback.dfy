/** UNIQUE and the rollback of one transaction among others.

    Undoing puts rows back without validating them. A value that a transaction had
    freed may meanwhile have been taken by somebody else. */
module UniqueRollback {
  import opened Wrappers
  import opened Values
  import opened Externals
  import opened Store
  import opened Constraints
  import opened Runs
  import opened Rollbacks
  import opened Indexing
  import opened Interleaving
  import opened Uniqueness
  import opened BeforeTriggers

  /** What is left at a row id when `a` is rolled back in the tables `live`. */
  function Left(s: State, live: Tables, turns: seq<Turn>, a: TxId, t: string, r: RowId): Option<Row> {
    if Owns(turns, a, t, r) then Standing(s, turns, a, t, r) else RowAt(live, t, r)
  }

  /** No row that the rollback puts back clashes with another row it leaves. */
  ghost predicate PutBackFits(s: State, live: Tables, turns: seq<Turn>, a: TxId, t: string, schema: Schema) {
    forall r, x: RowId {:trigger Standing(s, turns, a, t, r), Left(s, live, turns, a, t, x)} ::
      var back, other := Standing(s, turns, a, t, r), Left(s, live, turns, a, t, x);
      Owns(turns, a, t, r) && r != x && back.Some? && other.Some? ==> !Clash(schema, back.value, other.value)
  }

  lemma AsOptions(schema: Schema, tables: Tables, t: string)
    requires t in tables
    ensures UniqueTable(schema, tables[t]) <==>
              forall r, x: RowId {:trigger RowAt(tables, t, r), RowAt(tables, t, x)} ::
                r != x && RowAt(tables, t, r).Some? && RowAt(tables, t, x).Some? ==>
                  !Clash(schema, RowAt(tables, t, r).value, RowAt(tables, t, x).value)
  {
    hide Clash;
    if UniqueTable(schema, tables[t]) {
    } else {
      var r, x :| r in tables[t] && x in tables[t] && r != x && Clash(schema, tables[t][r], tables[t][x]);
      assert RowAt(tables, t, r) == Some(tables[t][r]) && RowAt(tables, t, x) == Some(tables[t][x]);
    }
  }

  /** Of a table that is unique while `a` runs, the rollback of `a` leaves a unique
      table exactly when no row it puts back clashes with another that it leaves. */
  lemma RollbackUniqueExactly(w: World, s: State, turns: seq<Turn>, a: TxId, t: string, schema: Schema)
    requires a in s.active && s.active[a] == [] && FaithfulTurns(w, s, turns, a)
    requires t in s.tables && t in Play(w, s, turns).tables && UniqueTable(schema, Play(w, s, turns).tables[t])
    ensures var live, after := Play(w, s, turns).tables, Rollback(w, Play(w, s, turns), a).0.tables;
            t in after && (UniqueTable(schema, after[t]) <==> PutBackFits(s, live, turns, a, t, schema))
  {
    hide Rollback, Play, Owns, Standing, FaithfulTurns, Clash, RowAt, UniqueTable;
    var live, after := Play(w, s, turns).tables, Rollback(w, Play(w, s, turns), a).0.tables;
    forall r: RowId ensures RowAt(after, t, r) == Left(s, live, turns, a, t, r) && after.Keys == s.tables.Keys {
      LeftRow(w, s, turns, a, t, r);
    }
    LeftRow(w, s, turns, a, t, 0);
    AsOptions(schema, after, t);
    AsOptions(schema, live, t);
    if PutBackFits(s, live, turns, a, t, schema) {
      forall r, x: RowId | r != x && RowAt(after, t, r).Some? && RowAt(after, t, x).Some?
        ensures !Clash(schema, RowAt(after, t, r).value, RowAt(after, t, x).value)
      {
        ClashSymmetric(schema, RowAt(after, t, r).value, RowAt(after, t, x).value);
        assert RowAt(after, t, r) == Left(s, live, turns, a, t, r)
               && RowAt(after, t, x) == Left(s, live, turns, a, t, x);
        if Owns(turns, a, t, r) {
        } else if Owns(turns, a, t, x) {
          assert Standing(s, turns, a, t, x) == RowAt(after, t, x);
        } else {
          assert RowAt(live, t, r).Some? && RowAt(live, t, x).Some?;
        }
      }
    }
    if UniqueTable(schema, after[t]) {
      forall r, x: RowId | Owns(turns, a, t, r) && r != x && Standing(s, turns, a, t, r).Some?
        && Left(s, live, turns, a, t, x).Some?
        ensures !Clash(schema, Standing(s, turns, a, t, r).value, Left(s, live, turns, a, t, x).value)
      {
        assert RowAt(after, t, r) == Left(s, live, turns, a, t, r)
               && RowAt(after, t, x) == Left(s, live, turns, a, t, x);
      }
    }
  }

  /** A row that `a` has not written is after the rollback what it was before. */
  lemma LeftRow(w: World, s: State, turns: seq<Turn>, a: TxId, t: string, r: RowId)
    requires a in s.active && s.active[a] == [] && FaithfulTurns(w, s, turns, a) && t in s.tables
    ensures var live, after := Play(w, s, turns).tables, Rollback(w, Play(w, s, turns), a).0.tables;
            after.Keys == s.tables.Keys && RowAt(after, t, r) == Left(s, live, turns, a, t, r)
  {
    hide Rollback, Play, Owns, Standing, FaithfulTurns, RowAt;
    RolledBackRow(w, s, turns, a, t, r);
    RowAfter(w, s, turns, a, t, r);
  }

  lemma {:induction false} DisjointStands(s: State, turns: seq<Turn>, a: TxId, t: string, r: RowId, n: nat)
    requires Disjoint(turns, a) && Owns(turns, a, t, r) && n <= |turns|
    ensures Standing(s, turns[..n], a, t, r) == RowAt(s.tables, t, r)
    decreases n
  {
    if n > 0 {
      assert turns[..n][..n - 1] == turns[..n - 1];
      DisjointStands(s, turns, a, t, r, n - 1);
      assert turns[..n][n - 1] == turns[n - 1];
    }
  }

  /** No row of `s` that `a` has written clashes with a row of the tables `without`. */
  ghost predicate FoundRowsFit(s: State, without: Tables, turns: seq<Turn>, a: TxId, t: string, schema: Schema) {
    forall r, x: RowId {:trigger RowAt(s.tables, t, r), RowAt(without, t, x)} ::
      var found, other := RowAt(s.tables, t, r), RowAt(without, t, x);
      Owns(turns, a, t, r) && r != x && found.Some? && other.Some? ==> !Clash(schema, found.value, other.value)
  }

  /** For transactions that write different rows of a table that was unique and is:
      exactly when no row of `s` that `a` has written clashes with a row of the
      schedule without `a`. */
  lemma DisjointRollbackUniqueExactly(w: World, s: State, turns: seq<Turn>, a: TxId, t: string, schema: Schema)
    requires a in s.active && s.active[a] == [] && Disjoint(turns, a) && FaithfulTurns(w, s, turns, a)
    requires t in s.tables && UniqueTable(schema, s.tables[t])
    requires t in Play(w, s, turns).tables && UniqueTable(schema, Play(w, s, turns).tables[t])
    ensures var without, after := Play(w, s, Others(turns, a)).tables, Rollback(w, Play(w, s, turns), a).0.tables;
            && t in after
            && (UniqueTable(schema, after[t]) <==> FoundRowsFit(s, without, turns, a, t, schema))
  {
    hide Rollback, Play, Others, Owns, Standing, Disjoint, FaithfulTurns, Clash, RowAt, UniqueTable;
    var live, without := Play(w, s, turns).tables, Play(w, s, Others(turns, a)).tables;
    RollbackUniqueExactly(w, s, turns, a, t, schema);
    forall r: RowId
      ensures Owns(turns, a, t, r) ==> Standing(s, turns, a, t, r) == RowAt(s.tables, t, r)
      ensures Left(s, live, turns, a, t, r) == RowAt(without, t, r)
    {
      if Owns(turns, a, t, r) {
        DisjointStands(s, turns, a, t, r, |turns|);
        DisjointLeaves(turns, a, t, r, |turns|);
        assert turns[..|turns|] == turns;
      }
      RowAfter(w, s, turns, a, t, r);
    }
    if PutBackFits(s, live, turns, a, t, schema) {
      forall r, x: RowId | Owns(turns, a, t, r) && r != x && RowAt(s.tables, t, r).Some? && RowAt(without, t, x).Some?
        ensures !Clash(schema, RowAt(s.tables, t, r).value, RowAt(without, t, x).value)
      {
        assert Standing(s, turns, a, t, r) == RowAt(s.tables, t, r);
        assert Left(s, live, turns, a, t, x) == RowAt(without, t, x);
      }
    }
    if FoundRowsFit(s, without, turns, a, t, schema) {
      forall r, x: RowId
        | Owns(turns, a, t, r) && r != x && Standing(s, turns, a, t, r).Some? && Left(s, live, turns, a, t, x).Some?
        ensures !Clash(schema, Standing(s, turns, a, t, r).value, Left(s, live, turns, a, t, x).value)
      {
        assert Standing(s, turns, a, t, r) == RowAt(s.tables, t, r);
        assert Left(s, live, turns, a, t, x) == RowAt(without, t, x);
      }
      assert PutBackFits(s, live, turns, a, t, schema);
    }
  }

  lemma OneOrNone()
    ensures UniqueTable(WITNESS_SCHEMA, map[])
    ensures UniqueTable(WITNESS_SCHEMA, map[1 := OneColumn(Integer(5))])
    ensures UniqueTable(WITNESS_SCHEMA, map[2 := OneColumn(Integer(5))])
  {
  }

  /** `a` deletes the row with 5, `b` inserts a row with 5, which passes its checks,
      and `a` is rolled back: two rows hold 5 in a UNIQUE column. */
  lemma FreedValueWitness(w: World, s: State, a: TxId, b: TxId)
    requires s.tables == map["t" := map[1 := OneColumn(Integer(5))]] && s.schemas == map["t" := WITNESS_SCHEMA]
    requires a in s.active && s.active[a] == [] && b in s.active && a != b
    ensures var row := OneColumn(Integer(5));
            var turns := [Turn(a, Del("t", 1, row)), Turn(b, Ins("t", 2, row))];
            && UniqueTable(WITNESS_SCHEMA, s.tables["t"])
            && Checked(Play(w, s, turns[..1]), turns[1].step)
            && Play(w, s, turns).tables == map["t" := map[2 := row]] && UniqueTable(WITNESS_SCHEMA, map[2 := row])
            && Rollback(w, Play(w, s, turns), a).0.tables == map["t" := map[1 := row, 2 := row]]
            && !UniqueTable(WITNESS_SCHEMA, map[1 := row, 2 := row])
  {
    hide UniqueTable, Rollback, PassesUnique, Apply, Play, FaithfulTurns;
    var row := OneColumn(Integer(5));
    var one, two := Turn(a, Del("t", 1, row)), Turn(b, Ins("t", 2, row));
    var turns := [one, two];
    OneOrNone();
    TwiceIsNotUnique();
    var s1 := Apply(w, s, a, one.step);
    assert turns[..1] == [one];
    TwoTurns(w, s, a, one, two);
    DeletesFirst(w, s, a, row);
    PassesWitnessCheck(w, s1, row, 2);
    ValidatedIsUnique(w, s1, WITNESS_SCHEMA, row, 2);
    WrittenTable(w, s1, Some(b), "t", 2, row, row);
    assert Apply(w, s1, b, two.step) == WriteInsert(w, s1, Some(b), "t", 2, row) by { InsertIs(w, s1, b, row); }
    OneThenTwo(row);
    WitnessRollback(w, s, a, one, two, row);
  }

  /** Two turns, of which `a` has the first. */
  lemma TwoTurns(w: World, s: State, a: TxId, one: Turn, two: Turn)
    requires one.tx == a && two.tx != a && IsWriteStep(one.step) && Faithful(s, a, one.step)
    ensures Play(w, s, [one]) == Apply(w, s, a, one.step)
    ensures Play(w, s, [one, two]) == Apply(w, Apply(w, s, a, one.step), two.tx, two.step)
    ensures FaithfulTurns(w, s, [one, two], a)
  {
    hide Apply, Faithful;
    assert [one, two][..1] == [one] && [one][..0] == [];
    assert Play(w, s, []) == s;
    assert FaithfulTurns(w, s, [], a);
    assert FaithfulTurns(w, s, [one], a);
  }

  lemma InsertIs(w: World, s: State, b: TxId, row: Row)
    ensures Apply(w, s, b, Ins("t", 2, row)) == WriteInsert(w, s, Some(b), "t", 2, row)
  {
  }

  lemma DeletesFirst(w: World, s: State, a: TxId, row: Row)
    requires s.tables == map["t" := map[1 := row]]
    ensures Apply(w, s, a, Del("t", 1, row)).tables == map["t" := map[]]
              && Apply(w, s, a, Del("t", 1, row)).schemas == s.schemas
  {
    hide UpdateIndexes, SyncFts;
    var rows: Table := map[1 := row];
    assert rows - {1} == map[];
  }

  lemma OneThenTwo(row: Row)
    ensures var none: Tables := map["t" := map[]]; none["t" := none["t"][2 := row]] == map["t" := map[2 := row]]
  {
    var none: Tables := map["t" := map[]];
    assert none["t"][2 := row] == map[2 := row];
  }

  lemma WitnessTurns(s: State, a: TxId, one: Turn, two: Turn, row: Row, r: RowId)
    requires one == Turn(a, Del("t", 1, row)) && two.tx != a && two.step == Ins("t", 2, row)
    requires RowAt(s.tables, "t", 1) == Some(row)
    ensures Owns([one, two], a, "t", r) == (r == 1)
    ensures r == 1 ==> Standing(s, [one, two], a, "t", r) == Some(row)
  {
    var turns := [one, two];
    assert turns[..|turns| - 1] == [one] && [one][..|[one]| - 1] == [];
    assert !Owns([], a, "t", r) && Standing(s, [], a, "t", r) == RowAt(s.tables, "t", r);
    assert Owns([one], a, "t", r) == (r == 1);
    assert Standing(s, [one], a, "t", r) == RowAt(s.tables, "t", r);
  }

  lemma WitnessRollback(w: World, s: State, a: TxId, one: Turn, two: Turn, row: Row)
    requires s.tables == map["t" := map[1 := row]] && a in s.active && s.active[a] == []
    requires one == Turn(a, Del("t", 1, row)) && two.tx != a && two.step == Ins("t", 2, row)
    requires FaithfulTurns(w, s, [one, two], a) && Play(w, s, [one, two]).tables == map["t" := map[2 := row]]
    ensures Rollback(w, Play(w, s, [one, two]), a).0.tables == map["t" := map[1 := row, 2 := row]]
  {
    hide Rollback, Play, FaithfulTurns, Owns, Standing;
    var turns := [one, two];
    var after := Rollback(w, Play(w, s, turns), a).0.tables;
    var both: Tables := map["t" := map[1 := row, 2 := row]];
    forall r: RowId ensures RowAt(after, "t", r) == RowAt(both, "t", r) && after.Keys == s.tables.Keys {
      LeftRow(w, s, turns, a, "t", r);
      WitnessTurns(s, a, one, two, row, r);
    }
    LeftRow(w, s, turns, a, "t", 0);
    forall t, r: RowId ensures RowAt(after, t, r) == RowAt(both, t, r) {
      if t == "t" { assert RowAt(after, "t", r) == RowAt(both, "t", r); }
    }
    SameTables(after, both);
  }
}
