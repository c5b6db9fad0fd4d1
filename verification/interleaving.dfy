/** Transactions that take turns.

    There is no isolation: every write is live at once. Rolling one transaction
    back puts its rows back to what stood before its first write, whatever the
    others have written since. */
module Interleaving {
  import opened Wrappers
  import opened Values
  import opened Externals
  import opened Store
  import opened Runs
  import opened Rollbacks
  import opened Indexing

  datatype Turn = Turn(tx: TxId, step: Step)

  function Play(w: World, s: State, turns: seq<Turn>): State
    decreases |turns|
  {
    if turns == [] then s
    else
      var last := turns[|turns| - 1];
      Apply(w, Play(w, s, turns[..|turns| - 1]), last.tx, last.step)
  }

  /** The schedule as it would have been without transaction `a`. */
  function Others(turns: seq<Turn>, a: TxId): seq<Turn>
    decreases |turns|
  {
    if turns == [] then []
    else
      var rest := Others(turns[..|turns| - 1], a);
      if turns[|turns| - 1].tx == a then rest else rest + [turns[|turns| - 1]]
  }

  predicate Writes(turn: Turn, t: string, r: RowId) {
    IsWriteStep(turn.step) && turn.step.t == t && turn.step.r == r
  }

  /** `a` has written the row. */
  predicate Owns(turns: seq<Turn>, a: TxId, t: string, r: RowId)
    decreases |turns|
  {
    turns != [] &&
    var last := turns[|turns| - 1];
    Owns(turns[..|turns| - 1], a, t, r) || (last.tx == a && Writes(last, t, r))
  }

  /** The row that stood before `a` first wrote it: the last write of another
      transaction before that, or the row of `s`. */
  function Standing(s: State, turns: seq<Turn>, a: TxId, t: string, r: RowId): Option<Row>
    decreases |turns|
  {
    if turns == [] then RowAt(s.tables, t, r)
    else
      var before, last := turns[..|turns| - 1], turns[|turns| - 1];
      if last.tx != a && Writes(last, t, r) && !Owns(before, a, t, r) then NewRow(last.step)
      else Standing(s, before, a, t, r)
  }

  /** What the last write of another transaction after `a`'s first one left, if
      there is one. */
  function Overwritten(turns: seq<Turn>, a: TxId, t: string, r: RowId): Option<Option<Row>>
    decreases |turns|
  {
    if turns == [] then None
    else
      var before, last := turns[..|turns| - 1], turns[|turns| - 1];
      if last.tx != a && Writes(last, t, r) && Owns(before, a, t, r) then Some(NewRow(last.step))
      else Overwritten(before, a, t, r)
  }

  /** Whatever the others wrote to the row after `a` did, they left it as `a` had
      found it. */
  predicate LeftAsFound(s: State, turns: seq<Turn>, a: TxId, t: string, r: RowId) {
    var later := Overwritten(turns, a, t, r);
    later.Some? ==> later.value == Standing(s, turns, a, t, r)
  }

  /** No row is written both by `a` and by somebody else. */
  ghost predicate Disjoint(turns: seq<Turn>, a: TxId) {
    forall i, t, r: RowId :: 0 <= i < |turns| && turns[i].tx != a && Writes(turns[i], t, r) ==> !Owns(turns, a, t, r)
  }

  /** Every write of `a` is faithful in the state in which its turn comes. */
  predicate FaithfulTurns(w: World, s: State, turns: seq<Turn>, a: TxId)
    decreases |turns|
  {
    turns == [] ||
    var before, last := turns[..|turns| - 1], turns[|turns| - 1];
    && FaithfulTurns(w, s, before, a)
    && (last.tx == a && IsWriteStep(last.step) ==> Faithful(Play(w, s, before), a, last.step))
  }

  lemma StepRow(w: World, s: State, tx: TxId, step: Step, t: string, r: RowId)
    requires IsWriteStep(step) && step.t in s.tables
    ensures RowAt(Apply(w, s, tx, step).tables, t, r) ==
              if step.t == t && step.r == r then NewRow(step) else RowAt(s.tables, t, r)
  {
    hide UpdateIndexes, FtsChange;
  }

  lemma StepJournals(w: World, s: State, tx: TxId, step: Step, x: TxId)
    ensures Apply(w, s, tx, step).active.Keys == s.active.Keys
    ensures Apply(w, s, tx, step).tables.Keys == s.tables.Keys
    ensures JournalOf(Apply(w, s, tx, step), x) ==
              if x == tx && tx in s.active && IsWriteStep(step) then JournalOf(s, x) + [Entry(step)]
                else JournalOf(s, x)
  {
    hide UpdateIndexes, FtsChange;
  }

  lemma StepNoRow(w: World, s: State, tx: TxId, step: Step)
    requires IsWriteStep(step) ==> step.t !in s.tables
    ensures Apply(w, s, tx, step).tables == s.tables
  {
    hide UpdateIndexes, FtsChange;
  }

  /** A captured row stays good for its write through other transactions' turns
      on other rows. */
  lemma OthersKeepFaithful(w: World, s: State, a: TxId, mine: Step, b: TxId, other: Step)
    requires a != b && IsWriteStep(mine) && Faithful(s, a, mine)
    requires IsWriteStep(other) ==> other.t != mine.t || other.r != mine.r
    ensures Faithful(Apply(w, s, b, other), a, mine)
  {
    hide Apply, RowAt;
    StepJournals(w, s, b, other, a);
    if IsWriteStep(other) && other.t in s.tables {
      StepRow(w, s, b, other, mine.t, mine.r);
    } else {
      StepNoRow(w, s, b, other);
    }
  }

  // ---------------------------------------------------------------- one row, in both runs

  /** One turn, at one row. */
  lemma TurnAtRow(w: World, s: State, turn: Turn, a: TxId, t: string, r: RowId)
    requires t in s.tables
    ensures var s' := Apply(w, s, turn.tx, turn.step);
            && s'.tables.Keys == s.tables.Keys && s'.active.Keys == s.active.Keys
            && RowAt(s'.tables, t, r) == (if Writes(turn, t, r) then NewRow(turn.step) else RowAt(s.tables, t, r))
            && FirstTouch(JournalOf(s', a), t, r) ==
                 (if FirstTouch(JournalOf(s, a), t, r).Some? then FirstTouch(JournalOf(s, a), t, r)
                  else if turn.tx == a && a in s.active && Writes(turn, t, r) then Some(Restores(Entry(turn.step)))
                  else None)
  {
    hide Apply, RowAt, FirstTouch;
    var step := turn.step;
    StepJournals(w, s, turn.tx, step, a);
    if IsWriteStep(step) { FirstTouchAppend(JournalOf(s, a), Entry(step), t, r); }
    if IsWriteStep(step) && step.t in s.tables {
      StepRow(w, s, turn.tx, step, t, r);
    } else {
      StepNoRow(w, s, turn.tx, step);
    }
  }

  lemma {:induction false} KeysAfter(w: World, s: State, turns: seq<Turn>)
    ensures Play(w, s, turns).tables.Keys == s.tables.Keys && Play(w, s, turns).active.Keys == s.active.Keys
    decreases |turns|
  {
    hide Apply;
    if turns != [] {
      var before, last := turns[..|turns| - 1], turns[|turns| - 1];
      KeysAfter(w, s, before);
      StepJournals(w, Play(w, s, before), last.tx, last.step, last.tx);
    }
  }

  lemma PlayOthers(w: World, s: State, turns: seq<Turn>, a: TxId)
    requires turns != []
    ensures var before, last := turns[..|turns| - 1], turns[|turns| - 1];
            Play(w, s, Others(turns, a)) ==
              if last.tx == a then Play(w, s, Others(before, a))
              else Apply(w, Play(w, s, Others(before, a)), last.tx, last.step)
  {
    hide Apply;
    var before, last := turns[..|turns| - 1], turns[|turns| - 1];
    if last.tx != a {
      var others := Others(before, a) + [last];
      assert Others(turns, a) == others;
      assert others[..|others| - 1] == Others(before, a);
    }
  }

  /** A transaction that is faithful writes only to tables that exist. */
  lemma {:induction false} OwnsExisting(w: World, s: State, turns: seq<Turn>, a: TxId, t: string, r: RowId)
    requires FaithfulTurns(w, s, turns, a) && Owns(turns, a, t, r)
    ensures t in s.tables
    decreases |turns|
  {
    hide Apply;
    var before := turns[..|turns| - 1];
    if Owns(before, a, t, r) { OwnsExisting(w, s, before, a, t, r); } else { KeysAfter(w, s, before); }
  }

  /** Where `a` has not written, both runs show the row that stands. Where it has,
      undoing it would put that row back, and the run without it shows what the
      others wrote over it. */
  lemma {:induction false} RowAfter(w: World, s: State, turns: seq<Turn>, a: TxId, t: string, r: RowId)
    requires a in s.active && s.active[a] == [] && t in s.tables && FaithfulTurns(w, s, turns, a)
    ensures var with, without := Play(w, s, turns), Play(w, s, Others(turns, a));
            var first, stood, later := FirstTouch(JournalOf(with, a), t, r), Standing(s, turns, a, t, r),
              Overwritten(turns, a, t, r);
            if Owns(turns, a, t, r) then
              first == Some(stood) && RowAt(without.tables, t, r) == (if later.Some? then later.value else stood)
            else
              first.None? && later.None? && RowAt(with.tables, t, r) == stood && RowAt(without.tables, t, r) == stood
    decreases |turns|
  {
    hide Apply, RowAt, Faithful;
    if turns != [] {
      var before, last := turns[..|turns| - 1], turns[|turns| - 1];
      RowAfter(w, s, before, a, t, r);
      KeysAfter(w, s, before);
      KeysAfter(w, s, Others(before, a));
      PlayOthers(w, s, turns, a);
      TurnAtRow(w, Play(w, s, before), last, a, t, r);
      TurnAtRow(w, Play(w, s, Others(before, a)), last, a, t, r);
      if last.tx == a && Writes(last, t, r) { FirstIsFound(Play(w, s, before), a, last.step); }
    }
  }

  lemma FirstIsFound(s: State, a: TxId, step: Step)
    requires IsWriteStep(step) && Faithful(s, a, step)
    ensures FirstTouch(JournalOf(s, a), step.t, step.r).None? ==>
              Restores(Entry(step)) == RowAt(s.tables, step.t, step.r)
  {
  }

  /** The others' journals do not depend on whether `a` ran. */
  lemma {:induction false} JournalsAfter(w: World, s: State, turns: seq<Turn>, a: TxId, x: TxId)
    requires x != a
    ensures JournalOf(Play(w, s, turns), x) == JournalOf(Play(w, s, Others(turns, a)), x)
    decreases |turns|
  {
    hide Apply;
    if turns != [] {
      var before, last := turns[..|turns| - 1], turns[|turns| - 1];
      JournalsAfter(w, s, before, a, x);
      KeysAfter(w, s, before);
      KeysAfter(w, s, Others(before, a));
      PlayOthers(w, s, turns, a);
      StepJournals(w, Play(w, s, before), last.tx, last.step, x);
      StepJournals(w, Play(w, s, Others(before, a)), last.tx, last.step, x);
    }
  }

  lemma NoTable(a: Tables, b: Tables, t: string, r: RowId)
    requires t !in a && t !in b
    ensures RowAt(a, t, r) == RowAt(b, t, r)
  {
  }

  // ---------------------------------------------------------------- where faithful turns come from

  /** Where the `i`-th turn has its row from: its statement captured the row, or
      its transaction took the id, at the `j`-th turn. */
  ghost predicate Source(w: World, s: State, turns: seq<Turn>, i: nat, j: nat)
    requires j <= i < |turns| && IsWriteStep(turns[i].step)
  {
    var step, at := turns[i].step, Play(w, s, turns[..j]);
    && step.t in s.tables
    && if step.Ins? then turns[j] == Turn(turns[i].tx, Alloc(step.t)) && step.r == CounterOf(at, step.t)
       else RowAt(at.tables, step.t, step.r) == Some(step.was)
  }

  /** Since then no other transaction has written that row. */
  predicate Undisturbed(turns: seq<Turn>, i: nat, j: nat)
    requires j <= i < |turns| && IsWriteStep(turns[i].step)
  {
    forall k :: j <= k < i && turns[k].tx != turns[i].tx ==> !Writes(turns[k], turns[i].step.t, turns[i].step.r)
  }

  lemma StepCounter(w: World, s: State, tx: TxId, step: Step, t: string)
    ensures CounterOf(Apply(w, s, tx, step), t) == CounterOf(s, t) + if step == Alloc(t) then 1 else 0
  {
    hide UpdateIndexes, SyncFts;
  }

  lemma {:induction false} CountersGrow(w: World, s: State, turns: seq<Turn>, j: nat, i: nat, t: string)
    requires j <= i <= |turns|
    ensures CounterOf(Play(w, s, turns[..j]), t) <= CounterOf(Play(w, s, turns[..i]), t)
    ensures j < i && turns[j].step == Alloc(t) ==>
              CounterOf(Play(w, s, turns[..j]), t) < CounterOf(Play(w, s, turns[..i]), t)
    decreases i
  {
    hide Apply, CounterOf;
    if j < i {
      assert turns[..i][..i - 1] == turns[..i - 1];
      CountersGrow(w, s, turns, j, i - 1, t);
      StepCounter(w, Play(w, s, turns[..i - 1]), turns[i - 1].tx, turns[i - 1].step, t);
    }
  }

  /** All stored ids stay below their counters. */
  lemma {:induction false} RowsStayAhead(w: World, s: State, turns: seq<Turn>, n: nat)
    requires n <= |turns| && RowsAhead(s)
    requires forall i :: 0 <= i < |turns| && IsWriteStep(turns[i].step) ==>
               exists j :: 0 <= j <= i && Source(w, s, turns, i, j)
    ensures forall m :: 0 <= m <= n ==> RowsAhead(Play(w, s, turns[..m]))
    decreases n
  {
    hide Apply, RowAt, Source, CounterOf;
    assert turns[..0] == [];
    if n > 0 {
      var i := n - 1;
      var s1, turn := Play(w, s, turns[..i]), turns[i];
      assert turns[..n][..i] == turns[..i];
      RowsStayAhead(w, s, turns, i);
      forall t, r: RowId | RowAt(Play(w, s, turns[..n]).tables, t, r).Some?
        ensures r < CounterOf(Play(w, s, turns[..n]), t)
      {
        CountersGrow(w, s, turns, i, n, t);
        KeysAfter(w, s, turns[..i]);
        KeysAfter(w, s, turns[..n]);
        if t in s.tables {
          TurnAtRow(w, s1, turn, turn.tx, t, r);
          if Writes(turn, t, r) { SourceIsAhead(w, s, turns, i); }
        } else {
          NoTable(Play(w, s, turns[..n]).tables, s.tables, t, r);
          NoTable(s1.tables, s.tables, t, r);
        }
      }
    }
  }

  lemma SourceIsAhead(w: World, s: State, turns: seq<Turn>, i: nat)
    requires i < |turns| && IsWriteStep(turns[i].step)
    requires exists j :: 0 <= j <= i && Source(w, s, turns, i, j)
    requires forall n :: 0 <= n <= i ==> RowsAhead(Play(w, s, turns[..n]))
    ensures turns[i].step.r < CounterOf(Play(w, s, turns[..i]), turns[i].step.t)
  {
    hide Play;
    var j :| 0 <= j <= i && Source(w, s, turns, i, j);
    CountersGrow(w, s, turns, j, i, turns[i].step.t);
    assert RowsAhead(Play(w, s, turns[..j]));
  }

  /** What only `a` can have changed is as it was, or `a` has journaled it. */
  lemma {:induction false} UndisturbedKeeps(w: World, s: State, turns: seq<Turn>, a: TxId, j: nat, i: nat, t: string,
      r: RowId)
    requires a in s.active && t in s.tables && j <= i <= |turns|
    requires forall k :: j <= k < i && turns[k].tx != a ==> !Writes(turns[k], t, r)
    ensures var s' := Play(w, s, turns[..i]);
            Touched(s', a, t, r) || RowAt(s'.tables, t, r) == RowAt(Play(w, s, turns[..j]).tables, t, r)
    decreases i
  {
    hide Apply, RowAt, FirstTouch;
    if j < i {
      assert turns[..i][..i - 1] == turns[..i - 1];
      UndisturbedKeeps(w, s, turns, a, j, i - 1, t, r);
      KeysAfter(w, s, turns[..i - 1]);
      TurnAtRow(w, Play(w, s, turns[..i - 1]), turns[i - 1], a, t, r);
    }
  }

  /** A write whose row nobody else has written since it was captured, or whose id
      its transaction took, is faithful. */
  lemma SourcedIsFaithful(w: World, s: State, turns: seq<Turn>, i: nat, j: nat)
    requires j <= i < |turns| && IsWriteStep(turns[i].step) && turns[i].tx in s.active
    requires Source(w, s, turns, i, j) && Undisturbed(turns, i, j)
    requires RowsAhead(Play(w, s, turns[..j]))
    ensures Faithful(Play(w, s, turns[..i]), turns[i].tx, turns[i].step)
  {
    hide Play, FirstTouch;
    var step := turns[i].step;
    KeysAfter(w, s, turns[..i]);
    UndisturbedKeeps(w, s, turns, turns[i].tx, j, i, step.t, step.r);
    assert RowAt(Play(w, s, turns[..j]).tables, step.t, step.r) == Restores(Entry(step));
  }

  /** Statements that take turns are faithful: of each transaction whose captured
      rows nobody else writes between the capture and its own write. */
  lemma {:induction false} UndisturbedIsFaithful(w: World, s: State, turns: seq<Turn>, a: TxId, n: nat)
    requires a in s.active && RowsAhead(s) && n <= |turns|
    requires forall i :: 0 <= i < |turns| && IsWriteStep(turns[i].step) ==>
               exists j :: 0 <= j <= i && Source(w, s, turns, i, j)
    requires forall i :: 0 <= i < |turns| && IsWriteStep(turns[i].step) && turns[i].tx == a ==>
               exists j :: 0 <= j <= i && Source(w, s, turns, i, j) && Undisturbed(turns, i, j)
    ensures FaithfulTurns(w, s, turns[..n], a)
    decreases n
  {
    hide Play, Source, Undisturbed, Faithful, RowsAhead;
    if n > 0 {
      var i := n - 1;
      assert turns[..n][..i] == turns[..i];
      UndisturbedIsFaithful(w, s, turns, a, i);
      if turns[i].tx == a && IsWriteStep(turns[i].step) {
        var j :| 0 <= j <= i && Source(w, s, turns, i, j) && Undisturbed(turns, i, j);
        RowsStayAhead(w, s, turns, i);
        SourcedIsFaithful(w, s, turns, i, j);
      }
    }
  }

  // ---------------------------------------------------------------- rolling one back

  /** The tables after `a` is rolled back, row by row. */
  lemma RolledBackRow(w: World, s: State, turns: seq<Turn>, a: TxId, t: string, r: RowId)
    requires a in s.active && s.active[a] == [] && FaithfulTurns(w, s, turns, a)
    ensures var after := Rollback(w, Play(w, s, turns), a).0;
            && after.tables.Keys == s.tables.Keys
            && (t in s.tables ==> RowAt(after.tables, t, r) == Standing(s, turns, a, t, r))
  {
    hide Apply, RowAt, UndoAll;
    var with := Play(w, s, turns);
    KeysAfter(w, s, turns);
    var ended := with.(active := with.active - {a});
    UndoAllKeeps(w, ended, with.active[a]);
    if t in s.tables {
      RowAfter(w, s, turns, a, t, r);
      FirstEntryDecides(w, ended, with.active[a], t, r);
    }
  }

  lemma SameRow(a: Tables, b: Tables, t: string, r: RowId)
    requires a == b
    ensures RowAt(a, t, r) == RowAt(b, t, r)
  {
  }

  /** Rolling `a` back leaves everybody else's journals, and the tables exactly
      when the others left every row of `a` as `a` had found it, as the same
      schedule without `a` would have left them. */
  lemma InterleavedRollbackExactly(w: World, s: State, turns: seq<Turn>, a: TxId)
    requires a in s.active && s.active[a] == [] && FaithfulTurns(w, s, turns, a)
    ensures var after := Rollback(w, Play(w, s, turns), a).0;
            var without := Play(w, s, Others(turns, a));
            && after.active == without.active - {a}
            && (after.tables == without.tables <==>
                  forall t, r: RowId :: Owns(turns, a, t, r) ==> LeftAsFound(s, turns, a, t, r))
  {
    hide Apply, RowAt, Rollback, Owns, Standing, Overwritten;
    var after, without := Rollback(w, Play(w, s, turns), a).0, Play(w, s, Others(turns, a));
    KeysAfter(w, s, Others(turns, a));
    RolledBackRow(w, s, turns, a, "", 0);
    RolledBackJournals(w, s, turns, a);
    if forall t, r: RowId :: Owns(turns, a, t, r) ==> LeftAsFound(s, turns, a, t, r) {
      forall t, r: RowId ensures RowAt(after.tables, t, r) == RowAt(without.tables, t, r) {
        RolledBackRow(w, s, turns, a, t, r);
        if t in s.tables { RowAfter(w, s, turns, a, t, r); } else { NoTable(after.tables, without.tables, t, r); }
      }
      SameTables(after.tables, without.tables);
    }
    if after.tables == without.tables {
      forall t, r: RowId | Owns(turns, a, t, r) ensures LeftAsFound(s, turns, a, t, r) {
        OwnsExisting(w, s, turns, a, t, r);
        RowAfter(w, s, turns, a, t, r);
        RolledBackRow(w, s, turns, a, t, r);
        SameRow(after.tables, without.tables, t, r);
      }
    }
  }

  lemma RolledBackJournals(w: World, s: State, turns: seq<Turn>, a: TxId)
    requires a in s.active
    ensures Rollback(w, Play(w, s, turns), a).0.active == Play(w, s, Others(turns, a)).active - {a}
  {
    hide Apply, UndoAll;
    var with, without := Play(w, s, turns), Play(w, s, Others(turns, a));
    KeysAfter(w, s, turns);
    KeysAfter(w, s, Others(turns, a));
    UndoAllKeeps(w, with.(active := with.active - {a}), with.active[a]);
    forall x | x in with.active && x != a ensures with.active[x] == without.active[x] {
      JournalsAfter(w, s, turns, a, x);
    }
  }

  /** On disjoint rows nothing of `a` is overwritten. */
  lemma {:induction false} DisjointLeaves(turns: seq<Turn>, a: TxId, t: string, r: RowId, n: nat)
    requires Disjoint(turns, a) && Owns(turns, a, t, r) && n <= |turns|
    ensures Overwritten(turns[..n], a, t, r).None?
    decreases n
  {
    if n > 0 {
      assert turns[..n][..n - 1] == turns[..n - 1];
      DisjointLeaves(turns, a, t, r, n - 1);
      assert turns[..n][n - 1] == turns[n - 1];
    }
  }

  /** For transactions that write different rows: rolling `a` back leaves the
      tables, and everybody else's journals, of the schedule without `a`. */
  lemma InterleavedRollback(w: World, s: State, turns: seq<Turn>, a: TxId)
    requires a in s.active && s.active[a] == []
    requires Disjoint(turns, a) && FaithfulTurns(w, s, turns, a)
    ensures var after := Rollback(w, Play(w, s, turns), a).0;
            var without := Play(w, s, Others(turns, a));
            && after.tables == without.tables
            && after.active == without.active - {a}
  {
    hide Rollback, Owns, Overwritten, Disjoint, Others, Play;
    InterleavedRollbackExactly(w, s, turns, a);
    forall t, r: RowId | Owns(turns, a, t, r) ensures LeftAsFound(s, turns, a, t, r) {
      DisjointLeaves(turns, a, t, r, |turns|);
      assert turns[..|turns|] == turns;
    }
  }

  /** A row that `b` overwrites after `a` has written it: rolling `a` back takes
      `b`'s write with it. */
  lemma OverlapWitness(w: World, s: State, t: string, r: RowId, old0: Row, mine: Row, theirs: Row, a: TxId, b: TxId)
    requires a in s.active && s.active[a] == [] && b in s.active && a != b
    requires t in s.tables && r in s.tables[t] && s.tables[t][r] == old0 && theirs != old0
    ensures var turns := [Turn(a, Upd(t, r, old0, mine)), Turn(b, Upd(t, r, mine, theirs))];
            && RowAt(Rollback(w, Play(w, s, turns), a).0.tables, t, r) == Some(old0)
            && RowAt(Play(w, s, Others(turns, a)).tables, t, r) == Some(theirs)
  {
    var one, two := Turn(a, Upd(t, r, old0, mine)), Turn(b, Upd(t, r, mine, theirs));
    var turns := [one, two];
    hide Apply, Rollback;
    assert turns[..|turns| - 1] == [one] && [one][..|[one]| - 1] == [];
    assert FaithfulTurns(w, s, [], a);
    assert Play(w, s, []) == s;
    assert FaithfulTurns(w, s, [one], a);
    assert FaithfulTurns(w, s, turns, a);
    assert Standing(s, [], a, t, r) == Some(old0);
    assert Standing(s, [one], a, t, r) == Some(old0);
    assert Owns([one], a, t, r);
    assert Standing(s, turns, a, t, r) == Some(old0);
    assert Owns(turns, a, t, r);
    assert Overwritten(turns, a, t, r) == Some(Some(theirs));
    RolledBackRow(w, s, turns, a, t, r);
    RowAfter(w, s, turns, a, t, r);
  }
}
