/** What a FROM clause returns: each JOIN hands its rows to the next. */
module JoinChains {
  import opened Wrappers
  import opened Values
  import opened Externals
  import opened Expressions
  import opened Store
  import opened Joins
  import opened OuterJoins
  import opened JoinedRows
  import opened Origins

  datatype JoinOp =
    | Inner(c: JoinCondition)
    | LeftOuter(c: JoinCondition)
    | RightOuter(c: JoinCondition)
    | FullOuter(c: JoinCondition)
    | Cross
    | OtherJoin

  /** One JOIN of a FROM clause; `right` is `None` when there is no such table. */
  datatype Hop = Hop(op: JoinOp, table: string, right: Option<Side>)

  type Joined = Result<seq<Row>, Error>

  // ---------------------------------------------------------------- what a hop returns

  /** The join columns, if this hop is joined by hashing: only the first may be. */
  function EquiOf(op: JoinOp, name1: string, name2: string, first: bool): Option<(string, string)> {
    if first && (op.Inner? || op.LeftOuter?) then ExtractEquiJoin(op.c, name1, name2) else None
  }

  function FinderOf(w: World, hits: Hits, params: seq<Value>, c: JoinCondition, equi: Option<(string, string)>,
      name1: string, right: Side): Finder {
    if equi.Some? then ByHash(w, QualifiedName(name1, equi.value.0), right, equi.value.1)
    else ByLoop(TestOf(w, hits, c, params), right)
  }

  function AnyRow(): Test {
    row => true
  }

  function HopRows(w: World, hits: Hits, params: seq<Value>, name1: string, left: seq<Row>, op: JoinOp, right: Side,
      first: bool): Joined {
    var equi := EquiOf(op, name1, right.name, first);
    match op
    case Inner(c) => Ok(InnerRows(FinderOf(w, hits, params, c, equi, name1, right), left))
    case LeftOuter(c) => Ok(LeftRows(FinderOf(w, hits, params, c, equi, name1, right), left, right))
    case RightOuter(c) => Ok(RightRows(TestOf(w, hits, c, params), left, LeftColumns(left), right, right.rows))
    case FullOuter(c) => Ok(FullRows(TestOf(w, hits, c, params), left, right))
    case Cross => Ok(InnerRows(ByLoop(AnyRow(), right), left))
    case OtherJoin => Err(UnsupportedStatement)
  }

  /** A chain of joins; `first` says that its first hop is the first of the FROM. */
  function Chain(w: World, hits: Hits, params: seq<Value>, name1: string, left: seq<Row>, hops: seq<Hop>,
      first: bool): Joined
    decreases hops
  {
    if hops == [] then Ok(left)
    else if hops[0].right.None? then Err(NoSuchTable(hops[0].table))
    else
      var next := HopRows(w, hits, params, name1, left, hops[0].op, hops[0].right.value, first);
      if next.Err? then next else Chain(w, hits, params, name1, next.value, hops[1..], false)
  }

  function Entering(name1: string, stored: seq<Row>): seq<Row>
    decreases stored
  {
    if stored == [] then [] else [Merge(EMPTY_ROW, name1, stored[0])] + Entering(name1, stored[1..])
  }

  lemma {:induction false} EnteringAt(name1: string, stored: seq<Row>)
    ensures |Entering(name1, stored)| == |stored|
    ensures forall i :: 0 <= i < |stored| ==> Enters(Entering(name1, stored)[i], name1, stored[i])
    decreases stored
  {
    hide Merge;
    if stored != [] { EnteringAt(name1, stored[1..]); }
  }

  /** What the first hop must offer for its hash join to be the nested loop. */
  ghost predicate HashSafe(name1: string, stored: seq<Row>, hop: Hop) {
    hop.right.Some? ==>
      var right := hop.right.value;
      var equi := EquiOf(hop.op, name1, right.name, true);
      equi.Some? ==>
        var c1, c2 := equi.value.0, equi.value.1;
        && (forall i, j :: 0 <= i < |stored| && 0 <= j < |right.rows| ==>
              Joinable(name1, stored[i], c1, right.name, right.rows[j], c2))
        && AllPairsAgree(stored, c1, right.rows, c2)
  }

  /** A whole FROM clause gives the same rows in the same order with and without
      hashing. */
  lemma ChainIgnoresHashing(w: World, hits: Hits, params: seq<Value>, name1: string, stored: seq<Row>, hops: seq<Hop>)
    requires w.PrintsDoublesApart() && (hops != [] ==> HashSafe(name1, stored, hops[0]))
    ensures Chain(w, hits, params, name1, Entering(name1, stored), hops, true) ==
            Chain(w, hits, params, name1, Entering(name1, stored), hops, false)
  {
    hide Entering, InnerRows, LeftRows, ByHash, ByLoop, Joinable, PairAgrees;
    if hops != [] && hops[0].right.Some? {
      var left, right, op := Entering(name1, stored), hops[0].right.value, hops[0].op;
      var equi := EquiOf(op, name1, right.name, true);
      EnteringAt(name1, stored);
      if equi.Some? {
        assert EquiJoin(op.c, name1, left, stored, right, equi.value.0, equi.value.1);
        HashJoinIsNestedLoop(w, hits, op.c, params, name1, left, stored, right, equi.value.0, equi.value.1);
      }
      assert HopRows(w, hits, params, name1, left, op, right, true) ==
             HopRows(w, hits, params, name1, left, op, right, false);
    }
  }

  // ---------------------------------------------------------------- which rows that is

  /** The join condition holds of a combined row; USING only asks for the columns. */
  ghost predicate Satisfies(w: World, hits: Hits, params: seq<Value>, c: JoinCondition, row: Row) {
    match c
    case On(e) => EvalWhere(w, hits, row, e, params, 0).0
    case Using(columns) => forall x :: x in columns ==> row.Has(x)
    case Natural => true
    case Unconstrained => true
  }

  /** The two rows are combined. */
  ghost predicate Combines(w: World, hits: Hits, params: seq<Value>, op: JoinOp, left: seq<Row>, right: Side, i: int,
      j: int)
    requires 0 <= i < |left| && 0 <= j < |right.rows|
  {
    match op
    case Cross => true
    case OtherJoin => false
    case _ => Satisfies(w, hits, params, op.c, Merge(left[i], right.name, right.rows[j]))
  }

  /** Every join owes the pairs it combines; LEFT and FULL also each left row that is
      in no pair, RIGHT and FULL each such right row. */
  ghost predicate Owes(w: World, hits: Hits, params: seq<Value>, op: JoinOp, left: seq<Row>, right: Side, o: Origin) {
    && InReach(left, right, o)
    && match o
       case Both(i, j) => Combines(w, hits, params, op, left, right, i, j)
       case OnlyLeft(i) =>
         && (op.LeftOuter? || op.FullOuter?)
         && forall j :: 0 <= j < |right.rows| ==> !Combines(w, hits, params, op, left, right, i, j)
       case OnlyRight(j) =>
         && (op.RightOuter? || op.FullOuter?)
         && forall i :: 0 <= i < |left| ==> !Combines(w, hits, params, op, left, right, i, j)
  }

  ghost function Owed(w: World, hits: Hits, params: seq<Value>, op: JoinOp, left: seq<Row>,
      right: Side): iset<Origin> {
    iset o | Owes(w, hits, params, op, left, right, o)
  }

  /** The rows are those a JOIN owes, each once, in the order of its loops. */
  ghost predicate Answers(w: World, hits: Hits, params: seq<Value>, op: JoinOp, left: seq<Row>, right: Side,
      rows: seq<Row>) {
    exists os :: Listed(rows, left, right, os, op.RightOuter?, Owed(w, hits, params, op, left, right))
  }

  /** That leaves no choice: the rows and their order are decided, and there are as
      many as origins that are owed. */
  lemma AnswersDecide(w: World, hits: Hits, params: seq<Value>, op: JoinOp, left: seq<Row>, right: Side,
      rows: seq<Row>)
    requires Answers(w, hits, params, op, left, right, rows)
    ensures |rows| == |set o | o in Everyone(left, right) && Owes(w, hits, params, op, left, right, o)|
    ensures forall other :: Answers(w, hits, params, op, left, right, other) ==> other == rows
  {
    hide Listed, Owes, Everyone;
    var owed := Owed(w, hits, params, op, left, right);
    var os :| Listed(rows, left, right, os, op.RightOuter?, owed);
    ListedSize(left, right, op.RightOuter?, owed, rows, os);
    assert (set o | o in Everyone(left, right) && o in owed) ==
           set o | o in Everyone(left, right) && Owes(w, hits, params, op, left, right, o);
    forall other | Answers(w, hits, params, op, left, right, other) ensures other == rows {
      var os' :| Listed(other, left, right, os', op.RightOuter?, owed);
      ListedUnique(left, right, op.RightOuter?, owed, rows, os, other, os');
    }
  }

  /** The nested loop's test is the join condition. */
  lemma TestSatisfies(w: World, hits: Hits, params: seq<Value>, c: JoinCondition, row: Row)
    ensures TestOf(w, hits, c, params)(row) <==> Satisfies(w, hits, params, c, row)
  {
    hide EvalWhere;
  }

  lemma LoopPairs(w: World, hits: Hits, params: seq<Value>, op: JoinOp, left: seq<Row>, right: Side, m: Test)
    requires !op.OtherJoin? && m == if op.Cross? then AnyRow() else TestOf(w, hits, op.c, params)
    ensures forall i, j :: 0 <= i < |left| && 0 <= j < |right.rows| ==>
              (Match(m, left, right, i, j) <==> Combines(w, hits, params, op, left, right, i, j))
  {
    hide Merge, Satisfies, TestOf;
    forall i, j | 0 <= i < |left| && 0 <= j < |right.rows|
      ensures Match(m, left, right, i, j) <==> Combines(w, hits, params, op, left, right, i, j)
    {
      if !op.Cross? { TestSatisfies(w, hits, params, op.c, Merge(left[i], right.name, right.rows[j])); }
    }
  }

  /** What the loops of an operator owe. */
  ghost function LoopOwes(m: Test, op: JoinOp, left: seq<Row>, right: Side): iset<Origin> {
    match op
    case Inner(_) => FromLeft(m, left, right, 0, false)
    case LeftOuter(_) => FromLeft(m, left, right, 0, true)
    case RightOuter(_) => FromRight(m, left, right, 0, true)
    case FullOuter(_) => FromLeft(m, left, right, 0, true) + FromRight(m, left, right, 0, false)
    case Cross => FromLeft(m, left, right, 0, false)
    case OtherJoin => iset{}
  }

  lemma LoopsOwe(w: World, hits: Hits, params: seq<Value>, op: JoinOp, left: seq<Row>, right: Side, m: Test)
    requires !op.OtherJoin? && m == if op.Cross? then AnyRow() else TestOf(w, hits, op.c, params)
    ensures LoopOwes(m, op, left, right) == Owed(w, hits, params, op, left, right)
  {
    LoopPairs(w, hits, params, op, left, right, m);
    hide Match, Combines;
    forall o ensures o in LoopOwes(m, op, left, right) <==> Owes(w, hits, params, op, left, right, o) {}
  }

  /** Without hashing a hop returns what its operator owes. */
  lemma HopAnswers(w: World, hits: Hits, params: seq<Value>, name1: string, left: seq<Row>, op: JoinOp, right: Side)
    requires !op.OtherJoin?
    ensures var res := HopRows(w, hits, params, name1, left, op, right, false);
            res.Ok? && Answers(w, hits, params, op, left, right, res.value)
  {
    hide Listed, FromLeft, FromRight, Owed, InnerRows, LeftRows, RightRows, FullRows, TestOf;
    var m := if op.Cross? then AnyRow() else TestOf(w, hits, op.c, params);
    LoopsOwe(w, hits, params, op, left, right, m);
    assert left[0..] == left && right.rows[0..] == right.rows;
    var os;
    match op {
      case Inner(_) => os := LeftListed(m, left, right, 0, false);
      case LeftOuter(_) => os := LeftListed(m, left, right, 0, true);
      case RightOuter(_) => os := RightListed(m, left, right, 0, true);
      case FullOuter(_) => os := FullListed(m, left, right);
      case Cross => os := LeftListed(m, left, right, 0, false);
    }
    var rows := HopRows(w, hits, params, name1, left, op, right, false).value;
    assert Listed(rows, left, right, os, op.RightOuter?, LoopOwes(m, op, left, right));
  }

  /** A hop that names no table, or an unknown operator, ends the chain with an error;
      otherwise the next hop works on rows that answer this one. */
  ghost predicate Follows(w: World, hits: Hits, params: seq<Value>, left: seq<Row>, hops: seq<Hop>, res: Joined)
    decreases hops
  {
    if hops == [] then res == Ok(left)
    else if hops[0].right.None? then res == Err(NoSuchTable(hops[0].table))
    else if hops[0].op.OtherJoin? then res == Err(UnsupportedStatement)
    else exists rows ::
        && Answers(w, hits, params, hops[0].op, left, hops[0].right.value, rows)
        && Follows(w, hits, params, rows, hops[1..], res)
  }

  lemma {:induction false} ChainFollows(w: World, hits: Hits, params: seq<Value>, name1: string, left: seq<Row>,
      hops: seq<Hop>)
    ensures Follows(w, hits, params, left, hops, Chain(w, hits, params, name1, left, hops, false))
    decreases hops
  {
    hide HopRows, Answers;
    if hops != [] && hops[0].right.Some? {
      var op, right := hops[0].op, hops[0].right.value;
      var next := HopRows(w, hits, params, name1, left, op, right, false);
      if op.OtherJoin? {
        Refused(w, hits, params, name1, left, right);
      } else {
        HopAnswers(w, hits, params, name1, left, op, right);
        ChainFollows(w, hits, params, name1, next.value, hops[1..]);
      }
    }
  }

  lemma Refused(w: World, hits: Hits, params: seq<Value>, name1: string, left: seq<Row>, right: Side)
    ensures HopRows(w, hits, params, name1, left, OtherJoin, right, false) == Err(UnsupportedStatement)
  {
  }

  /** The first table's rows enter under their qualified and bare names, and every
      JOIN answers the rows before it. */
  ghost predicate FromClause(w: World, hits: Hits, params: seq<Value>, name1: string, stored: seq<Row>,
      hops: seq<Hop>, res: Joined) {
    exists left ::
      && |left| == |stored| && (forall i :: 0 <= i < |stored| ==> Enters(left[i], name1, stored[i]))
      && Follows(w, hits, params, left, hops, res)
  }

  /** A FROM clause returns what its joins owe, hashing included. */
  lemma ChainExactly(w: World, hits: Hits, params: seq<Value>, name1: string, stored: seq<Row>, hops: seq<Hop>)
    requires w.PrintsDoublesApart() && (hops != [] ==> HashSafe(name1, stored, hops[0]))
    ensures FromClause(w, hits, params, name1, stored, hops,
              Chain(w, hits, params, name1, Entering(name1, stored), hops, true))
  {
    hide Chain, Follows, Entering, HashSafe, Enters;
    ChainIgnoresHashing(w, hits, params, name1, stored, hops);
    ChainFollows(w, hits, params, name1, Entering(name1, stored), hops);
    EnteringAt(name1, stored);
  }

  /** A FROM clause has one result only. */
  lemma {:induction false} FollowsDecides(w: World, hits: Hits, params: seq<Value>, left: seq<Row>, hops: seq<Hop>,
      res: Joined, other: Joined)
    requires Follows(w, hits, params, left, hops, res) && Follows(w, hits, params, left, hops, other)
    ensures res == other
    decreases hops
  {
    hide Answers;
    if hops != [] && hops[0].right.Some? && !hops[0].op.OtherJoin? {
      var op, right := hops[0].op, hops[0].right.value;
      var rows :| Answers(w, hits, params, op, left, right, rows) && Follows(w, hits, params, rows, hops[1..], res);
      var rows' :| Answers(w, hits, params, op, left, right, rows')
                     && Follows(w, hits, params, rows', hops[1..], other);
      AnswersDecide(w, hits, params, op, left, right, rows);
      FollowsDecides(w, hits, params, rows, hops[1..], res, other);
    }
  }

  lemma FromClauseDecides(w: World, hits: Hits, params: seq<Value>, name1: string, stored: seq<Row>, hops: seq<Hop>,
      res: Joined, other: Joined)
    requires FromClause(w, hits, params, name1, stored, hops, res)
    requires FromClause(w, hits, params, name1, stored, hops, other)
    ensures res == other
  {
    hide Follows, Merge;
    var left :| |left| == |stored| && (forall i :: 0 <= i < |stored| ==> Enters(left[i], name1, stored[i]))
                && Follows(w, hits, params, left, hops, res);
    var left' :| |left'| == |stored| && (forall i :: 0 <= i < |stored| ==> Enters(left'[i], name1, stored[i]))
                 && Follows(w, hits, params, left', hops, other);
    assert forall i :: 0 <= i < |stored| ==> left[i] == left'[i] by {
      assert forall i :: 0 <= i < |stored| ==> Enters(left[i], name1, stored[i]) && Enters(left'[i], name1, stored[i]);
    }
    assert left == left';
    FollowsDecides(w, hits, params, left, hops, res, other);
  }

  // ---------------------------------------------------------------- USING and NATURAL

  /** USING never looks at a value: two rows are combined as soon as every column is a
      name that one of them brings. */
  lemma UsingExactly(w: World, hits: Hits, params: seq<Value>, columns: seq<string>, row1: Row, name2: string,
      row2: Row)
    ensures Satisfies(w, hits, params, Using(columns), Merge(row1, name2, row2)) <==>
              forall x :: x in columns ==> row1.Has(x) || Named(name2, row2.cols, x)
  {
    hide Merge;
    forall x ensures Merge(row1, name2, row2).Has(x) <==> row1.Has(x) || Named(name2, row2.cols, x) {
      MergeExactly(row1, name2, row2, x);
      assert Merge(row1, name2, row2).Has(x) <==> Merge(row1, name2, row2).Get(x).Some?;
    }
  }

  /** So `a JOIN b USING (x)` combines a row with `x = 1` and a row with `x = 2`. */
  lemma UsingWitness(w: World, hits: Hits, params: seq<Value>)
    ensures var left := [Merge(EMPTY_ROW, "a", Row(["x"], map["x" := Integer(1)]))];
            var right := Side("b", [Row(["x"], map["x" := Integer(2)])], None);
            Owes(w, hits, params, Inner(Using(["x"])), left, right, Both(0, 0))
  {
    hide Merge, Satisfies;
    var left := [Merge(EMPTY_ROW, "a", Row(["x"], map["x" := Integer(1)]))];
    UsingExactly(w, hits, params, ["x"], left[0], "b", Row(["x"], map["x" := Integer(2)]));
    assert "x" in ["x"];
  }

  lemma SameAnswers(w: World, hits: Hits, params: seq<Value>, op: JoinOp, op': JoinOp, left: seq<Row>, right: Side,
      rows: seq<Row>)
    requires op.RightOuter? == op'.RightOuter?
    requires forall o :: Owes(w, hits, params, op, left, right, o) <==> Owes(w, hits, params, op', left, right, o)
    ensures Answers(w, hits, params, op, left, right, rows) <==> Answers(w, hits, params, op', left, right, rows)
  {
    hide Listed, Owes;
    assert Owed(w, hits, params, op, left, right) == Owed(w, hits, params, op', left, right);
  }

  /** NATURAL, and a join without a condition, is CROSS. */
  lemma NaturalIsCross(w: World, hits: Hits, params: seq<Value>, left: seq<Row>, right: Side, rows: seq<Row>)
    ensures Answers(w, hits, params, Inner(Natural), left, right, rows) <==>
              Answers(w, hits, params, Cross, left, right, rows)
    ensures Answers(w, hits, params, Inner(Unconstrained), left, right, rows) <==>
              Answers(w, hits, params, Cross, left, right, rows)
  {
    SameAnswers(w, hits, params, Inner(Natural), Cross, left, right, rows);
    SameAnswers(w, hits, params, Inner(Unconstrained), Cross, left, right, rows);
  }
}
