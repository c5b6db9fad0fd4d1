/** An expression whose placeholders are aligned has the value of the same
    expression with every `?` replaced by its own parameter. */
module PlaceholderMeaning {
  import opened Wrappers
  import opened Values
  import opened Externals
  import opened Expressions
  import opened Placeholders

  /** An aligned scalar expression, started at its own slice of the parameters
      (or anywhere, if it has no placeholders), has the value of its textual
      substitution. */
  lemma {:induction false} Meaning(w: World, e: Expr, row: Option<Row>, p: seq<Value>, k: nat, at: nat, j: nat)
    requires Aligned(e, false) && (Marks(e) == 0 || k == at)
    ensures Eval(w, e, row, p, k).0 == Eval(w, Subst(e, p, at), row, [], j).0
    decreases e, 1
  {
    match e
    case Nested(x) => Meaning(w, x, row, p, k, at, j);
    case Unary(_, x) => Meaning(w, x, row, p, k, at, j);
    case Binary(_, _, _) => BinaryMeaning(w, e, row, p, k, at, j);
    case IsNull(x) => Meaning(w, x, row, p, k, at, j);
    case IsNotNull(x) => Meaning(w, x, row, p, k, at, j);
    case Between(_, _, _, _) => BetweenMeaning(w, e, row, p, k, at, j);
    case InList(_, _, _) => InListMeaning(w, e, row, p, k, at, j);
    case Like(_, _, _, _) => LikeMeaning(w, e, row, p, k, at, j);
    case Case(_, _, _) =>
      SubstCase(e, p, at);
      CaseMeaning(w, e, Subst(e, p, at), 0, row, p, k, at, j);
    case Call(_, args, _) => AllMeaning(w, args, row, p, k, at, j);
    case _ =>
  }

  lemma {:induction false} BinaryMeaning(w: World, e: Expr, row: Option<Row>, p: seq<Value>, k: nat, at: nat, j: nat)
    requires e.Binary? && Aligned(e, false) && (Marks(e) == 0 || k == at)
    ensures Eval(w, e, row, p, k).0 == Eval(w, Subst(e, p, at), row, [], j).0
    decreases e, 0
  {
    var l, op, r := e.left, e.op, e.right;
    assert Subst(e, p, at) == Binary(Subst(l, p, at), op, Subst(r, p, at + Marks(l)));
    Meaning(w, l, row, p, k, at, j);
    Consumes(w, l, row, p, k);
    var (lv, k1) := Eval(w, l, row, p, k);
    if (op.And? ==> Truthy(lv)) && (op.Or? ==> !Truthy(lv)) {
      Meaning(w, r, row, p, k1, at + Marks(l), Eval(w, Subst(l, p, at), row, [], j).1);
    }
  }

  lemma BetweenEval(w: World, e: Expr, row: Option<Row>, p: seq<Value>, k: nat)
    requires e.Between?
    ensures var (v, k1) := Eval(w, e.e, row, p, k);
            var (lo, k2) := Eval(w, e.low, row, p, k1);
            Eval(w, e, row, p, k).0 == BoolVal(Within(v, lo, Eval(w, e.high, row, p, k2).0) != e.negated)
  {
  }

  lemma LikeEval(w: World, e: Expr, row: Option<Row>, p: seq<Value>, k: nat)
    requires e.Like?
    ensures var (v, k1) := Eval(w, e.e, row, p, k);
            Eval(w, e, row, p, k).0 ==
              BoolVal(LikeValues(w, v, Eval(w, e.pattern, row, p, k1).0, e.ignoreCase) != e.negated)
  {
  }

  lemma {:induction false} BetweenMeaning(w: World, e: Expr, row: Option<Row>, p: seq<Value>, k: nat, at: nat, j: nat)
    requires e.Between? && Aligned(e, false) && (Marks(e) == 0 || k == at)
    ensures Eval(w, e, row, p, k).0 == Eval(w, Subst(e, p, at), row, [], j).0
    decreases e, 0
  {
    var x, lo, hi := e.e, e.low, e.high;
    var at1 := at + Marks(x);
    var at2 := at1 + Marks(lo);
    assert Subst(e, p, at) == Between(Subst(x, p, at), e.negated, Subst(lo, p, at1), Subst(hi, p, at2));
    assert Aligned(x, false) && Aligned(lo, false) && Aligned(hi, false)
           && (Marks(lo) + Marks(hi) == 0 || Steady(x)) && (Marks(hi) == 0 || Steady(lo))
                && Marks(e) == Marks(x) + Marks(lo) + Marks(hi);
    BetweenEval(w, e, row, p, k);
    BetweenEval(w, Subst(e, p, at), row, [], j);
    hide Eval, Subst, Aligned, Full, Marks;
    Meaning(w, x, row, p, k, at, j);
    Consumes(w, x, row, p, k);
    var k1, j1 := Eval(w, x, row, p, k).1, Eval(w, Subst(x, p, at), row, [], j).1;
    Meaning(w, lo, row, p, k1, at1, j1);
    Consumes(w, lo, row, p, k1);
    if Marks(lo) == 0 { Closed(w, lo, row, p, k1, p, k1); }
    Meaning(w, hi, row, p, Eval(w, lo, row, p, k1).1, at2, Eval(w, Subst(lo, p, at1), row, [], j1).1);
  }

  lemma {:induction false} InListMeaning(w: World, e: Expr, row: Option<Row>, p: seq<Value>, k: nat, at: nat, j: nat)
    requires e.InList? && Aligned(e, false) && (Marks(e) == 0 || k == at)
    ensures Eval(w, e, row, p, k).0 == Eval(w, Subst(e, p, at), row, [], j).0
    decreases e, 0
  {
    var x, list := e.e, e.list;
    var sub, sublist := Subst(x, p, at), SubstAll(list, p, at + Marks(x));
    assert Subst(e, p, at) == InList(sub, sublist, e.negated);
    assert Aligned(x, false) && AlignedAll(list) && (MarksAll(list) == 0 || Steady(x))
           && Marks(e) == Marks(x) + MarksAll(list);
    assert Eval(w, e, row, p, k).0 ==
           BoolVal(AnySame(w, list, Eval(w, x, row, p, k).0, row, p, Eval(w, x, row, p, k).1).0 != e.negated);
    assert Eval(w, Subst(e, p, at), row, [], j).0 ==
           BoolVal(AnySame(w, sublist, Eval(w, sub, row, [], j).0, row, [], Eval(w, sub, row, [], j).1).0 != e.negated);
    hide Eval, Subst, SubstAll, AnySame, Aligned, AlignedAll, Full, Marks, MarksAll;
    Meaning(w, x, row, p, k, at, j);
    Consumes(w, x, row, p, k);
    var (v, k1) := Eval(w, x, row, p, k);
    AnySameMeaning(w, list, v, row, p, k1, at + Marks(x), Eval(w, Subst(x, p, at), row, [], j).1);
  }

  lemma {:induction false} LikeMeaning(w: World, e: Expr, row: Option<Row>, p: seq<Value>, k: nat, at: nat, j: nat)
    requires e.Like? && Aligned(e, false) && (Marks(e) == 0 || k == at)
    ensures Eval(w, e, row, p, k).0 == Eval(w, Subst(e, p, at), row, [], j).0
    decreases e, 0
  {
    var x, q := e.e, e.pattern;
    assert Subst(e, p, at) == Expr.Like(Subst(x, p, at), Subst(q, p, at + Marks(x)), e.negated, e.ignoreCase);
    assert Aligned(x, false) && Aligned(q, false) && (Marks(q) == 0 || Steady(x)) && Marks(e) == Marks(x) + Marks(q);
    LikeEval(w, e, row, p, k);
    LikeEval(w, Subst(e, p, at), row, [], j);
    hide Eval, Subst, Aligned, Full, Marks;
    Meaning(w, x, row, p, k, at, j);
    Consumes(w, x, row, p, k);
    Meaning(w, q, row, p, Eval(w, x, row, p, k).1, at + Marks(x), Eval(w, Subst(x, p, at), row, [], j).1);
  }

  lemma {:induction false} AllMeaning(w: World, es: seq<Expr>, row: Option<Row>, p: seq<Value>, k: nat, at: nat, j: nat)
    requires AlignedAll(es) && (MarksAll(es) == 0 || k == at)
    ensures EvalAll(w, es, row, p, k).0 == EvalAll(w, SubstAll(es, p, at), row, [], j).0
    decreases es, 0
  {
    if es != [] {
      Meaning(w, es[0], row, p, k, at, j);
      Consumes(w, es[0], row, p, k);
      AllMeaning(w, es[1..], row, p, Eval(w, es[0], row, p, k).1, at + Marks(es[0]),
                 Eval(w, Subst(es[0], p, at), row, [], j).1);
    }
  }

  lemma {:induction false} AnySameMeaning(w: World, es: seq<Expr>, v: Value, row: Option<Row>, p: seq<Value>, k: nat,
      at: nat, j: nat)
    requires AlignedAll(es) && (MarksAll(es) == 0 || k == at)
    ensures AnySame(w, es, v, row, p, k).0 == AnySame(w, SubstAll(es, p, at), v, row, [], j).0
    decreases es, 0
  {
    if es != [] {
      Meaning(w, es[0], row, p, k, at, j);
      Consumes(w, es[0], row, p, k);
      AnySameMeaning(w, es[1..], v, row, p, Eval(w, es[0], row, p, k).1, at + Marks(es[0]),
                     Eval(w, Subst(es[0], p, at), row, [], j).1);
    }
  }

  /** `c'` is `c` with its placeholders replaced, part by part. */
  ghost predicate SubstitutesCase(c: Expr, c': Expr, p: seq<Value>, at: nat) {
    && c.Case? && c'.Case? && |c'.whens| == |c.whens|
    && c'.operand == SubstOpt(c.operand, p, at)
    && c'.otherwise == SubstOpt(c.otherwise, p, ArmStart(c, |c.whens|, at))
    && forall i {:trigger c'.whens[i]} :: 0 <= i < |c.whens| ==> c'.whens[i] == SubstArm(c, i, p, ArmStart(c, i, at))
  }

  lemma SubstCase(c: Expr, p: seq<Value>, at: nat)
    requires c.Case?
    ensures SubstitutesCase(c, Subst(c, p, at), p, at)
  {
  }

  lemma {:induction false} CaseMeaning(w: World, c: Expr, c': Expr, i: nat, row: Option<Row>, p: seq<Value>, k: nat,
      at: nat, j: nat)
    requires SubstitutesCase(c, c', p, at) && OperandAligned(c)
    requires i <= |c.whens| && AlignedArms(c, i) && ArmStarts(c, i, k, at)
    ensures EvalCase(w, c, i, row, p, k).0 == EvalCase(w, c', i, row, [], j).0
    decreases c, 0, |c.whens| - i + 1
  {
    hide Eval, Subst, Aligned, Full, TryArm;
    var start := ArmStart(c, i, at);
    if i == |c.whens| {
      if c.otherwise.Some? { Meaning(w, c.otherwise.value, row, p, k, start, j); }
    } else {
      var cond, result := c.whens[i].cond, c.whens[i].result;
      assert c'.whens[i] == SubstArm(c, i, p, start);
      ArmMeaning(w, c, c', i, row, p, k, at, start, j);
      var (hit, k1) := TryArm(w, c, i, row, p, k);
      var j1 := TryArm(w, c', i, row, [], j).1;
      if hit {
        assert Marks(result) == 0 || k1 == start + Marks(cond) by { ArmFacts(c, i); }
        HitMeaning(w, c, c', i, row, p, k, start + Marks(cond), j);
      } else {
        MissStarts(c, i, k, k1, at);
        CaseMeaning(w, c, c', i + 1, row, p, k1, at, j1);
      }
    }
  }

  lemma ArmFacts(c: Expr, i: nat)
    requires c.Case? && i < |c.whens| && AlignedArms(c, i)
    ensures var when := c.whens[i];
            && MarksArms(c, i) == Marks(when.cond) + Marks(when.result) + MarksArms(c, i + 1)
            && ArmOffset(c, i + 1) == ArmOffset(c, i) + Marks(when.cond) + Marks(when.result)
            && (Marks(when.result) == 0
                 || (if c.operand.Some? then Steady(when.cond) else Full(when.cond, false, true)))
            && (MarksArms(c, i + 1) == 0
                || (Marks(when.result) == 0
                    && if c.operand.Some? then Steady(when.cond) else Full(when.cond, false, false)))
  {
  }

  /** A WHEN that does not apply leaves the counter before the next one. */
  lemma MissStarts(c: Expr, i: nat, k: nat, k1: nat, at: nat)
    requires c.Case? && i < |c.whens| && AlignedArms(c, i) && OperandAligned(c) && ArmStarts(c, i, k, at)
    requires MarksArms(c, i) == 0 ||
             ((if c.operand.Some? then Steady(c.whens[i].cond) else Full(c.whens[i].cond, false, false)) ==>
                k1 == ArmStart(c, i, at) + Marks(c.whens[i].cond))
    ensures ArmStarts(c, i + 1, k1, at)
  {
    hide Aligned, Full;
    ArmFacts(c, i);
  }

  lemma {:induction false} HitMeaning(w: World, c: Expr, c': Expr, i: nat, row: Option<Row>, p: seq<Value>, k: nat,
      at: nat, j: nat)
    requires c.Case? && c'.Case? && i < |c.whens| && i < |c'.whens|
    requires TryArm(w, c, i, row, p, k).0 && TryArm(w, c', i, row, [], j).0
    requires Aligned(c.whens[i].result, false)
    requires Marks(c.whens[i].result) == 0 || TryArm(w, c, i, row, p, k).1 == at
    requires c'.whens[i].result == Subst(c.whens[i].result, p, at)
    ensures EvalCase(w, c, i, row, p, k).0 == EvalCase(w, c', i, row, [], j).0
    decreases c, 0, 0
  {
    Meaning(w, c.whens[i].result, row, p, TryArm(w, c, i, row, p, k).1, at, TryArm(w, c', i, row, [], j).1);
  }

  /** The test of one WHEN: the same outcome, and the counter it leaves. */
  lemma {:induction false} ArmMeaning(w: World, c: Expr, c': Expr, i: nat, row: Option<Row>, p: seq<Value>, k: nat,
      at: nat, start: nat, j: nat)
    requires c.Case? && c'.Case? && i < |c.whens| && i < |c'.whens|
    requires Aligned(c.whens[i].cond, false)
    requires c.operand.Some? ==> Aligned(c.operand.value, false)
    requires MarksOpt(c.operand) == 0 || (Steady(c.operand.value) && k == at && start == at + MarksOpt(c.operand))
    requires MarksOpt(c.operand) > 0 || MarksArms(c, i) == 0 || k == start
    requires c'.operand == SubstOpt(c.operand, p, at) && c'.whens[i].cond == Subst(c.whens[i].cond, p, start)
    ensures TryArm(w, c, i, row, p, k).0 == TryArm(w, c', i, row, [], j).0
    ensures var (hit, k1) := TryArm(w, c, i, row, p, k);
            MarksArms(c, i) == 0 ||
            ((if c.operand.Some? then Steady(c.whens[i].cond) else Full(c.whens[i].cond, false, hit)) ==>
               k1 == start + Marks(c.whens[i].cond))
    decreases c, 0, 0
  {
    var cond := c.whens[i].cond;
    var k1, j1 := k, j;
    if c.operand.Some? {
      var op := c.operand.value;
      Meaning(w, op, row, p, k, at, j);
      Consumes(w, op, row, p, k);
      k1, j1 := Eval(w, op, row, p, k).1, Eval(w, c'.operand.value, row, [], j).1;
      if Marks(op) == 0 { Closed(w, op, row, p, k, p, k); }
    }
    Meaning(w, cond, row, p, k1, start, j1);
    Consumes(w, cond, row, p, k1);
  }

  /** The counter before the `i`-th WHEN: at the operand for the first, past the
      placeholders of the earlier ones after that, if any are still to come. */
  predicate ArmStarts(c: Expr, i: nat, k: nat, at: nat)
    requires c.Case? && i <= |c.whens|
  {
    if i == 0 then Marks(c) == 0 || k == at
    else && (MarksOpt(c.operand) == 0 || |c.whens| == 1)
         && (MarksArms(c, i) == 0 || k == ArmStart(c, i, at))
  }

  // ---------------------------------------------------------------- WHERE

  /** The conditions that the WHERE walker hands to the scalar evaluator. */
  predicate IsLeaf(e: Expr) {
    !(e.Binary? && (e.op.And? || e.op.Or?)) && !(e.Unary? && e.uop.Not?) && !e.Nested? && !IsFtsMatch(e)
  }

  lemma LeafIsScalar(e: Expr, p: seq<Value>, at: nat)
    requires IsLeaf(e)
    ensures Aligned(e, true) == Aligned(e, false)
    ensures Full(e, true, true) == Full(e, false, true) && Full(e, true, false) == Full(e, false, false)
    ensures IsLeaf(Subst(e, p, at))
  {
    if e.Call? { SubstAllLength(e.args, p, at); }
  }

  /** Without placeholders an fts_match finds what its text finds. */
  lemma FtsMatchKept(hits: Hits, row: Row, e: Expr, p: seq<Value>, at: nat)
    requires IsFtsMatch(e) && Marks(e) == 0
    ensures IsFtsMatch(Subst(e, p, at)) && FtsHit(hits, row, Subst(e, p, at)) == FtsHit(hits, row, e)
  {
    var x, y := e.args[0], e.args[1];
    assert e.args == [x, y] && e.args[1..] == [y] && [y][1..] == [];
    assert MarksAll([y]) == Marks(y);
    assert SubstAll([y], p, at + Marks(x)) == [Subst(y, p, at + Marks(x))];
    assert SubstAll(e.args, p, at) == [Subst(x, p, at), Subst(y, p, at + Marks(x))];
  }

  lemma {:induction false} WhereConsumes(w: World, hits: Hits, row: Row, e: Expr, p: seq<Value>, k: nat)
    ensures Full(e, true, true) && EvalWhere(w, hits, row, e, p, k).0 ==>
              EvalWhere(w, hits, row, e, p, k).1 == k + Marks(e)
    ensures Full(e, true, false) && !EvalWhere(w, hits, row, e, p, k).0 ==>
              EvalWhere(w, hits, row, e, p, k).1 == k + Marks(e)
    ensures Marks(e) == 0 ==> EvalWhere(w, hits, row, e, p, k).1 == k
  {
    if IsLeaf(e) {
      LeafIsScalar(e, p, k);
      Consumes(w, e, Some(row), p, k);
      if Marks(e) == 0 { Closed(w, e, Some(row), p, k, p, k); }
    } else if e.Binary? {
      WhereConsumes(w, hits, row, e.left, p, k);
      WhereConsumes(w, hits, row, e.right, p, EvalWhere(w, hits, row, e.left, p, k).1);
    } else if e.Unary? || e.Nested? {
      WhereConsumes(w, hits, row, e.e, p, k);
    }
  }

  /** An aligned WHERE, started at its own slice of the parameters, selects the
      rows that the same WHERE with literals in place of placeholders selects. */
  lemma {:induction false} WhereMeaning(w: World, hits: Hits, row: Row, e: Expr, p: seq<Value>, k: nat, at: nat, j: nat)
    requires Aligned(e, true) && (Marks(e) == 0 || k == at)
    ensures EvalWhere(w, hits, row, e, p, k).0 == EvalWhere(w, hits, row, Subst(e, p, at), [], j).0
    decreases e, 1
  {
    if IsLeaf(e) {
      LeafIsScalar(e, p, at);
      Meaning(w, e, Some(row), p, k, at, j);
    } else if e.Binary? {
      ChainMeaning(w, hits, row, e, p, k, at, j);
    } else if e.Unary? || e.Nested? {
      WhereMeaning(w, hits, row, e.e, p, k, at, j);
    } else {
      FtsMatchKept(hits, row, e, p, at);
    }
  }

  /** AND and OR go on to their right side in the same cases as their texts, with
      the counter at its slice. */
  lemma {:induction false} ChainMeaning(w: World, hits: Hits, row: Row, e: Expr, p: seq<Value>, k: nat, at: nat,
      j: nat)
    requires e.Binary? && (e.op.And? || e.op.Or?) && Aligned(e, true) && (Marks(e) == 0 || k == at)
    ensures EvalWhere(w, hits, row, e, p, k).0 == EvalWhere(w, hits, row, Subst(e, p, at), [], j).0
    decreases e, 0
  {
    hide Eval;
    var l, r := e.left, e.right;
    assert Subst(e, p, at) == Binary(Subst(l, p, at), e.op, Subst(r, p, at + Marks(l)));
    WhereMeaning(w, hits, row, l, p, k, at, j);
    WhereConsumes(w, hits, row, l, p, k);
    var (lv, k1) := EvalWhere(w, hits, row, l, p, k);
    if lv == e.op.And? {
      WhereMeaning(w, hits, row, r, p, k1, at + Marks(l), EvalWhere(w, hits, row, Subst(l, p, at), [], j).1);
    }
  }

  /** `(FALSE AND ?) OR ?`: the first placeholder is skipped, so the second reads
      its parameter. */
  lemma MisalignedWitness(w: World, hits: Hits, row: Row)
    ensures var e := Binary(Binary(Literal(Integer(0)), And, Placeholder), Or, Placeholder);
            var p := [Integer(1), Integer(0)];
            && !Aligned(e, true)
            && EvalWhere(w, hits, row, e, p, 0).0
            && !EvalWhere(w, hits, row, Subst(e, p, 0), [], 0).0
  {
    var l := Binary(Literal(Integer(0)), And, Placeholder);
    var e := Binary(l, Or, Placeholder);
    var p := [Integer(1), Integer(0)];
    hide Eval, Subst, Aligned, Full, Marks;
    SkippedLeft(w, hits, row, l, p);
    RefusesOr(l, p);
    assert EvalWhere(w, hits, row, e, p, 0) == (true, 1);
  }

  /** `l OR ?` is refused when `l` has a placeholder that it may not read. */
  lemma RefusesOr(l: Expr, p: seq<Value>)
    requires Marks(l) == 1 && !Full(l, true, false)
    ensures var e := Binary(l, Or, Placeholder);
            !Aligned(e, true) && Subst(e, p, 0) == Binary(Subst(l, p, 0), Or, Literal(Param(p, 1)))
  {
    hide Full;
  }

  /** `FALSE AND ?` and its text: false, and nothing read. */
  lemma SkippedLeft(w: World, hits: Hits, row: Row, l: Expr, p: seq<Value>)
    requires l == Binary(Literal(Integer(0)), And, Placeholder) && p == [Integer(1), Integer(0)]
    ensures EvalWhere(w, hits, row, l, p, 0) == (false, 0)
    ensures EvalWhere(w, hits, row, Subst(l, p, 0), [], 0) == (false, 0)
    ensures EvalWhere(w, hits, row, Placeholder, p, 0) == (true, 1)
    ensures EvalWhere(w, hits, row, Literal(Integer(0)), [], 0) == (false, 0)
    ensures Marks(l) == 1 && !Full(l, true, false)
  {
    assert EvalWhere(w, hits, row, Literal(Integer(0)), p, 0) == (false, 0);
    assert Subst(l, p, 0) == Binary(Literal(Integer(0)), And, Literal(Integer(1)));
  }

  /** `fts_match(docs, ?)`: the walker finds nothing, as the query is no literal,
      where its text searches; and it leaves the counter alone. */
  lemma FtsPlaceholderWitness(w: World, hits: Hits, row: Row, k: nat)
    requires row.Get("_rowid_") == Some(Integer(1)) && 1 in hits("docs", "text")
    ensures var e := Call("fts_match", [Column("docs"), Placeholder], 0);
            && Count(e) == 1
            && EvalWhere(w, hits, row, e, [Text("text")], k) == (false, k)
            && EvalWhere(w, hits, row, Subst(e, [Text("text")], 0), [], 0).0
  {
    var args, p := [Column("docs"), Placeholder], [Text("text")];
    assert args[1..] == [Placeholder] && [Placeholder][1..] == [];
    assert CountAll([Placeholder]) == 1;
    assert SubstAll([Placeholder], p, 0) == [Literal(Text("text"))];
    assert SubstAll(args, p, 0) == [Column("docs"), Literal(Text("text"))];
  }

  function ColumnIs(c: string): Expr {
    Binary(Column(c), Eq, Placeholder)
  }

  /** `c = ?` and its text. */
  lemma ColumnIsReads(w: World, hits: Hits, row: Row, c: string, p: seq<Value>, k: nat, j: nat)
    ensures EvalWhere(w, hits, row, ColumnIs(c), p, k) == (Same(row.GetOrNull(c), Param(p, k)), k + 1)
    ensures EvalWhere(w, hits, row, Subst(ColumnIs(c), p, k), [], j) == (Same(row.GetOrNull(c), Param(p, k)), j)
    ensures Marks(ColumnIs(c)) == 1
  {
    var e, x, v := ColumnIs(c), row.GetOrNull(c), Param(p, k);
    assert Eval(w, Column(c), Some(row), p, k) == (x, k);
    assert Eval(w, Placeholder, Some(row), p, k) == (v, k + 1);
    assert Eval(w, e, Some(row), p, k) == (BoolVal(Same(x, v)), k + 1);
    assert Subst(e, p, k) == Binary(Column(c), Eq, Literal(v));
    assert Eval(w, Column(c), Some(row), [], j) == (x, j);
    assert Eval(w, Literal(v), Some(row), [], j) == (v, j);
    assert Eval(w, Subst(e, p, k), Some(row), [], j) == (BoolVal(Same(x, v)), j);
  }

  /** A condition `l` with one placeholder that it does not read, and `a = ?`: with
      the same parameters, the text compares `a` to the second one and the engine
      to the first. */
  lemma ShiftedSecond(w: World, hits: Hits, row: Row, l: Expr, op: BinOp, p: seq<Value>, b: bool)
    requires op.And? || op.Or?
    requires Marks(l) == 1 && EvalWhere(w, hits, row, l, p, 0) == (b, 0)
               && EvalWhere(w, hits, row, Subst(l, p, 0), [], 0) == (b, 0)
    requires b == op.And?
    ensures var e := Binary(l, op, ColumnIs("a"));
            && EvalWhere(w, hits, row, e, p, 0).0 == Same(row.GetOrNull("a"), Param(p, 0))
            && EvalWhere(w, hits, row, Subst(e, p, 0), [], 0).0 == Same(row.GetOrNull("a"), Param(p, 1))
  {
    hide Eval, Same, Param;
    var e := Binary(l, op, ColumnIs("a"));
    ColumnIsReads(w, hits, row, "a", p, 0, 0);
    ColumnIsReads(w, hits, row, "a", p, 1, 0);
    assert Subst(e, p, 0) == Binary(Subst(l, p, 0), op, Subst(ColumnIs("a"), p, 1));
  }

  /** `fts_match(docs, ?) OR a = ?`: the second placeholder reads the query text. */
  lemma FtsShiftsWitness(w: World, hits: Hits)
    ensures var row := Row(["a"], map["a" := Text("text")]);
            var e := Binary(Call("fts_match", [Column("docs"), Placeholder], 0), Or, ColumnIs("a"));
            var p := [Text("text"), Integer(5)];
            && EvalWhere(w, hits, row, e, p, 0).0
            && !EvalWhere(w, hits, row, Subst(e, p, 0), [], 0).0
  {
    var row, p := Row(["a"], map["a" := Text("text")]), [Text("text"), Integer(5)];
    var fts := Call("fts_match", [Column("docs"), Placeholder], 0);
    assert fts.args[1..] == [Placeholder] && [Placeholder][1..] == [];
    assert MarksAll([Placeholder]) == 1;
    assert SubstAll([Placeholder], p, 0) == [Literal(Text("text"))];
    assert Subst(fts, p, 0) == Call("fts_match", [Column("docs"), Literal(Text("text"))], 0);
    assert !row.Has("_rowid_") by { assert |"_rowid_"| != |"a"|; }
    hide Eval, Subst, Marks;
    ShiftedSecond(w, hits, row, fts, Or, p, false);
  }

  /** `CAST(? AS INTEGER) IS NULL AND a = ?`: the cast is not looked into, so its
      placeholder is neither counted nor read, and the next one reads its
      parameter. */
  lemma CastShiftsWitness(w: World, hits: Hits)
    ensures var row := Row(["a"], map["a" := Integer(1)]);
            var e := Binary(IsNull(Unsupported(1)), And, ColumnIs("a"));
            var p := [Integer(1), Integer(5)];
            && EvalWhere(w, hits, row, e, p, 0).0
            && !EvalWhere(w, hits, row, Subst(e, p, 0), [], 0).0
  {
    var row, p := Row(["a"], map["a" := Integer(1)]), [Integer(1), Integer(5)];
    var cast := IsNull(Unsupported(1));
    assert Eval(w, Unsupported(1), Some(row), p, 0) == (Null, 0);
    assert Eval(w, cast, Some(row), p, 0) == (BoolVal(true), 0);
    assert Subst(cast, p, 0) == IsNull(Unsupported(0));
    assert Eval(w, Unsupported(0), Some(row), [], 0) == (Null, 0);
    assert Eval(w, Subst(cast, p, 0), Some(row), [], 0) == (BoolVal(true), 0);
    hide Eval, Subst;
    ShiftedSecond(w, hits, row, cast, And, p, true);
  }
}
