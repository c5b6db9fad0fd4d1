/** When the threaded placeholder counter can be trusted: substitution of
    parameters into the text, the static analysis of what evaluation skips, and
    the proof that the analysis is right about consumption.

    Evaluation skips sub-expressions (AND, OR, IN, CASE), and a skipped `?`
    does not advance the counter, so a later `?` may read its neighbour's
    parameter. */
module Placeholders {
  import opened Wrappers
  import opened Values
  import opened Externals
  import opened Expressions

  // ---------------------------------------------------------------- textual substitution

  /** `e` with its placeholders, read left to right, replaced by the parameters
      from the `k`-th on. */
  function Subst(e: Expr, params: seq<Value>, k: nat): Expr
    decreases e, 1
  {
    match e
    case Placeholder => Literal(Param(params, k))
    case Nested(x) => Nested(Subst(x, params, k))
    case Unary(op, x) => Unary(op, Subst(x, params, k))
    case Binary(l, op, r) => Binary(Subst(l, params, k), op, Subst(r, params, k + Marks(l)))
    case IsNull(x) => IsNull(Subst(x, params, k))
    case IsNotNull(x) => IsNotNull(Subst(x, params, k))
    case Between(x, n, lo, hi) =>
      Between(Subst(x, params, k), n, Subst(lo, params, k + Marks(x)), Subst(hi, params, k + Marks(x) + Marks(lo)))
    case InList(x, list, n) => InList(Subst(x, params, k), SubstAll(list, params, k + Marks(x)), n)
    case Like(x, p, n, i) => Expr.Like(Subst(x, params, k), Subst(p, params, k + Marks(x)), n, i)
    case Case(operand, whens, otherwise) =>
      Case(SubstOpt(operand, params, k),
           seq(|whens|, i requires 0 <= i < |whens| => SubstArm(e, i, params, ArmStart(e, i, k))),
           SubstOpt(otherwise, params, ArmStart(e, |whens|, k)))
    case Call(fn, args, _) => Call(fn, SubstAll(args, params, k), 0)
    case Unsupported(_) => Unsupported(0)
    case _ => e
  }

  function SubstOpt(e: Option<Expr>, params: seq<Value>, k: nat): Option<Expr>
    decreases e, 0
  {
    if e.Some? then Some(Subst(e.value, params, k)) else None
  }

  function SubstAll(es: seq<Expr>, params: seq<Value>, k: nat): seq<Expr>
    decreases es, 0
  {
    if es == [] then [] else [Subst(es[0], params, k)] + SubstAll(es[1..], params, k + Marks(es[0]))
  }

  function SubstArm(c: Expr, i: nat, params: seq<Value>, k: nat): When
    requires c.Case? && i < |c.whens|
    decreases c, 0
  {
    When(Subst(c.whens[i].cond, params, k), Subst(c.whens[i].result, params, k + Marks(c.whens[i].cond)))
  }

  /** The placeholders of the WHENs before the `i`-th. */
  function ArmOffset(c: Expr, i: nat): nat
    requires c.Case? && i <= |c.whens|
  {
    if i == 0 then 0
    else ArmOffset(c, i - 1) + Marks(c.whens[i - 1].cond) + Marks(c.whens[i - 1].result)
  }

  /** Where in the text the `i`-th WHEN starts. */
  function ArmStart(c: Expr, i: nat, at: nat): nat
    requires c.Case? && i <= |c.whens|
  {
    at + MarksOpt(c.operand) + ArmOffset(c, i)
  }

  lemma {:induction false} SubstAllLength(es: seq<Expr>, params: seq<Value>, at: nat)
    ensures |SubstAll(es, params, at)| == |es|
    decreases es
  {
    if es != [] { SubstAllLength(es[1..], params, at + Marks(es[0])); }
  }

  // ---------------------------------------------------------------- static analysis

  /** Consumes all its placeholders whenever its value is true (`when`), or
      whenever it is false (`!when`). `top` says that the WHERE walker is at
      work rather than the scalar evaluator. */
  predicate Full(e: Expr, top: bool, when: bool)
    decreases e, 1
  {
    Marks(e) == 0 ||
    if top && IsFtsMatch(e) then false
    else match e
    case Placeholder => true
    case Nested(x) => Full(x, top, when)
    case Unary(op, x) => if op.Not? then Full(x, top, !when) else Steady(x)
    case Binary(l, op, r) =>
      if op.And? then
        if when then Full(l, top, true) && Full(r, top, true)
        else Full(l, top, true) && Full(l, top, false) && Marks(r) == 0
      else if op.Or? && !when then Full(l, top, false) && Full(r, top, false)
      else if op.Or? && top then Full(l, top, true) && Full(l, top, false) && Marks(r) == 0
      else Steady(l) && Steady(r)
    case IsNull(x) => Steady(x)
    case IsNotNull(x) => Steady(x)
    case Between(x, _, lo, hi) => Steady(x) && Steady(lo) && Steady(hi)
    case InList(x, list, negated) =>
      && Steady(x)
      && if when == negated then SteadyAll(list)
         else list != [] && Steady(list[0]) && MarksAll(list[1..]) == 0
    case Like(x, p, _, _) => Steady(x) && Steady(p)
    case Case(operand, whens, _) =>
      && whens != [] && Steady(whens[0].cond)
      && Marks(whens[0].result) + MarksArms(e, 1) == 0
      && (operand.Some? ==> Steady(operand.value) && (Marks(operand.value) == 0 || |whens| == 1))
    case Call(_, args, hidden) => hidden == 0 && SteadyAll(args)
    case Unsupported(_) => false
    case _ => true
  }

  /** Always consumes all its placeholders. */
  predicate Steady(e: Expr)
    decreases e, 2
  {
    Full(e, false, true) && Full(e, false, false)
  }

  predicate SteadyAll(es: seq<Expr>)
    decreases es, 0
  {
    es == [] || (Steady(es[0]) && SteadyAll(es[1..]))
  }

  /** Whatever is evaluated reads its own parameters: nothing that has
      placeholders follows something that may leave some unread. */
  predicate Aligned(e: Expr, top: bool)
    decreases e, 1
  {
    if top && IsFtsMatch(e) then Marks(e) == 0
    else match e
    case Nested(x) => Aligned(x, top)
    case Unary(op, x) => Aligned(x, top && op.Not?)
    case Binary(l, op, r) =>
      var walked := top && (op.And? || op.Or?);
      && Aligned(l, walked) && Aligned(r, walked)
      && (Marks(r) == 0
          || if op.And? then Full(l, walked, true) else if op.Or? then Full(l, walked, false) else Steady(l))
    case IsNull(x) => Aligned(x, false)
    case IsNotNull(x) => Aligned(x, false)
    case Between(x, _, lo, hi) =>
      && Aligned(x, false) && Aligned(lo, false) && Aligned(hi, false)
      && (Marks(lo) + Marks(hi) == 0 || Steady(x)) && (Marks(hi) == 0 || Steady(lo))
    case InList(x, list, _) => Aligned(x, false) && AlignedAll(list) && (MarksAll(list) == 0 || Steady(x))
    case Like(x, p, _, _) => Aligned(x, false) && Aligned(p, false) && (Marks(p) == 0 || Steady(x))
    case Case(operand, whens, _) =>
      OperandAligned(e) && AlignedArms(e, 0)
    case Call(_, args, _) => AlignedAll(args)
    case _ => true
  }

  /** The operand may have placeholders only if it is evaluated just once. */
  predicate OperandAligned(c: Expr)
    requires c.Case?
    decreases c, 0, 0
  {
    c.operand.Some? ==>
      && Aligned(c.operand.value, false)
      && (Marks(c.operand.value) == 0 || (|c.whens| == 1 && Steady(c.operand.value)))
  }

  predicate AlignedAll(es: seq<Expr>)
    decreases es, 0
  {
    es == [] || (Aligned(es[0], false) && AlignedAll(es[1..]) && (MarksAll(es[1..]) == 0 || Steady(es[0])))
  }

  predicate AlignedArms(c: Expr, i: nat)
    requires c.Case? && i <= |c.whens|
    decreases c, 0, |c.whens| - i
  {
    if i == |c.whens| then c.otherwise.Some? ==> Aligned(c.otherwise.value, false)
    else
      var when := c.whens[i];
      && Aligned(when.cond, false) && Aligned(when.result, false)
      && (Marks(when.result) == 0 || (if c.operand.Some? then Steady(when.cond) else Full(when.cond, false, true)))
      && (MarksArms(c, i + 1) == 0
          || (Marks(when.result) == 0
              && if c.operand.Some? then Steady(when.cond) else Full(when.cond, false, false)))
      && AlignedArms(c, i + 1)
  }

  // ---------------------------------------------------------------- without placeholders

  /** An expression without placeholders neither moves nor reads the counter. */
  lemma {:induction false} Closed(w: World, e: Expr, row: Option<Row>, p: seq<Value>, k: nat, p': seq<Value>, k': nat)
    requires Count(e) == 0
    ensures Eval(w, e, row, p, k).0 == Eval(w, e, row, p', k').0
    ensures Eval(w, e, row, p, k).1 == k && Eval(w, e, row, p', k').1 == k'
    decreases e, 1
  {
    match e
    case Nested(x) => Closed(w, x, row, p, k, p', k');
    case Unary(_, x) => Closed(w, x, row, p, k, p', k');
    case Binary(_, _, _) => ClosedBinary(w, e, row, p, k, p', k');
    case IsNull(x) => Closed(w, x, row, p, k, p', k');
    case IsNotNull(x) => Closed(w, x, row, p, k, p', k');
    case Between(_, _, _, _) => ClosedBetween(w, e, row, p, k, p', k');
    case InList(x, list, _) =>
      Closed(w, x, row, p, k, p', k'); ClosedAnySame(w, list, Eval(w, x, row, p, k).0, row, p, k, p', k');
    case Like(x, q, _, _) => Closed(w, x, row, p, k, p', k'); Closed(w, q, row, p, k, p', k');
    case Case(_, _, _) => ClosedCase(w, e, 0, row, p, k, p', k');
    case Call(_, args, _) => ClosedAll(w, args, row, p, k, p', k');
    case _ =>
  }

  lemma {:induction false} ClosedBinary(w: World, e: Expr, row: Option<Row>, p: seq<Value>, k: nat, p': seq<Value>,
      k': nat)
    requires e.Binary? && Count(e) == 0
    ensures Eval(w, e, row, p, k).0 == Eval(w, e, row, p', k').0
    ensures Eval(w, e, row, p, k).1 == k && Eval(w, e, row, p', k').1 == k'
    decreases e, 0
  {
    Closed(w, e.left, row, p, k, p', k');
    Closed(w, e.right, row, p, k, p', k');
  }

  lemma {:induction false} ClosedBetween(w: World, e: Expr, row: Option<Row>, p: seq<Value>, k: nat, p': seq<Value>,
      k': nat)
    requires e.Between? && Count(e) == 0
    ensures Eval(w, e, row, p, k).0 == Eval(w, e, row, p', k').0
    ensures Eval(w, e, row, p, k).1 == k && Eval(w, e, row, p', k').1 == k'
    decreases e, 0
  {
    Closed(w, e.e, row, p, k, p', k');
    Closed(w, e.low, row, p, k, p', k');
    Closed(w, e.high, row, p, k, p', k');
  }

  lemma {:induction false} ClosedAll(w: World, es: seq<Expr>, row: Option<Row>, p: seq<Value>, k: nat, p': seq<Value>,
      k': nat)
    requires CountAll(es) == 0
    ensures EvalAll(w, es, row, p, k).0 == EvalAll(w, es, row, p', k').0
    ensures EvalAll(w, es, row, p, k).1 == k && EvalAll(w, es, row, p', k').1 == k'
    decreases es, 0
  {
    if es != [] {
      Closed(w, es[0], row, p, k, p', k');
      ClosedAll(w, es[1..], row, p, k, p', k');
    }
  }

  lemma {:induction false} ClosedAnySame(w: World, es: seq<Expr>, v: Value, row: Option<Row>, p: seq<Value>, k: nat,
      p': seq<Value>, k': nat)
    requires CountAll(es) == 0
    ensures AnySame(w, es, v, row, p, k).0 == AnySame(w, es, v, row, p', k').0
    ensures AnySame(w, es, v, row, p, k).1 == k && AnySame(w, es, v, row, p', k').1 == k'
    decreases es, 0
  {
    if es != [] {
      Closed(w, es[0], row, p, k, p', k');
      ClosedAnySame(w, es[1..], v, row, p, k, p', k');
    }
  }

  lemma {:induction false} ClosedCase(w: World, c: Expr, i: nat, row: Option<Row>, p: seq<Value>, k: nat,
      p': seq<Value>, k': nat)
    requires c.Case? && i <= |c.whens| && CountOpt(c.operand) == 0 && CountArms(c, i) == 0
    ensures EvalCase(w, c, i, row, p, k).0 == EvalCase(w, c, i, row, p', k').0
    ensures EvalCase(w, c, i, row, p, k).1 == k && EvalCase(w, c, i, row, p', k').1 == k'
    decreases c, 0, |c.whens| - i
  {
    if i == |c.whens| {
      if c.otherwise.Some? { Closed(w, c.otherwise.value, row, p, k, p', k'); }
    } else {
      var when := c.whens[i];
      if c.operand.Some? { Closed(w, c.operand.value, row, p, k, p', k'); }
      Closed(w, when.cond, row, p, k, p', k');
      Closed(w, when.result, row, p, k, p', k');
      ClosedCase(w, c, i + 1, row, p, k, p', k');
    }
  }

  // ---------------------------------------------------------------- consumption

  /** `Full` is right about the scalar evaluator. */
  lemma {:induction false} Consumes(w: World, e: Expr, row: Option<Row>, p: seq<Value>, k: nat)
    ensures Full(e, false, true) && Truthy(Eval(w, e, row, p, k).0) ==> Eval(w, e, row, p, k).1 == k + Marks(e)
    ensures Full(e, false, false) && !Truthy(Eval(w, e, row, p, k).0) ==> Eval(w, e, row, p, k).1 == k + Marks(e)
    ensures Steady(e) ==> Eval(w, e, row, p, k).1 == k + Marks(e)
    decreases e, 1
  {
    if Marks(e) == 0 {
      Closed(w, e, row, p, k, p, k);
    } else {
      match e
      case Nested(x) => Consumes(w, x, row, p, k);
      case Unary(_, x) => Consumes(w, x, row, p, k);
      case Binary(l, _, r) => BinaryConsumes(w, e, row, p, k);
      case IsNull(x) => Consumes(w, x, row, p, k);
      case IsNotNull(x) => Consumes(w, x, row, p, k);
      case Between(x, _, lo, hi) =>
        Consumes(w, x, row, p, k);
        var k1 := Eval(w, x, row, p, k).1;
        Consumes(w, lo, row, p, k1);
        Consumes(w, hi, row, p, Eval(w, lo, row, p, k1).1);
      case InList(x, list, _) => InListConsumes(w, e, row, p, k);
      case Like(x, q, _, _) =>
        Consumes(w, x, row, p, k);
        Consumes(w, q, row, p, Eval(w, x, row, p, k).1);
      case Case(operand, whens, _) =>
        if whens != [] && Marks(whens[0].result) + MarksArms(e, 1) == 0 {
          CaseConsumes(w, e, row, p, k);
        }
      case Call(_, args, _) => AllConsume(w, args, row, p, k);
      case _ =>
    }
  }

  lemma {:induction false} BinaryConsumes(w: World, e: Expr, row: Option<Row>, p: seq<Value>, k: nat)
    requires e.Binary? && Marks(e) > 0
    ensures Full(e, false, true) && Truthy(Eval(w, e, row, p, k).0) ==> Eval(w, e, row, p, k).1 == k + Marks(e)
    ensures Full(e, false, false) && !Truthy(Eval(w, e, row, p, k).0) ==> Eval(w, e, row, p, k).1 == k + Marks(e)
    decreases e, 0
  {
    var (lv, k1) := Eval(w, e.left, row, p, k);
    Consumes(w, e.left, row, p, k);
    Consumes(w, e.right, row, p, k1);
    if Marks(e.right) == 0 { Closed(w, e.right, row, p, k1, p, k1); }
  }

  lemma {:induction false} InListConsumes(w: World, e: Expr, row: Option<Row>, p: seq<Value>, k: nat)
    requires e.InList? && Marks(e) > 0
    ensures Full(e, false, true) && Truthy(Eval(w, e, row, p, k).0) ==> Eval(w, e, row, p, k).1 == k + Marks(e)
    ensures Full(e, false, false) && !Truthy(Eval(w, e, row, p, k).0) ==> Eval(w, e, row, p, k).1 == k + Marks(e)
    decreases e, 0
  {
    var list := e.list;
    Consumes(w, e.e, row, p, k);
    var (v, k1) := Eval(w, e.e, row, p, k);
    AnySameConsumes(w, list, v, row, p, k1);
    if list != [] {
      var k2 := Eval(w, list[0], row, p, k1).1;
      if MarksAll(list[1..]) == 0 { ClosedAnySame(w, list[1..], v, row, p, k2, p, k2); }
      Consumes(w, list[0], row, p, k1);
    }
  }

  lemma {:induction false} AllConsume(w: World, es: seq<Expr>, row: Option<Row>, p: seq<Value>, k: nat)
    ensures SteadyAll(es) ==> EvalAll(w, es, row, p, k).1 == k + MarksAll(es)
    decreases es, 0
  {
    if es != [] {
      Consumes(w, es[0], row, p, k);
      AllConsume(w, es[1..], row, p, Eval(w, es[0], row, p, k).1);
    }
  }

  lemma {:induction false} AnySameConsumes(w: World, es: seq<Expr>, v: Value, row: Option<Row>, p: seq<Value>, k: nat)
    ensures SteadyAll(es) && !AnySame(w, es, v, row, p, k).0 ==> AnySame(w, es, v, row, p, k).1 == k + MarksAll(es)
    decreases es, 0
  {
    if es != [] {
      Consumes(w, es[0], row, p, k);
      AnySameConsumes(w, es[1..], v, row, p, Eval(w, es[0], row, p, k).1);
    }
  }

  /** A CASE whose placeholders are all in its operand and first condition. */
  lemma {:induction false} CaseConsumes(w: World, c: Expr, row: Option<Row>, p: seq<Value>, k: nat)
    requires c.Case? && c.whens != [] && Marks(c.whens[0].result) + MarksArms(c, 1) == 0
    ensures Full(c, false, true) && Marks(c) > 0 ==> EvalCase(w, c, 0, row, p, k).1 == k + Marks(c)
    decreases c, 0
  {
    var when := c.whens[0];
    var k1 := if c.operand.Some? then Eval(w, c.operand.value, row, p, k).1 else k;
    if c.operand.Some? { Consumes(w, c.operand.value, row, p, k); }
    Consumes(w, when.cond, row, p, k1);
    var k2 := Eval(w, when.cond, row, p, k1).1;
    Closed(w, when.result, row, p, k2, p, k2);
    if |c.whens| == 1 {
      if c.otherwise.Some? { Closed(w, c.otherwise.value, row, p, k2, p, k2); }
    } else if MarksOpt(c.operand) == 0 {
      ClosedCase(w, c, 1, row, p, k2, p, k2);
    }
    assert MarksArms(c, 0) == Marks(when.cond) + Marks(when.result) + MarksArms(c, 1);
  }
}
