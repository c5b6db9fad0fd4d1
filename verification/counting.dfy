/** How far the engine's count of placeholders is right: it misses exactly those that
    the evaluator never looks at. */
module Counting {
  import opened Wrappers
  import opened Expressions
  import opened Store
  import opened Interpreter
  import opened Prepared

  /** The placeholders in FILTER and OVER clauses and in unsupported expressions. */
  function Unseen(e: Expr): nat
    decreases e, 1
  {
    match e
    case Nested(x) => Unseen(x)
    case Unary(_, x) => Unseen(x)
    case Binary(l, _, r) => Unseen(l) + Unseen(r)
    case IsNull(x) => Unseen(x)
    case IsNotNull(x) => Unseen(x)
    case Between(x, _, lo, hi) => Unseen(x) + Unseen(lo) + Unseen(hi)
    case InList(x, list, _) => Unseen(x) + UnseenAll(list)
    case Like(x, p, _, _) => Unseen(x) + Unseen(p)
    case Case(operand, _, _) => UnseenOpt(operand) + UnseenArms(e, 0)
    case Call(_, args, hidden) => UnseenAll(args) + hidden
    case Unsupported(hidden) => hidden
    case _ => 0
  }

  function UnseenOpt(e: Option<Expr>): nat
    decreases e, 0
  {
    if e.Some? then Unseen(e.value) else 0
  }

  function UnseenAll(es: seq<Expr>): nat
    decreases es, 0
  {
    if es == [] then 0 else Unseen(es[0]) + UnseenAll(es[1..])
  }

  function UnseenArms(c: Expr, i: nat): nat
    requires c.Case? && i <= |c.whens|
    decreases c, 0, |c.whens| - i
  {
    if i == |c.whens| then UnseenOpt(c.otherwise)
    else Unseen(c.whens[i].cond) + Unseen(c.whens[i].result) + UnseenArms(c, i + 1)
  }

  /** The engine counts the placeholders of the text but for those. */
  lemma {:induction false} CountExactly(e: Expr)
    ensures Marks(e) == Count(e) + Unseen(e)
    decreases e, 1
  {
    match e
    case Nested(x) => CountExactly(x);
    case Unary(_, x) => CountExactly(x);
    case Binary(l, _, r) => CountExactly(l); CountExactly(r);
    case IsNull(x) => CountExactly(x);
    case IsNotNull(x) => CountExactly(x);
    case Between(x, _, lo, hi) => CountExactly(x); CountExactly(lo); CountExactly(hi);
    case InList(x, list, _) => CountExactly(x); CountAllExactly(list);
    case Like(x, p, _, _) => CountExactly(x); CountExactly(p);
    case Case(_, _, _) => CountCaseExactly(e);
    case Call(_, args, _) => CountAllExactly(args);
    case _ =>
  }

  lemma {:induction false} CountCaseExactly(c: Expr)
    requires c.Case?
    ensures Marks(c) == Count(c) + Unseen(c)
    decreases c, 0, |c.whens| + 1
  {
    if c.operand.Some? { CountExactly(c.operand.value); }
    CountArmsExactly(c, 0);
  }

  lemma {:induction false} CountAllExactly(es: seq<Expr>)
    ensures MarksAll(es) == CountAll(es) + UnseenAll(es)
    decreases es, 0
  {
    if es != [] {
      CountExactly(es[0]);
      CountAllExactly(es[1..]);
    }
  }

  lemma {:induction false} CountArmsExactly(c: Expr, i: nat)
    requires c.Case? && i <= |c.whens|
    ensures MarksArms(c, i) == CountArms(c, i) + UnseenArms(c, i)
    decreases c, 0, |c.whens| - i
  {
    if i == |c.whens| {
      if c.otherwise.Some? { CountExactly(c.otherwise.value); }
    } else {
      CountExactly(c.whens[i].cond);
      CountExactly(c.whens[i].result);
      CountArmsExactly(c, i + 1);
    }
  }

  /** The WHERE of an UPDATE starts at its own first parameter exactly when no SET
      expression has a placeholder that is never looked at. */
  lemma {:induction false} SetCountExactly(sets: seq<Assignment>)
    ensures CountAssignments(sets) == MarksAssignments(sets) <==>
              forall i :: 0 <= i < |sets| ==> Unseen(sets[i].value) == 0
    ensures CountAssignments(sets) <= MarksAssignments(sets)
    decreases sets
  {
    hide Count, Marks, Unseen;
    if sets != [] {
      CountExactly(sets[0].value);
      SetCountExactly(sets[1..]);
      assert forall i :: 0 <= i < |sets[1..]| ==> sets[1..][i] == sets[i + 1];
      if forall i :: 0 <= i < |sets| ==> Unseen(sets[i].value) == 0 {
        forall i | 0 <= i < |sets[1..]| ensures Unseen(sets[1..][i].value) == 0 {}
      }
      if Unseen(sets[0].value) == 0 && forall i :: 0 <= i < |sets[1..]| ==> Unseen(sets[1..][i].value) == 0 {
        forall i | 0 <= i < |sets| ensures Unseen(sets[i].value) == 0 {
          if i > 0 { assert sets[1..][i - 1] == sets[i]; }
        }
      }
    }
  }
}
