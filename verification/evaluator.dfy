/** The evaluator object: it walks an expression and advances one counter. */
module Evaluation {
  import opened Wrappers
  import opened Values
  import opened Externals
  import opened Expressions

  class Evaluator {
    const w: World
    const params: seq<Value>
    var paramIdx: nat

    constructor (w: World, params: seq<Value>, start: nat)
      ensures this.w == w && this.params == params && paramIdx == start
    {
      this.w, this.params, paramIdx := w, params, start;
    }

    method Value(e: Expr, row: Option<Row>) returns (v: Value)
      modifies this
      ensures (v, paramIdx) == Eval(w, e, row, params, old(paramIdx))
      decreases e, 1
    {
      hide ApplyBinary, Within, LikeValues, QualifiedValue;
      match e
      case Column(name) => v := ColumnValue(row, name);
      case Qualified(parts) => v := QualifiedValue(row, parts);
      case Literal(x) => v := x;
      case Placeholder =>
        v := Param(params, paramIdx);
        paramIdx := paramIdx + 1;
      case Nested(x) => v := Value(x, row);
      case Unary(op, x) =>
        v := Value(x, row);
        v := ApplyUnary(op, v);
      case Binary(l, op, r) =>
        var lv := Value(l, row);
        if op.And? && !Truthy(lv) { return BoolVal(false); }
        var rv := Value(r, row);
        v := if op.And? then BoolVal(Truthy(rv)) else if op.Or? then BoolVal(Truthy(lv) || Truthy(rv))
          else ApplyBinary(w, op, lv, rv);
      case IsNull(x) =>
        v := Value(x, row);
        v := BoolVal(v.Null?);
      case IsNotNull(x) =>
        v := Value(x, row);
        v := BoolVal(!v.Null?);
      case Between(x, negated, low, high) =>
        v := Value(x, row);
        var lo := Value(low, row);
        var hi := Value(high, row);
        v := BoolVal(Within(v, lo, hi) != negated);
      case InList(x, list, negated) =>
        v := Value(x, row);
        var found := AnyEqual(list, v, row);
        v := BoolVal(found != negated);
      case Like(x, pattern, negated, ignoreCase) =>
        v := Value(x, row);
        var p := Value(pattern, row);
        v := BoolVal(LikeValues(w, v, p, ignoreCase) != negated);
      case Case(_, _, _) => v := FirstMatch(e, row);
      case Call(fn, args, _) =>
        var vs := ValuesOf(args, row);
        v := w.call(fn, vs);
      case Unsupported(_) => v := Null;
    }

    method ValuesOf(es: seq<Expr>, row: Option<Row>) returns (vs: seq<Value>)
      modifies this
      ensures (vs, paramIdx) == EvalAll(w, es, row, params, old(paramIdx))
      decreases es, 0
    {
      hide Eval;
      vs := [];
      assert es[0..] == es;
      ghost var all := EvalAll(w, es, row, params, paramIdx).0;
      assert vs + all == all;
      for i := 0 to |es|
        invariant var (rest, k) := EvalAll(w, es[i..], row, params, paramIdx);
                  (vs + rest, k) == EvalAll(w, es, row, params, old(paramIdx))
      {
        assert es[i..][1..] == es[i + 1..];
        ghost var k := paramIdx;
        var v := Value(es[i], row);
        ghost var rest := EvalAll(w, es[i + 1..], row, params, paramIdx).0;
        assert vs + ([v] + rest) == (vs + [v]) + rest;
        vs := vs + [v];
      }
      assert vs + [] == vs;
    }

    /** Stops at the first equal item. */
    method AnyEqual(es: seq<Expr>, v: Value, row: Option<Row>) returns (found: bool)
      modifies this
      ensures (found, paramIdx) == AnySame(w, es, v, row, params, old(paramIdx))
      decreases es, 0
    {
      hide Eval;
      for i := 0 to |es|
        invariant AnySame(w, es[i..], v, row, params, paramIdx) == AnySame(w, es, v, row, params, old(paramIdx))
      {
        assert es[i..][1..] == es[i + 1..];
        var x := Value(es[i], row);
        if Same(x, v) { return true; }
      }
      return false;
    }

    /** The result of the first WHEN that applies, or of ELSE. */
    method FirstMatch(c: Expr, row: Option<Row>) returns (v: Value)
      requires c.Case?
      modifies this
      ensures (v, paramIdx) == EvalCase(w, c, 0, row, params, old(paramIdx))
      decreases c, 0
    {
      hide Eval;
      for i := 0 to |c.whens|
        invariant EvalCase(w, c, i, row, params, paramIdx) == EvalCase(w, c, 0, row, params, old(paramIdx))
      {
        var applies;
        ghost var k := paramIdx;
        if c.operand.Some? {
          var ov := Value(c.operand.value, row);
          var cv := Value(c.whens[i].cond, row);
          applies := Same(ov, cv);
        } else {
          var cv := Value(c.whens[i].cond, row);
          applies := Truthy(cv);
        }
        assert (applies, paramIdx) == TryArm(w, c, i, row, params, k);
        if applies {
          v := Value(c.whens[i].result, row);
          return;
        }
      }
      if c.otherwise.None? { return Null; }
      v := Value(c.otherwise.value, row);
    }

    /** WHERE: AND, OR and NOT are walked here, the rest is evaluated. */
    method Condition(hits: Hits, row: Row, e: Expr) returns (b: bool)
      modifies this
      ensures (b, paramIdx) == EvalWhere(w, hits, row, e, params, old(paramIdx))
    {
      hide Eval;
      if e.Binary? && e.op.And? {
        b := Condition(hits, row, e.left);
        if b { b := Condition(hits, row, e.right); }
      } else if e.Binary? && e.op.Or? {
        b := Condition(hits, row, e.left);
        if !b { b := Condition(hits, row, e.right); }
      } else if e.Unary? && e.uop.Not? {
        b := Condition(hits, row, e.e);
        b := !b;
      } else if e.Nested? {
        b := Condition(hits, row, e.e);
      } else if IsFtsMatch(e) {
        b := FtsHit(hits, row, e);
      } else {
        var v := Value(e, Some(row));
        b := Truthy(v);
      }
    }
  }
}
