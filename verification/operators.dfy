/** What every kind of expression means, in terms of the values of its parts. */
module Operators {
  import opened Wrappers
  import opened Values
  import opened Externals
  import opened Expressions
  import opened Placeholders
  import Pattern = Like

  // ---------------------------------------------------------------- truth and numbers

  /** False are NULL, the three zeros, the empty text and the empty blob; all else is
      true, NaN included. */
  lemma TruthyExactly(v: Value)
    ensures !Truthy(v) <==> v in {Null, Integer(0), Real(Num(0.0)), Real(NegZero), Text(""), Blob([])}
  {
  }

  /** `g` is `f` with its sign turned: also zero has one. */
  predicate Opposite(f: F64, g: F64) {
    && (f.NaN? <==> g.NaN?) && InfinityRank(g) == -InfinityRank(f) && FiniteValue(g) == -FiniteValue(f)
    && (f.NegZero? <==> g == Num(0.0)) && (g.NegZero? <==> f == Num(0.0))
  }

  /** The value of a number with its sign turned. */
  ghost predicate Negated(v: Value, n: Value) {
    match v
    case Integer(i) => n == Integer(0 - i)
    case Real(f) => n.Real? && Opposite(f, n.f)
    case _ => n == v
  }

  /** NOT negates the truth of its operand; minus turns the sign of a number and leaves
      other values alone, as plus leaves all. */
  lemma UnaryExactly(w: World, x: Expr, row: Option<Row>, params: seq<Value>, k: nat)
    ensures var (v, k1) := Eval(w, x, row, params, k);
            && Eval(w, Unary(Not, x), row, params, k) == (Integer(if Truthy(v) then 0 else 1), k1)
            && Eval(w, Unary(Identity, x), row, params, k) == (v, k1)
            && var (n, k2) := Eval(w, Unary(Negate, x), row, params, k); k2 == k1 && Negated(v, n)
  {
  }

  lemma RoundOdd(i: int)
    ensures RoundInt(-i) == -RoundInt(i)
  {
    RoundExact(0);
  }

  lemma OppositeCompare(f: F64, g: F64, f': F64, g': F64)
    requires Opposite(f, f') && Opposite(g, g')
    ensures OrEqual(PartialCmp(f', g')) == OrEqual(PartialCmp(g, f))
  {
  }

  /** The same order as the other way round, whatever mixture of integers and floats. */
  lemma NegatedCompare(a: Value, b: Value, a': Value, b': Value)
    requires IsNumber(a) && IsNumber(b) && Negated(a, a') && Negated(b, b')
    ensures Compare(a', b') == Compare(b, a)
  {
    hide PartialCmp, Opposite, FloatOfInt, OrEqual;
    match (a, b)
    case (Integer(_), Integer(_)) =>
    case (Real(f), Real(g)) => OppositeCompare(f, g, a'.f, b'.f);
    case (Integer(i), Real(g)) => MixedCompare(i, g, b'.f);
    case (Real(f), Integer(j)) => MixedCompare(j, f, a'.f);
  }

  lemma MixedCompare(i: int, g: F64, g': F64)
    requires Opposite(g, g')
    ensures OrEqual(PartialCmp(FloatOfInt(0 - i), g')) == OrEqual(PartialCmp(g, FloatOfInt(i)))
    ensures OrEqual(PartialCmp(g', FloatOfInt(0 - i))) == OrEqual(PartialCmp(FloatOfInt(i), g))
  {
    RoundOdd(i);
    hide RoundInt;
  }

  // ---------------------------------------------------------------- comparisons

  lemma BinaryReads(w: World, l: Expr, op: BinOp, r: Expr, row: Option<Row>, params: seq<Value>, k: nat)
    requires !op.And? && !op.Or?
    ensures var (a, k1) := Eval(w, l, row, params, k);
            var (b, k2) := Eval(w, r, row, params, k1);
            Eval(w, Binary(l, op, r), row, params, k) == (ApplyBinary(w, op, a, b), k2)
  {
    hide ApplyBinary;
  }

  /** A comparison evaluates its left side and then its right side, and says whether
      the two values are `==` or how they compare. */
  lemma ComparisonsExactly(w: World, l: Expr, r: Expr, row: Option<Row>, params: seq<Value>, k: nat)
    ensures var (a, k1) := Eval(w, l, row, params, k);
            var (b, k2) := Eval(w, r, row, params, k1);
            && Eval(w, Binary(l, Eq, r), row, params, k) == (Integer(if Same(a, b) then 1 else 0), k2)
            && Eval(w, Binary(l, NotEq, r), row, params, k) == (Integer(if Same(a, b) then 0 else 1), k2)
            && Eval(w, Binary(l, Lt, r), row, params, k) == (Integer(if Compare(a, b) == Less then 1 else 0), k2)
            && Eval(w, Binary(l, LtEq, r), row, params, k) == (Integer(if Compare(a, b) == Greater then 0 else 1), k2)
            && Eval(w, Binary(l, Gt, r), row, params, k) == (Integer(if Compare(a, b) == Greater then 1 else 0), k2)
            && Eval(w, Binary(l, GtEq, r), row, params, k) == (Integer(if Compare(a, b) == Less then 0 else 1), k2)
            && forall op :: Eval(w, Binary(l, Scalar(op), r), row, params, k) == (w.scalar(op, a, b), k2)
  {
    hide Same, Compare;
    forall op: BinOp | !op.And? && !op.Or?
      ensures var (a, k1) := Eval(w, l, row, params, k);
              var (b, k2) := Eval(w, r, row, params, k1);
              Eval(w, Binary(l, op, r), row, params, k) == (ApplyBinary(w, op, a, b), k2)
    {
      BinaryReads(w, l, op, r, row, params, k);
    }
    hide Eval;
  }

  /** Minus reverses every comparison of numbers. */
  lemma MinusReverses(w: World, l: Expr, r: Expr, row: Option<Row>, params: seq<Value>, k: nat)
    requires Count(l) == 0 && Count(r) == 0
    requires IsNumber(Eval(w, l, row, params, k).0) && IsNumber(Eval(w, r, row, params, k).0)
    ensures Eval(w, Binary(Unary(Negate, l), Lt, Unary(Negate, r)), row, params, k) ==
              Eval(w, Binary(r, Lt, l), row, params, k)
    ensures Eval(w, Binary(Unary(Negate, l), LtEq, Unary(Negate, r)), row, params, k) ==
              Eval(w, Binary(r, LtEq, l), row, params, k)
  {
    hide Eval, Compare, Negated;
    var (a, b) := (Eval(w, l, row, params, k).0, Eval(w, r, row, params, k).0);
    var a', b' := Eval(w, Unary(Negate, l), row, params, k).0, Eval(w, Unary(Negate, r), row, params, k).0;
    Closed(w, l, row, params, k, params, k);
    Closed(w, r, row, params, k, params, k);
    UnaryExactly(w, l, row, params, k);
    UnaryExactly(w, r, row, params, k);
    NegatedCompare(a, b, a', b');
    CompareFlips(a, b);
    CompareFlips(a', b');
    ComparisonsExactly(w, Unary(Negate, l), Unary(Negate, r), row, params, k);
    ComparisonsExactly(w, r, l, row, params, k);
  }

  /** The truth of a condition, from some counter. */
  predicate Holds(w: World, e: Expr, row: Option<Row>, params: seq<Value>, k: nat) {
    Truthy(Eval(w, e, row, params, k).0)
  }

  /** `<>` is the negation of `=`, `<=` of `>`, and `>=` of `<`; at most one of `<`, `=`
      and `>` holds, and none exactly when values that are not `==` compare Equal. */
  lemma ComparisonLaws(w: World, l: Expr, r: Expr, row: Option<Row>, params: seq<Value>, k: nat)
    ensures Holds(w, Binary(l, NotEq, r), row, params, k) <==> !Holds(w, Binary(l, Eq, r), row, params, k)
    ensures Holds(w, Binary(l, LtEq, r), row, params, k) <==> !Holds(w, Binary(l, Gt, r), row, params, k)
    ensures Holds(w, Binary(l, GtEq, r), row, params, k) <==> !Holds(w, Binary(l, Lt, r), row, params, k)
    ensures var lt, eq, gt := Holds(w, Binary(l, Lt, r), row, params, k), Holds(w, Binary(l, Eq, r), row, params, k),
              Holds(w, Binary(l, Gt, r), row, params, k);
            var (a, k1) := Eval(w, l, row, params, k);
            var b := Eval(w, r, row, params, k1).0;
            && !(lt && eq) && !(lt && gt) && !(eq && gt)
            && (!lt && !eq && !gt <==> Compare(a, b) == Equal && !Same(a, b))
  {
    var (a, k1) := Eval(w, l, row, params, k);
    var b := Eval(w, r, row, params, k1).0;
    ComparisonsExactly(w, l, r, row, params, k);
    CompareEqualExactly(a, b);
    hide Same, Compare, Eval;
  }

  /** Sides without placeholders may be swapped with the comparison. */
  lemma SidesSwap(w: World, l: Expr, r: Expr, row: Option<Row>, params: seq<Value>, k: nat)
    requires Count(l) == 0 && Count(r) == 0
    ensures Eval(w, Binary(l, Eq, r), row, params, k) == Eval(w, Binary(r, Eq, l), row, params, k)
    ensures Eval(w, Binary(l, NotEq, r), row, params, k) == Eval(w, Binary(r, NotEq, l), row, params, k)
    ensures Eval(w, Binary(l, Lt, r), row, params, k) == Eval(w, Binary(r, Gt, l), row, params, k)
    ensures Eval(w, Binary(l, LtEq, r), row, params, k) == Eval(w, Binary(r, GtEq, l), row, params, k)
  {
    var a, b := Eval(w, l, row, params, k).0, Eval(w, r, row, params, k).0;
    Closed(w, l, row, params, k, params, k);
    Closed(w, r, row, params, k, params, k);
    CompareFlips(a, b);
    assert Same(a, b) == Same(b, a);
    ComparisonsExactly(w, l, r, row, params, k);
    ComparisonsExactly(w, r, l, row, params, k);
    hide Same, Compare, Eval;
  }

  /** BETWEEN evaluates its three parts in turn and asks for both bounds. */
  lemma BetweenExactly(w: World, x: Expr, low: Expr, high: Expr, negated: bool, row: Option<Row>, params: seq<Value>,
      k: nat)
    ensures var (v, k1) := Eval(w, x, row, params, k);
            var (lo, k2) := Eval(w, low, row, params, k1);
            var (hi, k3) := Eval(w, high, row, params, k2);
            var inside := Compare(v, lo) != Less && Compare(v, hi) != Greater;
            Eval(w, Between(x, negated, low, high), row, params, k) ==
              (Integer(if (if negated then !inside else inside) then 1 else 0), k3)
  {
    hide Compare;
  }

  /** Without placeholders it is the conjunction of two comparisons. */
  lemma BetweenIsConjunction(w: World, x: Expr, low: Expr, high: Expr, row: Option<Row>, params: seq<Value>, k: nat)
    requires Count(x) == 0 && Count(low) == 0 && Count(high) == 0
    ensures Eval(w, Between(x, false, low, high), row, params, k) ==
              Eval(w, Binary(Binary(x, GtEq, low), And, Binary(x, LtEq, high)), row, params, k)
    ensures Eval(w, Between(x, true, low, high), row, params, k) ==
              Eval(w, Unary(Not, Between(x, false, low, high)), row, params, k)
  {
    Closed(w, x, row, params, k, params, k);
    Closed(w, low, row, params, k, params, k);
    Closed(w, high, row, params, k, params, k);
    ComparisonsExactly(w, x, low, row, params, k);
    ComparisonsExactly(w, x, high, row, params, k);
    BetweenExactly(w, x, low, high, false, row, params, k);
    BetweenExactly(w, x, low, high, true, row, params, k);
    ConnectivesExactly(w, Binary(x, GtEq, low), Binary(x, LtEq, high), row, params, k);
    UnaryExactly(w, Between(x, false, low, high), row, params, k);
    hide Compare, Eval;
  }

  // ---------------------------------------------------------------- AND and OR

  /** AND evaluates its right side only if the left one is true, OR always. */
  lemma ConnectivesExactly(w: World, l: Expr, r: Expr, row: Option<Row>, params: seq<Value>, k: nat)
    ensures var (a, k1) := Eval(w, l, row, params, k);
            var (b, k2) := Eval(w, r, row, params, k1);
            && (!Truthy(a) ==> Eval(w, Binary(l, And, r), row, params, k) == (Integer(0), k1))
            && (Truthy(a) ==> Eval(w, Binary(l, And, r), row, params, k) == (Integer(if Truthy(b) then 1 else 0), k2))
            && Eval(w, Binary(l, Or, r), row, params, k) == (Integer(if Truthy(a) || Truthy(b) then 1 else 0), k2)
  {
    hide Truthy;
  }

  /** NULL is told from every other value, zero and the empty text included. */
  lemma NullTestsExactly(w: World, x: Expr, row: Option<Row>, params: seq<Value>, k: nat)
    ensures var (v, k1) := Eval(w, x, row, params, k);
            && Eval(w, IsNull(x), row, params, k) == (Integer(if v == Null then 1 else 0), k1)
            && Eval(w, IsNotNull(x), row, params, k) == (Integer(if v == Null then 0 else 1), k1)
  {
  }

  /** LIKE holds of two texts when the first splits into one piece for each character
      of the second; ILIKE when that is so of both in lower case. */
  lemma LikeExactly(w: World, x: Expr, pattern: Expr, negated: bool, ignoreCase: bool, row: Option<Row>,
      params: seq<Value>, k: nat)
    ensures var (v, k1) := Eval(w, x, row, params, k);
            var (p, k2) := Eval(w, pattern, row, params, k1);
            var fits := v.Text? && p.Text?
                        && if ignoreCase then exists ps :: Pattern.Splits(w.lower(v.s), w.lower(p.s), ps)
                           else exists ps :: Pattern.Splits(v.s, p.s, ps);
            Eval(w, Expr.Like(x, pattern, negated, ignoreCase), row, params, k) ==
              (Integer(if (if negated then !fits else fits) then 1 else 0), k2)
  {
    hide Pattern.Matches, Pattern.Splits;
    var (v, k1) := Eval(w, x, row, params, k);
    var p := Eval(w, pattern, row, params, k1).0;
    if v.Text? && p.Text? {
      Pattern.MatchesExactly(v.s, p.s);
      Pattern.MatchesExactly(w.lower(v.s), w.lower(p.s));
    }
  }

  // ---------------------------------------------------------------- names, literals, placeholders

  /** A column is looked up in the row, and NULL where there is none; a qualified one by
      its whole name first and by its last part next. */
  lemma ColumnsExactly(w: World, name: string, parts: seq<string>, last: string, row: Row, params: seq<Value>, k: nat)
    ensures Eval(w, Column(name), None, params, k) == (Null, k)
    ensures Eval(w, Column(name), Some(row), params, k) ==
              (if name in row.vals then row.vals[name] else Null, k)
    ensures Eval(w, Qualified(parts + [last]), None, params, k) == (Null, k)
    ensures var whole := JoinDots(parts + [last]);
            Eval(w, Qualified(parts + [last]), Some(row), params, k) ==
              (if whole in row.vals then row.vals[whole] else if last in row.vals then row.vals[last] else Null, k)
  {
    assert (parts + [last])[|parts + [last]| - 1] == last;
  }

  lemma {:induction false} JoinDotsExactly(parts: seq<string>, last: string)
    ensures JoinDots(parts + [last]) == if parts == [] then last else JoinDots(parts) + "." + last
    decreases parts
  {
    if parts != [] {
      JoinDotsExactly(parts[1..], last);
      assert (parts + [last])[1..] == parts[1..] + [last];
      if |parts| > 1 {
        var rest := JoinDots(parts[1..]);
        assert parts[0] + "." + (rest + "." + last) == parts[0] + "." + rest + "." + last;
      }
    }
  }

  /** The counter picks the parameter and moves on; beyond the last one it is NULL. */
  lemma LeavesExactly(w: World, v: Value, x: Expr, hidden: nat, row: Option<Row>, params: seq<Value>, k: nat)
    ensures Eval(w, Placeholder, row, params, k) == (if k < |params| then params[k] else Null, k + 1)
    ensures Eval(w, Literal(v), row, params, k) == (v, k)
    ensures Eval(w, Nested(x), row, params, k) == Eval(w, x, row, params, k)
    ensures Eval(w, Unsupported(hidden), row, params, k) == (Null, k)
  {
  }

  // ---------------------------------------------------------------- lists

  /** Where the counter stands before the `i`-th of some expressions. */
  function CounterAt(w: World, es: seq<Expr>, row: Option<Row>, params: seq<Value>, k: nat, i: nat): nat
    requires i <= |es|
  {
    if i == 0 then k else Eval(w, es[i - 1], row, params, CounterAt(w, es, row, params, k, i - 1)).1
  }

  function ItemAt(w: World, es: seq<Expr>, row: Option<Row>, params: seq<Value>, k: nat, i: nat): Value
    requires i < |es|
  {
    Eval(w, es[i], row, params, CounterAt(w, es, row, params, k, i)).0
  }

  lemma {:induction false} CounterRest(w: World, es: seq<Expr>, row: Option<Row>, params: seq<Value>, k: nat, i: nat)
    requires i < |es|
    ensures CounterAt(w, es, row, params, k, i + 1) ==
              CounterAt(w, es[1..], row, params, Eval(w, es[0], row, params, k).1, i)
    decreases i
  {
    hide Eval;
    if i > 0 { CounterRest(w, es, row, params, k, i - 1); }
  }

  /** The arguments of a call are evaluated from left to right. */
  lemma {:induction false} ItemsInOrder(w: World, es: seq<Expr>, row: Option<Row>, params: seq<Value>, k: nat)
    ensures var (vs, k1) := EvalAll(w, es, row, params, k);
            && |vs| == |es| && k1 == CounterAt(w, es, row, params, k, |es|)
            && forall i :: 0 <= i < |es| ==> vs[i] == ItemAt(w, es, row, params, k, i)
    decreases es
  {
    hide Eval;
    if es != [] {
      var k1 := Eval(w, es[0], row, params, k).1;
      ItemsInOrder(w, es[1..], row, params, k1);
      CounterRest(w, es, row, params, k, |es| - 1);
      forall i | 0 <= i < |es| ensures EvalAll(w, es, row, params, k).0[i] == ItemAt(w, es, row, params, k, i) {
        if i > 0 { CounterRest(w, es, row, params, k, i - 1); }
      }
    }
  }

  lemma CallExactly(w: World, fn: string, args: seq<Expr>, hidden: nat, row: Option<Row>, params: seq<Value>, k: nat)
    ensures Eval(w, Call(fn, args, hidden), row, params, k) ==
              (w.call(fn, seq(|args|, i requires 0 <= i < |args| => ItemAt(w, args, row, params, k, i))),
               CounterAt(w, args, row, params, k, |args|))
  {
    hide ItemAt, CounterAt;
    ItemsInOrder(w, args, row, params, k);
    assert EvalAll(w, args, row, params, k).0 ==
           seq(|args|, i requires 0 <= i < |args| => ItemAt(w, args, row, params, k, i));
  }

  lemma {:induction false} FirstSame(w: World, es: seq<Expr>, v: Value, row: Option<Row>, params: seq<Value>, k: nat)
    returns (n: nat)
    ensures n <= |es|
    ensures forall i :: 0 <= i < n ==> !Same(ItemAt(w, es, row, params, k, i), v)
    ensures n < |es| ==> Same(ItemAt(w, es, row, params, k, n), v)
    ensures AnySame(w, es, v, row, params, k) ==
              (n < |es|, CounterAt(w, es, row, params, k, if n < |es| then n + 1 else n))
    decreases es
  {
    hide Eval, Same;
    n := 0;
    if es != [] {
      var (x, k1) := Eval(w, es[0], row, params, k);
      assert CounterAt(w, es, row, params, k, 1) == k1;
      if !Same(x, v) {
        var m := FirstSame(w, es[1..], v, row, params, k1);
        n := m + 1;
        forall i | 1 <= i < |es|
          ensures ItemAt(w, es, row, params, k, i) == ItemAt(w, es[1..], row, params, k1, i - 1)
        {
          CounterRest(w, es, row, params, k, i - 1);
        }
        CounterRest(w, es, row, params, k, if m < |es| - 1 then m + 1 else m);
      }
    }
  }

  /** IN compares with the items one by one and stops at the first that is `==`. */
  lemma InListExactly(w: World, x: Expr, list: seq<Expr>, negated: bool, row: Option<Row>, params: seq<Value>, k: nat)
    returns (n: nat)
    ensures n <= |list|
    ensures var (v, k1) := Eval(w, x, row, params, k);
            && (forall i :: 0 <= i < n ==> !Same(ItemAt(w, list, row, params, k1, i), v))
            && (n < |list| ==> Same(ItemAt(w, list, row, params, k1, n), v))
            && Eval(w, InList(x, list, negated), row, params, k) ==
                 (Integer(if (if negated then n == |list| else n < |list|) then 1 else 0),
                  CounterAt(w, list, row, params, k1, if n < |list| then n + 1 else n))
  {
    hide Same, ItemAt, CounterAt;
    var (v, k1) := Eval(w, x, row, params, k);
    n := FirstSame(w, list, v, row, params, k1);
  }

  // ---------------------------------------------------------------- CASE

  /** Where the operand of a CASE leaves the counter. */
  function AfterOperand(w: World, c: Expr, row: Option<Row>, params: seq<Value>, k: nat): nat
    requires c.Case?
  {
    if c.operand.Some? then Eval(w, c.operand.value, row, params, k).1 else k
  }

  /** Where the counter stands when the `i`-th WHEN is tried: the operand has been
      evaluated anew for each before it, and their conditions. */
  function TriedAt(w: World, c: Expr, row: Option<Row>, params: seq<Value>, k: nat, i: nat): nat
    requires c.Case? && i <= |c.whens|
  {
    if i == 0 then k
    else
      Eval(w, c.whens[i - 1].cond, row, params,
           AfterOperand(w, c, row, params, TriedAt(w, c, row, params, k, i - 1))).1
  }

  /** The operand is `==` to the condition of the WHEN, or, without an operand, the
      condition is true. */
  predicate Chosen(w: World, c: Expr, row: Option<Row>, params: seq<Value>, k: nat, i: nat)
    requires c.Case? && i < |c.whens|
  {
    var k0 := TriedAt(w, c, row, params, k, i);
    match c.operand
    case Some(x) =>
      var (v, k1) := Eval(w, x, row, params, k0); Same(v, Eval(w, c.whens[i].cond, row, params, k1).0)
    case None => Truthy(Eval(w, c.whens[i].cond, row, params, k0).0)
  }

  lemma ArmTried(w: World, c: Expr, row: Option<Row>, params: seq<Value>, k: nat, i: nat)
    requires c.Case? && i < |c.whens|
    ensures TryArm(w, c, i, row, params, TriedAt(w, c, row, params, k, i)) ==
              (Chosen(w, c, row, params, k, i), TriedAt(w, c, row, params, k, i + 1))
  {
    hide Eval, Same, Truthy;
  }

  lemma {:induction false} CaseFrom(w: World, c: Expr, row: Option<Row>, params: seq<Value>, k: nat, i: nat)
    returns (n: nat)
    requires c.Case? && i <= |c.whens|
    ensures i <= n <= |c.whens| && forall j :: i <= j < n ==> !Chosen(w, c, row, params, k, j)
    ensures n < |c.whens| ==> Chosen(w, c, row, params, k, n)
    ensures EvalCase(w, c, i, row, params, TriedAt(w, c, row, params, k, i)) ==
              if n < |c.whens| then Eval(w, c.whens[n].result, row, params, TriedAt(w, c, row, params, k, n + 1))
              else if c.otherwise.Some? then Eval(w, c.otherwise.value, row, params, TriedAt(w, c, row, params, k, n))
              else (Null, TriedAt(w, c, row, params, k, n))
    decreases |c.whens| - i
  {
    hide Eval, Chosen, TriedAt, TryArm;
    n := i;
    if i < |c.whens| {
      ArmTried(w, c, row, params, k, i);
      if !Chosen(w, c, row, params, k, i) { n := CaseFrom(w, c, row, params, k, i + 1); }
    }
  }

  /** A CASE has the result of its first WHEN that is chosen, or else its ELSE, or else
      NULL; no later condition and no other result is evaluated. */
  lemma CaseExactly(w: World, c: Expr, row: Option<Row>, params: seq<Value>, k: nat) returns (n: nat)
    requires c.Case?
    ensures n <= |c.whens| && forall j :: 0 <= j < n ==> !Chosen(w, c, row, params, k, j)
    ensures n < |c.whens| ==> Chosen(w, c, row, params, k, n)
    ensures Eval(w, c, row, params, k) ==
              if n < |c.whens| then Eval(w, c.whens[n].result, row, params, TriedAt(w, c, row, params, k, n + 1))
              else if c.otherwise.Some? then Eval(w, c.otherwise.value, row, params, TriedAt(w, c, row, params, k, n))
              else (Null, TriedAt(w, c, row, params, k, n))
  {
    hide Chosen, EvalCase;
    n := CaseFrom(w, c, row, params, k, 0);
  }

  // ---------------------------------------------------------------- WHERE

  /** The WHERE walker evaluates the right side of AND only if the left one holds, and
      of OR only if it does not, and hands everything else to the evaluator. */
  lemma WhereExactly(w: World, hits: Hits, row: Row, l: Expr, r: Expr, params: seq<Value>, k: nat)
    ensures var (a, k1) := EvalWhere(w, hits, row, l, params, k);
            && EvalWhere(w, hits, row, Binary(l, And, r), params, k) ==
                 (if a then EvalWhere(w, hits, row, r, params, k1) else (false, k1))
            && EvalWhere(w, hits, row, Binary(l, Or, r), params, k) ==
                 (if a then (true, k1) else EvalWhere(w, hits, row, r, params, k1))
            && EvalWhere(w, hits, row, Unary(Not, l), params, k) == (!a, k1)
            && EvalWhere(w, hits, row, Nested(l), params, k) == (a, k1)
    ensures !(l.Binary? && (l.op.And? || l.op.Or?)) && !(l.Unary? && l.uop.Not?) && !l.Nested? && !IsFtsMatch(l) ==>
              EvalWhere(w, hits, row, l, params, k) ==
                (Truthy(Eval(w, l, Some(row), params, k).0), Eval(w, l, Some(row), params, k).1)
  {
    hide Eval, FtsHit;
  }

  /** No `fts_match` where the WHERE walker would answer it itself. */
  predicate Scalars(e: Expr) {
    match e
    case Binary(l, op, r) => op.And? || op.Or? ==> Scalars(l) && Scalars(r)
    case Unary(op, x) => op.Not? ==> Scalars(x)
    case Nested(x) => Scalars(x)
    case _ => !IsFtsMatch(e)
  }

  /** Without placeholders and full-text search a WHERE selects exactly the rows of
      which its expression is true: stopping early makes no difference. */
  lemma {:induction false} WhereIsTruth(w: World, hits: Hits, row: Row, e: Expr, params: seq<Value>, k: nat)
    requires Count(e) == 0 && Scalars(e)
    ensures EvalWhere(w, hits, row, e, params, k) == (Truthy(Eval(w, e, Some(row), params, k).0), k)
    decreases e
  {
    Closed(w, e, Some(row), params, k, params, k);
    match e
    case Binary(l, op, r) =>
      if op.And? || op.Or? {
        WhereIsTruth(w, hits, row, l, params, k);
        WhereIsTruth(w, hits, row, r, params, k);
        ConnectivesExactly(w, l, r, Some(row), params, k);
        Closed(w, l, Some(row), params, k, params, k);
        WhereExactly(w, hits, row, l, r, params, k);
        hide Eval, EvalWhere;
      }
    case Unary(op, x) =>
      if op.Not? {
        WhereIsTruth(w, hits, row, x, params, k);
        UnaryExactly(w, x, Some(row), params, k);
        hide Eval;
      }
    case Nested(x) => WhereIsTruth(w, hits, row, x, params, k);
    case _ =>
  }

  /** `fts_match(t, 'q')`, with the table as a name or as a text: the row's id, as an
      unsigned number, is among those the search finds. Any other arguments find
      nothing. */
  lemma FtsMatchExactly(w: World, hits: Hits, row: Row, e: Expr, params: seq<Value>, k: nat)
    requires IsFtsMatch(e)
    ensures EvalWhere(w, hits, row, e, params, k).1 == k
    ensures EvalWhere(w, hits, row, e, params, k).0 <==>
              exists t, q, id ::
                && (e.args[0] == Column(t) || e.args[0] == Literal(Text(t))) && e.args[1] == Literal(Text(q))
                && row.Get("_rowid_") == Some(Integer(id)) && CastU64(id) in hits(t, q)
  {
    if FtsHit(hits, row, e) {
      var t, q, id := FtsTableName(e.args[0]).value, TextLiteral(e.args[1]).value, row.vals["_rowid_"].i;
      assert (e.args[0] == Column(t) || e.args[0] == Literal(Text(t))) && e.args[1] == Literal(Text(q));
      assert row.Get("_rowid_") == Some(Integer(id)) && CastU64(id) in hits(t, q);
    }
  }

  /** An i64 as a u64 is the same number modulo 2^64. */
  lemma CastExactly(i: int)
    requires -0x8000_0000_0000_0000 <= i < 0x8000_0000_0000_0000
    ensures CastU64(i) == i % 0x1_0000_0000_0000_0000
  {
  }
}
