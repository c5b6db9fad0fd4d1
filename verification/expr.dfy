/** Scalar expressions and WHERE conditions, evaluated with a placeholder
    counter that every `?` advances. */
module Expressions {
  import opened Wrappers
  import opened Values
  import opened Externals
  import Like

  datatype BinOp = And | Or | Eq | NotEq | Lt | LtEq | Gt | GtEq | Scalar(op: ScalarOp)

  datatype UnOp = Negate | Identity | Not

  datatype When = When(cond: Expr, result: Expr)

  datatype Expr =
    | Column(name: string)
    | Qualified(parts: seq<string>)
    | Literal(v: Value)
    | Placeholder
    | Nested(e: Expr)
    | Unary(uop: UnOp, e: Expr)
    | Binary(left: Expr, op: BinOp, right: Expr)
    | IsNull(e: Expr)
    | IsNotNull(e: Expr)
    | Between(e: Expr, negated: bool, low: Expr, high: Expr)
    | InList(e: Expr, list: seq<Expr>, negated: bool)
    | Like(e: Expr, pattern: Expr, negated: bool, ignoreCase: bool)
    | Case(operand: Option<Expr>, whens: seq<When>, otherwise: Option<Expr>)
    | Call(fn: string, args: seq<Expr>, hidden: nat)  // the name in lower case
    | Unsupported(hidden: nat)                        // subqueries, casts and the like

  // `hidden` is the number of placeholders in parts that the evaluator never looks
  // at: all of an unsupported expression, the FILTER and OVER clauses of a call.

  // ---------------------------------------------------------------- counting

  /** The placeholders that the engine counts. */
  function Count(e: Expr): nat
    decreases e, 1
  {
    match e
    case Placeholder => 1
    case Nested(x) => Count(x)
    case Unary(_, x) => Count(x)
    case Binary(l, _, r) => Count(l) + Count(r)
    case IsNull(x) => Count(x)
    case IsNotNull(x) => Count(x)
    case Between(x, _, lo, hi) => Count(x) + Count(lo) + Count(hi)
    case InList(x, list, _) => Count(x) + CountAll(list)
    case Like(x, p, _, _) => Count(x) + Count(p)
    case Case(operand, _, _) => CountOpt(operand) + CountArms(e, 0)
    case Call(_, args, _) => CountAll(args)
    case _ => 0
  }

  function CountOpt(e: Option<Expr>): nat
    decreases e, 0
  {
    if e.Some? then Count(e.value) else 0
  }

  function CountAll(es: seq<Expr>): nat
    decreases es, 0
  {
    if es == [] then 0 else Count(es[0]) + CountAll(es[1..])
  }

  /** The placeholders of a CASE from its `i`-th WHEN to its ELSE. */
  function CountArms(c: Expr, i: nat): nat
    requires c.Case? && i <= |c.whens|
    decreases c, 0, |c.whens| - i
  {
    if i == |c.whens| then CountOpt(c.otherwise)
    else Count(c.whens[i].cond) + Count(c.whens[i].result) + CountArms(c, i + 1)
  }

  /** The placeholders in the text, hidden ones included. */
  function Marks(e: Expr): (n: nat)
    ensures n >= Count(e)
    decreases e, 1
  {
    match e
    case Placeholder => 1
    case Nested(x) => Marks(x)
    case Unary(_, x) => Marks(x)
    case Binary(l, _, r) => Marks(l) + Marks(r)
    case IsNull(x) => Marks(x)
    case IsNotNull(x) => Marks(x)
    case Between(x, _, lo, hi) => Marks(x) + Marks(lo) + Marks(hi)
    case InList(x, list, _) => Marks(x) + MarksAll(list)
    case Like(x, p, _, _) => Marks(x) + Marks(p)
    case Case(operand, _, _) => MarksOpt(operand) + MarksArms(e, 0)
    case Call(_, args, hidden) => MarksAll(args) + hidden
    case Unsupported(hidden) => hidden
    case _ => 0
  }

  function MarksOpt(e: Option<Expr>): (n: nat)
    ensures n >= CountOpt(e)
    decreases e, 0
  {
    if e.Some? then Marks(e.value) else 0
  }

  function MarksAll(es: seq<Expr>): (n: nat)
    ensures n >= CountAll(es)
    decreases es, 0
  {
    if es == [] then 0 else Marks(es[0]) + MarksAll(es[1..])
  }

  function MarksArms(c: Expr, i: nat): (n: nat)
    requires c.Case? && i <= |c.whens|
    ensures n >= CountArms(c, i)
    decreases c, 0, |c.whens| - i
  {
    if i == |c.whens| then MarksOpt(c.otherwise)
    else Marks(c.whens[i].cond) + Marks(c.whens[i].result) + MarksArms(c, i + 1)
  }

  // ---------------------------------------------------------------- values

  predicate Truthy(v: Value) {
    match v
    case Null => false
    case Integer(i) => i != 0
    case Real(f) => !(f.NegZero? || f == Num(0.0))
    case Text(s) => s != ""
    case Blob(b) => b != []
  }

  function BoolVal(b: bool): Value {
    Integer(if b then 1 else 0)
  }

  function NegateFloat(f: F64): F64 {
    match f
    case NaN => NaN
    case NegInf => PosInf
    case PosInf => NegInf
    case NegZero => Num(0.0)
    case Num(r) => if r == 0.0 then NegZero else Num(-r)
  }

  function ApplyUnary(op: UnOp, v: Value): Value {
    match op
    case Negate => if v.Integer? then Integer(-v.i) else if v.Real? then Real(NegateFloat(v.f)) else v
    case Identity => v
    case Not => BoolVal(!Truthy(v))
  }

  /** Every operator but AND and OR, which do not evaluate both sides alike. */
  function ApplyBinary(w: World, op: BinOp, l: Value, r: Value): Value {
    match op
    case Eq => BoolVal(Same(l, r))
    case NotEq => BoolVal(!Same(l, r))
    case Gt => BoolVal(Compare(l, r) == Greater)
    case Lt => BoolVal(Compare(l, r) == Less)
    case GtEq => BoolVal(Compare(l, r) != Less)
    case LtEq => BoolVal(Compare(l, r) != Greater)
    case Scalar(s) => w.scalar(s, l, r)
    case _ => Null
  }

  predicate Within(v: Value, lo: Value, hi: Value) {
    Compare(v, lo) != Less && Compare(v, hi) != Greater
  }

  predicate LikeValues(w: World, v: Value, p: Value, ignoreCase: bool) {
    && v.Text? && p.Text?
    && if ignoreCase then Like.Matches(w.lower(v.s), w.lower(p.s)) else Like.Matches(v.s, p.s)
  }

  function ColumnValue(row: Option<Row>, name: string): Value {
    if row.Some? then row.value.GetOrNull(name) else Null
  }

  function JoinDots(parts: seq<string>): string {
    if parts == [] then ""
    else if |parts| == 1 then parts[0]
    else parts[0] + "." + JoinDots(parts[1..])
  }

  function QualifiedValue(row: Option<Row>, parts: seq<string>): Value {
    if row.Some? && row.value.Has(JoinDots(parts)) then row.value.vals[JoinDots(parts)]
    else if parts == [] then Null
    else ColumnValue(row, parts[|parts| - 1])
  }

  function Param(params: seq<Value>, k: nat): Value {
    if k < |params| then params[k] else Null
  }

  // ---------------------------------------------------------------- evaluation

  /** The value of `e` with the counter at `k`, and where the counter ends up. */
  function Eval(w: World, e: Expr, row: Option<Row>, params: seq<Value>, k: nat): (Value, nat)
    decreases e, 1
  {
    match e
    case Column(name) => (ColumnValue(row, name), k)
    case Qualified(parts) => (QualifiedValue(row, parts), k)
    case Literal(v) => (v, k)
    case Placeholder => (Param(params, k), k + 1)
    case Nested(x) => Eval(w, x, row, params, k)
    case Unary(op, x) =>
      var (v, k1) := Eval(w, x, row, params, k);
      (ApplyUnary(op, v), k1)
    case Binary(l, op, r) =>
      var (lv, k1) := Eval(w, l, row, params, k);
      if op.And? && !Truthy(lv) then (BoolVal(false), k1)
      else
        var (rv, k2) := Eval(w, r, row, params, k1);
        if op.And? then (BoolVal(Truthy(rv)), k2)
        else if op.Or? then (BoolVal(Truthy(lv) || Truthy(rv)), k2)
        else (ApplyBinary(w, op, lv, rv), k2)
    case IsNull(x) =>
      var (v, k1) := Eval(w, x, row, params, k);
      (BoolVal(v.Null?), k1)
    case IsNotNull(x) =>
      var (v, k1) := Eval(w, x, row, params, k);
      (BoolVal(!v.Null?), k1)
    case Between(x, negated, low, high) =>
      var (v, k1) := Eval(w, x, row, params, k);
      var (lo, k2) := Eval(w, low, row, params, k1);
      var (hi, k3) := Eval(w, high, row, params, k2);
      (BoolVal(Within(v, lo, hi) != negated), k3)
    case InList(x, list, negated) =>
      var (v, k1) := Eval(w, x, row, params, k);
      var (found, k2) := AnySame(w, list, v, row, params, k1);
      (BoolVal(found != negated), k2)
    case Like(x, pattern, negated, ignoreCase) =>
      var (v, k1) := Eval(w, x, row, params, k);
      var (p, k2) := Eval(w, pattern, row, params, k1);
      (BoolVal(LikeValues(w, v, p, ignoreCase) != negated), k2)
    case Case(_, _, _) => EvalCase(w, e, 0, row, params, k)
    case Call(fn, args, _) =>
      var (vs, k1) := EvalAll(w, args, row, params, k);
      (w.call(fn, vs), k1)
    case Unsupported(_) => (Null, k)
  }

  function EvalAll(w: World, es: seq<Expr>, row: Option<Row>, params: seq<Value>, k: nat): (seq<Value>, nat)
    decreases es, 0
  {
    if es == [] then ([], k)
    else
      var (v, k1) := Eval(w, es[0], row, params, k);
      var (vs, k2) := EvalAll(w, es[1..], row, params, k1);
      ([v] + vs, k2)
  }

  /** Stops at the first item equal to `v`. */
  function AnySame(w: World, es: seq<Expr>, v: Value, row: Option<Row>, params: seq<Value>, k: nat): (bool, nat)
    decreases es, 0
  {
    if es == [] then (false, k)
    else
      var (x, k1) := Eval(w, es[0], row, params, k);
      if Same(x, v) then (true, k1) else AnySame(w, es[1..], v, row, params, k1)
  }

  /** Whether the `i`-th WHEN of a CASE applies. */
  function TryArm(w: World, c: Expr, i: nat, row: Option<Row>, params: seq<Value>, k: nat): (bool, nat)
    requires c.Case? && i < |c.whens|
    decreases c, 0, 0
  {
    if c.operand.Some? then
      var (ov, k1) := Eval(w, c.operand.value, row, params, k);
      var (cv, k2) := Eval(w, c.whens[i].cond, row, params, k1);
      (Same(ov, cv), k2)
    else
      var (cv, k1) := Eval(w, c.whens[i].cond, row, params, k);
      (Truthy(cv), k1)
  }

  /** Tries the WHENs from the `i`-th on; the operand is evaluated again for each. */
  function EvalCase(w: World, c: Expr, i: nat, row: Option<Row>, params: seq<Value>, k: nat): (Value, nat)
    requires c.Case? && i <= |c.whens|
    decreases c, 0, |c.whens| - i + 1
  {
    if i == |c.whens| then
      if c.otherwise.Some? then Eval(w, c.otherwise.value, row, params, k) else (Null, k)
    else
      var (hit, k1) := TryArm(w, c, i, row, params, k);
      if hit then Eval(w, c.whens[i].result, row, params, k1) else EvalCase(w, c, i + 1, row, params, k1)
  }

  /** The row ids a full-text search of a table finds. */
  type Hits = (string, string) -> set<RowId>

  /** `fts_match` with two arguments, which the WHERE walker answers itself. */
  predicate IsFtsMatch(e: Expr) {
    e.Call? && e.fn == "fts_match" && |e.args| == 2
  }

  function TextLiteral(e: Expr): Option<string> {
    if e.Literal? && e.v.Text? then Some(e.v.s) else None
  }

  /** The table argument is a bare name or a text literal. */
  function FtsTableName(e: Expr): Option<string> {
    if e.Column? then Some(e.name) else TextLiteral(e)
  }

  /** The cast `i as u64`. */
  function CastU64(i: int): int {
    if i < 0 then i + 0x1_0000_0000_0000_0000 else i
  }

  /** Neither argument is evaluated: a query that is not a text literal finds
      nothing, and a placeholder in it is not read. */
  predicate FtsHit(hits: Hits, row: Row, e: Expr)
    requires IsFtsMatch(e)
  {
    var table, query := FtsTableName(e.args[0]), TextLiteral(e.args[1]);
    && table.Some? && query.Some?
    && row.Has("_rowid_")
    && var id := row.vals["_rowid_"]; id.Integer? && CastU64(id.i) in hits(table.value, query.value)
  }

  /** WHERE conditions: AND, OR and NOT are walked here so that both stop early. */
  function EvalWhere(w: World, hits: Hits, row: Row, e: Expr, params: seq<Value>, k: nat): (bool, nat) {
    if e.Binary? && e.op.And? then
      var (lv, k1) := EvalWhere(w, hits, row, e.left, params, k);
      if lv then EvalWhere(w, hits, row, e.right, params, k1) else (false, k1)
    else if e.Binary? && e.op.Or? then
      var (lv, k1) := EvalWhere(w, hits, row, e.left, params, k);
      if lv then (true, k1) else EvalWhere(w, hits, row, e.right, params, k1)
    else if e.Unary? && e.uop.Not? then
      var (v, k1) := EvalWhere(w, hits, row, e.e, params, k);
      (!v, k1)
    else if e.Nested? then EvalWhere(w, hits, row, e.e, params, k)
    else if IsFtsMatch(e) then (FtsHit(hits, row, e), k)
    else
      var (v, k1) := Eval(w, e, Some(row), params, k);
      (Truthy(v), k1)
  }
}
