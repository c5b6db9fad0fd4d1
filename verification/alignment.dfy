/** Where the static analysis of placeholders is exact.

    For conditions built with AND, OR, NOT and parentheses from comparisons of
    columns with placeholders or values, each column once, an expression that is
    refused does have a row and parameters on which the engine and the text
    disagree. */
module Alignment {
  import opened Wrappers
  import opened Values
  import opened Externals
  import opened Expressions
  import opened Placeholders
  import opened PlaceholderMeaning

  /** `column = ?`, `column = v`, NOT, parentheses, and AND (`conj`) or OR. */
  datatype Cond =
    | Ask(column: string)
    | Known(column: string, v: Value)
    | Neg(c: Cond)
    | Paren(c: Cond)
    | Chain(l: Cond, conj: bool, r: Cond)

  function ToExpr(t: Cond): Expr {
    match t
    case Ask(c) => ColumnIs(c)
    case Known(c, v) => Binary(Column(c), Eq, Literal(v))
    case Neg(x) => Unary(Not, ToExpr(x))
    case Paren(x) => Nested(ToExpr(x))
    case Chain(l, conj, r) => Binary(ToExpr(l), if conj then And else Or, ToExpr(r))
  }

  function Columns(t: Cond): set<string> {
    match t
    case Ask(c) => {c}
    case Known(c, _) => {c}
    case Neg(x) => Columns(x)
    case Paren(x) => Columns(x)
    case Chain(l, _, r) => Columns(l) + Columns(r)
  }

  /** No column twice, and nothing is compared with NaN. */
  predicate Apart(t: Cond) {
    match t
    case Ask(_) => true
    case Known(_, v) => !IsNaN(v)
    case Neg(x) => Apart(x)
    case Paren(x) => Apart(x)
    case Chain(l, _, r) => Apart(l) && Apart(r) && Columns(l) !! Columns(r)
  }

  // ---------------------------------------------------------------- the condition on values alone

  type Cells = map<string, Value>

  function Cell(g: Cells, c: string): Value {
    if c in g then g[c] else Null
  }

  function Holes(t: Cond): nat {
    match t
    case Ask(_) => 1
    case Known(_, _) => 0
    case Neg(x) => Holes(x)
    case Paren(x) => Holes(x)
    case Chain(l, _, r) => Holes(l) + Holes(r)
  }

  /** As the engine evaluates it, with a counter. */
  function Run(t: Cond, g: Cells, p: seq<Value>, k: nat): (bool, nat) {
    match t
    case Ask(c) => (Same(Cell(g, c), Param(p, k)), k + 1)
    case Known(c, v) => (Same(Cell(g, c), v), k)
    case Neg(x) => (!Run(x, g, p, k).0, Run(x, g, p, k).1)
    case Paren(x) => Run(x, g, p, k)
    case Chain(l, conj, r) =>
      var (lv, k1) := Run(l, g, p, k);
      if lv == conj then Run(r, g, p, k1) else (!conj, k1)
  }

  /** As the text reads, with its placeholders from the `at`-th parameter on. */
  predicate Reads(t: Cond, g: Cells, p: seq<Value>, at: nat) {
    match t
    case Ask(c) => Same(Cell(g, c), Param(p, at))
    case Known(c, v) => Same(Cell(g, c), v)
    case Neg(x) => !Reads(x, g, p, at)
    case Paren(x) => Reads(x, g, p, at)
    case Chain(l, conj, r) => if Reads(l, g, p, at) == conj then Reads(r, g, p, at + Holes(l)) else !conj
  }

  predicate Fully(t: Cond, when: bool) {
    Holes(t) == 0 ||
    match t
    case Neg(x) => Fully(x, !when)
    case Paren(x) => Fully(x, when)
    case Chain(l, conj, r) =>
      if when == conj then Fully(l, conj) && Fully(r, conj)
      else Fully(l, true) && Fully(l, false) && Holes(r) == 0
    case _ => true
  }

  predicate InPlace(t: Cond) {
    match t
    case Neg(x) => InPlace(x)
    case Paren(x) => InPlace(x)
    case Chain(l, conj, r) => InPlace(l) && InPlace(r) && (Holes(r) == 0 || Fully(l, conj))
    case _ => true
  }

  // ---------------------------------------------------------------- the two views agree

  lemma {:induction false} SameHoles(t: Cond)
    ensures Marks(ToExpr(t)) == Holes(t)
  {
    match t
    case Neg(x) => SameHoles(x);
    case Paren(x) => SameHoles(x);
    case Chain(l, _, r) => SameHoles(l); SameHoles(r);
    case Ask(c) => assert Marks(Column(c)) == 0 && Marks(Placeholder) == 1;
    case Known(c, v) => assert Marks(Column(c)) == 0 && Marks(Literal(v)) == 0;
  }

  lemma AskAnalysis(c: string)
    ensures forall when :: Full(ColumnIs(c), true, when)
    ensures Aligned(ColumnIs(c), true)
  {
    assert Marks(Column(c)) == 0 && Marks(Placeholder) == 1;
    assert forall top, when :: Full(Column(c), top, when) && Full(Placeholder, top, when);
    assert Steady(Column(c)) && Steady(Placeholder);
    assert Aligned(Column(c), false) && Aligned(Placeholder, false);
  }

  lemma {:induction false} SameAnalysis(t: Cond)
    ensures forall when :: Full(ToExpr(t), true, when) == Fully(t, when)
    ensures Aligned(ToExpr(t), true) == InPlace(t)
  {
    SameHoles(t);
    match t
    case Neg(x) => SameAnalysis(x);
    case Paren(x) => SameAnalysis(x);
    case Chain(l, conj, r) =>
      SameHoles(l);
      SameHoles(r);
      SameAnalysis(l);
      SameAnalysis(r);
    case Ask(c) => AskAnalysis(c);
    case Known(c, v) =>
  }

  lemma {:induction false} SameRun(w: World, hits: Hits, row: Row, t: Cond, p: seq<Value>, k: nat)
    ensures EvalWhere(w, hits, row, ToExpr(t), p, k) == Run(t, row.vals, p, k)
  {
    match t
    case Ask(c) => ColumnIsReads(w, hits, row, c, p, k, 0);
    case Known(c, v) =>
      assert Eval(w, Column(c), Some(row), p, k) == (row.GetOrNull(c), k);
      assert Eval(w, Literal(v), Some(row), p, k) == (v, k);
      assert Eval(w, ToExpr(t), Some(row), p, k) == (BoolVal(Same(row.GetOrNull(c), v)), k);
    case Neg(x) => SameRun(w, hits, row, x, p, k);
    case Paren(x) => SameRun(w, hits, row, x, p, k);
    case Chain(l, conj, r) =>
      SameRun(w, hits, row, l, p, k);
      SameRun(w, hits, row, r, p, Run(l, row.vals, p, k).1);
  }

  /** AND and OR stop at the first side that decides. */
  lemma ChainStops(w: World, hits: Hits, row: Row, l: Expr, conj: bool, r: Expr, j: nat)
    ensures var (lv, j1) := EvalWhere(w, hits, row, l, [], j);
            EvalWhere(w, hits, row, Binary(l, if conj then And else Or, r), [], j)
              == if lv == conj then EvalWhere(w, hits, row, r, [], j1) else (!conj, j1)
  {
  }

  lemma SubstCond(t: Cond, p: seq<Value>, at: nat)
    ensures match t
            case Ask(c) => true
            case Known(c, v) => Subst(ToExpr(t), p, at) == ToExpr(t)
            case Neg(x) => Subst(ToExpr(t), p, at) == Unary(Not, Subst(ToExpr(x), p, at))
            case Paren(x) => Subst(ToExpr(t), p, at) == Nested(Subst(ToExpr(x), p, at))
            case Chain(l, conj, r) =>
              Subst(ToExpr(t), p, at)
              == Binary(Subst(ToExpr(l), p, at), if conj then And else Or, Subst(ToExpr(r), p, at + Holes(l)))
  {
    if t.Chain? { SameHoles(t.l); }
  }

  /** NOT and parentheses pass the question on. */
  lemma PassedOn(w: World, hits: Hits, row: Row, x: Expr, j: nat)
    ensures EvalWhere(w, hits, row, Unary(Not, x), [], j).0 == !EvalWhere(w, hits, row, x, [], j).0
    ensures EvalWhere(w, hits, row, Nested(x), [], j).0 == EvalWhere(w, hits, row, x, [], j).0
  {
  }

  lemma {:induction false} SameReading(w: World, hits: Hits, row: Row, t: Cond, p: seq<Value>, at: nat, j: nat)
    ensures EvalWhere(w, hits, row, Subst(ToExpr(t), p, at), [], j).0 == Reads(t, row.vals, p, at)
  {
    hide EvalWhere, Subst, Eval;
    SubstCond(t, p, at);
    match t
    case Ask(c) => ColumnIsReads(w, hits, row, c, p, at, j);
    case Known(c, v) => SameRun(w, hits, row, t, [], j);
    case Neg(x) =>
      PassedOn(w, hits, row, Subst(ToExpr(x), p, at), j);
      SameReading(w, hits, row, x, p, at, j);
    case Paren(x) =>
      PassedOn(w, hits, row, Subst(ToExpr(x), p, at), j);
      SameReading(w, hits, row, x, p, at, j);
    case Chain(l, conj, r) =>
      var l', r' := Subst(ToExpr(l), p, at), Subst(ToExpr(r), p, at + Holes(l));
      ChainStops(w, hits, row, l', conj, r', j);
      SameReading(w, hits, row, l, p, at, j);
      SameReading(w, hits, row, r, p, at + Holes(l), EvalWhere(w, hits, row, l', [], j).1);
  }

  // ---------------------------------------------------------------- evaluation facts

  lemma {:induction false} RunBound(t: Cond, g: Cells, p: seq<Value>, k: nat)
    ensures k <= Run(t, g, p, k).1 <= k + Holes(t)
    ensures Fully(t, Run(t, g, p, k).0) ==> Run(t, g, p, k).1 == k + Holes(t)
  {
    match t
    case Neg(x) => RunBound(x, g, p, k);
    case Paren(x) => RunBound(x, g, p, k);
    case Chain(l, conj, r) =>
      RunBound(l, g, p, k);
      RunBound(r, g, p, Run(l, g, p, k).1);
    case _ =>
  }

  lemma {:induction false} InPlaceAgrees(t: Cond, g: Cells, p: seq<Value>, k: nat, at: nat)
    requires InPlace(t) && (Holes(t) == 0 || k == at)
    ensures Run(t, g, p, k).0 == Reads(t, g, p, at)
  {
    match t
    case Neg(x) => InPlaceAgrees(x, g, p, k, at);
    case Paren(x) => InPlaceAgrees(x, g, p, k, at);
    case Chain(l, conj, r) =>
      InPlaceAgrees(l, g, p, k, at);
      RunBound(l, g, p, k);
      if Run(l, g, p, k).0 == conj {
        InPlaceAgrees(r, g, p, Run(l, g, p, k).1, at + Holes(l));
      }
    case _ =>
  }

  lemma {:induction false} NoHolesInPlace(t: Cond)
    requires Holes(t) == 0
    ensures InPlace(t)
  {
    match t
    case Neg(x) => NoHolesInPlace(x);
    case Paren(x) => NoHolesInPlace(x);
    case Chain(l, _, r) => NoHolesInPlace(l); NoHolesInPlace(r);
    case _ =>
  }

  ghost predicate Over(t: Cond, g: Cells, g': Cells) {
    forall c :: c in Columns(t) ==> Cell(g, c) == Cell(g', c)
  }

  lemma {:induction false} OnlyOwnColumns(t: Cond, g: Cells, g': Cells, p: seq<Value>, k: nat)
    requires Over(t, g, g')
    ensures Run(t, g, p, k) == Run(t, g', p, k) && Reads(t, g, p, k) == Reads(t, g', p, k)
  {
    match t
    case Neg(x) => OnlyOwnColumns(x, g, g', p, k);
    case Paren(x) => OnlyOwnColumns(x, g, g', p, k);
    case Chain(l, _, r) =>
      assert Over(l, g, g') && Over(r, g, g');
      OnlyOwnColumns(l, g, g', p, k);
      OnlyOwnColumns(r, g, g', p, Run(l, g, p, k).1);
      OnlyOwnColumns(r, g, g', p, k + Holes(l));
    case _ =>
  }

  /** Cells chosen for the two sides of a chain do not disturb each other. */
  lemma Merged(t: Cond, gl: Cells, gr: Cells, p: seq<Value>, k: nat, k': nat)
    requires t.Chain? && Apart(t) && gl.Keys == Columns(t.l) && gr.Keys == Columns(t.r)
    ensures (gl + gr).Keys == Columns(t)
    ensures Run(t.l, gl + gr, p, k) == Run(t.l, gl, p, k) && Reads(t.l, gl + gr, p, k) == Reads(t.l, gl, p, k)
    ensures Run(t.r, gl + gr, p, k') == Run(t.r, gr, p, k') && Reads(t.r, gl + gr, p, k') == Reads(t.r, gr, p, k')
  {
    OnlyOwnColumns(t.l, gl + gr, gl, p, k);
    OnlyOwnColumns(t.r, gl + gr, gr, p, k');
  }

  // ---------------------------------------------------------------- choosing a row

  function Unlike(v: Value): Value {
    if v.Null? then Integer(0) else Null
  }

  ghost predicate NoNaNs(p: seq<Value>) {
    forall i :: 0 <= i < |p| ==> !IsNaN(p[i])
  }

  /** Some row makes the engine find the condition true, or false, wherever the
      counter starts. */
  lemma {:induction false} Force(t: Cond, p: seq<Value>, k: nat, b: bool) returns (g: Cells)
    requires Apart(t) && NoNaNs(p)
    ensures g.Keys == Columns(t) && Run(t, g, p, k).0 == b
  {
    match t
    case Ask(c) => g := map[c := if b then Param(p, k) else Unlike(Param(p, k))];
    case Known(c, v) => g := map[c := if b then v else Unlike(v)];
    case Neg(x) => g := Force(x, p, k, !b);
    case Paren(x) => g := Force(x, p, k, b);
    case Chain(l, conj, r) =>
      var gl := Force(l, p, k, if b == conj then conj else !conj);
      var k1 := Run(l, gl, p, k).1;
      var gr := Force(r, p, k1, b);
      g := gl + gr;
      Merged(t, gl, gr, p, k, k1);
  }

  /** And some row makes its text true, or false. */
  lemma {:induction false} ForceText(t: Cond, p: seq<Value>, at: nat, b: bool) returns (g: Cells)
    requires Apart(t) && NoNaNs(p)
    ensures g.Keys == Columns(t) && Reads(t, g, p, at) == b
  {
    match t
    case Ask(c) => g := map[c := if b then Param(p, at) else Unlike(Param(p, at))];
    case Known(c, v) => g := map[c := if b then v else Unlike(v)];
    case Neg(x) => g := ForceText(x, p, at, !b);
    case Paren(x) => g := ForceText(x, p, at, b);
    case Chain(l, conj, r) =>
      var gl := ForceText(l, p, at, if b == conj then conj else !conj);
      var gr := ForceText(r, p, at + Holes(l), b);
      g := gl + gr;
      Merged(t, gl, gr, p, at, at + Holes(l));
  }

  /** Where the analysis says that placeholders may be skipped, some row skips one. */
  lemma {:induction false} Skip(t: Cond, p: seq<Value>, k: nat, when: bool) returns (g: Cells)
    requires Apart(t) && NoNaNs(p) && !Fully(t, when)
    ensures g.Keys == Columns(t) && Run(t, g, p, k).0 == when && Run(t, g, p, k).1 < k + Holes(t)
  {
    match t
    case Neg(x) => g := Skip(x, p, k, !when);
    case Paren(x) => g := Skip(x, p, k, when);
    case Chain(l, conj, r) =>
      var gl, gr;
      if when != conj && Holes(r) > 0 {
        gl := Force(l, p, k, !conj);
        gr := Force(r, p, k, when);
      } else if !Fully(l, conj) {
        gl := Skip(l, p, k, conj);
        gr := Force(r, p, Run(l, gl, p, k).1, when);
      } else if when == conj {
        gl := Force(l, p, k, conj);
        gr := Skip(r, p, Run(l, gl, p, k).1, conj);
      } else {
        gl := Skip(l, p, k, !conj);
        gr := Force(r, p, k, when);
      }
      var k1 := Run(l, gl, p, k).1;
      g := gl + gr;
      Merged(t, gl, gr, p, k, k1);
      RunBound(l, gl, p, k);
      RunBound(r, gr, p, k1);
  }

  /** Parameters that are all different. */
  function Numbered(n: nat): (p: seq<Value>)
    ensures |p| == n && NoNaNs(p)
  {
    seq(n, i requires 0 <= i < n => Integer(i))
  }

  /** The left side of a chain differs: the right side can be chosen so that the
      whole does. */
  lemma {:induction false} DifferLeft(t: Cond, n: nat, k: nat, at: nat, gl: Cells) returns (g: Cells)
    requires t.Chain? && Apart(t) && gl.Keys == Columns(t.l)
    requires Run(t.l, gl, Numbered(n), k).0 != Reads(t.l, gl, Numbered(n), at)
    ensures g.Keys == Columns(t) && Run(t, g, Numbered(n), k).0 != Reads(t, g, Numbered(n), at)
  {
    var p := Numbered(n);
    var (lv, k1) := Run(t.l, gl, p, k);
    var gr;
    if lv == t.conj {
      gr := Force(t.r, p, k1, t.conj);
    } else {
      gr := ForceText(t.r, p, at + Holes(t.l), t.conj);
    }
    g := gl + gr;
    Merged(t, gl, gr, p, k, k1);
    Merged(t, gl, gr, p, at, at + Holes(t.l));
  }

  /** The right side differs where the left lets both through to it. */
  lemma {:induction false} DifferRight(t: Cond, n: nat, k: nat, at: nat, gl: Cells, gr: Cells) returns (g: Cells)
    requires t.Chain? && Apart(t) && gl.Keys == Columns(t.l) && gr.Keys == Columns(t.r)
    requires Run(t.l, gl, Numbered(n), k).0 == t.conj && Reads(t.l, gl, Numbered(n), at) == t.conj
    requires Run(t.r, gr, Numbered(n), Run(t.l, gl, Numbered(n), k).1).0 != Reads(t.r, gr, Numbered(n), at + Holes(t.l))
    ensures g.Keys == Columns(t) && Run(t, g, Numbered(n), k).0 != Reads(t, g, Numbered(n), at)
  {
    var p := Numbered(n);
    g := gl + gr;
    Merged(t, gl, gr, p, k, Run(t.l, gl, p, k).1);
    Merged(t, gl, gr, p, at, at + Holes(t.l));
  }

  /** A condition that starts too early in the parameters differs from its text. */
  lemma {:induction false} Lag(t: Cond, n: nat, k: nat, at: nat) returns (g: Cells)
    requires Apart(t) && Holes(t) > 0 && k < at && at + Holes(t) <= n
    ensures g.Keys == Columns(t) && Run(t, g, Numbered(n), k).0 != Reads(t, g, Numbered(n), at)
  {
    var p := Numbered(n);
    match t
    case Ask(c) => g := map[c := Integer(k)];
    case Neg(x) => g := Lag(x, n, k, at);
    case Paren(x) => g := Lag(x, n, k, at);
    case Chain(l, conj, r) =>
      if Holes(l) > 0 {
        var gl := Lag(l, n, k, at);
        g := DifferLeft(t, n, k, at, gl);
      } else {
        var gl := Force(l, p, k, conj);
        NoHolesInPlace(l);
        InPlaceAgrees(l, gl, p, k, at);
        RunBound(l, gl, p, k);
        var gr := Lag(r, n, k, at);
        g := DifferRight(t, n, k, at, gl, gr);
      }
  }

  /** A refused condition differs from its text on some row. */
  lemma {:induction false} Differ(t: Cond, n: nat, k: nat) returns (g: Cells)
    requires Apart(t) && !InPlace(t) && k + Holes(t) <= n
    ensures g.Keys == Columns(t) && Run(t, g, Numbered(n), k).0 != Reads(t, g, Numbered(n), k)
  {
    var p := Numbered(n);
    match t
    case Neg(x) => g := Differ(x, n, k);
    case Paren(x) => g := Differ(x, n, k);
    case Chain(l, conj, r) =>
      if !InPlace(l) {
        var gl := Differ(l, n, k);
        g := DifferLeft(t, n, k, k, gl);
      } else {
        if Holes(r) == 0 { NoHolesInPlace(r); }
        var gl, gr;
        if Fully(l, conj) {
          gl := Force(l, p, k, conj);
          gr := Differ(r, n, k + Holes(l));
        } else {
          gl := Skip(l, p, k, conj);
          gr := Lag(r, n, Run(l, gl, p, k).1, k + Holes(l));
        }
        InPlaceAgrees(l, gl, p, k, k);
        RunBound(l, gl, p, k);
        g := DifferRight(t, n, k, k, gl, gr);
      }
  }

  /** The rows and parameters on which such a condition selects as its text does
      are all of them exactly when the condition is aligned. */
  lemma AlignedExactly(w: World, hits: Hits, t: Cond)
    requires Apart(t)
    ensures Aligned(ToExpr(t), true) <==>
              forall row, p ::
                EvalWhere(w, hits, row, ToExpr(t), p, 0).0 == EvalWhere(w, hits, row, Subst(ToExpr(t), p, 0), [], 0).0
  {
    hide EvalWhere, Subst, Aligned, ToExpr;
    SameAnalysis(t);
    if InPlace(t) {
      forall row, p
        ensures EvalWhere(w, hits, row, ToExpr(t), p, 0).0 == EvalWhere(w, hits, row, Subst(ToExpr(t), p, 0), [], 0).0
      {
        WhereMeaning(w, hits, row, ToExpr(t), p, 0, 0, 0);
      }
    } else {
      var n := Holes(t);
      var g := Differ(t, n, 0);
      var row := Row([], g);
      SameRun(w, hits, row, t, Numbered(n), 0);
      SameReading(w, hits, row, t, Numbered(n), 0, 0);
    }
  }
}
