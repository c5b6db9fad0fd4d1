/** What the engine calls but this model does not look into: float arithmetic,
    the scalar function library, case folding, tokenising, float printing, and
    the order in which a hash map is iterated. Every theorem holds for all of
    them. */
module Externals {
  import opened Values

  datatype ScalarOp = Plus | Minus | Multiply | Divide | Modulo | StringConcat | OtherOp

  datatype World = World(
    scalar: (ScalarOp, Value, Value) -> Value,
    call: (string, seq<Value>) -> Value,
    lower: string -> string,
    tokenize: string -> seq<string>,
    floatText: F64 -> string,
    // The order in which the `n`-th scan of the run visits a table's rows.
    scan: (int, map<RowId, Row>) -> seq<RowId>)
  {
    /** A scan visits every row exactly once. */
    ghost predicate ScansOnce() {
      forall n, rows {:trigger scan(n, rows)} ::
        && (forall r :: r in scan(n, rows) <==> r in rows)
        && (forall i, j :: 0 <= i < j < |scan(n, rows)| ==> scan(n, rows)[i] != scan(n, rows)[j])
    }

    /** Different doubles print differently, as shortest round-trip texts do. */
    ghost predicate PrintsDoublesApart() {
      forall f, g :: IsDouble(f) && IsDouble(g) && floatText(f) == floatText(g) ==> f == g
    }
  }

  // ---------------------------------------------------------------- there is such a world

  function Ones(n: nat): (s: string)
    ensures |s| == n && forall k :: 0 <= k < n ==> s[k] == '1'
  {
    seq(n, i => '1')
  }

  function Unary(i: int): string {
    if i < 0 then "-" + Ones(-i) + "." else "+" + Ones(i) + "."
  }

  /** A unary number can be told from whatever follows it. */
  lemma UnaryApart(i: int, a: string, j: int, b: string)
    requires Unary(i) + a == Unary(j) + b
    ensures i == j && a == b
  {
    var m, n := if i < 0 then -i else i, if j < 0 then -j else j;
    var s := Unary(i) + a;
    assert |Unary(i)| == m + 2 && |Unary(j)| == n + 2;
    assert s[0] == Unary(i)[0] == Unary(j)[0];
    assert s[m + 1] == '.' && s[n + 1] == '.';
    assert forall k :: 1 <= k <= m ==> s[k] == Unary(i)[k];
    assert forall k :: 1 <= k <= n ==> s[k] == Unary(j)[k];
    assert m == n;
    assert a == s[m + 2..] && b == s[n + 2..];
  }

  /** One way to print doubles. */
  ghost function DoubleText(f: F64): string {
    match f
    case NaN => "nan"
    case NegInf => "-inf"
    case PosInf => "inf"
    case NegZero => "0"
    case Num(r) =>
      if IsDouble(f) then
        var m, e :| Dyadic(r, m, e);
        "=" + (Unary(m) + Unary(e))
      else "?"
  }

  lemma DoubleTextApart(f: F64, g: F64)
    requires IsDouble(f) && IsDouble(g) && DoubleText(f) == DoubleText(g)
    ensures f == g
  {
    hide Unary;
    assert DoubleText(f)[0] == DoubleText(g)[0];
    if f.Num? {
      var m, e :| Dyadic(f.r, m, e) && DoubleText(f) == "=" + (Unary(m) + Unary(e));
      var n, d :| Dyadic(g.r, n, d) && DoubleText(g) == "=" + (Unary(n) + Unary(d));
      assert DoubleText(f)[1..] == Unary(m) + Unary(e) && DoubleText(g)[1..] == Unary(n) + Unary(d);
      UnaryApart(m, Unary(e), n, Unary(d));
      assert Unary(e) + "" == Unary(e) && Unary(d) + "" == Unary(d);
      UnaryApart(e, "", d, "");
    }
  }

  ghost function AnyOf<T>(xs: set<T>): (x: T)
    requires xs != {}
    ensures x in xs
  {
    var x :| x in xs;
    x
  }

  /** The ids in some order. */
  ghost function Listing(ids: set<RowId>): seq<RowId>
    decreases |ids|
  {
    if ids == {} then [] else [AnyOf(ids)] + Listing(ids - {AnyOf(ids)})
  }

  lemma {:induction false} ListingOnce(ids: set<RowId>)
    ensures forall r :: r in Listing(ids) <==> r in ids
    ensures forall i, j :: 0 <= i < j < |Listing(ids)| ==> Listing(ids)[i] != Listing(ids)[j]
    decreases |ids|
  {
    if ids != {} {
      var rest := ids - {AnyOf(ids)};
      ListingOnce(rest);
      assert Listing(ids) == [AnyOf(ids)] + Listing(rest);
      assert ids == {AnyOf(ids)} + rest;
    }
  }

  /** Some world visits each row once in every scan and prints all doubles apart. */
  lemma SomeWorld() returns (w: World)
    ensures w.ScansOnce() && w.PrintsDoublesApart()
  {
    w := World((op, a, b) => Null, (fn, args) => Null, s => s, s => [s], f => DoubleText(f),
               (n, rows: map<RowId, Row>) => Listing(rows.Keys));
    forall f, g | IsDouble(f) && IsDouble(g) && w.floatText(f) == w.floatText(g) ensures f == g {
      DoubleTextApart(f, g);
    }
    forall n, rows {:trigger w.scan(n, rows)}
      ensures forall r :: r in w.scan(n, rows) <==> r in rows
      ensures forall i, j :: 0 <= i < j < |w.scan(n, rows)| ==> w.scan(n, rows)[i] != w.scan(n, rows)[j]
    {
      ListingOnce(rows.Keys);
    }
  }
}
