/** The strings under which a hash join files values. */
module KeyStrings {
  import opened Values
  import opened Externals

  function Digit(d: nat): char
    requires d < 16
  {
    if d < 10 then ('0' as int + d) as char else ('a' as int + d - 10) as char
  }

  function Decimal(n: nat): string {
    if n < 10 then [Digit(n)] else Decimal(n / 10) + [Digit(n % 10)]
  }

  function IntText(i: int): string {
    if i < 0 then "-" + Decimal(-i) else Decimal(i)
  }

  function HexText(b: seq<Byte>): string {
    if b == [] then "" else [Digit(b[0] as int / 16), Digit(b[0] as int % 16)] + HexText(b[1..])
  }

  /** The value's type, a colon, and its text. */
  function KeyString(w: World, v: Value): string {
    match v
    case Null => "n:"
    case Integer(i) => "i:" + IntText(i)
    case Real(f) => "f:" + w.floatText(f)
    case Text(s) => "t:" + s
    case Blob(b) => "b:" + HexText(b)
  }

  // ---------------------------------------------------------------- injectivity

  function ReadDecimal(s: string): int {
    if s == [] then 0 else 10 * ReadDecimal(s[..|s| - 1]) + (s[|s| - 1] as int - '0' as int)
  }

  lemma {:induction false} DecimalReads(n: nat)
    ensures ReadDecimal(Decimal(n)) == n
    ensures Decimal(n) != [] && Decimal(n)[0] != '-'
  {
    if n >= 10 {
      DecimalReads(n / 10);
      assert Decimal(n)[..|Decimal(n)| - 1] == Decimal(n / 10);
    } else {
      assert Decimal(n)[..0] == [];
    }
  }

  lemma IntTextInjective(i: int, j: int)
    requires IntText(i) == IntText(j)
    ensures i == j
  {
    DecimalReads(if i < 0 then -i else i);
    DecimalReads(if j < 0 then -j else j);
    if i < 0 {
      assert IntText(i)[1..] == Decimal(-i);
      assert j < 0;
      assert IntText(j)[1..] == Decimal(-j);
    } else {
      assert j >= 0;
    }
  }

  lemma {:induction false} HexTextInjective(a: seq<Byte>, b: seq<Byte>)
    requires HexText(a) == HexText(b)
    ensures a == b
  {
    if a != [] && b != [] {
      assert HexText(a)[0] == HexText(b)[0] && HexText(a)[1] == HexText(b)[1];
      assert HexText(a)[2..] == HexText(a[1..]) && HexText(b)[2..] == HexText(b[1..]);
      HexTextInjective(a[1..], b[1..]);
      assert a == [a[0]] + a[1..] && b == [b[0]] + b[1..];
    }
  }

  /** Two values have the same key exactly when they are identical. */
  lemma KeyStringInjective(w: World, a: Value, b: Value)
    requires w.PrintsDoublesApart() && Storable(a) && Storable(b)
    ensures KeyString(w, a) == KeyString(w, b) <==> a == b
  {
    var ka, kb := KeyString(w, a), KeyString(w, b);
    if ka == kb {
      assert ka[0] == kb[0];
      match a
      case Null =>
      case Integer(i) =>
        assert IntText(i) == ka[2..] && IntText(b.i) == kb[2..];
        IntTextInjective(i, b.i);
      case Real(f) =>
        assert w.floatText(f) == ka[2..] && w.floatText(b.f) == kb[2..];
      case Text(s) =>
        assert s == ka[2..] && b.s == kb[2..];
      case Blob(x) =>
        assert HexText(x) == ka[2..] && HexText(b.b) == kb[2..];
        HexTextInjective(x, b.b);
    }
  }

  /** Two NaNs, which `==` tells apart, or the two zeros, which it does not. */
  predicate OddPair(a: Value, b: Value) {
    (IsNaN(a) && IsNaN(b)) || (a == Real(NegZero) && b == Real(Num(0.0))) || (a == Real(Num(0.0)) && b == Real(NegZero))
  }

  /** Key strings agree with `==` on exactly the other pairs. */
  lemma KeyAgreesExactly(w: World, a: Value, b: Value)
    requires w.PrintsDoublesApart() && Storable(a) && Storable(b)
    ensures ((KeyString(w, a) == KeyString(w, b)) == Same(a, b)) <==> !OddPair(a, b)
  {
    KeyStringInjective(w, a, b);
  }
}
