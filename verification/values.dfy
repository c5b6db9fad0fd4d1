/** SQL values and their order.

    A 64-bit float is a real number, or one of the four values that behave
    unlike one: the two infinities, negative zero and NaN. */
module Values {
  import opened Wrappers

  newtype Byte = b: int | 0 <= b < 256

  type RowId = int

  const USIZE_MAX: int := 0xFFFF_FFFF_FFFF_FFFF

  datatype F64 = NaN | NegInf | NegZero | Num(r: real) | PosInf

  datatype Value = Null | Integer(i: int) | Real(f: F64) | Text(s: string) | Blob(b: seq<Byte>)

  datatype Ordering = Less | Equal | Greater

  function Flip(o: Ordering): Ordering {
    match o
    case Less => Greater
    case Equal => Equal
    case Greater => Less
  }

  function CmpInt(a: int, b: int): Ordering {
    if a < b then Less else if a == b then Equal else Greater
  }

  function CmpReal(a: real, b: real): Ordering {
    if a < b then Less else if a == b then Equal else Greater
  }

  // ---------------------------------------------------------------- floats

  function FiniteValue(f: F64): real {
    if f.Num? then f.r else 0.0
  }

  function InfinityRank(f: F64): int {
    match f
    case NegInf => -1
    case PosInf => 1
    case _ => 0
  }

  /** `f64::partial_cmp`: no answer when either side is NaN, and -0.0 equals 0.0. */
  function PartialCmp(a: F64, b: F64): Option<Ordering> {
    if a.NaN? || b.NaN? then None
    else if InfinityRank(a) != InfinityRank(b) then Some(CmpInt(InfinityRank(a), InfinityRank(b)))
    else Some(CmpReal(FiniteValue(a), FiniteValue(b)))
  }

  function OrEqual(o: Option<Ordering>): Ordering {
    if o.Some? then o.value else Equal
  }

  // ------------------------------------------------- doubles among the reals

  function PowerOfTwo(e: int): real
    decreases if e < 0 then -e else e
  {
    if e == 0 then 1.0 else if e > 0 then 2.0 * PowerOfTwo(e - 1) else PowerOfTwo(e + 1) / 2.0
  }

  /** The real number is `m` times two to the `e`, as binary64 can hold it. */
  predicate Dyadic(r: real, m: int, e: int) {
    -EXACT < m < EXACT && -1074 <= e <= 971 && r == m as real * PowerOfTwo(e)
  }

  /** A float that a 64-bit float can be, rather than any real number. */
  ghost predicate IsDouble(f: F64) {
    f.Num? ==> exists m, e :: Dyadic(f.r, m, e)
  }

  ghost predicate Storable(v: Value) {
    v.Real? ==> IsDouble(v.f)
  }

  // ------------------------------------------------- i64 as f64

  const EXACT: int := 0x20_0000_0000_0000  // 2^53

  /** The gap between neighbouring doubles around `n`. */
  function Ulp(n: nat): (u: nat)
    ensures u >= 1
    ensures n < EXACT * u
    ensures u > 1 ==> EXACT * u <= 2 * n + 1
  {
    if n < EXACT then 1 else 2 * Ulp(n / 2)
  }

  /** Round to nearest, ties to even. */
  function RoundMagnitude(n: nat): int {
    var u := Ulp(n);
    var q, r := n / u, n % u;
    if 2 * r < u || (2 * r == u && q % 2 == 0) then q * u else (q + 1) * u
  }

  function RoundInt(i: int): int {
    if i < 0 then -RoundMagnitude(-i) else RoundMagnitude(i)
  }

  /** The conversion `i as f64`. */
  function FloatOfInt(i: int): F64 {
    Num(RoundInt(i) as real)
  }

  lemma UlpMonotone(m: nat, n: nat)
    requires m <= n
    ensures Ulp(n) == Ulp(m) || Ulp(n) >= 2 * Ulp(m)
  {
    if n < EXACT {
    } else if m < EXACT {
    } else {
      UlpMonotone(m / 2, n / 2);
    }
  }

  lemma Scale(a: int, b: int, u: int)
    requires a <= b && u >= 0
    ensures a * u <= b * u
  {
  }

  lemma Quotient(n: nat, u: nat)
    requires u >= 1
    ensures n == (n / u) * u + n % u && 0 <= n % u < u
    ensures (n / u + 1) * u == (n / u) * u + u
  {
  }

  lemma UlpEven(n: nat)
    requires Ulp(n) > 1
    ensures Ulp(n) % 2 == 0
  {
  }

  /** Rounding never leaves the binade: the result is at most the top of the
      range in which `Ulp(n)` is the gap, and at least its bottom. */
  lemma RoundBounds(n: nat)
    ensures RoundMagnitude(n) <= EXACT * Ulp(n)
    ensures Ulp(n) > 1 ==> EXACT * Ulp(n) <= 2 * RoundMagnitude(n)
  {
    var u := Ulp(n);
    var q := n / u;
    Quotient(n, u);
    if q >= EXACT { Scale(EXACT, q, u); }
    Scale(q + 1, EXACT, u);
    if u > 1 {
      UlpEven(n);
      if 2 * q < EXACT {
        Scale(q + 1, EXACT / 2, u);
        assert false;
      } else {
        Scale(EXACT / 2, q, u);
        assert 2 * ((EXACT / 2) * u) == EXACT * u;
      }
    }
  }

  /** Whichever way it rounds, the result is a neighbouring multiple of the gap. */
  lemma RoundNear(n: nat)
    ensures var u := Ulp(n); (n / u) * u <= RoundMagnitude(n) <= (n / u) * u + u
    ensures 2 * RoundMagnitude(n) <= 2 * n + Ulp(n) && 2 * n <= 2 * RoundMagnitude(n) + Ulp(n)
  {
    Quotient(n, Ulp(n));
  }

  lemma RoundMonotoneSameUlp(m: nat, n: nat)
    requires m <= n && Ulp(m) == Ulp(n)
    ensures RoundMagnitude(m) <= RoundMagnitude(n)
  {
    var u := Ulp(m);
    var qm, qn := m / u, n / u;
    Quotient(m, u);
    Quotient(n, u);
    if qm > qn {
      Scale(qn + 1, qm, u);
      assert false;
    } else if qm < qn {
      Scale(qm + 1, qn, u);
      RoundNear(m);
      RoundNear(n);
    }
  }

  lemma RoundMagnitudeMonotone(m: nat, n: nat)
    requires m <= n
    ensures RoundMagnitude(m) <= RoundMagnitude(n)
  {
    UlpMonotone(m, n);
    if Ulp(m) == Ulp(n) {
      RoundMonotoneSameUlp(m, n);
    } else {
      RoundBounds(m);
      RoundBounds(n);
    }
  }

  lemma RoundMonotone(m: int, n: int)
    requires m <= n
    ensures RoundInt(m) <= RoundInt(n)
  {
    RoundMagnitudeMonotone(0, if m < 0 then -m else m);
    RoundMagnitudeMonotone(0, if n < 0 then -n else n);
    if 0 <= m {
      RoundMagnitudeMonotone(m, n);
    } else if n < 0 {
      RoundMagnitudeMonotone(-n, -m);
    }
  }

  lemma RoundExact(i: int)
    requires -EXACT <= i <= EXACT
    ensures RoundInt(i) == i
  {
    var n: nat := if i < 0 then -i else i;
    if n == EXACT {
      assert Ulp(n / 2) == 1;
      assert Ulp(n) == 2;
    }
  }

  // ------------------------------------------------- byte-wise sequence order

  function CharCode(c: char): int { c as int }

  function ByteCode(b: Byte): int { b as int }

  function CmpSeq<T>(a: seq<T>, b: seq<T>, code: T -> int): Ordering {
    if a == [] then (if b == [] then Equal else Less)
    else if b == [] then Greater
    else if code(a[0]) != code(b[0]) then CmpInt(code(a[0]), code(b[0]))
    else CmpSeq(a[1..], b[1..], code)
  }

  lemma {:induction false} CmpSeqFlips<T>(a: seq<T>, b: seq<T>, code: T -> int)
    ensures CmpSeq(b, a, code) == Flip(CmpSeq(a, b, code))
  {
    if a != [] && b != [] {
      CmpSeqFlips(a[1..], b[1..], code);
    }
  }

  lemma {:induction false} CmpSeqTransitive<T>(a: seq<T>, b: seq<T>, c: seq<T>, code: T -> int)
    requires CmpSeq(a, b, code) != Greater && CmpSeq(b, c, code) != Greater
    ensures CmpSeq(a, c, code) != Greater
  {
    if a != [] && b != [] && c != [] {
      if code(a[0]) == code(b[0]) == code(c[0]) {
        CmpSeqTransitive(a[1..], b[1..], c[1..], code);
      }
    }
  }

  lemma {:induction false} CmpSeqEqual<T(!new)>(a: seq<T>, b: seq<T>, code: T -> int)
    requires forall x, y :: code(x) == code(y) ==> x == y
    ensures CmpSeq(a, b, code) == Equal <==> a == b
  {
    if a != [] && b != [] {
      CmpSeqEqual(a[1..], b[1..], code);
      assert a == [a[0]] + a[1..] && b == [b[0]] + b[1..];
    }
  }

  // ---------------------------------------------------------------- compare

  function TypeRank(v: Value): int {
    match v
    case Null => 0
    case Integer(_) => 1
    case Real(_) => 1
    case Text(_) => 2
    case Blob(_) => 3
  }

  function Compare(a: Value, b: Value): Ordering {
    match (a, b)
    case (Null, Null) => Equal
    case (Null, _) => Less
    case (_, Null) => Greater
    case (Integer(x), Integer(y)) => CmpInt(x, y)
    case (Real(x), Real(y)) => OrEqual(PartialCmp(x, y))
    case (Integer(x), Real(y)) => OrEqual(PartialCmp(FloatOfInt(x), y))
    case (Real(x), Integer(y)) => OrEqual(PartialCmp(x, FloatOfInt(y)))
    case (Text(x), Text(y)) => CmpSeq(x, y, CharCode)
    case (Blob(x), Blob(y)) => CmpSeq(x, y, ByteCode)
    case _ => CmpInt(TypeRank(a), TypeRank(b))
  }

  predicate Le(a: Value, b: Value) {
    Compare(a, b) != Greater
  }

  /** `==` on values: NaN differs from itself, the two zeros are the same. */
  predicate Same(a: Value, b: Value) {
    if a.Real? && b.Real? then PartialCmp(a.f, b.f) == Some(Equal) else a == b
  }

  predicate IsNumber(v: Value) {
    v.Integer? || v.Real?
  }

  predicate IsNaN(v: Value) {
    v.Real? && v.f.NaN?
  }

  lemma CompareFlips(a: Value, b: Value)
    ensures Compare(b, a) == Flip(Compare(a, b))
  {
    if a.Text? && b.Text? {
      CmpSeqFlips(a.s, b.s, CharCode);
    } else if a.Blob? && b.Blob? {
      CmpSeqFlips(a.b, b.b, ByteCode);
    }
  }

  /** The three ways two values compare Equal. */
  lemma CompareEqualExactly(a: Value, b: Value)
    ensures Compare(a, b) == Equal <==>
              || Same(a, b)
              || (IsNumber(a) && IsNumber(b) && (IsNaN(a) || IsNaN(b)))
              || (a.Integer? && b.Real? && PartialCmp(FloatOfInt(a.i), b.f) == Some(Equal))
              || (a.Real? && b.Integer? && PartialCmp(a.f, FloatOfInt(b.i)) == Some(Equal))
  {
    if a.Text? && b.Text? {
      CmpSeqEqual(a.s, b.s, CharCode);
    } else if a.Blob? && b.Blob? {
      CmpSeqEqual(a.b, b.b, ByteCode);
    }
  }

  /** The triples on which the order is not transitive: something NaN compares
      Equal to both ends, or a double to which two different integers round. */
  predicate Intransitive(a: Value, b: Value, c: Value) {
    || (IsNaN(b) && IsNumber(a) && IsNumber(c) && Compare(a, c) == Greater)
    || (a.Integer? && b.Real? && c.Integer? && a.i > c.i
        && PartialCmp(FloatOfInt(a.i), b.f) == Some(Equal)
        && PartialCmp(b.f, FloatOfInt(c.i)) == Some(Equal))
  }

  lemma CompareTransitiveExactly(a: Value, b: Value, c: Value)
    requires Le(a, b) && Le(b, c)
    ensures Le(a, c) <==> !Intransitive(a, b, c)
  {
    if a.Text? && b.Text? && c.Text? {
      CmpSeqTransitive(a.s, b.s, c.s, CharCode);
    } else if a.Blob? && b.Blob? && c.Blob? {
      CmpSeqTransitive(a.b, b.b, c.b, ByteCode);
    } else if a.Integer? && b.Integer? && c.Real? {
      RoundMonotone(a.i, b.i);
    } else if a.Real? && b.Integer? && c.Integer? {
      RoundMonotone(b.i, c.i);
    } else if a.Integer? && b.Real? && c.Integer? && a.i > c.i {
      RoundMonotone(c.i, a.i);
    }
  }

  // ---------------------------------------------------------------- domains

  /** A set of values on which the order is transitive, as a BTreeMap key type
      and a sort key must be. */
  ghost predicate Lawful(dom: iset<Value>) {
    forall a, b, c :: a in dom && b in dom && c in dom && Le(a, b) && Le(b, c) ==> Le(a, c)
  }

  /** Exactly which sets are lawful. */
  lemma LawfulExactly(dom: iset<Value>)
    ensures Lawful(dom) <==>
              forall a, b, c :: a in dom && b in dom && c in dom && Le(a, b) && Le(b, c) ==> !Intransitive(a, b, c)
  {
    forall a, b, c | a in dom && b in dom && c in dom && Le(a, b) && Le(b, c)
      ensures Le(a, c) <==> !Intransitive(a, b, c)
    {
      CompareTransitiveExactly(a, b, c);
    }
  }

  /** No NaN, and integers that a double represents exactly. */
  predicate Ordinary(v: Value) {
    !IsNaN(v) && (v.Integer? ==> -EXACT <= v.i <= EXACT)
  }

  lemma OrdinaryIsLawful()
    ensures Lawful(iset v | Ordinary(v))
  {
    forall a, b, c | Ordinary(a) && Ordinary(b) && Ordinary(c) && Le(a, b) && Le(b, c)
      ensures Le(a, c)
    {
      CompareTransitiveExactly(a, b, c);
      if a.Integer? && c.Integer? {
        RoundExact(a.i);
        RoundExact(c.i);
      }
    }
  }

  /** A column that never holds a float may hold any integer. */
  lemma FloatFreeIsLawful()
    ensures Lawful(iset v: Value | !v.Real?)
  {
    forall a: Value, b: Value, c: Value | !a.Real? && !b.Real? && !c.Real? && Le(a, b) && Le(b, c)
      ensures Le(a, c)
    {
      CompareTransitiveExactly(a, b, c);
    }
  }

  /** Just beyond 2^53 the order stops being transitive: 2^53 + 1 <= 2^53 as a
      double, which is <= 2^53, yet 2^53 + 1 > 2^53. */
  lemma IntransitiveWitness()
    ensures Le(Integer(EXACT + 1), Real(Num(EXACT as real)))
    ensures Le(Real(Num(EXACT as real)), Integer(EXACT))
    ensures !Le(Integer(EXACT + 1), Integer(EXACT))
  {
    assert Ulp(EXACT / 2) == 1;
    assert Ulp(EXACT) == 2;
    assert Ulp((EXACT + 1) / 2) == 1;
    assert Ulp(EXACT + 1) == 2;
    assert RoundMagnitude(EXACT + 1) == EXACT;
    assert RoundMagnitude(EXACT) == EXACT;
  }

  /** In a lawful set, comparing through a third value composes as expected. */
  lemma Chain(dom: iset<Value>, a: Value, b: Value, c: Value)
    requires Lawful(dom) && a in dom && b in dom && c in dom
    ensures Compare(a, b) == Equal ==> Compare(a, c) == Compare(b, c)
    ensures Compare(a, b) == Less && Compare(b, c) == Less ==> Compare(a, c) == Less
  {
    CompareFlips(a, b);
    CompareFlips(b, c);
    CompareFlips(a, c);
    assert Le(a, b) && Le(b, c) ==> Le(a, c);
    assert Le(b, a) && Le(a, c) ==> Le(b, c);
    assert Le(c, a) && Le(a, b) ==> Le(c, b);
    assert Le(c, b) && Le(b, a) ==> Le(c, a);
  }

  lemma CompareReflexive(a: Value)
    ensures Compare(a, a) == Equal
  {
    CompareEqualExactly(a, a);
  }

  // ---------------------------------------------------------------- rows

  /** An insertion-ordered map from column name to value. */
  datatype Row = Row(cols: seq<string>, vals: map<string, Value>) {
    predicate Has(c: string) { c in vals }

    function Get(c: string): Option<Value> {
      if c in vals then Some(vals[c]) else None
    }

    function GetOrNull(c: string): Value {
      if c in vals then vals[c] else Null
    }

    /** Overwrites in place, or appends a new column at the end. */
    function Put(c: string, v: Value): Row {
      Row(if c in vals then cols else cols + [c], vals[c := v])
    }

    function PutIfAbsent(c: string, v: Value): Row {
      if c in vals then this else Put(c, v)
    }
  }

  const EMPTY_ROW := Row([], map[])
}
