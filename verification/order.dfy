/** Which of two values comes first. */
module ValueOrder {
  import opened Values

  /** NULL first, then numbers, then texts, then blobs. */
  lemma KindsInOrder(a: Value, b: Value)
    ensures a.Null? && !b.Null? ==> Compare(a, b) == Less
    ensures IsNumber(a) && (b.Text? || b.Blob?) ==> Compare(a, b) == Less
    ensures a.Text? && b.Blob? ==> Compare(a, b) == Less
  {
  }

  /** The place of a float on the extended real line. */
  ghost predicate Below(f: F64, g: F64) {
    match (f, g)
    case (NaN, _) => false
    case (_, NaN) => false
    case (NegInf, _) => !g.NegInf?
    case (_, PosInf) => !f.PosInf?
    case (PosInf, _) => false
    case (_, NegInf) => false
    case _ => (if f.Num? then f.r else 0.0) < (if g.Num? then g.r else 0.0)
  }

  /** Integers are compared exactly, and with floats after rounding; floats by their
      place on the extended real line, where the two zeros coincide; NaN is neither
      below nor above any number. */
  lemma NumbersInOrder(i: int, j: int, f: F64, g: F64)
    ensures Compare(Integer(i), Integer(j)) == Less <==> i < j
    ensures Compare(Real(f), Real(g)) == Less <==> Below(f, g)
    ensures Compare(Integer(i), Real(g)) == Less <==> Below(Num(RoundInt(i) as real), g)
    ensures Compare(Real(f), Integer(j)) == Less <==> Below(f, Num(RoundInt(j) as real))
  {
    hide RoundInt;
  }

  /** `a` is a proper beginning of `b`, or has the smaller code where they first
      differ. */
  ghost predicate Earlier<T>(a: seq<T>, b: seq<T>, code: T -> int, n: int) {
    && 0 <= n <= |a| && n < |b|
    && (forall i :: 0 <= i < n ==> code(a[i]) == code(b[i]))
    && (n == |a| || code(a[n]) < code(b[n]))
  }

  lemma {:induction false} SequencesInOrder<T>(a: seq<T>, b: seq<T>, code: T -> int)
    ensures CmpSeq(a, b, code) == Less <==> exists n :: Earlier(a, b, code, n)
    decreases a
  {
    if a == [] {
      if b != [] { assert Earlier(a, b, code, 0); }
    } else if b != [] {
      if code(a[0]) < code(b[0]) {
        assert Earlier(a, b, code, 0);
      } else if code(a[0]) == code(b[0]) {
        SequencesInOrder(a[1..], b[1..], code);
        if n :| Earlier(a[1..], b[1..], code, n) {
          forall i | 0 <= i < n + 1 ensures code(a[i]) == code(b[i]) {
            if i > 0 { assert code(a[1..][i - 1]) == code(b[1..][i - 1]); }
          }
          assert Earlier(a, b, code, n + 1);
        }
        if n :| Earlier(a, b, code, n) {
          assert n > 0 && Earlier(a[1..], b[1..], code, n - 1);
        }
      }
    }
  }

  ghost predicate EarlierText(s: string, t: string, n: int) {
    0 <= n <= |s| && n < |t| && s[..n] == t[..n] && (n == |s| || s[n] < t[n])
  }

  ghost predicate EarlierBlob(a: seq<Byte>, b: seq<Byte>, n: int) {
    0 <= n <= |a| && n < |b| && a[..n] == b[..n] && (n == |a| || a[n] < b[n])
  }

  /** Texts by their characters and blobs by their bytes, a beginning before what it
      begins. */
  lemma TextsInOrder(s: string, t: string, a: seq<Byte>, b: seq<Byte>)
    ensures Compare(Text(s), Text(t)) == Less <==> exists n :: EarlierText(s, t, n)
    ensures Compare(Blob(a), Blob(b)) == Less <==> exists n :: EarlierBlob(a, b, n)
  {
    SequencesInOrder(s, t, CharCode);
    SequencesInOrder(a, b, ByteCode);
    forall n ensures Earlier(s, t, CharCode, n) <==> EarlierText(s, t, n) {
      if EarlierText(s, t, n) {
        assert forall i :: 0 <= i < n ==> s[i] == s[..n][i] && t[i] == t[..n][i];
      }
    }
    forall n ensures Earlier(a, b, ByteCode, n) <==> EarlierBlob(a, b, n) {
      if EarlierBlob(a, b, n) {
        assert forall i :: 0 <= i < n ==> a[i] == a[..n][i] && b[i] == b[..n][i];
      }
    }
  }

  /** `==` on floats is having the same place, NaN having none; all other values are
      `==` only to themselves. */
  lemma SameExactly(a: Value, b: Value)
    ensures Same(a, b) <==>
              if a.Real? && b.Real? then !a.f.NaN? && !b.f.NaN? && !Below(a.f, b.f) && !Below(b.f, a.f) else a == b
  {
  }

  // ---------------------------------------------------------------- i64 as f64

  /** The float of an integer is the nearest multiple of the gap between doubles there,
      of two equally near ones the even one; the sign makes no difference. */
  lemma RoundExactly(n: nat) returns (m: int)
    ensures var u, f := Ulp(n), RoundInt(n);
            && f == m * u && 2 * (f - n) <= u && 2 * (n - f) <= u
            && (2 * (f - n) == u || 2 * (n - f) == u ==> m % 2 == 0)
            && RoundInt(0 - n) == 0 - f
  {
    var u := Ulp(n);
    var q, r := n / u, n % u;
    Quotient(n, u);
    RoundNear(n);
    m := if 2 * r < u || (2 * r == u && q % 2 == 0) then q else q + 1;
  }

  /** The gap is 1 below 2^53, and from there it doubles with the number. */
  lemma GapExactly(n: nat)
    ensures Ulp(n) == if n < EXACT then 1 else 2 * Ulp(n / 2)
  {
  }
}
