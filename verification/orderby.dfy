/** ORDER BY with several keys, done by one stable sort per key from the last
    key to the first. */
module OrderBy {
  import opened Wrappers
  import opened Values
  import opened Externals
  import opened Expressions

  type Comparator<!T> = (T, T) -> Ordering

  // ---------------------------------------------------------------- stable sort

  /** Before the first element that is not smaller. */
  function InsertBefore<T>(x: T, t: seq<T>, cmp: Comparator<T>): seq<T>
    decreases t
  {
    if t == [] then [x]
    else if cmp(x, t[0]) != Greater then [x] + t
    else [t[0]] + InsertBefore(x, t[1..], cmp)
  }

  /** What `sort_by` returns: sorted, and equal elements in their old order. */
  function StableSort<T>(s: seq<T>, cmp: Comparator<T>): seq<T>
    decreases s
  {
    if s == [] then [] else InsertBefore(s[0], StableSort(s[1..], cmp), cmp)
  }

  /** The comparator is a total preorder on these elements. */
  ghost predicate Orders<T(!new)>(cmp: Comparator<T>, s: seq<T>) {
    && (forall x, y :: x in s && y in s ==> cmp(y, x) == Flip(cmp(x, y)))
    && (forall x, y, z :: x in s && y in s && z in s && cmp(x, y) != Greater && cmp(y, z) != Greater ==>
         cmp(x, z) != Greater)
  }

  /** Every earlier element is related to every later one. */
  ghost predicate InOrder<T(!new)>(s: seq<T>, r: (T, T) -> bool) {
    forall i, j :: 0 <= i < j < |s| ==> r(s[i], s[j])
  }

  /** Smaller, or equal and related before. */
  function Refine<T>(cmp: Comparator<T>, r: (T, T) -> bool): (T, T) -> bool {
    (x, y) => cmp(x, y) == Less || (cmp(x, y) == Equal && r(x, y))
  }

  lemma {:induction false} InsertBag<T>(x: T, t: seq<T>, cmp: Comparator<T>)
    ensures multiset(InsertBefore(x, t, cmp)) == multiset{x} + multiset(t)
    decreases t
  {
    if t != [] {
      InsertBag(x, t[1..], cmp);
      assert t == [t[0]] + t[1..];
    }
  }

  lemma {:induction false} SortBag<T>(s: seq<T>, cmp: Comparator<T>)
    ensures multiset(StableSort(s, cmp)) == multiset(s)
    decreases s
  {
    if s != [] {
      SortBag(s[1..], cmp);
      InsertBag(s[0], StableSort(s[1..], cmp), cmp);
      assert s == [s[0]] + s[1..];
    }
  }

  lemma SameBagSameMembers<T(!new)>(a: seq<T>, b: seq<T>)
    requires multiset(a) == multiset(b)
    ensures |a| == |b| && forall x :: x in a <==> x in b
  {
    assert |multiset(a)| == |a| && |multiset(b)| == |b|;
    forall x ensures x in a <==> x in b {
      assert x in a <==> x in multiset(a);
      assert x in b <==> x in multiset(b);
    }
  }

  lemma PrependInOrder<T(!new)>(x: T, t: seq<T>, r: (T, T) -> bool)
    requires InOrder(t, r) && forall y :: y in t ==> r(x, y)
    ensures InOrder([x] + t, r)
  {
    var s := [x] + t;
    forall i, j | 0 <= i < j < |s| ensures r(s[i], s[j]) {
      assert s[j] == t[j - 1];
      if i > 0 { assert s[i] == t[i - 1]; }
    }
  }

  lemma {:induction false} InsertInOrder<T(!new)>(x: T, t: seq<T>, cmp: Comparator<T>, r: (T, T) -> bool)
    requires Orders(cmp, [x] + t) && InOrder(t, Refine(cmp, r)) && forall y :: y in t ==> r(x, y)
    ensures InOrder(InsertBefore(x, t, cmp), Refine(cmp, r))
    decreases t
  {
    if t != [] {
      var rel := Refine(cmp, r);
      assert x in [x] + t && t[0] in [x] + t;
      if cmp(x, t[0]) != Greater {
        forall y | y in t ensures rel(x, y) {
          var j :| 0 <= j < |t| && t[j] == y;
          assert y in [x] + t;
          assert j > 0 ==> rel(t[0], t[j]);
          assert cmp(t[0], y) != Greater || j == 0;
        }
        PrependInOrder(x, t, rel);
      } else {
        assert forall y :: y in [x] + t[1..] ==> y in [x] + t;
        InsertInOrder(x, t[1..], cmp, r);
        var rest := InsertBefore(x, t[1..], cmp);
        InsertMembers(x, t[1..], cmp);
        assert rel(t[0], x);
        forall y | y in rest ensures rel(t[0], y) {
          if y != x {
            var k :| 0 <= k < |t[1..]| && t[1..][k] == y;
            assert t[k + 1] == y;
          }
        }
        PrependInOrder(t[0], rest, rel);
      }
    }
  }

  lemma {:induction false} InsertMembers<T(!new)>(x: T, t: seq<T>, cmp: Comparator<T>)
    ensures forall y :: y in InsertBefore(x, t, cmp) <==> y == x || y in t
    decreases t
  {
    if t != [] {
      InsertMembers(x, t[1..], cmp);
      assert t == [t[0]] + t[1..];
    }
  }

  /** Sorting refines whatever order the elements were in. */
  lemma {:induction false} SortRefines<T(!new)>(s: seq<T>, cmp: Comparator<T>, r: (T, T) -> bool)
    requires Orders(cmp, s) && InOrder(s, r)
    ensures InOrder(StableSort(s, cmp), Refine(cmp, r))
    decreases s
  {
    if s != [] {
      var rest := s[1..];
      SortRefines(rest, cmp, r);
      SortBag(rest, cmp);
      SameBagSameMembers(StableSort(rest, cmp), rest);
      forall y | y in rest ensures r(s[0], y) {
        var k :| 0 <= k < |rest| && rest[k] == y;
        assert s[k + 1] == y;
      }
      assert forall y :: y in [s[0]] + StableSort(rest, cmp) ==> y in s;
      InsertInOrder(s[0], StableSort(rest, cmp), cmp, r);
    }
  }

  // ---------------------------------------------------------------- keys

  datatype OrderKey = OrderKey(e: Expr, asc: bool)

  /** A key never sees the statement's parameters. */
  function KeyValue(w: World, key: OrderKey, row: Row): Value {
    Eval(w, key.e, Some(row), [], 0).0
  }

  function CompareKey(w: World, key: OrderKey, a: Row, b: Row): Ordering {
    var c := Compare(KeyValue(w, key, a), KeyValue(w, key, b));
    if key.asc then c else Flip(c)
  }

  function ByKey(w: World, key: OrderKey): Comparator<Row> {
    (a, b) => CompareKey(w, key, a, b)
  }

  function Ordered(w: World, rows: seq<Row>, keys: seq<OrderKey>): seq<Row>
    decreases keys
  {
    if keys == [] then rows else StableSort(Ordered(w, rows, keys[1..]), ByKey(w, keys[0]))
  }

  /** The meaning of ORDER BY: the first key on which two rows differ decides. */
  function CompareKeys(w: World, keys: seq<OrderKey>, a: Row, b: Row): Ordering
    decreases keys
  {
    if keys == [] then Equal
    else if CompareKey(w, keys[0], a, b) != Equal then CompareKey(w, keys[0], a, b)
    else CompareKeys(w, keys[1..], a, b)
  }

  // ---------------------------------------------------------------- rows with their places

  type Placed = (int, Row)

  function ByPlacedKey(w: World, key: OrderKey): Comparator<Placed> {
    (a: Placed, b: Placed) => CompareKey(w, key, a.1, b.1)
  }

  function Places(rows: seq<Row>): seq<Placed> {
    seq(|rows|, i requires 0 <= i < |rows| => (i, rows[i]))
  }

  function Rows(s: seq<Placed>): (rows: seq<Row>)
    ensures |rows| == |s|
  {
    seq(|s|, i requires 0 <= i < |s| => s[i].1)
  }

  function OrderedPlaces(w: World, rows: seq<Row>, keys: seq<OrderKey>): seq<Placed>
    decreases keys
  {
    if keys == [] then Places(rows) else StableSort(OrderedPlaces(w, rows, keys[1..]), ByPlacedKey(w, keys[0]))
  }

  lemma {:induction false} InsertForgets(w: World, x: Placed, t: seq<Placed>, key: OrderKey)
    ensures Rows(InsertBefore(x, t, ByPlacedKey(w, key))) == InsertBefore(x.1, Rows(t), ByKey(w, key))
    decreases t
  {
    if t != [] {
      InsertForgets(w, x, t[1..], key);
      assert Rows(t)[1..] == Rows(t[1..]);
      assert Rows([x] + t) == [x.1] + Rows(t);
      var rest := InsertBefore(x, t[1..], ByPlacedKey(w, key));
      assert Rows([t[0]] + rest) == [t[0].1] + Rows(rest);
    }
  }

  lemma {:induction false} SortForgets(w: World, s: seq<Placed>, key: OrderKey)
    ensures Rows(StableSort(s, ByPlacedKey(w, key))) == StableSort(Rows(s), ByKey(w, key))
    decreases s
  {
    if s != [] {
      SortForgets(w, s[1..], key);
      assert Rows(s)[1..] == Rows(s[1..]);
      InsertForgets(w, s[0], StableSort(s[1..], ByPlacedKey(w, key)), key);
    }
  }

  lemma {:induction false} OrderedForgets(w: World, rows: seq<Row>, keys: seq<OrderKey>)
    ensures Rows(OrderedPlaces(w, rows, keys)) == Ordered(w, rows, keys)
    decreases keys
  {
    if keys == [] {
      assert Rows(Places(rows)) == rows;
    } else {
      OrderedForgets(w, rows, keys[1..]);
      SortForgets(w, OrderedPlaces(w, rows, keys[1..]), keys[0]);
    }
  }

  // ---------------------------------------------------------------- the result

  /** Each key's values come from a lawful set. */
  ghost predicate KeysLawful(w: World, rows: seq<Row>, keys: seq<OrderKey>, dom: iset<Value>) {
    && Lawful(dom)
    && forall i, k :: 0 <= i < |rows| && 0 <= k < |keys| ==> KeyValue(w, keys[k], rows[i]) in dom
  }

  lemma KeyOrders(w: World, rows: seq<Row>, key: OrderKey, dom: iset<Value>, s: seq<Placed>)
    requires Lawful(dom) && forall i :: 0 <= i < |s| ==> KeyValue(w, key, s[i].1) in dom
    ensures Orders(ByPlacedKey(w, key), s)
  {
    hide KeyValue, Compare;
    forall x, y | x in s && y in s ensures CompareKey(w, key, y.1, x.1) == Flip(CompareKey(w, key, x.1, y.1)) {
      CompareFlips(KeyValue(w, key, x.1), KeyValue(w, key, y.1));
    }
    forall x, y, z | x in s && y in s && z in s && CompareKey(w, key, x.1, y.1) != Greater
      && CompareKey(w, key, y.1, z.1) != Greater
      ensures CompareKey(w, key, x.1, z.1) != Greater
    {
      var a, b, c := KeyValue(w, key, x.1), KeyValue(w, key, y.1), KeyValue(w, key, z.1);
      CompareFlips(a, b);
      CompareFlips(b, c);
      CompareFlips(a, c);
      assert Le(a, b) && Le(b, c) ==> Le(a, c);
      assert Le(c, b) && Le(b, a) ==> Le(c, a);
    }
  }

  function ByKeysThenPlace(w: World, keys: seq<OrderKey>): (Placed, Placed) -> bool {
    (x: Placed, y: Placed) => CompareKeys(w, keys, x.1, y.1) == Less
      || (CompareKeys(w, keys, x.1, y.1) == Equal && x.0 < y.0)
  }

  lemma {:induction false} PlacesInOrder(w: World, rows: seq<Row>, keys: seq<OrderKey>, dom: iset<Value>)
    requires KeysLawful(w, rows, keys, dom)
    ensures multiset(OrderedPlaces(w, rows, keys)) == multiset(Places(rows))
    ensures InOrder(OrderedPlaces(w, rows, keys), ByKeysThenPlace(w, keys))
    decreases keys
  {
    hide KeyValue, CompareKey;
    if keys != [] {
      assert KeysLawful(w, rows, keys[1..], dom) by {
        assert forall k :: 0 <= k < |keys[1..]| ==> keys[1..][k] == keys[k + 1];
      }
      PlacesInOrder(w, rows, keys[1..], dom);
      var s := OrderedPlaces(w, rows, keys[1..]);
      SameBagSameMembers(s, Places(rows));
      forall i | 0 <= i < |s| ensures KeyValue(w, keys[0], s[i].1) in dom {
        assert s[i] in Places(rows);
      }
      KeyOrders(w, rows, keys[0], dom, s);
      SortRefines(s, ByPlacedKey(w, keys[0]), ByKeysThenPlace(w, keys[1..]));
      SortBag(s, ByPlacedKey(w, keys[0]));
    }
  }

  /** `p` lists every index below `n` once. */
  ghost predicate Permutation(p: seq<int>, n: nat) {
    && |p| == n
    && (forall i :: 0 <= i < n ==> 0 <= p[i] < n)
    && (forall i, j :: 0 <= i < j < n ==> p[i] != p[j])
  }

  /** What the `n`-th key makes of a row: keys never see the statement's parameters. */
  function ValueUnder(w: World, keys: seq<OrderKey>, n: nat, row: Row): Value
    requires n < |keys|
  {
    Eval(w, keys[n].e, Some(row), [], 0).0
  }

  /** `n` is the first key whose values for the two rows are not Equal. */
  ghost predicate FirstApart(w: World, keys: seq<OrderKey>, a: Row, b: Row, n: int) {
    && 0 <= n < |keys| && Compare(ValueUnder(w, keys, n, a), ValueUnder(w, keys, n, b)) != Equal
    && forall m :: 0 <= m < n ==> Compare(ValueUnder(w, keys, m, a), ValueUnder(w, keys, m, b)) == Equal
  }

  /** On the first key that tells the rows apart, `a` has the smaller value if the
      key is ascending and the greater one if it is descending; rows that no key
      tells apart are in the order of their places. */
  ghost predicate Precedes(w: World, keys: seq<OrderKey>, a: Row, i: int, b: Row, j: int) {
    && (forall n :: FirstApart(w, keys, a, b, n) ==>
          Compare(ValueUnder(w, keys, n, a), ValueUnder(w, keys, n, b)) == if keys[n].asc then Less else Greater)
    && ((forall n :: !FirstApart(w, keys, a, b, n)) ==> i < j)
  }

  lemma {:induction false} KeysPrecede(w: World, keys: seq<OrderKey>, a: Row, i: int, b: Row, j: int)
    requires var c := CompareKeys(w, keys, a, b); c == Less || (c == Equal && i < j)
    ensures Precedes(w, keys, a, i, b, j)
    decreases keys
  {
    hide Eval, Compare;
    if keys != [] {
      var rest := keys[1..];
      assert forall n :: 0 <= n < |rest| ==> rest[n] == keys[n + 1];
      assert forall n, row :: 0 <= n < |rest| ==> ValueUnder(w, rest, n, row) == ValueUnder(w, keys, n + 1, row);
      if CompareKey(w, keys[0], a, b) == Equal {
        assert Compare(ValueUnder(w, keys, 0, a), ValueUnder(w, keys, 0, b)) == Equal;
        KeysPrecede(w, rest, a, i, b, j);
        forall n ensures FirstApart(w, keys, a, b, n + 1) <==> FirstApart(w, rest, a, b, n) {
          LaterApart(w, keys, a, b, n);
        }
        forall n | FirstApart(w, keys, a, b, n)
          ensures Compare(ValueUnder(w, keys, n, a), ValueUnder(w, keys, n, b)) == if keys[n].asc then Less else Greater
        {
          assert n > 0 && FirstApart(w, keys, a, b, (n - 1) + 1);
          assert FirstApart(w, rest, a, b, n - 1);
        }
        if forall n :: !FirstApart(w, keys, a, b, n) {
          forall n ensures !FirstApart(w, rest, a, b, n) {
            assert !FirstApart(w, keys, a, b, n + 1);
          }
        }
      } else {
        assert FirstApart(w, keys, a, b, 0);
      }
    }
  }

  lemma LaterApart(w: World, keys: seq<OrderKey>, a: Row, b: Row, n: int)
    requires keys != [] && Compare(ValueUnder(w, keys, 0, a), ValueUnder(w, keys, 0, b)) == Equal
    ensures FirstApart(w, keys, a, b, n + 1) <==> FirstApart(w, keys[1..], a, b, n)
  {
    hide Eval, Compare;
    var rest := keys[1..];
    assert forall m, row :: 0 <= m < |rest| ==> ValueUnder(w, rest, m, row) == ValueUnder(w, keys, m + 1, row);
    if FirstApart(w, rest, a, b, n) {
      forall m | 0 <= m < n + 1 ensures Compare(ValueUnder(w, keys, m, a), ValueUnder(w, keys, m, b)) == Equal {
        if m > 0 {
          assert Compare(ValueUnder(w, rest, m - 1, a), ValueUnder(w, rest, m - 1, b)) == Equal;
        }
      }
    }
    if FirstApart(w, keys, a, b, n + 1) {
      forall m | 0 <= m < n ensures Compare(ValueUnder(w, rest, m, a), ValueUnder(w, rest, m, b)) == Equal {
        assert Compare(ValueUnder(w, keys, m + 1, a), ValueUnder(w, keys, m + 1, b)) == Equal;
      }
    }
  }

  /** Each key's values on these rows come from a lawful set. */
  ghost predicate LawfulUnder(w: World, rows: seq<Row>, keys: seq<OrderKey>, dom: iset<Value>) {
    && Lawful(dom)
    && forall i, n :: 0 <= i < |rows| && 0 <= n < |keys| ==> ValueUnder(w, keys, n, rows[i]) in dom
  }

  /** `out` is `rows` rearranged by a permutation, and every row precedes those after it. */
  ghost predicate Arranges(w: World, rows: seq<Row>, keys: seq<OrderKey>, out: seq<Row>, p: seq<int>) {
    && Permutation(p, |rows|) && |out| == |rows|
    && (forall i :: 0 <= i < |rows| ==> out[i] == rows[p[i]])
    && forall i, j :: 0 <= i < j < |rows| ==> Precedes(w, keys, rows[p[i]], p[i], rows[p[j]], p[j])
  }

  /** The rows come out rearranged by a permutation: of any two, the earlier one has
      the smaller value under the first key on which they differ, or the greater
      one if that key is descending, and rows that agree on every key keep their
      old order. */
  lemma OrderByExactly(w: World, rows: seq<Row>, keys: seq<OrderKey>, dom: iset<Value>) returns (p: seq<int>)
    requires LawfulUnder(w, rows, keys, dom)
    ensures Arranges(w, rows, keys, Ordered(w, rows, keys), p)
  {
    hide CompareKeys, CompareKey, Eval, Precedes;
    assert KeysLawful(w, rows, keys, dom) by {
      assert forall i, n :: 0 <= i < |rows| && 0 <= n < |keys| ==>
             KeyValue(w, keys[n], rows[i]) == ValueUnder(w, keys, n, rows[i]);
    }
    var s := OrderedPlaces(w, rows, keys);
    PlacesInOrder(w, rows, keys, dom);
    OrderedForgets(w, rows, keys);
    SameBagSameMembers(s, Places(rows));
    p := seq(|rows|, i requires 0 <= i < |rows| => s[i].0);
    forall i | 0 <= i < |rows| ensures 0 <= p[i] < |rows| && s[i] == (p[i], rows[p[i]]) {
      assert s[i] in Places(rows);
    }
    forall i, j | 0 <= i < j < |rows| ensures Precedes(w, keys, rows[p[i]], p[i], rows[p[j]], p[j]) {
      assert ByKeysThenPlace(w, keys)(s[i], s[j]);
      KeysPrecede(w, keys, rows[p[i]], p[i], rows[p[j]], p[j]);
    }
    forall i, j | 0 <= i < j < |rows| ensures p[i] != p[j] {
      BagDistinct(s, Places(rows), i, j);
      assert s[i] != s[j];
    }
  }

  lemma BagDistinct<T>(a: seq<T>, b: seq<T>, i: int, j: int)
    requires multiset(a) == multiset(b) && 0 <= i < j < |a|
    requires forall k, l :: 0 <= k < l < |b| ==> b[k] != b[l]
    ensures a[i] != a[j]
  {
    if a[i] == a[j] {
      var x := a[i];
      assert a == a[..i] + [x] + a[i + 1..j] + [x] + a[j + 1..];
      assert multiset(a)[x] >= 2;
      OccursOnce(b, x);
      assert false;
    }
  }

  lemma {:induction false} OccursOnce<T>(b: seq<T>, x: T)
    requires forall k, l :: 0 <= k < l < |b| ==> b[k] != b[l]
    ensures multiset(b)[x] <= 1
  {
    if b != [] {
      OccursOnce(b[1..], x);
      assert b == [b[0]] + b[1..];
      assert forall k :: 0 <= k < |b[1..]| ==> b[1..][k] == b[k + 1];
      assert b[0] !in b[1..];
    }
  }

  method ApplyOrderBy(w: World, rows: seq<Row>, keys: seq<OrderKey>) returns (out: seq<Row>)
    ensures out == Ordered(w, rows, keys)
    ensures forall dom :: LawfulUnder(w, rows, keys, dom) ==> exists p :: Arranges(w, rows, keys, out, p)
  {
    forall dom | LawfulUnder(w, rows, keys, dom) ensures exists p :: Arranges(w, rows, keys, Ordered(w, rows, keys), p)
    {
      var p := OrderByExactly(w, rows, keys, dom);
    }
    hide LawfulUnder, Arranges;
    out := rows;
    for k := |keys| downto 0
      invariant out == Ordered(w, rows, keys[k..])
    {
      assert keys[k..][1..] == keys[k + 1..];
      out := StableSort(out, ByKey(w, keys[k]));
    }
  }
}
