/** The ordered map from indexed value to row ids that a secondary index keeps
    (a `BTreeMap<IndexKey, Vec<RowId>>`), as a sorted sequence of entries. */
module OrderedIndex {
  import opened Values

  datatype Entry = Entry(key: Value, ids: seq<RowId>)

  type BTree = seq<Entry>

  datatype Bound = Unbounded | Included(v: Value) | Excluded(v: Value)

  // ---------------------------------------------------------------- id lists

  ghost predicate NoDup<T(!new)>(s: seq<T>) {
    forall i, j :: 0 <= i < j < |s| ==> s[i] != s[j]
  }

  function Push(ids: seq<RowId>, r: RowId): seq<RowId> {
    if r in ids then ids else ids + [r]
  }

  /** `ids.retain(|x| *x != r)` */
  function Without(ids: seq<RowId>, r: RowId): seq<RowId> {
    if ids == [] then []
    else if ids[0] == r then Without(ids[1..], r)
    else [ids[0]] + Without(ids[1..], r)
  }

  lemma {:induction false} WithoutMember(ids: seq<RowId>, r: RowId, x: RowId)
    ensures x in Without(ids, r) <==> x in ids && x != r
  {
    if ids != [] {
      WithoutMember(ids[1..], r, x);
      assert ids == [ids[0]] + ids[1..];
    }
  }

  lemma {:induction false} WithoutNoDup(ids: seq<RowId>, r: RowId)
    requires NoDup(ids)
    ensures NoDup(Without(ids, r))
  {
    if ids != [] {
      WithoutNoDup(ids[1..], r);
      WithoutMember(ids[1..], r, ids[0]);
      assert ids[0] !in ids[1..];
    }
  }

  // ---------------------------------------------------------------- lookups

  /** The ids stored under the key that compares Equal to `v`. */
  function Ids(b: BTree, v: Value): seq<RowId> {
    if b == [] then []
    else match Compare(v, b[0].key)
      case Less => []
      case Equal => b[0].ids
      case Greater => Ids(b[1..], v)
  }

  predicate AboveLower(lo: Bound, v: Value) {
    match lo
    case Unbounded => true
    case Included(x) => Compare(v, x) != Less
    case Excluded(x) => Compare(v, x) == Greater
  }

  predicate BelowUpper(hi: Bound, v: Value) {
    match hi
    case Unbounded => true
    case Included(x) => Compare(v, x) != Greater
    case Excluded(x) => Compare(v, x) == Less
  }

  predicate InRange(lo: Bound, hi: Bound, v: Value) {
    AboveLower(lo, v) && BelowUpper(hi, v)
  }

  /** `BTreeMap::range` panics on a range that runs backwards, if the map has ever
      held an entry. */
  predicate RunsBackwards(lo: Bound, hi: Bound) {
    && !lo.Unbounded? && !hi.Unbounded?
    && (Compare(lo.v, hi.v) == Greater || (lo.Excluded? && hi.Excluded? && Compare(lo.v, hi.v) == Equal))
  }

  /** All ids under keys in the range, in key order. */
  function Range(b: BTree, lo: Bound, hi: Bound): seq<RowId> {
    if b == [] then []
    else (if InRange(lo, hi, b[0].key) then b[0].ids else []) + Range(b[1..], lo, hi)
  }

  // ---------------------------------------------------------------- updates

  function Add(b: BTree, v: Value, r: RowId): BTree {
    if b == [] then [Entry(v, [r])]
    else match Compare(v, b[0].key)
      case Less => [Entry(v, [r])] + b
      case Equal => [b[0].(ids := Push(b[0].ids, r))] + b[1..]
      case Greater => [b[0]] + Add(b[1..], v, r)
  }

  function Remove(b: BTree, v: Value, r: RowId): BTree {
    if b == [] then []
    else match Compare(v, b[0].key)
      case Less => b
      case Equal =>
        var left := Without(b[0].ids, r);
        (if left == [] then [] else [b[0].(ids := left)]) + b[1..]
      case Greater => [b[0]] + Remove(b[1..], v, r)
  }

  // ---------------------------------------------------------------- invariant

  /** Keys from a lawful set in strictly ascending order, and under each a
      non-empty list of distinct ids. */
  ghost predicate WellFormed(dom: iset<Value>, b: BTree) {
    && (forall i :: 0 <= i < |b| ==> b[i].key in dom && b[i].ids != [] && NoDup(b[i].ids))
    && (forall i, j :: 0 <= i < j < |b| ==> Compare(b[i].key, b[j].key) == Less)
  }

  /** The value an update may bring in: one `v` below every key of `b`. */
  ghost predicate Below(v: Value, b: BTree) {
    forall i :: 0 <= i < |b| ==> Compare(v, b[i].key) == Less
  }

  lemma BelowByHead(dom: iset<Value>, b: BTree, v: Value)
    requires Lawful(dom) && WellFormed(dom, b) && v in dom && b != []
    requires Compare(v, b[0].key) == Less
    ensures Below(v, b)
  {
    forall i | 0 <= i < |b| ensures Compare(v, b[i].key) == Less {
      Chain(dom, v, b[0].key, b[i].key);
    }
  }

  lemma PrependWellFormed(dom: iset<Value>, e: Entry, b: BTree)
    requires WellFormed(dom, b) && Below(e.key, b) && e.key in dom && e.ids != [] && NoDup(e.ids)
    ensures WellFormed(dom, [e] + b)
  {
  }

  lemma TailWellFormed(dom: iset<Value>, b: BTree)
    requires WellFormed(dom, b) && b != []
    ensures WellFormed(dom, b[1..]) && Below(b[0].key, b[1..])
  {
  }

  lemma {:induction false} AddBelow(b: BTree, v: Value, r: RowId, u: Value)
    requires Below(u, b) && Compare(u, v) == Less
    ensures Below(u, Add(b, v, r))
  {
    hide Compare;
    if b != [] && Compare(v, b[0].key) == Greater {
      assert Below(u, b[1..]);
      AddBelow(b[1..], v, r, u);
    }
  }

  lemma {:induction false} RemoveBelow(b: BTree, v: Value, r: RowId, u: Value)
    requires Below(u, b)
    ensures Below(u, Remove(b, v, r))
  {
    hide Compare, Without;
    if b != [] && Compare(v, b[0].key) == Greater {
      assert Below(u, b[1..]);
      RemoveBelow(b[1..], v, r, u);
    }
  }

  lemma {:induction false} AddWellFormed(dom: iset<Value>, b: BTree, v: Value, r: RowId)
    requires Lawful(dom) && WellFormed(dom, b) && v in dom
    ensures WellFormed(dom, Add(b, v, r))
  {
    hide Compare, WellFormed, Below, Lawful;
    if b == [] {
      SingletonWellFormed(dom, Entry(v, [r]));
    } else {
      TailWellFormed(dom, b);
      HeadWellFormed(dom, b);
      match Compare(v, b[0].key)
      case Less =>
        BelowByHead(dom, b, v);
        PrependWellFormed(dom, Entry(v, [r]), b);
      case Equal =>
        PrependWellFormed(dom, b[0].(ids := Push(b[0].ids, r)), b[1..]);
      case Greater =>
        CompareFlips(v, b[0].key);
        AddWellFormed(dom, b[1..], v, r);
        AddBelow(b[1..], v, r, b[0].key);
        PrependWellFormed(dom, b[0], Add(b[1..], v, r));
    }
  }

  lemma SingletonWellFormed(dom: iset<Value>, e: Entry)
    requires e.key in dom && e.ids != [] && NoDup(e.ids)
    ensures WellFormed(dom, [e])
  {
  }

  lemma HeadWellFormed(dom: iset<Value>, b: BTree)
    requires WellFormed(dom, b) && b != []
    ensures b[0].key in dom && b[0].ids != [] && NoDup(b[0].ids)
  {
  }

  lemma {:induction false} RemoveWellFormed(dom: iset<Value>, b: BTree, v: Value, r: RowId)
    requires Lawful(dom) && WellFormed(dom, b) && v in dom
    ensures WellFormed(dom, Remove(b, v, r))
  {
    hide Compare, WellFormed, Below, Lawful;
    if b != [] {
      TailWellFormed(dom, b);
      HeadWellFormed(dom, b);
      match Compare(v, b[0].key)
      case Less =>
      case Equal =>
        var left := Without(b[0].ids, r);
        WithoutNoDup(b[0].ids, r);
        if left == [] {
          assert Remove(b, v, r) == b[1..];
        } else {
          PrependWellFormed(dom, b[0].(ids := left), b[1..]);
        }
      case Greater =>
        RemoveWellFormed(dom, b[1..], v, r);
        RemoveBelow(b[1..], v, r, b[0].key);
        PrependWellFormed(dom, b[0], Remove(b[1..], v, r));
    }
  }

  /** A lookup after `Add` sees the new id exactly under the keys Equal to `v`. */
  lemma {:induction false} AddIds(dom: iset<Value>, b: BTree, v: Value, r: RowId, u: Value)
    requires Lawful(dom) && WellFormed(dom, b) && v in dom && u in dom
    ensures Ids(Add(b, v, r), u) == if Compare(u, v) == Equal && r !in Ids(b, u) then Ids(b, u) + [r] else Ids(b, u)
  {
    if b != [] {
      var k := b[0].key;
      CompareFlips(u, v);
      CompareFlips(v, k);
      Chain(dom, u, v, k);
      Chain(dom, v, k, u);
      Chain(dom, v, u, k);
      Chain(dom, u, k, v);
      if Compare(v, k) == Greater {
        AddIds(dom, b[1..], v, r, u);
        CompareFlips(u, k);
        Chain(dom, k, v, u);
      }
    }
  }

  lemma {:induction false} RemoveIds(dom: iset<Value>, b: BTree, v: Value, r: RowId, u: Value)
    requires Lawful(dom) && WellFormed(dom, b) && v in dom && u in dom
    ensures Ids(Remove(b, v, r), u) == if Compare(u, v) == Equal then Without(Ids(b, u), r) else Ids(b, u)
  {
    if b != [] {
      var k := b[0].key;
      CompareFlips(u, v);
      CompareFlips(v, k);
      CompareFlips(u, k);
      Chain(dom, u, v, k);
      Chain(dom, v, k, u);
      Chain(dom, v, u, k);
      Chain(dom, u, k, v);
      if Compare(v, k) == Greater {
        RemoveIds(dom, b[1..], v, r, u);
        Chain(dom, k, v, u);
      } else if Compare(v, k) == Equal {
        var left := Without(b[0].ids, r);
        if Compare(u, k) != Greater && |b| > 1 {
          assert Compare(k, b[1].key) == Less;
          CompareFlips(k, b[1].key);
          Chain(dom, u, k, b[1].key);
          assert b[1..][0] == b[1];
          assert Ids(b[1..], u) == [];
        }
        if left == [] {
          assert Remove(b, v, r) == b[1..];
        } else {
          assert Remove(b, v, r)[1..] == b[1..];
        }
      }
    }
  }

  lemma {:induction false} IdsNoDup(dom: iset<Value>, b: BTree, u: Value)
    requires WellFormed(dom, b)
    ensures NoDup(Ids(b, u))
  {
    if b != [] { IdsNoDup(dom, b[1..], u); }
  }

  /** Values that compare Equal are looked up alike. */
  lemma {:induction false} IdsRespectEqual(dom: iset<Value>, b: BTree, u: Value, v: Value)
    requires Lawful(dom) && WellFormed(dom, b) && u in dom && v in dom
    requires Compare(u, v) == Equal
    ensures Ids(b, u) == Ids(b, v)
  {
    if b != [] {
      Chain(dom, u, v, b[0].key);
      IdsRespectEqual(dom, b[1..], u, v);
    }
  }

  lemma {:induction false} IdsAtEntry(dom: iset<Value>, b: BTree, i: nat)
    requires WellFormed(dom, b) && i < |b|
    ensures Ids(b, b[i].key) == b[i].ids
  {
    CompareReflexive(b[i].key);
    if i > 0 {
      CompareFlips(b[0].key, b[i].key);
      IdsAtEntry(dom, b[1..], i - 1);
      assert b[1..][i - 1] == b[i];
    }
  }

  /** An id found by a lookup sits in an entry whose key is Equal to the value. */
  lemma {:induction false} IdsEntry(b: BTree, u: Value, r: RowId) returns (i: nat)
    requires r in Ids(b, u)
    ensures i < |b| && r in b[i].ids && Compare(u, b[i].key) == Equal
  {
    if Compare(u, b[0].key) == Equal {
      i := 0;
    } else {
      var k := IdsEntry(b[1..], u, r);
      i := k + 1;
    }
  }

  lemma {:induction false} RangeMember(b: BTree, lo: Bound, hi: Bound, r: RowId)
    ensures r in Range(b, lo, hi) <==> exists i :: 0 <= i < |b| && InRange(lo, hi, b[i].key) && r in b[i].ids
  {
    if b != [] {
      RangeMember(b[1..], lo, hi, r);
      if i :| 0 <= i < |b| && InRange(lo, hi, b[i].key) && r in b[i].ids {
        if i > 0 { assert b[1..][i - 1] == b[i]; }
      }
    }
  }

  /** A range panics exactly when its lower bound lies above the upper one, or on it if
      both are excluded. */
  lemma BackwardsExactly(x: Value, y: Value)
    ensures RunsBackwards(Excluded(x), Excluded(y)) <==> Compare(x, y) != Less
    ensures RunsBackwards(Included(x), Included(y)) <==> Compare(x, y) == Greater
    ensures RunsBackwards(Included(x), Excluded(y)) <==> Compare(x, y) == Greater
    ensures RunsBackwards(Excluded(x), Included(y)) <==> Compare(x, y) == Greater
    ensures !RunsBackwards(Unbounded, Excluded(y)) && !RunsBackwards(Included(x), Unbounded)
  {
    hide Compare;
  }

  /** What one entry contributes to a range. */
  function Share(e: Entry, lo: Bound, hi: Bound): seq<RowId> {
    if InRange(lo, hi, e.key) then e.ids else []
  }

  lemma RangeHead(b: BTree, lo: Bound, hi: Bound)
    requires b != []
    ensures Range(b, lo, hi) == Share(b[0], lo, hi) + Range(b[1..], lo, hi)
  {
    hide InRange;
  }

  lemma Regroup(a: seq<RowId>, b: seq<RowId>, c: seq<RowId>)
    ensures (a + b) + c == a + (b + c)
  {
  }

  /** A range lists entry after entry, in key order, and the ids of each in their order:
      those of any entry stand between those of the entries before and after it. */
  lemma {:induction false} RangeInOrder(b: BTree, lo: Bound, hi: Bound, n: nat)
    requires n < |b|
    ensures Range(b, lo, hi) ==
              Range(b[..n], lo, hi) + ((if InRange(lo, hi, b[n].key) then b[n].ids else []) + Range(b[n + 1..], lo, hi))
    decreases n
  {
    hide Range, InRange;
    RangeHead(b, lo, hi);
    if n == 0 {
      assert b[..0] == [];
      NothingInRange(lo, hi);
    } else {
      RangeInOrder(b[1..], lo, hi, n - 1);
      RangeHead(b[..n], lo, hi);
      assert b[..n][1..] == b[1..][..n - 1] && b[1..][n..] == b[n + 1..] && b[1..][n - 1] == b[n];
      Regroup(Share(b[0], lo, hi), Range(b[..n][1..], lo, hi), Share(b[n], lo, hi) + Range(b[n + 1..], lo, hi));
    }
  }

  lemma NothingInRange(lo: Bound, hi: Bound)
    ensures Range([], lo, hi) == []
  {
  }

  /** Ranges respect the order: within a lawful set, Equal values are in the
      same ranges. */
  lemma InRangeRespectsEqual(dom: iset<Value>, lo: Bound, hi: Bound, u: Value, v: Value)
    requires Lawful(dom) && u in dom && v in dom
    requires (!lo.Unbounded? ==> lo.v in dom) && (!hi.Unbounded? ==> hi.v in dom)
    requires Compare(u, v) == Equal
    ensures InRange(lo, hi, u) == InRange(lo, hi, v)
  {
    if !lo.Unbounded? { Chain(dom, u, v, lo.v); }
    if !hi.Unbounded? { Chain(dom, u, v, hi.v); }
  }
}
