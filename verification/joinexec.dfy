/** The joins as they are executed: loops that push combined rows. */
module JoinExecution {
  import opened Wrappers
  import opened Values
  import opened Externals
  import opened Expressions
  import opened Store
  import opened KeyStrings
  import opened Joins
  import opened OuterJoins
  import opened JoinChains

  // ---------------------------------------------------------------- one turn of each loop

  lemma Regroup(a: seq<Row>, b: seq<Row>, c: seq<Row>)
    ensures (a + b) + c == a + (b + c)
    ensures a + [] == a
  {
  }

  lemma PartnersTurn(m: Test, row1: Row, name2: string, rows2: seq<Row>, j: nat)
    requires j < |rows2|
    ensures var combined := Merge(row1, name2, rows2[j]);
            Partners(m, row1, name2, rows2[j..]) ==
              (if m(combined) then [combined] else []) + Partners(m, row1, name2, rows2[j + 1..])
  {
    assert rows2[j..][1..] == rows2[j + 1..];
  }

  lemma LeftPartnersTurn(m: Test, left: seq<Row>, name2: string, row2: Row, i: nat)
    requires i < |left|
    ensures var combined := Merge(left[i], name2, row2);
            LeftPartners(m, left[i..], name2, row2) ==
              (if m(combined) then [combined] else []) + LeftPartners(m, left[i + 1..], name2, row2)
  {
    assert left[i..][1..] == left[i + 1..];
  }

  lemma InnerTurn(find: Finder, left: seq<Row>, i: nat)
    requires i < |left|
    ensures InnerRows(find, left[i..]) == find(left[i]) + InnerRows(find, left[i + 1..])
  {
    assert left[i..][1..] == left[i + 1..];
  }

  lemma LeftTurn(find: Finder, left: seq<Row>, right: Side, i: nat)
    requires i < |left|
    ensures LeftRows(find, left[i..], right) ==
              (if find(left[i]) == [] then [Padded(left[i], right)]
                else find(left[i])) + LeftRows(find, left[i + 1..], right)
  {
    assert left[i..][1..] == left[i + 1..];
  }

  lemma RightTurn(m: Test, left: seq<Row>, columns: seq<string>, right: Side, rows2: seq<Row>, j: nat)
    requires j < |rows2|
    ensures var found := LeftPartners(m, left, right.name, rows2[j]);
            RightRows(m, left, columns, right, rows2[j..]) ==
              (if found == [] then [RightOnly(columns, right, rows2[j])]
                else found) + RightRows(m, left, columns, right, rows2[j + 1..])
  {
    assert rows2[j..][1..] == rows2[j + 1..];
  }

  lemma RestTurn(m: Test, left: seq<Row>, columns: seq<string>, right: Side, rows2: seq<Row>, j: nat)
    requires j < |rows2|
    ensures RightOnlyRows(m, left, columns, right, rows2[j..]) ==
              (if LeftPartners(m, left, right.name, rows2[j]) == [] then [RightOnly(columns, right, rows2[j])] else [])
              + RightOnlyRows(m, left, columns, right, rows2[j + 1..])
  {
    assert rows2[j..][1..] == rows2[j + 1..];
  }

  lemma BucketTurn(w: World, rows2: seq<Row>, column: string, key: string, i: nat, seen: seq<Row>)
    requires i < |rows2|
    requires seen + Bucket(w, rows2[i..], column, key) == Bucket(w, rows2, column, key)
    ensures var mine := rows2[i].Has(column) && KeyString(w, rows2[i].vals[column]) == key;
            (if mine then seen + [rows2[i]] else seen) + Bucket(w, rows2[i + 1..], column, key) ==
              Bucket(w, rows2, column, key)
  {
    hide KeyString;
    assert rows2[i..][1..] == rows2[i + 1..];
    var rest := Bucket(w, rows2[i + 1..], column, key);
    Regroup(seen, [rows2[i]], rest);
    assert [] + rest == rest;
  }

  // ---------------------------------------------------------------- the loops

  method HashByColumn(w: World, rows2: seq<Row>, column: string) returns (table: map<string, seq<Row>>)
    ensures forall key :: (if key in table then table[key] else []) == Bucket(w, rows2, column, key)
  {
    hide KeyString, Bucket;
    table := map[];
    assert rows2[0..] == rows2;
    forall key ensures [] + Bucket(w, rows2, column, key) == Bucket(w, rows2, column, key) {}
    for i := 0 to |rows2|
      invariant forall key ::
                  (if key in table then table[key] else []) + Bucket(w, rows2[i..], column, key)
                    == Bucket(w, rows2, column, key)
    {
      forall key {
        BucketTurn(w, rows2, column, key, i, if key in table then table[key] else []);
      }
      var r := rows2[i];
      if r.Has(column) {
        var key := KeyString(w, r.vals[column]);
        table := table[key := (if key in table then table[key] else []) + [r]];
      }
    }
    forall key ensures (if key in table then table[key] else []) == Bucket(w, rows2, column, key) {
      EmptyBucket(w, rows2, column, key);
    }
  }

  lemma EmptyBucket(w: World, rows2: seq<Row>, column: string, key: string)
    ensures Bucket(w, rows2[|rows2|..], column, key) == []
  {
  }

  method CombineAll(row1: Row, name2: string, matches: seq<Row>) returns (out: seq<Row>)
    ensures out == MergeAll(row1, name2, matches)
  {
    hide Merge;
    out := [];
    for i := 0 to |matches|
      invariant out + MergeAll(row1, name2, matches[i..]) == MergeAll(row1, name2, matches)
    {
      assert matches[i..][1..] == matches[i + 1..];
      var combined := Merge(row1, name2, matches[i]);
      Regroup(out, [combined], MergeAll(row1, name2, matches[i + 1..]));
      out := out + [combined];
    }
  }

  /** The partners of a left row, from the hash table. */
  method Probe(w: World, row1: Row, q1: string, table: map<string, seq<Row>>, ghost right: Side, ghost column: string)
    returns (matches: seq<Row>)
    requires forall key :: (if key in table then table[key] else []) == Bucket(w, right.rows, column, key)
    ensures MergeAll(row1, right.name, matches) == ByHash(w, q1, right, column)(row1)
    ensures matches == [] <==> ByHash(w, q1, right, column)(row1) == []
  {
    hide KeyString, Merge, Bucket;
    matches := [];
    if row1.Has(q1) {
      var key := KeyString(w, row1.vals[q1]);
      if key in table { matches := table[key]; }
      assert matches == Bucket(w, right.rows, column, key);
    }
  }

  method HashInner(w: World, left: seq<Row>, q1: string, right: Side, column: string) returns (out: seq<Row>)
    ensures out == InnerRows(ByHash(w, q1, right, column), left)
  {
    hide InnerRows, ByHash, Bucket;
    ghost var find := ByHash(w, q1, right, column);
    var table := HashByColumn(w, right.rows, column);
    out := [];
    assert left[0..] == left;
    for i := 0 to |left|
      invariant out + InnerRows(find, left[i..]) == InnerRows(find, left)
    {
      InnerTurn(find, left, i);
      var matches := Probe(w, left[i], q1, table, right, column);
      var found := CombineAll(left[i], right.name, matches);
      Regroup(out, found, InnerRows(find, left[i + 1..]));
      out := out + found;
    }
    EmptyFrom(find, left, right);
  }

  lemma EmptyFrom(find: Finder, left: seq<Row>, right: Side)
    ensures InnerRows(find, left[|left|..]) == [] && LeftRows(find, left[|left|..], right) == []
  {
  }

  method HashLeft(w: World, left: seq<Row>, q1: string, right: Side, column: string) returns (out: seq<Row>)
    ensures out == LeftRows(ByHash(w, q1, right, column), left, right)
  {
    hide LeftRows, ByHash, Bucket, Padded;
    ghost var find := ByHash(w, q1, right, column);
    var table := HashByColumn(w, right.rows, column);
    out := [];
    assert left[0..] == left;
    for i := 0 to |left|
      invariant out + LeftRows(find, left[i..], right) == LeftRows(find, left, right)
    {
      LeftTurn(find, left, right, i);
      var matches := Probe(w, left[i], q1, table, right, column);
      var found := [Padded(left[i], right)];
      if matches != [] { found := CombineAll(left[i], right.name, matches); }
      Regroup(out, found, LeftRows(find, left[i + 1..], right));
      out := out + found;
    }
    EmptyFrom(find, left, right);
  }

  /** One left row against all right rows. */
  method NestedRow(m: Test, row1: Row, right: Side) returns (out: seq<Row>)
    ensures out == Partners(m, row1, right.name, right.rows)
  {
    hide Merge, Partners;
    out := [];
    assert right.rows[0..] == right.rows;
    for j := 0 to |right.rows|
      invariant out + Partners(m, row1, right.name, right.rows[j..]) == Partners(m, row1, right.name, right.rows)
    {
      PartnersTurn(m, row1, right.name, right.rows, j);
      var combined := Merge(row1, right.name, right.rows[j]);
      Regroup(out, if m(combined) then [combined] else [], Partners(m, row1, right.name, right.rows[j + 1..]));
      if m(combined) { out := out + [combined]; }
    }
    NoPartners(m, row1, right.name, right.rows);
  }

  lemma NoPartners(m: Test, row1: Row, name2: string, rows2: seq<Row>)
    ensures Partners(m, row1, name2, rows2[|rows2|..]) == []
  {
  }

  method NestedInner(m: Test, left: seq<Row>, right: Side) returns (out: seq<Row>)
    ensures out == InnerRows(ByLoop(m, right), left)
  {
    hide InnerRows, Partners;
    ghost var find := ByLoop(m, right);
    out := [];
    assert left[0..] == left;
    for i := 0 to |left|
      invariant out + InnerRows(find, left[i..]) == InnerRows(find, left)
    {
      InnerTurn(find, left, i);
      var found := NestedRow(m, left[i], right);
      Regroup(out, found, InnerRows(find, left[i + 1..]));
      out := out + found;
    }
    EmptyFrom(find, left, right);
  }

  method NestedLeft(m: Test, left: seq<Row>, right: Side) returns (out: seq<Row>)
    ensures out == LeftRows(ByLoop(m, right), left, right)
  {
    hide LeftRows, Partners, Padded;
    ghost var find := ByLoop(m, right);
    out := [];
    assert left[0..] == left;
    for i := 0 to |left|
      invariant out + LeftRows(find, left[i..], right) == LeftRows(find, left, right)
    {
      LeftTurn(find, left, right, i);
      var found := NestedRow(m, left[i], right);
      if found == [] { found := [Padded(left[i], right)]; }
      Regroup(out, found, LeftRows(find, left[i + 1..], right));
      out := out + found;
    }
    EmptyFrom(find, left, right);
  }

  /** One right row against all left rows. */
  method NestedColumn(m: Test, left: seq<Row>, name2: string, row2: Row) returns (out: seq<Row>, matched: bool)
    ensures out == LeftPartners(m, left, name2, row2) && (matched <==> out != [])
  {
    hide Merge, LeftPartners;
    out, matched := [], false;
    assert left[0..] == left;
    for i := 0 to |left|
      invariant out + LeftPartners(m, left[i..], name2, row2) == LeftPartners(m, left, name2, row2)
      invariant matched <==> out != []
    {
      LeftPartnersTurn(m, left, name2, row2, i);
      var combined := Merge(left[i], name2, row2);
      Regroup(out, if m(combined) then [combined] else [], LeftPartners(m, left[i + 1..], name2, row2));
      if m(combined) { out, matched := out + [combined], true; }
    }
    NoLeftPartners(m, left, name2, row2);
  }

  lemma NoLeftPartners(m: Test, left: seq<Row>, name2: string, row2: Row)
    ensures LeftPartners(m, left[|left|..], name2, row2) == []
  {
  }

  method NestedRight(m: Test, left: seq<Row>, right: Side) returns (out: seq<Row>)
    ensures out == RightRows(m, left, LeftColumns(left), right, right.rows)
  {
    hide RightRows, RightOnly, LeftPartners;
    var columns := LeftColumns(left);
    out := [];
    assert right.rows[0..] == right.rows;
    for j := 0 to |right.rows|
      invariant out + RightRows(m, left, columns, right, right.rows[j..]) ==
        RightRows(m, left, columns, right, right.rows)
    {
      RightTurn(m, left, columns, right, right.rows, j);
      var found, matched := NestedColumn(m, left, right.name, right.rows[j]);
      if !matched { found := [RightOnly(columns, right, right.rows[j])]; }
      Regroup(out, found, RightRows(m, left, columns, right, right.rows[j + 1..]));
      out := out + found;
    }
    NoRight(m, left, columns, right, right.rows);
  }

  lemma NoRight(m: Test, left: seq<Row>, columns: seq<string>, right: Side, rows2: seq<Row>)
    ensures RightRows(m, left, columns, right, rows2[|rows2|..]) == []
    ensures RightOnlyRows(m, left, columns, right, rows2[|rows2|..]) == []
  {
  }

  /** One left row of a FULL join: also flags the right rows it meets. */
  method FlaggedRow(m: Test, left: seq<Row>, i: nat, right: Side, matched2: array<bool>) returns (out: seq<Row>)
    requires i < |left| && matched2.Length == |right.rows|
    requires forall j :: 0 <= j < |right.rows| ==> (matched2[j] <==> MetBy(m, left, i, right, j))
    modifies matched2
    ensures out == Partners(m, left[i], right.name, right.rows)
    ensures forall j :: 0 <= j < |right.rows| ==> (matched2[j] <==> MetBy(m, left, i + 1, right, j))
  {
    hide Merge, Partners, MetBy;
    out := [];
    assert right.rows[0..] == right.rows;
    for j := 0 to |right.rows|
      invariant out + Partners(m, left[i], right.name, right.rows[j..]) == Partners(m, left[i], right.name, right.rows)
      invariant forall k :: 0 <= k < j ==> (matched2[k] <==> MetBy(m, left, i + 1, right, k))
      invariant forall k :: j <= k < |right.rows| ==> (matched2[k] <==> MetBy(m, left, i, right, k))
    {
      PartnersTurn(m, left[i], right.name, right.rows, j);
      MetByOneMore(m, left, i, right, j);
      var combined := Merge(left[i], right.name, right.rows[j]);
      Regroup(out, if m(combined) then [combined] else [], Partners(m, left[i], right.name, right.rows[j + 1..]));
      if m(combined) {
        out := out + [combined];
        matched2[j] := true;
      }
    }
    NoPartners(m, left[i], right.name, right.rows);
  }

  lemma MetByOneMore(m: Test, left: seq<Row>, i: nat, right: Side, j: nat)
    requires i < |left| && j < |right.rows|
    ensures MetBy(m, left, i + 1, right, j) <==>
              MetBy(m, left, i, right, j) || m(Merge(left[i], right.name, right.rows[j]))
  {
    hide Merge;
  }

  lemma MetByAll(m: Test, left: seq<Row>, right: Side, j: nat)
    requires j < |right.rows|
    ensures MetBy(m, left, |left|, right, j) <==> LeftPartners(m, left, right.name, right.rows[j]) != []
    ensures !MetBy(m, left, 0, right, j)
  {
    hide Merge;
    LeftPartnersEmpty(m, left, right.name, right.rows[j]);
  }

  /** FULL OUTER in one pass over the pairs, with a flag per right row. */
  method NestedFull(m: Test, left: seq<Row>, right: Side) returns (out: seq<Row>)
    ensures out == FullRows(m, left, right)
  {
    hide RightOnly, Padded, LeftPartners, Partners, LeftRows, RightOnlyRows, MetBy;
    ghost var find := ByLoop(m, right);
    var columns, n := LeftColumns(left), |right.rows|;
    var matched2 := new bool[n](j => false);
    forall j: nat | j < n { MetByAll(m, left, right, j); }
    out := [];
    assert left[0..] == left;
    for i := 0 to |left|
      invariant out + LeftRows(find, left[i..], right) == LeftRows(find, left, right)
      invariant forall j :: 0 <= j < n ==> (matched2[j] <==> MetBy(m, left, i, right, j))
    {
      LeftTurn(find, left, right, i);
      var found := FlaggedRow(m, left, i, right, matched2);
      if found == [] { found := [Padded(left[i], right)]; }
      Regroup(out, found, LeftRows(find, left[i + 1..], right));
      out := out + found;
    }
    EmptyFrom(find, left, right);
    Regroup(out, [], []);
    ghost var matches := out;
    assert right.rows[0..] == right.rows;
    for j := 0 to n
      invariant out + RightOnlyRows(m, left, columns, right, right.rows[j..]) ==
        matches + RightOnlyRows(m, left, columns, right, right.rows)
      invariant forall k :: 0 <= k < n ==> (matched2[k] <==> MetBy(m, left, |left|, right, k))
    {
      RestTurn(m, left, columns, right, right.rows, j);
      MetByAll(m, left, right, j);
      var row := RightOnly(columns, right, right.rows[j]);
      Regroup(out, if matched2[j] then [] else [row], RightOnlyRows(m, left, columns, right, right.rows[j + 1..]));
      if !matched2[j] { out := out + [row]; }
    }
    NoRight(m, left, columns, right, right.rows);
    Regroup(out, [], []);
  }

  /** One of the first `n` left rows matches the `j`-th right row. */
  ghost predicate MetBy(m: Test, left: seq<Row>, n: int, right: Side, j: int)
    requires 0 <= n <= |left| && 0 <= j < |right.rows|
  {
    exists i :: 0 <= i < n && m(Merge(left[i], right.name, right.rows[j]))
  }

  /** One JOIN: by hashing where it may be, otherwise by nested loops. */
  method ExecuteHop(w: World, hits: Hits, params: seq<Value>, name1: string, left: seq<Row>, op: JoinOp, right: Side,
      first: bool) returns (res: Joined)
    ensures res == HopRows(w, hits, params, name1, left, op, right, first)
  {
    hide InnerRows, LeftRows, RightRows, FullRows, ByLoop, ByHash;
    var equi := EquiOf(op, name1, right.name, first);
    var rows;
    match op {
      case Inner(c) =>
        if equi.Some? {
          rows := HashInner(w, left, QualifiedName(name1, equi.value.0), right, equi.value.1);
        } else {
          rows := NestedInner(TestOf(w, hits, c, params), left, right);
        }
      case LeftOuter(c) =>
        if equi.Some? {
          rows := HashLeft(w, left, QualifiedName(name1, equi.value.0), right, equi.value.1);
        } else {
          rows := NestedLeft(TestOf(w, hits, c, params), left, right);
        }
      case RightOuter(c) => rows := NestedRight(TestOf(w, hits, c, params), left, right);
      case FullOuter(c) => rows := NestedFull(TestOf(w, hits, c, params), left, right);
      case Cross => rows := NestedInner(AnyRow(), left, right);
      case OtherJoin => return Err(UnsupportedStatement);
    }
    return Ok(rows);
  }

  /** A whole FROM clause. */
  method ExecuteJoins(w: World, hits: Hits, params: seq<Value>, name1: string, stored: seq<Row>,
      hops: seq<Hop>) returns (res: Joined)
    ensures res == JoinChains.Chain(w, hits, params, name1, Entering(name1, stored), hops, true)
    ensures w.PrintsDoublesApart() && (hops != [] ==> HashSafe(name1, stored, hops[0])) ==>
              FromClause(w, hits, params, name1, stored, hops, res)
  {
    hide Merge, HopRows, FromClause, HashSafe;
    if w.PrintsDoublesApart() && (hops != [] ==> HashSafe(name1, stored, hops[0])) {
      ChainExactly(w, hits, params, name1, stored, hops);
    }
    var result := [];
    assert hops[0..] == hops;
    for i := 0 to |stored|
      invariant result + Entering(name1, stored[i..]) == Entering(name1, stored)
    {
      assert stored[i..][1..] == stored[i + 1..];
      result := result + [Merge(EMPTY_ROW, name1, stored[i])];
    }
    Regroup(result, [], []);
    for k := 0 to |hops|
      invariant JoinChains.Chain(w, hits, params, name1, result, hops[k..], k == 0) ==
        JoinChains.Chain(w, hits, params, name1, Entering(name1, stored), hops, true)
    {
      assert hops[k..][1..] == hops[k + 1..];
      var hop := hops[k];
      if hop.right.None? { return Err(NoSuchTable(hop.table)); }
      var next := ExecuteHop(w, hits, params, name1, result, hop.op, hop.right.value, k == 0);
      if next.Err? { return next; }
      result := next.value;
    }
    return Ok(result);
  }
}
