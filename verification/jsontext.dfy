/** How path texts and JSON values are read. */
module JsonTexts {
  import opened Wrappers
  import opened Values
  import opened JsonPaths
  import opened KeyStrings

  ghost predicate DotFreeParts(parts: seq<string>) {
    forall i, j :: 0 <= i < |parts| && 0 <= j < |parts[i]| ==> parts[i][j] != '.'
  }

  lemma {:induction false} PartsHaveNoDots(path: string)
    ensures DotFreeParts(Split(path))
    decreases path
  {
    if path != "" {
      PartsHaveNoDots(path[1..]);
      var rest := Split(path[1..]);
      assert forall i :: 0 < i < |rest| ==> rest[1..][i - 1] == rest[i];
    }
  }

  lemma {:induction false} JoinDetermines(a: seq<string>, b: seq<string>)
    requires a != [] && b != [] && DotFreeParts(a) && DotFreeParts(b) && JoinParts(a) == JoinParts(b)
    ensures a == b
    decreases |a|
  {
    var s := JoinParts(a);
    FirstPart(a);
    FirstPart(b);
    assert a[0] == b[0] by { SameHead(s, a[0], b[0]); }
    if |a| > 1 && |b| > 1 {
      assert s[|a[0]| + 1..] == JoinParts(a[1..]) == JoinParts(b[1..]);
      assert DotFreeParts(a[1..]) by { assert forall i :: 0 <= i < |a[1..]| ==> a[1..][i] == a[i + 1]; }
      assert DotFreeParts(b[1..]) by { assert forall i :: 0 <= i < |b[1..]| ==> b[1..][i] == b[i + 1]; }
      JoinDetermines(a[1..], b[1..]);
      assert a == [a[0]] + a[1..] && b == [b[0]] + b[1..];
    } else {
      assert |a| == 1 <==> |s| == |a[0]|;
    }
  }

  /** The first part ends where the text does, or at its first dot. */
  lemma FirstPart(a: seq<string>)
    requires a != [] && DotFreeParts(a)
    ensures var s := JoinParts(a);
            && a[0] <= s && (forall j :: 0 <= j < |a[0]| ==> s[j] != '.')
            && (|a| == 1 ==> s == a[0])
            && (|a| > 1 ==> |s| > |a[0]| && s[|a[0]|] == '.' && s[|a[0]| + 1..] == JoinParts(a[1..]))
  {
    if |a| > 1 {
      assert JoinParts(a) == a[0] + "." + JoinParts(a[1..]);
    }
  }

  lemma SameHead(s: string, p: string, q: string)
    requires p <= s && q <= s && (|p| == |s| || s[|p|] == '.') && (|q| == |s| || s[|q|] == '.')
    requires (forall j :: 0 <= j < |p| ==> s[j] != '.') && (forall j :: 0 <= j < |q| ==> s[j] != '.')
    ensures p == q
  {
    assert |p| == |q|;
    assert p == s[..|p|] && q == s[..|q|];
  }

  /** A path text is split at its dots, all of them: the parts have none, and joined
      with dots they are the text, which only they are. */
  lemma SplitExactly(path: string, parts: seq<string>)
    requires parts != [] && DotFreeParts(parts)
    ensures Split(path) == parts <==> JoinParts(parts) == path
  {
    SplitJoins(path);
    PartsHaveNoDots(path);
    if JoinParts(parts) == path { JoinDetermines(Split(path), parts); }
  }

  /** `json_extract` drops a leading `$`, then a leading dot, and takes nothing for the
      whole document; `json_set` drops nothing. */
  lemma PathsRead(path: string)
    requires path != "" && path[0] != '$' && path[0] != '.'
    ensures ExtractParts(path) == Split(path) == SetParts(path)
    ensures ExtractParts("$." + path) == ExtractParts("$" + path) == ExtractParts("." + path) == Split(path)
    ensures ExtractParts("") == ExtractParts("$") == ExtractParts("$.") == []
    ensures SetParts("$." + path) == ["$"] + Split(path)
  {
    assert ("$." + path)[1..] == "." + path && ("." + path)[1..] == path && ("$" + path)[1..] == path;
    assert "$"[1..] == "" && "$."[1..] == "." && "."[1..] == "";
    SplitJoins(path);
    PartsHaveNoDots(path);
    var parts := ["$"] + Split(path);
    assert parts[1..] == Split(path);
    assert DotFreeParts(parts) by { assert forall i :: 0 < i < |parts| ==> parts[i] == Split(path)[i - 1]; }
    assert JoinParts(parts) == "$" + "." + path;
    SplitExactly("$." + path, parts);
  }

  // ---------------------------------------------------------------- parts

  lemma {:induction false} DecimalDigits(n: nat)
    ensures AllDigits(Decimal(n))
    ensures Decimal(n) != [] && Digits(Decimal(n)) == n
  {
    if n < 10 {
      assert Decimal(n)[..0] == "";
    } else {
      DecimalDigits(n / 10);
      assert Decimal(n)[..|Decimal(n)| - 1] == Decimal(n / 10);
    }
  }

  lemma InBrackets(s: string)
    ensures ParsePart("[" + s + "]") == ParseIndex(s)
  {
    var part := "[" + s + "]";
    assert part[1..|part| - 1] == s;
    hide ParseIndex;
  }

  lemma NumberRead(n: nat)
    ensures ParseIndex(Decimal(n)) == ParseIndex("+" + Decimal(n)) == if n <= USIZE_MAX then Index(n) else BadIndex
  {
    DecimalDigits(n);
    assert ("+" + Decimal(n))[1..] == Decimal(n);
    assert !IsDigit('+') && IsDigit(Decimal(n)[0]);
    hide Decimal, Digits;
  }

  lemma NotAllDigits(d: string, i: nat)
    requires i < |d| && !IsDigit(d[i])
    ensures !AllDigits(d)
  {
  }

  lemma NoNumber(s: string)
    requires s == "" || s == "+" || exists i :: 0 < i < |s| && !IsDigit(s[i])
    ensures ParseIndex(s) == BadIndex
  {
    hide Digits;
    if s == "+" { assert !IsDigit(s[0]); }
    if i :| 0 < i < |s| && !IsDigit(s[i]) {
      var d := if |s| > 1 && s[0] == '+' then s[1..] else s;
      NotAllDigits(d, if s[0] == '+' then i - 1 else i);
    }
  }

  /** A number in brackets is an array index, if it is a 64-bit number; other text in
      brackets is no valid index; everything else is a key. */
  lemma PartsExactly(n: nat, s: string)
    ensures ParsePart("[" + Decimal(n) + "]") == if n <= USIZE_MAX then Index(n) else BadIndex
    ensures ParsePart("[" + ("+" + Decimal(n)) + "]") == ParsePart("[" + Decimal(n) + "]")
    ensures s == "" || s == "+" || (exists i :: 0 < i < |s| && !IsDigit(s[i])) ==> ParsePart("[" + s + "]") == BadIndex
    ensures s == "" || s[0] != '[' || s[|s| - 1] != ']' ==> ParsePart(s) == Key(s)
  {
    InBrackets(Decimal(n));
    InBrackets("+" + Decimal(n));
    InBrackets(s);
    NumberRead(n);
    if s == "" || s == "+" || exists i :: 0 < i < |s| && !IsDigit(s[i]) { NoNumber(s); }
    hide ParseIndex, Decimal;
  }

  // ---------------------------------------------------------------- why a set fails

  /** The node that the walk of `json_set` is at before the `n`-th part: a missing key of
      an object counts as an empty object. */
  function Met(t: Json, q: seq<Part>, n: nat): Option<Json>
    requires n <= |q|
  {
    if n == 0 then Some(t)
    else
      var node := Met(t, q, n - 1);
      if node.None? then None
      else if Child(node.value, q[n - 1]).Some? then Child(node.value, q[n - 1])
      else if q[n - 1].Key? && node.value.JObject? then Some(EMPTY_OBJECT)
      else None
  }

  /** What is wrong with a part at a node, if anything. */
  function Trouble(node: Json, part: Part): Option<JsonError> {
    match part
    case BadIndex => Some(InvalidIndex)
    case Index(i) => if !node.JArray? then Some(NotAnArray) else if i < |node.items| then None else Some(OutOfBounds)
    case Key(_) => if node.JObject? then None else Some(NotAnObject)
  }

  lemma {:induction false} MetRest(t: Json, q: seq<Part>, n: nat)
    requires q != [] && n < |q| && Enter(t, q[0]).Ok?
    ensures Met(t, q, n + 1) == Met(Enter(t, q[0]).value, q[1..], n)
    decreases n
  {
    if n > 0 { MetRest(t, q, n - 1); }
  }

  lemma MetFirst(t: Json, q: seq<Part>)
    ensures Met(t, q, 0) == Some(t)
  {
  }

  lemma SetStep(t: Json, q: seq<Part>, v: Json)
    requires q != []
    ensures Trouble(t, q[0]).Some? ==> SetAt(t, q, v) == Err(Trouble(t, q[0]).value)
    ensures Trouble(t, q[0]).None? && |q| == 1 ==> SetAt(t, q, v).Ok?
    ensures Trouble(t, q[0]).None? ==> Enter(t, q[0]).Ok?
    ensures Trouble(t, q[0]).None? && |q| > 1 ==>
              var inner := SetAt(Enter(t, q[0]).value, q[1..], v);
              if inner.Ok? then SetAt(t, q, v).Ok? else SetAt(t, q, v) == inner
  {
  }

  /** A set fails at the first part that does not fit the node it meets, with the error
      for that part, and succeeds exactly when every part fits. */
  lemma {:induction false} SetFailsExactly(t: Json, q: seq<Part>, v: Json) returns (n: nat)
    requires q != []
    ensures n <= |q|
    ensures forall m :: 0 <= m < n ==> Met(t, q, m).Some? && Trouble(Met(t, q, m).value, q[m]).None?
    ensures n == |q| ==> SetAt(t, q, v).Ok?
    ensures n < |q| ==> Met(t, q, n).Some? && Trouble(Met(t, q, n).value, q[n]).Some?
                          && SetAt(t, q, v) == Err(Trouble(Met(t, q, n).value, q[n]).value)
    decreases q
  {
    hide Enter, SetAt, Trouble, Met;
    n := 0;
    MetFirst(t, q);
    SetStep(t, q, v);
    if Trouble(t, q[0]).None? {
      if |q| == 1 {
        n := 1;
      } else {
        var inner := Enter(t, q[0]).value;
        var k := SetFailsExactly(inner, q[1..], v);
        n := k + 1;
        forall m | 1 <= m <= n && m < |q| ensures Met(t, q, m) == Met(inner, q[1..], m - 1) {
          MetRest(t, q, m - 1);
        }
        forall m | 0 <= m < n ensures Met(t, q, m).Some? && Trouble(Met(t, q, m).value, q[m]).None? {
          if m > 0 { assert q[1..][m - 1] == q[m]; }
        }
      }
    }
  }

  // ---------------------------------------------------------------- values

  /** JSON knows no booleans, integers beyond 64 bits and structures that SQL would:
      they are read as 1 and 0, as floats, and as the bytes of their texts. */
  lemma ReadExactly(c: Codec, b: bool, i: int, f: F64, s: string, t: Json)
    ensures FromJson(c, JNull) == Null
    ensures FromJson(c, JBool(b)) == Integer(if b then 1 else 0)
    ensures -0x8000_0000_0000_0000 <= i < 0x8000_0000_0000_0000 ==> FromJson(c, JInt(i)) == Integer(i)
    ensures !(-0x8000_0000_0000_0000 <= i < 0x8000_0000_0000_0000) ==>
              FromJson(c, JInt(i)) == Real(Num(RoundInt(i) as real))
    ensures FromJson(c, JReal(f)) == Real(f) && FromJson(c, JString(s)) == Text(s)
    ensures t.JArray? || t.JObject? ==> FromJson(c, t) == Blob(c.render(t))
  {
    hide RoundInt;
  }

  /** What is stored for a value: floats that JSON cannot write become null, and bytes
      that are no JSON text become a text. */
  lemma WrittenExactly(c: Codec, i: int, f: F64, s: string, bytes: seq<Byte>)
    ensures ToJson(c, Null) == JNull && ToJson(c, Integer(i)) == JInt(i) && ToJson(c, Text(s)) == JString(s)
    ensures ToJson(c, Real(f)) == if f in {NaN, PosInf, NegInf} then JNull else JReal(f)
    ensures c.parse(bytes).Some? ==> ToJson(c, Blob(bytes)) == c.parse(bytes).value
    ensures c.parse(bytes).None? ==> ToJson(c, Blob(bytes)) == JString(c.base64(bytes))
  {
  }
}
