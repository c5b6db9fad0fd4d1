/** Reading and writing a JSON tree at a path. */
module JsonPaths {
  import opened Wrappers
  import opened Values

  datatype Json =
    | JNull
    | JBool(b: bool)
    | JInt(i: int)
    | JReal(f: F64)
    | JString(s: string)
    | JArray(items: seq<Json>)
    | JObject(fields: map<string, Json>)

  const EMPTY_OBJECT := JObject(map[])

  datatype JsonError = InvalidIndex | OutOfBounds | NotAnArray | NotAnObject

  // ---------------------------------------------------------------- path text

  /** `split('.')`: never empty. */
  function Split(path: string): (parts: seq<string>)
    ensures parts != []
  {
    if path == "" then [""]
    else
      var rest := Split(path[1..]);
      if path[0] == '.' then [""] + rest else [[path[0]] + rest[0]] + rest[1..]
  }

  function StripPrefix(path: string, c: char): string {
    if path != "" && path[0] == c then path[1..] else path
  }

  /** How `json_set` reads a path. */
  function SetParts(path: string): seq<string> {
    Split(path)
  }

  /** How `json_extract` reads a path: without a leading `$`, then a leading dot;
      and nothing is the root. */
  function ExtractParts(path: string): seq<string> {
    var p := StripPrefix(StripPrefix(path, '$'), '.');
    if p == "" then [] else Split(p)
  }

  function JoinParts(parts: seq<string>): string
    requires parts != []
  {
    if |parts| == 1 then parts[0] else parts[0] + "." + JoinParts(parts[1..])
  }

  lemma JoinCons(part: string, rest: seq<string>)
    requires rest != []
    ensures JoinParts([part] + rest) == part + "." + JoinParts(rest)
  {
    assert ([part] + rest)[1..] == rest;
  }

  lemma FirstCharacter(c: char, a: string, b: string)
    ensures ([c] + a) + "." + b == [c] + (a + "." + b)
  {
  }

  lemma OnePart(part: string)
    ensures JoinParts([part]) == part
  {
  }

  /** One more character before the first part. */
  lemma JoinPrepend(c: char, rest: seq<string>)
    requires rest != []
    ensures JoinParts([[c] + rest[0]] + rest[1..]) == [c] + JoinParts(rest)
  {
    hide JoinParts;
    if |rest| == 1 {
      assert [[c] + rest[0]] + rest[1..] == [[c] + rest[0]] && rest == [rest[0]];
      OnePart([c] + rest[0]);
      OnePart(rest[0]);
    } else {
      assert rest == [rest[0]] + rest[1..];
      JoinCons([c] + rest[0], rest[1..]);
      JoinCons(rest[0], rest[1..]);
      FirstCharacter(c, rest[0], JoinParts(rest[1..]));
    }
  }

  lemma {:induction false} SplitJoins(path: string)
    ensures JoinParts(Split(path)) == path
  {
    hide JoinParts;
    if path == "" {
      OnePart("");
    } else {
      SplitJoins(path[1..]);
      JoinPrepend(path[0], Split(path[1..]));
      JoinCons("", Split(path[1..]));
      assert path == [path[0]] + path[1..];
    }
  }

  /** Both functions read a path alike exactly when it is not empty and starts
      with neither `$` nor a dot. */
  lemma PathsAgreeExactly(path: string)
    ensures SetParts(path) == ExtractParts(path) <==> path != "" && path[0] != '$' && path[0] != '.'
  {
    var p := StripPrefix(StripPrefix(path, '$'), '.');
    SplitJoins(path);
    SplitJoins(p);
  }

  // ---------------------------------------------------------------- path parts

  datatype Part = Key(name: string) | Index(i: nat) | BadIndex

  predicate IsDigit(c: char) {
    '0' <= c <= '9'
  }

  predicate AllDigits(s: string) {
    forall i :: 0 <= i < |s| ==> IsDigit(s[i])
  }

  function Digits(s: string): nat
    requires AllDigits(s)
  {
    if s == "" then 0
    else
      assert IsDigit(s[|s| - 1]);
      10 * Digits(s[..|s| - 1]) + (s[|s| - 1] as int - '0' as int)
  }

  /** `usize::from_str`: digits, after a plus sign perhaps. */
  function ParseIndex(s: string): Part {
    var d := if |s| > 1 && s[0] == '+' then s[1..] else s;
    if d != "" && AllDigits(d) then
      if Digits(d) <= USIZE_MAX then Index(Digits(d)) else BadIndex
    else BadIndex
  }

  function ParsePart(s: string): Part {
    if s != "" && s[0] == '[' && s[|s| - 1] == ']' then ParseIndex(s[1..|s| - 1]) else Key(s)
  }

  function ParseParts(parts: seq<string>): (q: seq<Part>)
    ensures |q| == |parts|
  {
    seq(|parts|, i requires 0 <= i < |parts| => ParsePart(parts[i]))
  }

  // ---------------------------------------------------------------- walking down

  /** What a part leads to, if it leads anywhere. */
  function Child(t: Json, part: Part): Option<Json> {
    match part
    case Key(name) => if t.JObject? && name in t.fields then Some(t.fields[name]) else None
    case Index(i) => if t.JArray? && i < |t.items| then Some(t.items[i]) else None
    case BadIndex => None
  }

  function Lookup(t: Json, q: seq<Part>): Option<Json>
    decreases q
  {
    if q == [] then Some(t)
    else
      var next := Child(t, q[0]);
      if next.Some? then Lookup(next.value, q[1..]) else None
  }

  /** The walk of `json_extract`: a malformed index is an error once it is
      reached, anything else that leads nowhere is `None`. */
  function Walk(t: Json, q: seq<Part>): Result<Option<Json>, JsonError>
    decreases q
  {
    if q == [] then Ok(Some(t))
    else if q[0].BadIndex? then Err(InvalidIndex)
    else
      var next := Child(t, q[0]);
      if next.Some? then Walk(next.value, q[1..]) else Ok(None)
  }

  method Extract(t: Json, q: seq<Part>) returns (res: Result<Option<Json>, JsonError>)
    ensures res == Walk(t, q)
  {
    var current := t;
    assert q[0..] == q;
    for i := 0 to |q|
      invariant Walk(current, q[i..]) == Walk(t, q)
    {
      assert q[i..][1..] == q[i + 1..];
      if q[i].BadIndex? { return Err(InvalidIndex); }
      var next := Child(current, q[i]);
      if next.None? { return Ok(None); }
      current := next.value;
    }
    return Ok(Some(current));
  }

  // ---------------------------------------------------------------- writing

  /** Writes `child` under an object key or an existing array position. */
  function Replace(t: Json, part: Part, child: Json): Result<Json, JsonError> {
    match part
    case BadIndex => Err(InvalidIndex)
    case Index(i) =>
      if !t.JArray? then Err(NotAnArray)
      else if i < |t.items| then Ok(JArray(t.items[i := child])) else Err(OutOfBounds)
    case Key(name) => if t.JObject? then Ok(JObject(t.fields[name := child])) else Err(NotAnObject)
  }

  /** Where the walk of `json_set` goes next: into an empty object that it creates
      when the key is missing. */
  function Enter(t: Json, part: Part): Result<Json, JsonError> {
    match part
    case BadIndex => Err(InvalidIndex)
    case Index(i) =>
      if !t.JArray? then Err(NotAnArray)
      else if i < |t.items| then Ok(t.items[i]) else Err(OutOfBounds)
    case Key(name) =>
      if !t.JObject? then Err(NotAnObject)
      else if name in t.fields then Ok(t.fields[name]) else Ok(EMPTY_OBJECT)
  }

  function SetAt(t: Json, q: seq<Part>, v: Json): Result<Json, JsonError>
    requires q != []
    decreases q
  {
    if |q| == 1 then Replace(t, q[0], v)
    else
      match Enter(t, q[0])
      case Err(e) => Err(e)
      case Ok(inner) =>
        match SetAt(inner, q[1..], v)
        case Err(e) => Err(e)
        case Ok(inner') => Replace(t, q[0], inner')
  }

  // ---------------------------------------------------------------- laws

  lemma ReplaceThenChild(t: Json, part: Part, child: Json, other: Part)
    requires Replace(t, part, child).Ok?
    ensures !part.BadIndex?
    ensures Child(Replace(t, part, child).value, other) == if other == part then Some(child) else Child(t, other)
  {
  }

  lemma EnterThenReplace(t: Json, part: Part, child: Json)
    requires Enter(t, part).Ok?
    ensures Replace(t, part, child).Ok?
    ensures Enter(Replace(t, part, child).value, part) == Ok(child)
  {
  }

  lemma ReplaceTwice(t: Json, part: Part, a: Json, b: Json)
    requires Replace(t, part, a).Ok?
    ensures Replace(Replace(t, part, a).value, part, b) == Replace(t, part, b)
  {
    if part.Index? {
      assert t.items[part.i := a][part.i := b] == t.items[part.i := b];
    } else {
      assert t.fields[part.name := a][part.name := b] == t.fields[part.name := b];
    }
  }

  /** After a successful set, the value is there. */
  lemma {:induction false} SetThenGet(t: Json, q: seq<Part>, v: Json)
    requires q != [] && SetAt(t, q, v).Ok?
    ensures Walk(SetAt(t, q, v).value, q) == Ok(Some(v))
    decreases q
  {
    hide Replace, Enter;
    if |q| == 1 {
      ReplaceThenChild(t, q[0], v, q[0]);
      assert Walk(v, q[1..]) == Ok(Some(v));
    } else {
      var inner := Enter(t, q[0]).value;
      SetThenGet(inner, q[1..], v);
      ReplaceThenChild(t, q[0], SetAt(inner, q[1..], v).value, q[0]);
    }
  }

  /** A second set overwrites the first, leaving no trace of it. */
  lemma {:induction false} SetTwice(t: Json, q: seq<Part>, a: Json, b: Json)
    requires q != [] && SetAt(t, q, a).Ok?
    ensures SetAt(SetAt(t, q, a).value, q, b) == SetAt(t, q, b)
    decreases q
  {
    hide Replace, Enter;
    if |q| == 1 {
      ReplaceTwice(t, q[0], a, b);
    } else {
      var inner := Enter(t, q[0]).value;
      var inner' := SetAt(inner, q[1..], a).value;
      EnterThenReplace(t, q[0], inner');
      SetTwice(inner, q[1..], a, b);
      if SetAt(inner, q[1..], b).Ok? {
        ReplaceTwice(t, q[0], inner', SetAt(inner, q[1..], b).value);
      }
    }
  }

  /** `p` and `q` agree on their first `n` parts and then part ways. */
  predicate Diverge(p: seq<Part>, q: seq<Part>, n: nat) {
    n < |p| && n < |q| && p[..n] == q[..n] && p[n] != q[n]
  }

  /** A path that parts ways with the one that was set reads as before, where
      objects were created on the way as well; the one exception is a malformed
      index right where an object was created, which is only now reached. */
  lemma {:induction false} SetElsewhereExactly(t: Json, q: seq<Part>, v: Json, p: seq<Part>, n: nat)
    requires Diverge(p, q, n) && SetAt(t, q, v).Ok?
    ensures Walk(SetAt(t, q, v).value, p) == Walk(t, p) <==> Lookup(t, p[..n]).Some? || !p[n].BadIndex?
    decreases n
  {
    hide Replace, Enter;
    var t' := SetAt(t, q, v).value;
    if n == 0 {
      assert p[..0] == [];
      var child := if |q| == 1 then v else SetAt(Enter(t, q[0]).value, q[1..], v).value;
      ReplaceThenChild(t, q[0], child, p[0]);
    } else {
      assert p[0] == p[..n][0] == q[..n][0] == q[0];
      var inner := Enter(t, q[0]).value;
      var inner' := SetAt(inner, q[1..], v).value;
      ReplaceThenChild(t, q[0], inner', p[0]);
      assert Diverge(p[1..], q[1..], n - 1) by {
        assert p[1..][..n - 1] == p[..n][1..] && q[1..][..n - 1] == q[..n][1..];
      }
      SetElsewhereExactly(inner, q[1..], v, p[1..], n - 1);
      assert p[..n][1..] == p[1..][..n - 1];
      EnterFinds(t, q[0]);
      if Child(t, q[0]).None? { CreatedPath(p[1..], q[1..], v, n - 1); }
    }
  }

  lemma EnterFinds(t: Json, part: Part)
    requires Enter(t, part).Ok?
    ensures Enter(t, part).value == if Child(t, part).Some? then Child(t, part).value else EMPTY_OBJECT
  {
  }

  /** Below an object that was created: what the empty object, and nothing at all,
      would have answered. */
  lemma CreatedPath(p: seq<Part>, q: seq<Part>, v: Json, n: nat)
    requires Diverge(p, q, n) && SetAt(EMPTY_OBJECT, q, v).Ok?
    ensures n > 0 ==> Walk(EMPTY_OBJECT, p) == Ok(None) && Lookup(EMPTY_OBJECT, p[..n]).None?
    ensures n == 0 ==> Walk(EMPTY_OBJECT, p) == if p[0].BadIndex? then Err(InvalidIndex) else Ok(None)
    ensures n == 0 ==> Lookup(EMPTY_OBJECT, p[..n]).Some?
  {
    if n > 0 { assert p[0] == p[..n][0] == q[..n][0] == q[0]; }
  }

  // ---------------------------------------------------------------- editing in place

  /** The tree with the node at `q` replaced. */
  function WriteAt(t: Json, q: seq<Part>, node: Json): Json
    requires Lookup(t, q).Some?
    decreases q
  {
    if q == [] then node
    else Replace(t, q[0], WriteAt(Child(t, q[0]).value, q[1..], node)).value
  }

  lemma {:induction false} WriteThenLookup(t: Json, q: seq<Part>, node: Json)
    requires Lookup(t, q).Some?
    ensures Lookup(WriteAt(t, q, node), q) == Some(node)
    decreases q
  {
    if q != [] {
      var child := Child(t, q[0]).value;
      WriteThenLookup(child, q[1..], node);
      ReplaceThenChild(t, q[0], WriteAt(child, q[1..], node), q[0]);
    }
  }

  lemma {:induction false} LookupOneMore(t: Json, q: seq<Part>, part: Part)
    ensures Lookup(t, q + [part]) == if Lookup(t, q).Some? then Child(Lookup(t, q).value, part) else None
    decreases q
  {
    if q == [] {
      assert (q + [part])[1..] == [];
      assert q + [part] == [part];
    } else {
      assert (q + [part])[1..] == q[1..] + [part];
      if Child(t, q[0]).Some? { LookupOneMore(Child(t, q[0]).value, q[1..], part); }
    }
  }

  /** Writing what is there changes nothing. */
  lemma {:induction false} WriteSame(t: Json, q: seq<Part>)
    requires Lookup(t, q).Some?
    ensures WriteAt(t, q, Lookup(t, q).value) == t
    decreases q
  {
    if q != [] {
      WriteSame(Child(t, q[0]).value, q[1..]);
      ReplaceSame(t, q[0]);
    }
  }

  lemma ReplaceSame(t: Json, part: Part)
    requires Child(t, part).Some?
    ensures Replace(t, part, Child(t, part).value) == Ok(t)
  {
    if part.Index? {
      assert t.items[part.i := t.items[part.i]] == t.items;
    } else {
      assert t.fields[part.name := t.fields[part.name]] == t.fields;
    }
  }

  /** Writing a node and then one of its children is one write. */
  lemma {:induction false} WriteThenBelow(t: Json, q: seq<Part>, node: Json, part: Part, child: Json)
    requires Lookup(t, q).Some? && Child(node, part).Some?
    ensures Lookup(WriteAt(t, q, node), q + [part]).Some?
    ensures WriteAt(WriteAt(t, q, node), q + [part], child) == WriteAt(t, q, Replace(node, part, child).value)
    decreases q
  {
    WriteThenLookup(t, q, node);
    LookupOneMore(WriteAt(t, q, node), q, part);
    if q == [] {
      assert q + [part] == [part] && [part][1..] == [];
    } else {
      assert (q + [part])[1..] == q[1..] + [part];
      var c := Child(t, q[0]).value;
      WriteThenBelow(c, q[1..], node, part, child);
      ReplaceThenChild(t, q[0], WriteAt(c, q[1..], node), q[0]);
      ReplaceTwice(t, q[0], WriteAt(c, q[1..], node), WriteAt(WriteAt(c, q[1..], node), q[1..] + [part], child));
    }
  }

  /** What a set from the node at `at` on does to the whole tree. */
  function Graft(t: Json, at: seq<Part>, res: Result<Json, JsonError>): Result<Json, JsonError>
    requires Lookup(t, at).Some?
  {
    match res
    case Err(e) => Err(e)
    case Ok(node) => Ok(WriteAt(t, at, node))
  }

  /** One step down: the tree, in which the step may have created an object, and
      the node it leads to. */
  lemma GraftStep(t: Json, at: seq<Part>, q: seq<Part>, v: Json)
    requires Lookup(t, at).Some? && |q| > 1 && Enter(Lookup(t, at).value, q[0]).Ok?
    ensures var current, inner := Lookup(t, at).value, Enter(Lookup(t, at).value, q[0]).value;
            var t' := WriteAt(t, at, Replace(current, q[0], inner).value);
            && Lookup(t', at + [q[0]]) == Some(inner)
            && Graft(t', at + [q[0]], SetAt(inner, q[1..], v)) == Graft(t, at, SetAt(current, q, v))
  {
    hide Replace, Enter, WriteAt;
    var current, inner := Lookup(t, at).value, Enter(Lookup(t, at).value, q[0]).value;
    EnterThenReplace(current, q[0], inner);
    ReplaceThenChild(current, q[0], inner, q[0]);
    var node := Replace(current, q[0], inner).value;
    WriteThenLookup(t, at, node);
    LookupOneMore(WriteAt(t, at, node), at, q[0]);
    if SetAt(inner, q[1..], v).Ok? {
      var inner' := SetAt(inner, q[1..], v).value;
      WriteThenBelow(t, at, node, q[0], inner');
      ReplaceTwice(current, q[0], inner, inner');
      EnterThenReplace(current, q[0], inner');
    }
  }

  /** The walk of `json_set`: objects are created on the way down, before it is
      known whether the set will succeed. */
  method Set(t: Json, q: seq<Part>, v: Json) returns (res: Result<Json, JsonError>)
    requires q != []
    ensures res == SetAt(t, q, v)
  {
    hide SetAt, Replace, Enter, WriteAt;
    var val, current, n := t, t, |q| - 1;
    assert q[0..] == q && q[..0] == [];
    RootGraft(t, SetAt(t, q, v));
    for i := 0 to n
      invariant Lookup(val, q[..i]) == Some(current)
      invariant Graft(val, q[..i], SetAt(current, q[i..], v)) == SetAt(t, q, v)
    {
      assert q[i..][1..] == q[i + 1..] && q[i..][0] == q[i] && q[..i] + [q[i]] == q[..i + 1];
      SetStops(current, q[i..], v);
      var inner := Enter(current, q[i]);
      if inner.Err? { return Err(inner.error); }
      GraftStep(val, q[..i], q[i..], v);
      EnterThenReplace(current, q[i], inner.value);
      if Child(current, q[i]).None? {
        val := WriteAt(val, q[..i], Replace(current, q[i], inner.value).value);
      } else {
        NothingCreated(val, q[..i], current, q[i]);
      }
      current := inner.value;
    }
    assert q[n..] == [q[n]];
    SetLast(current, q[n], v);
    var last := Replace(current, q[n], v);
    if last.Err? { return Err(last.error); }
    val := WriteAt(val, q[..n], last.value);
    return Ok(val);
  }

  lemma RootGraft(t: Json, res: Result<Json, JsonError>)
    ensures Lookup(t, []) == Some(t) && Graft(t, [], res) == res
  {
  }

  lemma SetStops(t: Json, q: seq<Part>, v: Json)
    requires |q| > 1
    ensures Enter(t, q[0]).Err? ==> SetAt(t, q, v) == Err(Enter(t, q[0]).error)
  {
  }

  lemma SetLast(t: Json, part: Part, v: Json)
    ensures SetAt(t, [part], v) == Replace(t, part, v)
  {
  }

  lemma NothingCreated(t: Json, at: seq<Part>, current: Json, part: Part)
    requires Lookup(t, at) == Some(current) && Child(current, part).Some?
    ensures Enter(current, part) == Ok(Child(current, part).value)
    ensures Replace(current, part, Child(current, part).value).Ok?
    ensures WriteAt(t, at, Replace(current, part, Child(current, part).value).value) == t
  {
    ReplaceSame(current, part);
    WriteSame(t, at);
  }

  // ---------------------------------------------------------------- values

  /** Text forms this model does not look into. */
  datatype Codec = Codec(
    parse: seq<Byte> -> Option<Json>,
    render: Json -> seq<Byte>,
    base64: seq<Byte> -> string)

  predicate IsI64(i: int) {
    -0x8000_0000_0000_0000 <= i < 0x8000_0000_0000_0000
  }

  predicate Finite(f: F64) {
    f.NegZero? || f.Num?
  }

  function ToJson(c: Codec, v: Value): Json {
    match v
    case Null => JNull
    case Integer(i) => JInt(i)
    case Real(f) => if Finite(f) then JReal(f) else JNull
    case Text(s) => JString(s)
    case Blob(b) => if c.parse(b).Some? then c.parse(b).value else JString(c.base64(b))
  }

  function FromJson(c: Codec, t: Json): Value {
    match t
    case JNull => Null
    case JBool(b) => Integer(if b then 1 else 0)
    case JInt(i) => if IsI64(i) then Integer(i) else Real(FloatOfInt(i))
    case JReal(f) => Real(f)
    case JString(s) => Text(s)
    case JArray(_) => Blob(c.render(t))
    case JObject(_) => Blob(c.render(t))
  }

  /** `json_extract`, from the parsed document and the path text. */
  function JsonExtract(c: Codec, t: Json, path: string): Result<Value, JsonError> {
    match Walk(t, ParseParts(ExtractParts(path)))
    case Err(e) => Err(e)
    case Ok(found) => Ok(if found.Some? then FromJson(c, found.value) else Null)
  }

  /** `json_set`, from the parsed document to the changed one. */
  function JsonSet(c: Codec, t: Json, path: string, v: Value): Result<Json, JsonError> {
    SetAt(t, ParseParts(SetParts(path)), ToJson(c, v))
  }

  /** The values that survive being stored as JSON. */
  lemma RoundTripsExactly(c: Codec, v: Value)
    ensures FromJson(c, ToJson(c, v)) == v <==>
              match v
              case Integer(i) => IsI64(i)
              case Real(f) => Finite(f)
              case Blob(b) => c.parse(b).Some? && (c.parse(b).value.JArray? || c.parse(b).value.JObject?)
                && c.render(c.parse(b).value) == b
              case _ => true
  {
  }

  /** Setting and then extracting at the same path text gives the value back. */
  lemma JsonSetThenExtract(c: Codec, t: Json, path: string, v: Value)
    requires path != "" && path[0] != '$' && path[0] != '.'
    requires JsonSet(c, t, path, v).Ok? && FromJson(c, ToJson(c, v)) == v
    ensures JsonExtract(c, JsonSet(c, t, path, v).value, path) == Ok(v)
  {
    hide ParseParts;
    PathsAgreeExactly(path);
    SetThenGet(t, ParseParts(SetParts(path)), ToJson(c, v));
  }

  /** A path text that parts ways with the one that was set reads as before. */
  lemma JsonSetElsewhere(c: Codec, t: Json, path: string, v: Value, other: string, n: nat)
    requires JsonSet(c, t, path, v).Ok?
    requires Diverge(ParseParts(ExtractParts(other)), ParseParts(SetParts(path)), n)
    requires !ParseParts(ExtractParts(other))[n].BadIndex?
    ensures JsonExtract(c, JsonSet(c, t, path, v).value, other) == JsonExtract(c, t, other)
  {
    hide ParseParts;
    SetElsewhereExactly(t, ParseParts(SetParts(path)), ToJson(c, v), ParseParts(ExtractParts(other)), n);
  }

  /** With `$.a` the two disagree: the set goes to a key named `$`. */
  lemma DollarWitness(c: Codec)
    ensures var t := JsonSet(c, EMPTY_OBJECT, "$.a", Integer(1));
            t.Ok? && JsonExtract(c, t.value, "$.a") == Ok(Null)
  {
    assert Split("") == [""];
    assert "a"[1..] == "";
    assert [""][1..] == [] && ['a'] + "" == "a";
    assert Split("a") == ["a"];
    assert ".a"[1..] == "a";
    assert Split(".a") == ["", "a"];
    assert "$.a"[1..] == ".a";
    assert Split("$.a") == ["$", "a"] by { assert ["", "a"][1..] == ["a"]; assert ['$'] + "" == "$"; }
    var q := ParseParts(["$", "a"]);
    assert q == [Key("$"), Key("a")];
    assert q[1..] == [Key("a")];
    assert SetAt(EMPTY_OBJECT, [Key("a")], JInt(1)) == Ok(JObject(map["a" := JInt(1)]));
    assert ExtractParts("$.a") == ["a"];
    assert ParseParts(["a"]) == [Key("a")];
    assert "a" != "$";
  }
}
