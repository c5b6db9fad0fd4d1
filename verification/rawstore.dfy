/** The raw key-value store of one table: a map in memory that spills entries to
    one file per key when it grows past a limit. */
module RawStore {
  import opened Wrappers
  import opened Values
  import Tree = OrderedIndex

  type Bytes = seq<Byte>

  /** What writing an overflow file did. A failed write may leave any file. */
  datatype Written = Done | Failed(file: Option<Bytes>)

  type Disk = Bytes -> Written

  datatype Tiers = Tiers(mem: map<Bytes, Bytes>, disk: map<Bytes, Bytes>)

  // ---------------------------------------------------------------- operations

  function GetRaw(t: Tiers, key: Bytes): Option<Bytes> {
    if key in t.mem then Some(t.mem[key]) else if key in t.disk then Some(t.disk[key]) else None
  }

  /** Moves one entry to its file; a failed write puts it back into memory. */
  function SpillOne(t: Tiers, key: Bytes, io: Disk): Tiers {
    if key !in t.mem then t
    else match io(key)
      case Done => Tiers(t.mem - {key}, t.disk[key := t.mem[key]])
      case Failed(file) => Tiers(t.mem, if file.Some? then t.disk[key := file.value] else t.disk - {key})
  }

  function Spill(t: Tiers, victims: seq<Bytes>, io: Disk): Tiers
    decreases victims
  {
    if victims == [] then t else Spill(SpillOne(t, victims[0], io), victims[1..], io)
  }

  /** Entries beyond the limit; a limit of 0 means no limit. */
  function Overflow(mem: map<Bytes, Bytes>, limit: nat): nat {
    if limit > 0 && |mem| > limit then |mem| - limit else 0
  }

  function Stored(t: Tiers, key: Bytes, value: Bytes): Tiers {
    Tiers(t.mem[key := value], t.disk - {key})
  }

  /** The keys to evict: as many as there are too many, in any order. */
  ghost predicate Evictable(t: Tiers, limit: nat, victims: seq<Bytes>) {
    |victims| == Overflow(t.mem, limit) && Tree.NoDup(victims) && forall i :: 0 <= i < |victims| ==> victims[i] in t.mem
  }

  function PutRaw(t: Tiers, key: Bytes, value: Bytes, victims: seq<Bytes>, io: Disk): Tiers {
    Spill(Stored(t, key, value), victims, io)
  }

  /** The overflow file, if there is one, is assumed to be deleted. */
  function RemoveRaw(t: Tiers, key: Bytes): Tiers {
    Tiers(t.mem - {key}, t.disk - {key})
  }

  // ---------------------------------------------------------------- one map

  /** `m` is the map that the two tiers stand for. */
  ghost predicate Represents(t: Tiers, m: map<Bytes, Bytes>) {
    forall key :: GetRaw(t, key) == if key in m then Some(m[key]) else None
  }

  lemma {:induction false} SpillKeeps(t: Tiers, victims: seq<Bytes>, io: Disk, key: Bytes)
    ensures GetRaw(Spill(t, victims, io), key) == GetRaw(t, key)
    decreases victims
  {
    if victims != [] { SpillKeeps(SpillOne(t, victims[0], io), victims[1..], io, key); }
  }

  lemma SpillRepresents(t: Tiers, m: map<Bytes, Bytes>, victims: seq<Bytes>, io: Disk)
    requires Represents(t, m)
    ensures Represents(Spill(t, victims, io), m)
  {
    forall key ensures GetRaw(Spill(t, victims, io), key) == if key in m then Some(m[key]) else None {
      SpillKeeps(t, victims, io, key);
      assert GetRaw(t, key) == if key in m then Some(m[key]) else None;
    }
  }

  lemma PutRepresents(t: Tiers, m: map<Bytes, Bytes>, key: Bytes, value: Bytes, victims: seq<Bytes>, io: Disk)
    requires Represents(t, m)
    ensures Represents(PutRaw(t, key, value, victims, io), m[key := value])
  {
    forall k
      ensures GetRaw(PutRaw(t, key, value, victims, io), k) ==
                if k == key then Some(value) else if k in m then Some(m[k]) else None
    {
      SpillKeeps(Stored(t, key, value), victims, io, k);
      assert GetRaw(t, k) == if k in m then Some(m[k]) else None;
    }
  }

  lemma RemoveRepresents(t: Tiers, m: map<Bytes, Bytes>, key: Bytes)
    requires Represents(t, m)
    ensures Represents(RemoveRaw(t, key), m - {key})
  {
    forall k ensures GetRaw(RemoveRaw(t, key), k) == if k in m - {key} then Some(m[k]) else None {
      assert GetRaw(t, k) == if k in m then Some(m[k]) else None;
    }
  }

  datatype Op =
    | Put(key: Bytes, value: Bytes, victims: seq<Bytes>, io: Disk)
    | Get(key: Bytes)
    | Remove(key: Bytes)

  function Answers(t: Tiers, ops: seq<Op>): seq<Option<Bytes>>
    decreases ops
  {
    if ops == [] then []
    else match ops[0]
      case Put(key, value, victims, io) => Answers(PutRaw(t, key, value, victims, io), ops[1..])
      case Get(key) => [GetRaw(t, key)] + Answers(t, ops[1..])
      case Remove(key) => Answers(RemoveRaw(t, key), ops[1..])
  }

  function MapAnswers(m: map<Bytes, Bytes>, ops: seq<Op>): seq<Option<Bytes>>
    decreases ops
  {
    if ops == [] then []
    else match ops[0]
      case Put(key, value, _, _) => MapAnswers(m[key := value], ops[1..])
      case Get(key) => [if key in m then Some(m[key]) else None] + MapAnswers(m, ops[1..])
      case Remove(key) => MapAnswers(m - {key}, ops[1..])
  }

  /** Whatever is done, whichever keys are evicted, and however writes fail, the
      store answers as one map would. */
  lemma {:induction false} AnswersAsOneMap(t: Tiers, m: map<Bytes, Bytes>, ops: seq<Op>)
    requires Represents(t, m)
    ensures Answers(t, ops) == MapAnswers(m, ops)
    decreases ops
  {
    hide Represents, PutRaw, RemoveRaw;
    if ops != [] {
      match ops[0]
      case Put(key, value, victims, io) =>
        PutRepresents(t, m, key, value, victims, io);
        AnswersAsOneMap(PutRaw(t, key, value, victims, io), m[key := value], ops[1..]);
      case Get(key) =>
        RepresentsAt(t, m, key);
        AnswersAsOneMap(t, m, ops[1..]);
      case Remove(key) =>
        RemoveRepresents(t, m, key);
        AnswersAsOneMap(RemoveRaw(t, key), m - {key}, ops[1..]);
    }
  }

  lemma RepresentsAt(t: Tiers, m: map<Bytes, Bytes>, key: Bytes)
    requires Represents(t, m)
    ensures GetRaw(t, key) == if key in m then Some(m[key]) else None
  {
  }

  // ---------------------------------------------------------------- size

  function Failures(io: Disk, victims: seq<Bytes>): nat {
    if victims == [] then 0 else (if io(victims[0]).Failed? then 1 else 0) + Failures(io, victims[1..])
  }

  /** Every successful write frees one slot. */
  lemma {:induction false} SpillFrees(t: Tiers, victims: seq<Bytes>, io: Disk)
    requires Tree.NoDup(victims) && forall i :: 0 <= i < |victims| ==> victims[i] in t.mem
    ensures |Spill(t, victims, io).mem| == |t.mem| - |victims| + Failures(io, victims)
    decreases victims
  {
    if victims != [] {
      var t1, key := SpillOne(t, victims[0], io), victims[0];
      assert victims[0] !in victims[1..];
      if io(key).Done? {
        assert t1.mem.Keys == t.mem.Keys - {key};
        assert |t.mem.Keys| == |t.mem| && |t1.mem.Keys| == |t1.mem|;
      }
      SpillFrees(t1, victims[1..], io);
    }
  }

  /** With a limit, memory exceeds it after a put by exactly the number of writes
      that failed in this put, if it had to evict; so without failures it never
      exceeds it, whatever failed before. Without a limit nothing is evicted. */
  lemma {:induction false} PutSize(t: Tiers, key: Bytes, value: Bytes, limit: nat, victims: seq<Bytes>, io: Disk)
    requires Evictable(Stored(t, key, value), limit, victims)
    ensures var size := |PutRaw(t, key, value, victims, io).mem|;
            && (limit == 0 ==> victims == [])
            && (limit > 0 && victims == [] ==> size <= limit)
            && (victims != [] ==> size == limit + Failures(io, victims))
  {
    SpillFrees(Stored(t, key, value), victims, io);
  }

  // ---------------------------------------------------------------- where the entries are

  function MemAt(t: Tiers, key: Bytes): Option<Bytes> {
    if key in t.mem then Some(t.mem[key]) else None
  }

  function FileAt(t: Tiers, key: Bytes): Option<Bytes> {
    if key in t.disk then Some(t.disk[key]) else None
  }

  lemma {:induction false} SpillPlaces(t: Tiers, victims: seq<Bytes>, io: Disk, key: Bytes)
    requires Tree.NoDup(victims) && forall i :: 0 <= i < |victims| ==> victims[i] in t.mem
    ensures var t' := Spill(t, victims, io);
            if key !in victims then MemAt(t', key) == MemAt(t, key) && FileAt(t', key) == FileAt(t, key)
            else match io(key)
              case Done => MemAt(t', key) == None && FileAt(t', key) == MemAt(t, key)
              case Failed(file) => MemAt(t', key) == MemAt(t, key) && FileAt(t', key) == file
    decreases victims
  {
    if victims != [] {
      assert victims == [victims[0]] + victims[1..] && victims[0] !in victims[1..];
      SpillPlaces(SpillOne(t, victims[0], io), victims[1..], io, key);
    }
  }

  /** After a put the new entry is in memory without a file; an evicted one is in its
      file, or still in memory beside whatever its failed write left; no other
      entry has moved. */
  lemma PutPlaces(t: Tiers, key: Bytes, value: Bytes, limit: nat, victims: seq<Bytes>, io: Disk, k: Bytes)
    requires Evictable(Stored(t, key, value), limit, victims)
    ensures var t' := PutRaw(t, key, value, victims, io);
            var was := if k == key then Some(value) else MemAt(t, k);
            if k in victims then
              match io(k)
              case Done => MemAt(t', k) == None && FileAt(t', k) == was
              case Failed(file) => MemAt(t', k) == was && FileAt(t', k) == file
            else MemAt(t', k) == was && FileAt(t', k) == if k == key then None else FileAt(t, k)
  {
    SpillPlaces(Stored(t, key, value), victims, io, k);
  }

  // ---------------------------------------------------------------- the store object

  lemma SpillTurn(t: Tiers, victims: seq<Bytes>, io: Disk, i: nat)
    requires i < |victims|
    ensures Spill(t, victims[i..], io) == Spill(SpillOne(t, victims[i], io), victims[i + 1..], io)
  {
    assert victims[i..][1..] == victims[i + 1..];
  }

  lemma SpillNothing(t: Tiers, victims: seq<Bytes>, io: Disk)
    ensures Spill(t, victims[|victims|..], io) == t
  {
  }

  /** Keys are looked up in memory and then among the files; `contents` is the one
      map that the two stand for. */
  class Store {
    ghost var contents: map<Bytes, Bytes>
    var mem: map<Bytes, Bytes>
    var disk: map<Bytes, Bytes>
    const limit: nat

    ghost function View(): Tiers
      reads this
    {
      Tiers(mem, disk)
    }

    ghost predicate Valid()
      reads this
    {
      Represents(View(), contents)
    }

    constructor (limit: nat)
      ensures Valid() && contents == map[]
      ensures View() == Tiers(map[], map[]) && this.limit == limit
    {
      this.limit, mem, disk, contents := limit, map[], map[], map[];
    }

    method Get(key: Bytes) returns (value: Option<Bytes>)
      requires Valid()
      ensures value == if key in contents then Some(contents[key]) else None
    {
      RepresentsAt(View(), contents, key);
      if key in mem { return Some(mem[key]); }
      value := if key in disk then Some(disk[key]) else None;
    }

    method Put(key: Bytes, value: Bytes, io: Disk) returns (ghost victims: seq<Bytes>)
      requires Valid()
      modifies this
      ensures Valid() && contents == old(contents)[key := value]
      ensures View() == PutRaw(old(View()), key, value, victims, io)
      ensures Evictable(Stored(old(View()), key, value), limit, victims)
    {
      PutRepresents(View(), contents, key, value, [], io);
      disk := disk - {key};
      mem := mem[key := value];
      contents := contents[key := value];
      victims := [];
      if limit > 0 && |mem| > limit {
        victims := EvictToDisk(io);
      }
    }

    method EvictToDisk(io: Disk) returns (toEvict: seq<Bytes>)
      requires Valid()
      modifies this
      ensures Valid() && contents == old(contents)
      ensures Evictable(old(View()), limit, toEvict)
      ensures View() == Spill(old(View()), toEvict, io)
    {
      hide Spill;
      toEvict := Pick(mem.Keys, Overflow(mem, limit));
      assert toEvict[0..] == toEvict;
      for i := 0 to |toEvict|
        invariant Spill(View(), toEvict[i..], io) == Spill(old(View()), toEvict, io) && contents == old(contents)
      {
        var key := toEvict[i];
        ghost var before := View();
        SpillTurn(before, toEvict, io, i);
        if key in mem {
          var value := mem[key];
          mem := mem - {key};
          match io(key)
          case Done =>
            disk := disk[key := value];
          case Failed(file) =>
            disk := if file.Some? then disk[key := file.value] else disk - {key};
            mem := mem[key := value];
            assert mem == before.mem;
        }
        assert View() == SpillOne(before, key, io);
      }
      SpillNothing(View(), toEvict, io);
      SpillRepresents(old(View()), contents, toEvict, io);
    }

    method Remove(key: Bytes)
      requires Valid()
      modifies this
      ensures Valid() && contents == old(contents) - {key}
      ensures View() == RemoveRaw(old(View()), key)
    {
      RemoveRepresents(View(), contents, key);
      contents := contents - {key};
      mem := mem - {key};
      disk := disk - {key};
    }
  }

  /** The first `n` keys of an iteration in any order. */
  method Pick(keys: set<Bytes>, n: nat) returns (picked: seq<Bytes>)
    requires n <= |keys|
    ensures |picked| == n && Tree.NoDup(picked) && forall i :: 0 <= i < n ==> picked[i] in keys
  {
    var rest := keys;
    picked := [];
    while |picked| < n
      invariant |picked| <= n && Tree.NoDup(picked)
      invariant forall i :: 0 <= i < |picked| ==> picked[i] in keys && picked[i] !in rest
      invariant rest <= keys && |rest| == |keys| - |picked|
    {
      var key :| key in rest;
      rest := rest - {key};
      picked := picked + [key];
    }
  }
}
