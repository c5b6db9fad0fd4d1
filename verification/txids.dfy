/** Transaction ids over a whole run of requests. */
module TransactionIds {
  import opened Wrappers
  import opened Values
  import opened Externals
  import opened Store
  import opened Interpreter
  import opened Rollbacks
  import Tree = OrderedIndex

  datatype Ask = Ask(req: Request, params: seq<Value>, tx: Option<TxId>, fuel: nat)

  function Serve(w: World, s: State, a: Ask): State {
    Execute(w, s, a.req, a.params, a.tx, a.fuel).0
  }

  /** The transaction a request ends: by COMMIT or ROLLBACK, or because the
      request is a write that ran under a transaction of its own. */
  function EndedBy(w: World, s: State, a: Ask): Option<TxId> {
    match a.req
    case BeginTx => None
    case CommitTx => if Execute(w, s, a.req, a.params, a.tx, a.fuel).1.Ok? then a.tx else None
    case RollbackTx => if Execute(w, s, a.req, a.params, a.tx, a.fuel).1.Ok? then a.tx else None
    case Dml(stmt) => if a.tx.None? && IsWrite(stmt) then Some(s.nextTx) else None
  }

  function ServeAll(w: World, s: State, asks: seq<Ask>): State
    decreases |asks|
  {
    if asks == [] then s
    else Serve(w, ServeAll(w, s, asks[..|asks| - 1]), asks[|asks| - 1])
  }

  function Ended(w: World, s: State, asks: seq<Ask>): seq<TxId>
    decreases |asks|
  {
    if asks == [] then []
    else
      var before := asks[..|asks| - 1];
      var e := EndedBy(w, ServeAll(w, s, before), asks[|asks| - 1]);
      Ended(w, s, before) + if e.Some? then [e.value] else []
  }

  /** One request: the next id never goes back, at most one id ends, and an id
      becomes active only by being the next one. */
  lemma ServeOne(w: World, s: State, a: Ask)
    requires 0 <= s.nextTx < TX_IDS - 1
    ensures var s' := Serve(w, s, a);
            var e := EndedBy(w, s, a);
            && s.nextTx <= s'.nextTx <= s.nextTx + 1
            && (e.Some? ==>
                  && (e.value in s.active || (e.value == s.nextTx && s'.nextTx == s.nextTx + 1))
                  && e.value !in s'.active)
            && (forall x :: x in s.active && x !in s'.active ==> e == Some(x))
            && (s'.nextTx == s.nextTx + 1 ==> s.nextTx in s'.active || e == Some(s.nextTx))
            && (forall x :: x in s'.active ==> x in s.active || (x == s.nextTx && s'.nextTx == s.nextTx + 1))
  {
    hide Exec, UndoAll, Begin, Rollback, SameFrame;
    if a.req.BeginTx? {
      BeginTakesNext(s);
    } else if a.req.RollbackTx? {
      if a.tx.Some? { RollbackIdle(w, s, a.tx.value); }
      if a.tx.Some? && a.tx.value in s.active {
        RollbackKeepsIds(w, s, a.tx.value);
      }
    } else if a.req.Dml? {
      if a.tx.None? && IsWrite(a.req.stmt) {
        AutocommitKeepsIds(w, s, a);
      } else {
        SameFrameKeys(s, Exec(w, s, a.req.stmt, a.params, a.tx, a.fuel).0);
      }
    }
  }

  lemma BeginTakesNext(s: State)
    requires 0 <= s.nextTx < TX_IDS - 1
    ensures Begin(s).nextTx == s.nextTx + 1 && Begin(s).active.Keys == s.active.Keys + {s.nextTx}
  {
  }

  lemma RollbackIdle(w: World, s: State, tx: TxId)
    ensures tx !in s.active ==> Rollback(w, s, tx) == (s, Err(NoSuchTransaction))
    ensures tx in s.active ==> Rollback(w, s, tx).1.Ok?
  {
    hide UndoAll;
  }

  lemma SameFrameKeys(s: State, s': State)
    requires SameFrame(s, s')
    ensures s'.active.Keys == s.active.Keys && s'.nextTx == s.nextTx
  {
  }

  lemma AutocommitKeepsIds(w: World, s: State, a: Ask)
    requires 0 <= s.nextTx < TX_IDS - 1 && a.req.Dml? && a.tx.None? && IsWrite(a.req.stmt)
    ensures var s' := Serve(w, s, a); s'.nextTx == s.nextTx + 1 && s'.active.Keys == s.active.Keys - {s.nextTx}
  {
    hide Exec, UndoAll, Rollback;
    var s1 := Exec(w, Begin(s), a.req.stmt, a.params, Some(s.nextTx), a.fuel).0;
    assert SameFrame(Begin(s), s1);
    assert s1.active.Keys == s.active.Keys + {s.nextTx};
    RollbackKeepsIds(w, s1, s.nextTx);
  }

  lemma RollbackKeepsIds(w: World, s: State, tx: TxId)
    requires tx in s.active
    ensures var s' := Rollback(w, s, tx).0; s'.active == s.active - {tx} && s'.nextTx == s.nextTx
  {
    hide UndoAll;
    UndoAllKeeps(w, s.(active := s.active - {tx}), s.active[tx]);
    UndoAllKeepsIds(w, s.(active := s.active - {tx}), s.active[tx]);
  }

  lemma {:induction false} UndoAllKeepsIds(w: World, s: State, ops: seq<UndoOp>)
    ensures UndoAll(w, s, ops).nextTx == s.nextTx
    decreases |ops|
  {
    hide UpdateIndexes, SyncFts;
    if ops != [] {
      assert Undo(w, s, ops[|ops| - 1]).nextTx == s.nextTx;
      UndoAllKeepsIds(w, Undo(w, s, ops[|ops| - 1]), ops[..|ops| - 1]);
    }
  }

  /** As long as ids do not wrap, every transaction that has begun is either active or
      has ended, none is ended twice, and none that has ended is active again,
      whatever is asked in whatever order. */
  lemma {:induction false} EachEndsOnce(w: World, s: State, asks: seq<Ask>)
    requires forall x :: x in s.active ==> x < s.nextTx
    requires 0 <= s.nextTx && s.nextTx + |asks| < TX_IDS
    ensures var s', ended := ServeAll(w, s, asks), Ended(w, s, asks);
            && Tree.NoDup(ended)
            && (forall i :: 0 <= i < |ended| ==> ended[i] !in s'.active && ended[i] < s'.nextTx)
            && (forall x :: s.nextTx <= x < s'.nextTx || x in s.active ==> x in s'.active || x in ended)
            && (forall x :: x in s'.active ==> x < s'.nextTx)
            && s.nextTx <= s'.nextTx <= s.nextTx + |asks|
    decreases |asks|
  {
    hide Serve, EndedBy;
    if asks != [] {
      var before, last := asks[..|asks| - 1], asks[|asks| - 1];
      EachEndsOnce(w, s, before);
      var s1 := ServeAll(w, s, before);
      ServeOne(w, s1, last);
      var s', ended, e := ServeAll(w, s, asks), Ended(w, s, asks), EndedBy(w, s1, last);
      forall x | s.nextTx <= x < s'.nextTx || x in s.active ensures x in s'.active || x in ended {
        assert x < s1.nextTx ==> x in s1.active || x in Ended(w, s, before);
        if e == Some(x) { assert ended[|ended| - 1] == x; }
      }
    }
  }

  /** Once ids have wrapped, BEGIN may hand out one that is still active: its
      journal is forgotten, and rolling it back undoes nothing. */
  lemma ReusedIdForgets(w: World, s: State)
    requires s.nextTx in s.active
    ensures Begin(s).active.Keys == s.active.Keys
    ensures Rollback(w, Begin(s), s.nextTx).1.Ok? && Rollback(w, Begin(s), s.nextTx).0.tables == s.tables
  {
    assert UndoAll(w, Begin(s).(active := Begin(s).active - {s.nextTx}), []).tables == s.tables;
  }
}
