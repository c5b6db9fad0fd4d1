/** The full-text index: an inverted map from token to row ids. */
module FullText {
  import opened Wrappers
  import opened Values

  datatype Fts = Fts(inverted: map<string, set<RowId>>, lengths: map<RowId, int>, total: int)

  const EMPTY_FTS := Fts(map[], map[], 0)

  const IDS: int := 0x1_0000_0000_0000_0000

  // The document counter is an unsigned 64-bit number and wraps both ways, as a
  // release build computes it; a debug build panics instead.

  function Counter(n: int): int {
    n % IDS
  }

  function CountUp(n: int): int {
    if n == USIZE_MAX then 0 else n + 1
  }

  function CountDown(n: int): int {
    if n == 0 then USIZE_MAX else n - 1
  }

  function Docs(inverted: map<string, set<RowId>>, token: string): set<RowId> {
    if token in inverted then inverted[token] else {}
  }

  function AddTokens(inverted: map<string, set<RowId>>, r: RowId, tokens: seq<string>): map<string, set<RowId>>
    decreases tokens
  {
    if tokens == [] then inverted
    else AddTokens(inverted[tokens[0] := Docs(inverted, tokens[0]) + {r}], r, tokens[1..])
  }

  function DropId(inverted: map<string, set<RowId>>, r: RowId, token: string): map<string, set<RowId>> {
    if token !in inverted then inverted
    else if inverted[token] - {r} == {} then inverted - {token}
    else inverted[token := inverted[token] - {r}]
  }

  function RemoveTokens(inverted: map<string, set<RowId>>, r: RowId, tokens: seq<string>): map<string, set<RowId>>
    decreases tokens
  {
    if tokens == [] then inverted
    else RemoveTokens(DropId(inverted, r, tokens[0]), r, tokens[1..])
  }

  function Add(f: Fts, r: RowId, tokens: seq<string>): Fts {
    Fts(AddTokens(f.inverted, r, tokens), f.lengths[r := |tokens|], CountUp(f.total))
  }

  function Remove(f: Fts, r: RowId, tokens: seq<string>): Fts {
    Fts(RemoveTokens(f.inverted, r, tokens), f.lengths - {r}, CountDown(f.total))
  }

  /** Narrows `found` by every token in turn; stops at a token nobody has. */
  function Narrow(f: Fts, found: set<RowId>, tokens: seq<string>): set<RowId> {
    if tokens == [] then found
    else if tokens[0] !in f.inverted then {}
    else Narrow(f, found * f.inverted[tokens[0]], tokens[1..])
  }

  function Search(f: Fts, tokens: seq<string>): set<RowId> {
    if tokens == [] || tokens[0] !in f.inverted then {}
    else Narrow(f, f.inverted[tokens[0]], tokens[1..])
  }

  // ---------------------------------------------------------------- agreement

  ghost predicate NonEmpty(inverted: map<string, set<RowId>>) {
    forall t :: t in inverted ==> inverted[t] != {}
  }

  predicate Mentions(docs: map<RowId, seq<string>>, r: RowId, t: string) {
    r in docs && t in docs[r]
  }

  /** The index describes exactly the documents `docs` (row id to tokens): no
      stale or missing posting, no empty posting set, a right counter. */
  ghost predicate Agrees(f: Fts, docs: map<RowId, seq<string>>) {
    && NonEmpty(f.inverted)
    && (forall t, r :: r in Docs(f.inverted, t) <==> Mentions(docs, r, t))
    && f.lengths.Keys == docs.Keys
    && (forall r :: r in docs ==> f.lengths[r] == |docs[r]|)
    && f.total == Counter(|docs|)
  }

  lemma {:induction false} AddTokensDocs(inverted: map<string, set<RowId>>, r: RowId, tokens: seq<string>, t: string)
    ensures Docs(AddTokens(inverted, r, tokens), t) == Docs(inverted, t) + if t in tokens then {r} else {}
    decreases tokens
  {
    if tokens != [] {
      AddTokensDocs(inverted[tokens[0] := Docs(inverted, tokens[0]) + {r}], r, tokens[1..], t);
    }
  }

  lemma {:induction false} AddTokensNonEmpty(inverted: map<string, set<RowId>>, r: RowId, tokens: seq<string>)
    requires NonEmpty(inverted)
    ensures NonEmpty(AddTokens(inverted, r, tokens))
    decreases tokens
  {
    if tokens != [] {
      AddTokensNonEmpty(inverted[tokens[0] := Docs(inverted, tokens[0]) + {r}], r, tokens[1..]);
    }
  }

  lemma {:induction false} RemoveTokensDocs(inverted: map<string, set<RowId>>, r: RowId, tokens: seq<string>, t: string)
    ensures Docs(RemoveTokens(inverted, r, tokens), t) == Docs(inverted, t) - if t in tokens then {r} else {}
    decreases tokens
  {
    if tokens != [] {
      RemoveTokensDocs(DropId(inverted, r, tokens[0]), r, tokens[1..], t);
    }
  }

  lemma {:induction false} RemoveTokensNonEmpty(inverted: map<string, set<RowId>>, r: RowId, tokens: seq<string>)
    requires NonEmpty(inverted)
    ensures NonEmpty(RemoveTokens(inverted, r, tokens))
    decreases tokens
  {
    if tokens != [] {
      RemoveTokensNonEmpty(DropId(inverted, r, tokens[0]), r, tokens[1..]);
    }
  }

  /** One document's entry taken out and another put in. */
  function Move(f: Fts, r: RowId, out: Option<seq<string>>, into: Option<seq<string>>): Fts {
    var dropped := if out.Some? then Remove(f, r, out.value) else f;
    if into.Some? then Add(dropped, r, into.value) else dropped
  }

  lemma MovePosting(f: Fts, r: RowId, out: Option<seq<string>>, into: Option<seq<string>>, t: string, x: RowId)
    ensures x in Docs(Move(f, r, out, into).inverted, t) <==>
              (x == r && into.Some? && t in into.value)
                || (x in Docs(f.inverted, t) && !(x == r && out.Some? && t in out.value))
  {
    var dropped := if out.Some? then Remove(f, r, out.value) else f;
    if out.Some? { RemoveTokensDocs(f.inverted, r, out.value, t); }
    if into.Some? { AddTokensDocs(dropped.inverted, r, into.value, t); }
  }

  lemma MoveNonEmpty(f: Fts, r: RowId, out: Option<seq<string>>, into: Option<seq<string>>)
    requires NonEmpty(f.inverted)
    ensures NonEmpty(Move(f, r, out, into).inverted)
  {
    var dropped := if out.Some? then Remove(f, r, out.value) else f;
    if out.Some? { RemoveTokensNonEmpty(f.inverted, r, out.value); }
    if into.Some? { AddTokensNonEmpty(dropped.inverted, r, into.value); }
  }

  /** Moving a document's entry keeps the index right exactly when an entry is
      taken out just if there is one, and none of its tokens is left behind. */
  lemma MoveAgreesExactly(f: Fts, docs: map<RowId, seq<string>>, r: RowId, out: Option<seq<string>>,
      into: Option<seq<string>>)
    requires Agrees(f, docs)
    ensures Agrees(Move(f, r, out, into), if into.Some? then docs[r := into.value] else docs - {r}) <==>
              && (out.Some? <==> r in docs)
              && (r in docs ==> forall t :: t in docs[r] ==> t in out.value || (into.Some? && t in into.value))
  {
    hide AddTokens, RemoveTokens, NonEmpty, Docs;
    var f', docs' := Move(f, r, out, into), if into.Some? then docs[r := into.value] else docs - {r};
    MoveNonEmpty(f, r, out, into);
    MoveCounts(f, docs, r, out, into);
    forall t, x
      ensures x in Docs(f'.inverted, t) <==>
                (x == r && into.Some? && t in into.value)
                  || (Mentions(docs, x, t) && !(x == r && out.Some? && t in out.value))
    {
      MovePosting(f, r, out, into, t, x);
      assert x in Docs(f.inverted, t) <==> Mentions(docs, x, t);
    }
    if r in docs && out.Some? {
      if t :| t in docs[r] && t !in out.value && !(into.Some? && t in into.value) {
        assert r in Docs(f'.inverted, t) && !Mentions(docs', r, t);
      }
    }
  }

  lemma UpAndDown(n: int)
    ensures CountUp(Counter(n)) == Counter(n + 1) && CountDown(Counter(n)) == Counter(n - 1)
    ensures Counter(n + 1) != Counter(n)
  {
  }

  lemma MoveCounts(f: Fts, docs: map<RowId, seq<string>>, r: RowId, out: Option<seq<string>>, into: Option<seq<string>>)
    requires f.total == Counter(|docs|) && f.lengths.Keys == docs.Keys
    requires forall x :: x in docs ==> f.lengths[x] == |docs[x]|
    ensures var f', docs' := Move(f, r, out, into), if into.Some? then docs[r := into.value] else docs - {r};
            && (f'.total == Counter(|docs'|) <==> (out.Some? <==> r in docs))
            && ((out.Some? <==> r in docs) ==> f'.lengths.Keys == docs'.Keys && forall x :: x in docs' ==>
                 f'.lengths[x] == |docs'[x]|)
  {
    hide AddTokens, RemoveTokens, CountUp, CountDown, Counter;
    var docs' := if into.Some? then docs[r := into.value] else docs - {r};
    var n := |docs|;
    DocCount(docs, r, into);
    UpAndDown(n);
    UpAndDown(n - 1);
  }

  lemma DocCount(docs: map<RowId, seq<string>>, r: RowId, into: Option<seq<string>>)
    ensures |if into.Some? then docs[r := into.value] else docs - {r}| ==
              |docs| - (if r in docs then 1 else 0) + (if into.Some? then 1 else 0)
  {
    var docs' := if into.Some? then docs[r := into.value] else docs - {r};
    assert docs'.Keys == if into.Some? then docs.Keys + {r} else docs.Keys - {r};
    assert |docs.Keys| == |docs| && |docs'.Keys| == |docs'|;
  }

  lemma AddAgrees(f: Fts, docs: map<RowId, seq<string>>, r: RowId, tokens: seq<string>)
    requires Agrees(f, docs) && r !in docs
    ensures Agrees(Add(f, r, tokens), docs[r := tokens])
  {
    hide Agrees, Add;
    MoveAgreesExactly(f, docs, r, None, Some(tokens));
  }

  /** Below 2^64 documents the counter never runs below zero. */
  lemma RemoveAgrees(f: Fts, docs: map<RowId, seq<string>>, r: RowId)
    requires Agrees(f, docs) && r in docs
    ensures |docs| <= USIZE_MAX ==> f.total == |docs| > 0
    ensures Agrees(Remove(f, r, docs[r]), docs - {r})
  {
    hide Remove;
    MoveAgreesExactly(f, docs, r, Some(docs[r]), None);
    assert |docs.Keys| > 0;
  }

  ghost predicate InAll(f: Fts, tokens: seq<string>, r: RowId) {
    forall t :: t in tokens ==> r in Docs(f.inverted, t)
  }

  lemma InAllHead(f: Fts, tokens: seq<string>, r: RowId)
    requires tokens != []
    ensures InAll(f, tokens, r) <==> r in Docs(f.inverted, tokens[0]) && InAll(f, tokens[1..], r)
  {
    assert tokens[0] in tokens;
    forall t | t in tokens ensures t == tokens[0] || t in tokens[1..] {
      var i :| 0 <= i < |tokens| && tokens[i] == t;
      if i > 0 { assert tokens[1..][i - 1] == t; }
    }
    assert forall t :: t in tokens[1..] ==> t in tokens;
  }

  lemma {:induction false} NarrowExactly(f: Fts, found: set<RowId>, tokens: seq<string>, r: RowId)
    ensures r in Narrow(f, found, tokens) <==> r in found && InAll(f, tokens, r)
    decreases tokens
  {
    if tokens != [] {
      InAllHead(f, tokens, r);
      if tokens[0] in f.inverted {
        NarrowExactly(f, found * f.inverted[tokens[0]], tokens[1..], r);
      }
    }
  }

  /** A search finds exactly the documents containing every query token, and
      nothing for an empty query. */
  lemma SearchExactly(f: Fts, docs: map<RowId, seq<string>>, tokens: seq<string>, r: RowId)
    requires Agrees(f, docs)
    ensures r in Search(f, tokens) <==> tokens != [] && r in docs && forall t :: t in tokens ==> t in docs[r]
  {
    if tokens != [] {
      InAllHead(f, tokens, r);
      if tokens[0] in f.inverted {
        NarrowExactly(f, f.inverted[tokens[0]], tokens[1..], r);
      }
      assert r in Docs(f.inverted, tokens[0]) <==> Mentions(docs, r, tokens[0]);
      assert InAll(f, tokens, r) <==> forall t :: t in tokens ==> Mentions(docs, r, t);
    }
  }

  /** Deleting a document that is not indexed wraps the counter: this is what a
      DELETE does whose BEFORE trigger has already deleted the row. */
  lemma DoubleRemoveWraps(r: RowId, tokens: seq<string>)
    ensures Remove(Remove(Add(EMPTY_FTS, r, tokens), r, tokens), r, tokens).total == USIZE_MAX
  {
  }

  // ---------------------------------------------------------------- the index object

  class FtsIndex {
    var inverted: map<string, set<RowId>>
    var lengths: map<RowId, int>
    var total: int

    ghost function View(): Fts
      reads this
    {
      Fts(inverted, lengths, total)
    }

    constructor ()
      ensures View() == EMPTY_FTS
    {
      inverted, lengths, total := map[], map[], 0;
    }

    method AddDocument(r: RowId, tokens: seq<string>)
      modifies this
      ensures View() == Add(old(View()), r, tokens)
    {
      lengths := lengths[r := |tokens|];
      total := CountUp(total);
      for i := 0 to |tokens|
        invariant AddTokens(inverted, r, tokens[i..]) == AddTokens(old(inverted), r, tokens)
        invariant lengths == old(lengths)[r := |tokens|] && total == CountUp(old(total))
      {
        assert tokens[i..][1..] == tokens[i + 1..];
        inverted := inverted[tokens[i] := (if tokens[i] in inverted then inverted[tokens[i]] else {}) + {r}];
      }
    }

    method RemoveDocument(r: RowId, tokens: seq<string>)
      modifies this
      ensures View() == Remove(old(View()), r, tokens)
    {
      for i := 0 to |tokens|
        invariant RemoveTokens(inverted, r, tokens[i..]) == RemoveTokens(old(inverted), r, tokens)
        invariant lengths == old(lengths) && total == old(total)
      {
        assert tokens[i..][1..] == tokens[i + 1..];
        var token := tokens[i];
        if token in inverted {
          var docs := inverted[token] - {r};
          if docs == {} {
            inverted := inverted - {token};
          } else {
            inverted := inverted[token := docs];
          }
        }
      }
      lengths := lengths - {r};
      total := CountDown(total);
    }

    method Find(tokens: seq<string>) returns (found: set<RowId>)
      ensures found == Search(View(), tokens)
    {
      if tokens == [] || tokens[0] !in inverted {
        return {};
      }
      found := inverted[tokens[0]];
      var i := 1;
      while i < |tokens|
        invariant 1 <= i <= |tokens|
        invariant Narrow(View(), found, tokens[i..]) == Search(View(), tokens)
      {
        assert tokens[i..][1..] == tokens[i + 1..];
        if tokens[i] !in inverted {
          return {};
        }
        found := found * inverted[tokens[i]];
        i := i + 1;
      }
    }
  }
}
