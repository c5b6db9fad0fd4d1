/** SQL LIKE: `%` matches any run of characters, `_` exactly one, and any other
    character itself (section 8.5 of ISO/IEC 9075:1992, without ESCAPE). */
module Like {

  /** The recursive matcher. */
  predicate Matches(text: string, pattern: string)
    decreases |text| + |pattern|
  {
    if pattern == [] then text == []
    else if pattern[0] == '%' then
      Matches(text, pattern[1..]) || (text != [] && Matches(text[1..], pattern))
    else if pattern[0] == '_' then
      text != [] && Matches(text[1..], pattern[1..])
    else
      text != [] && text[0] == pattern[0] && Matches(text[1..], pattern[1..])
  }

  /** What one pattern character stands for. */
  predicate Fits(piece: string, p: char) {
    if p == '%' then true
    else if p == '_' then |piece| == 1
    else piece == [p]
  }

  function Join(pieces: seq<string>): string {
    if pieces == [] then [] else pieces[0] + Join(pieces[1..])
  }

  /** The standard's reading: the text splits into one piece per pattern
      character, each of the kind that character stands for. */
  ghost predicate Splits(text: string, pattern: string, pieces: seq<string>) {
    && |pieces| == |pattern|
    && Join(pieces) == text
    && forall i :: 0 <= i < |pieces| ==> Fits(pieces[i], pattern[i])
  }

  lemma {:induction false} SplitOfMatch(text: string, pattern: string) returns (pieces: seq<string>)
    requires Matches(text, pattern)
    ensures Splits(text, pattern, pieces)
    decreases |text| + |pattern|
  {
    if pattern == [] {
      pieces := [];
    } else if pattern[0] == '%' && !Matches(text, pattern[1..]) {
      var rest := SplitOfMatch(text[1..], pattern);
      pieces := [[text[0]] + rest[0]] + rest[1..];
      assert Join(pieces) == [text[0]] + (rest[0] + Join(rest[1..]));
      assert text == [text[0]] + text[1..];
    } else {
      var head := if pattern[0] == '%' then [] else [text[0]];
      var rest := SplitOfMatch(text[|head|..], pattern[1..]);
      pieces := [head] + rest;
      assert text == head + text[|head|..];
    }
  }

  lemma {:induction false} MatchOfSplit(text: string, pattern: string, pieces: seq<string>)
    requires Splits(text, pattern, pieces)
    ensures Matches(text, pattern)
    decreases |text| + |pattern|
  {
    if pattern != [] {
      var head, rest := pieces[0], pieces[1..];
      assert Fits(head, pattern[0]);
      if pattern[0] == '%' && head != [] {
        var shorter := [head[1..]] + rest;
        assert Join(shorter) == head[1..] + Join(rest);
        assert text[1..] == head[1..] + Join(rest);
        MatchOfSplit(text[1..], pattern, shorter);
      } else {
        assert text[|head|..] == Join(rest);
        forall i | 0 <= i < |rest| ensures Fits(rest[i], pattern[1..][i]) {
          assert Fits(pieces[i + 1], pattern[i + 1]);
        }
        MatchOfSplit(text[|head|..], pattern[1..], rest);
      }
    }
  }

  lemma MatchesExactly(text: string, pattern: string)
    ensures Matches(text, pattern) <==> exists pieces :: Splits(text, pattern, pieces)
  {
    if Matches(text, pattern) {
      var pieces := SplitOfMatch(text, pattern);
    }
    forall pieces | Splits(text, pattern, pieces) ensures Matches(text, pattern) {
      MatchOfSplit(text, pattern, pieces);
    }
  }
}
