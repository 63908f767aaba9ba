/** What an accepted search query means, said in terms of single positions of the query. */
module SearchQueryWords {
  import opened SearchQuery
  import opened SearchQueryErrors

  /** The positions from..to of a query. */
  datatype Word = Word(from: nat, to: nat)

  /** A maximal run of positions that do not separate. */
  ghost predicate IsWord(q: string, w: Word) {
    && w.from < w.to <= |q| && (forall p | w.from <= p < w.to :: !Separates(q, p))
    && (w.from > 0 ==> Separates(q, w.from - 1)) && (w.to < |q| ==> Separates(q, w.to))
  }

  /** All the words of the query from position i on, in order. */
  ghost predicate ListsWordsFrom(q: string, i: nat, words: seq<Word>) {
    && (forall n | 0 <= n < |words| :: i <= words[n].from && IsWord(q, words[n]))
    && (forall m, n | 0 <= m < n < |words| :: words[m].to < words[n].from)
    && (forall w: Word :: i <= w.from && IsWord(q, w) ==> w in words)
  }

  /** There is a comma in the run of separators just before position i. */
  ghost predicate CommaBefore(q: string, i: nat)
    requires i <= |q|
  {
    exists p | 0 <= p < i :: q[p] == ',' && forall m | p <= m < i :: Separates(q, m)
  }

  /** There is a comma in the run of separators that begins at position i. */
  ghost predicate CommaAfter(q: string, i: nat) {
    exists p | i <= p < |q| :: q[p] == ',' && forall m | i <= m <= p :: Separates(q, m)
  }

  ghost predicate IsOptional(q: string, w: Word)
    requires IsWord(q, w)
  {
    CommaBefore(q, w.from) || CommaAfter(q, w.to)
  }

  /** The word without its quotes, if it stands in quotes. */
  function Inner(q: string, w: Word): (r: Word)
    requires w.from < w.to <= |q|
    ensures r.from <= r.to <= |q|
  {
    if w.to - w.from >= 2 && q[w.from] == '"' && q[w.to - 1] == '"' then Word(w.from + 1, w.to - 1) else w
  }

  /** The characters of the word, each in lower case. */
  function Text(lower: char -> char, q: string, w: Word): (s: string)
    requires w.from <= w.to <= |q|
  {
    seq(w.to - w.from, j requires 0 <= j < w.to - w.from => lower(q[w.from + j]))
  }

  /** In order, the texts of the words that are optional, or of those that are not; empty ones do not count. */
  ghost function Texts(lower: char -> char, q: string, words: seq<Word>, optional: bool): seq<string>
    requires forall n | 0 <= n < |words| :: IsWord(q, words[n])
  {
    if words == [] then []
    else
      assert IsWord(q, words[0]);
      var inner := Inner(q, words[0]);
      (if inner.from < inner.to && IsOptional(q, words[0]) == optional then [Text(lower, q, inner)] else [])
      + Texts(lower, q, words[1..], optional)
  }

  // ----- the specification reads the words off

  lemma WordOfSpec(q: string, i: nat, end: nat)
    requires Boundary(q, i) && i < end == WordEnd(q, i, false)
    ensures IsWord(q, Word(i, end))
    ensures forall w: Word :: i <= w.from < end && IsWord(q, w) ==> w == Word(i, end)
  {
    WordDoesNotSeparate(q, i);
  }

  /** The comma of a gap counts for the word before and for the word after it. */
  lemma CommaOfGap(q: string, end: nat, next: nat)
    requires end < |q| && Separates(q, end) && (end > 0 ==> !Separates(q, end - 1)) && next == GapEnd(q, end)
    ensures HasComma(q, end, next) <==> CommaAfter(q, end)
    ensures HasComma(q, end, next) <==> CommaBefore(q, next)
  {
    GapSeparates(q, end);
    assert next < |q| ==> !Separates(q, next);
    if CommaAfter(q, end) {
      var p :| end <= p < |q| && q[p] == ',' && forall m | end <= m <= p :: Separates(q, m);
      assert p < next;
    }
    if CommaBefore(q, next) {
      var p :| 0 <= p < next && q[p] == ',' && forall m | p <= m < next :: Separates(q, m);
      assert end <= p;
    }
  }

  lemma WordIsEmitted(lower: char -> char, q: string, w: Word, isOr: bool)
    requires w.from < w.to <= |q|
    ensures var inner := Inner(q, w);
      Emit(lower, q[w.from..w.to], isOr) == if inner.from < inner.to then [Token(Text(lower, q, inner), isOr)] else []
  {
    var inner := Inner(q, w);
    StripInPlace(q, w.from, w.to);
    assert Strip(q[w.from..w.to]) == q[inner.from..inner.to];
    assert Lower(lower, q[inner.from..inner.to]) == Text(lower, q, inner);
  }

  lemma AddWord(q: string, i: nat, end: nat, next: nat, rest: seq<Word>)
    requires Boundary(q, i) && i < end == WordEnd(q, i, false) && end <= next && ListsWordsFrom(q, next, rest)
    requires next <= |q| && forall p | end <= p < next :: Separates(q, p)
    ensures ListsWordsFrom(q, i, [Word(i, end)] + rest)
  {
    WordOfSpec(q, i, end);
    assert forall w: Word :: IsWord(q, w) ==> !Separates(q, w.from);
  }

  lemma SelectAfter(emitted: seq<Token>, tokens: seq<Token>, optional: bool)
    requires |emitted| <= 1
    ensures Select(emitted + tokens, optional) ==
      (if emitted != [] && emitted[0].isOr == optional then [emitted[0].text] else []) + Select(tokens, optional)
  {
    if emitted == [] {
      assert emitted + tokens == tokens;
    } else {
      assert (emitted + tokens)[1..] == tokens;
    }
  }

  lemma SelectWord(lower: char -> char, q: string, w: Word, rest: seq<Word>, tokens: seq<Token>, optional: bool)
    requires IsWord(q, w) && forall n | 0 <= n < |rest| :: IsWord(q, rest[n])
    requires Select(tokens, optional) == Texts(lower, q, rest, optional)
    ensures Select(Emit(lower, q[w.from..w.to], IsOptional(q, w)) + tokens, optional) == Texts(lower, q, [w] + rest, optional)
  {
    WordIsEmitted(lower, q, w, IsOptional(q, w));
    SelectAfter(Emit(lower, q[w.from..w.to], IsOptional(q, w)), tokens, optional);
    assert ([w] + rest)[1..] == rest;
  }

  /** From a boundary on: the words, and the tokens that are their texts. */
  ghost predicate Reads(lower: char -> char, q: string, i: nat, words: seq<Word>, tokens: seq<Token>) {
    && ListsWordsFrom(q, i, words)
    && Select(tokens, false) == Texts(lower, q, words, false) && Select(tokens, true) == Texts(lower, q, words, true)
  }

  lemma AddTokens(lower: char -> char, q: string, i: nat, end: nat, next: nat, rest: seq<Word>, tokens: seq<Token>, isOr: bool)
    requires Boundary(q, i) && i < end == WordEnd(q, i, false) && end <= next
    requires next <= |q| && forall p | end <= p < next :: Separates(q, p)
    requires Reads(lower, q, next, rest, tokens) && isOr == (CommaBefore(q, i) || CommaAfter(q, end))
    ensures Reads(lower, q, i, [Word(i, end)] + rest, Emit(lower, q[i..end], isOr) + tokens)
  {
    AddWord(q, i, end, next, rest);
    WordOfSpec(q, i, end);
    SelectWord(lower, q, Word(i, end), rest, tokens, false);
    SelectWord(lower, q, Word(i, end), rest, tokens, true);
  }

  /** A query that begins with a separator begins with an empty word, which is not emitted. */
  lemma SkipGap(lower: char -> char, q: string, next: nat, rest: seq<Word>, tokens: seq<Token>, isOr: bool)
    requires Reads(lower, q, next, rest, tokens) && next <= |q| && forall p | 0 <= p < next :: Separates(q, p)
    ensures Reads(lower, q, 0, rest, Emit(lower, q[0..0], isOr) + tokens)
  {
    assert Emit(lower, q[0..0], isOr) + tokens == tokens;
    assert forall w: Word :: IsWord(q, w) ==> !Separates(q, w.from);
  }

  lemma NothingLeft(lower: char -> char, q: string)
    ensures Reads(lower, q, |q|, [], [])
  {
  }

  lemma {:induction false} ReadWords(lower: char -> char, q: string, i: nat, commaBefore: bool) returns (words: seq<Word>)
    requires Boundary(q, i) && Spec(lower, q, i, commaBefore).Tokens? && (commaBefore <==> CommaBefore(q, i))
    ensures Reads(lower, q, i, words, Spec(lower, q, i, commaBefore).tokens)
    decreases |q| - i
  {
    if i == |q| {
      NothingLeft(lower, q);
      return [];
    }
    var end := WordEnd(q, i, false);
    var next := GapEnd(q, end);
    SpecCases(lower, q, i, commaBefore);
    WordVerdict(q, i);
    WordDoesNotSeparate(q, i);
    var rest;
    if end == |q| {
      NothingLeft(lower, q);
      rest := [];
      assert Spec(lower, q, next, HasComma(q, end, next)) == Tokens([]);
    } else {
      GapVerdict(q, end);
      GapSeparates(q, end);
      CommaOfGap(q, end, next);
      rest := ReadWords(lower, q, next, HasComma(q, end, next));
    }
    var tokens := Spec(lower, q, next, HasComma(q, end, next)).tokens;
    if i < end {
      AddTokens(lower, q, i, end, next, rest, tokens, commaBefore || HasComma(q, end, next));
      words := [Word(i, end)] + rest;
    } else {
      SkipGap(lower, q, next, rest, tokens, commaBefore || HasComma(q, end, next));
      words := rest;
    }
  }

  /**
   An accepted query means its words: the maximal runs of characters that are not separators outside quotes. In order,
   each is given in lower case and without a surrounding pair of quotes, unless nothing is left of it, and is optional
   if and only if there is a comma among the separators just before or just after it.
   */
  lemma AcceptedExactly(lower: char -> char, query: string) returns (words: seq<Word>)
    requires SearchSpec(lower, query).Parsed?
    ensures var q := Trim(query);
      && ListsWordsFrom(q, 0, words)
      && SearchSpec(lower, query) == Parsed(Texts(lower, q, words, false), Texts(lower, q, words, true))
  {
    words := ReadWords(lower, Trim(query), 0, false);
  }

  /** What is parsed is the query without the white space around it. */
  lemma TrimmedExactly(s: string) returns (from: nat, to: nat)
    ensures from <= to <= |s| && Trim(s) == s[from..to]
    ensures forall j | 0 <= j < from || to <= j < |s| :: IsSpace(s[j])
    ensures from < to ==> !IsSpace(s[from]) && !IsSpace(s[to - 1])
  {
    from := TrimLeftIs(s);
    var length := TrimRightIs(TrimLeft(s));
    to := from + length;
    assert TrimLeft(s)[..length] == s[from..to];
    if from < to {
      assert TrimLeft(s)[length - 1] == s[to - 1];
    }
    forall j | to <= j < |s| ensures IsSpace(s[j]) {
      assert s[j] == TrimLeft(s)[j - from];
    }
  }

  lemma {:induction false} TrimLeftIs(s: string) returns (from: nat)
    ensures from <= |s| && TrimLeft(s) == s[from..] && (from < |s| ==> !IsSpace(s[from]))
    ensures forall j | 0 <= j < from :: IsSpace(s[j])
  {
    from := 0;
    if s != [] && IsSpace(s[0]) {
      from := TrimLeftIs(s[1..]);
      forall j | 0 < j < from + 1 ensures IsSpace(s[j]) { assert s[j] == s[1..][j - 1]; }
      from := from + 1;
    }
  }

  lemma {:induction false} TrimRightIs(s: string) returns (to: nat)
    ensures to <= |s| && TrimRight(s) == s[..to] && (to > 0 ==> !IsSpace(s[to - 1]))
    ensures forall j | to <= j < |s| :: IsSpace(s[j])
  {
    to := |s|;
    if s != [] && IsSpace(s[|s| - 1]) {
      to := TrimRightIs(s[..|s| - 1]);
    }
  }
}
