/** A printer for search queries, and the proof that parsing undoes it. */
module SearchQueryRoundTrip {
  import opened Options
  import opened SearchQuery

  /** What the printer puts after a token. */
  datatype Gap = Nothing | Space | Comma {
    function Len(): nat { if Nothing? then 0 else 1 }
    function Text(): string { match this case Nothing => "" case Space => " " case Comma => "," }
  }

  function Quote(t: string): string {
    ['"'] + t + ['"']
  }

  function OrGap(tokens: seq<string>, alone: bool): Gap {
    if |tokens| == 1 && !alone then Nothing else Comma
  }

  function AndGap(required: seq<string>, optional: seq<string>): Gap {
    if |required| == 1 && optional == [] then Nothing else Space
  }

  /** Optional tokens separated by commas; a single one gets a trailing comma. */
  function PrintOr(tokens: seq<string>, alone: bool): string {
    if tokens == [] then []
    else Quote(tokens[0]) + OrGap(tokens, alone).Text() + PrintOr(tokens[1..], false)
  }

  /** Required tokens separated by spaces, then the optional ones; every token is quoted. */
  function Print(required: seq<string>, optional: seq<string>): string {
    if required == [] then PrintOr(optional, |optional| == 1)
    else Quote(required[0]) + AndGap(required, optional).Text() + Print(required[1..], optional)
  }

  /** A token that can be printed: not empty, without quotes, unchanged by lower-casing. */
  predicate Printable(lower: char -> char, t: string) {
    t != [] && forall c <- t :: c != '"' && lower(c) == c
  }

  /** The tokens that a printed query stands for. */
  function Expected(required: seq<string>, optional: seq<string>): seq<Token> {
    if required != [] then [Token(required[0], false)] + Expected(required[1..], optional)
    else if optional != [] then [Token(optional[0], true)] + Expected([], optional[1..])
    else []
  }

  lemma ExpectedNext(required: seq<string>, optional: seq<string>)
    ensures required != [] ==>
      After([Token(required[0], false)], Tokens(Expected(required[1..], optional))) == Tokens(Expected(required, optional))
    ensures required == [] && optional != [] ==>
      After([Token(optional[0], true)], Tokens(Expected([], optional[1..]))) == Tokens(Expected([], optional))
  {
  }

  lemma {:induction false} QuotedRun(q: string, a: nat, b: nat)
    requires a <= b < |q| && q[b] == '"' && forall j | a <= j < b :: q[j] != '"'
    ensures WordEnd(q, a, true) == WordEnd(q, b + 1, false)
    decreases b - a
  {
    if a < b { QuotedRun(q, a + 1, b); }
  }

  /** A quoted token that is followed by a gap or the end is a word by itself. */
  lemma QuotedWord(q: string, i: nat, end: nat)
    requires i + 1 < end <= |q| && q[i] == '"' && q[end - 1] == '"' && (end < |q| ==> IsGap(q[end]))
    requires forall j | i < j < end - 1 :: q[j] != '"'
    ensures WordEnd(q, i, false) == end && WordError(q, i, end) == None
  {
    QuotedRun(q, i + 1, end - 1);
    FindIs(q, '"', i, end, i);
    FindIs(q, '"', i + 1, end, end - 1);
    FindIs(q, '"', end, end, end);
  }

  /** A gap of one character, or none at the end of the query. */
  lemma ShortGap(q: string, end: nat, next: nat)
    requires end <= next <= |q| && next <= end + 1
    requires if next == end then end == |q| else IsGap(q[end]) && (next < |q| ==> !IsGap(q[next]))
    ensures GapEnd(q, end) == next && GapError(q, end, next) == None
    ensures HasComma(q, end, next) <==> next > end && q[end] == ','
  {
    if next > end {
      FindIs(q, ',', end, next, if q[end] == ',' then end else next);
    }
  }

  // ----- printed queries, position by position

  /** The quoted token t stands at i. */
  ghost predicate TokenAt(q: string, i: nat, t: string) {
    && i + |t| + 2 <= |q| && q[i] == '"' && q[i + |t| + 1] == '"'
    && forall j | 0 <= j < |t| :: q[i + 1 + j] == t[j]
  }

  /** The gap after a token is nothing, at the end of the query, or the one character given. */
  ghost predicate GapAt(q: string, end: nat, gap: Gap) {
    if gap.Nothing? then end == |q|
    else end < |q| && q[end] == (if gap.Space? then ' ' else ',') && (end + 1 < |q| ==> q[end + 1] == '"')
  }

  lemma PrintableIsEmitted(lower: char -> char, q: string, i: nat, t: string, isOr: bool)
    requires Printable(lower, t) && TokenAt(q, i, t)
    ensures Emit(lower, q[i..i + |t| + 2], isOr) == [Token(t, isOr)]
  {
    assert q[i..i + |t| + 2] == Quote(t);
    assert Strip(Quote(t)) == t;
    assert Lower(lower, t) == t;
  }

  lemma TokenIsWord(lower: char -> char, q: string, i: nat, t: string, gap: Gap)
    requires Printable(lower, t) && TokenAt(q, i, t) && GapAt(q, i + |t| + 2, gap)
    ensures WordEnd(q, i, false) == i + |t| + 2 && WordError(q, i, i + |t| + 2) == None
  {
    var end := i + |t| + 2;
    forall j | i < j < end - 1 ensures q[j] != '"' {
      assert q[i + 1 + (j - i - 1)] == t[j - i - 1];
      assert t[j - i - 1] in t;
    }
    QuotedWord(q, i, end);
  }

  /** The specification reads off one printed token and its gap. */
  lemma ReadToken(lower: char -> char, q: string, i: nat, t: string, gap: Gap, commaBefore: bool)
    requires Printable(lower, t) && TokenAt(q, i, t) && GapAt(q, i + |t| + 2, gap)
    ensures Spec(lower, q, i, commaBefore) ==
      After([Token(t, commaBefore || gap.Comma?)], Spec(lower, q, i + |t| + 2 + gap.Len(), gap.Comma?))
  {
    var end, next := i + |t| + 2, i + |t| + 2 + gap.Len();
    TokenIsWord(lower, q, i, t, gap);
    ShortGap(q, end, next);
    PrintableIsEmitted(lower, q, i, t, commaBefore || gap.Comma?);
    SpecReads(lower, q, i, end, next, commaBefore, gap.Comma?, [Token(t, commaBefore || gap.Comma?)]);
  }

  ghost predicate OrAt(q: string, i: nat, tokens: seq<string>, alone: bool)
    decreases |tokens|
  {
    if tokens == [] then i == |q|
    else
      var gap := OrGap(tokens, alone);
      TokenAt(q, i, tokens[0]) && GapAt(q, i + |tokens[0]| + 2, gap) && OrAt(q, i + |tokens[0]| + 2 + gap.Len(), tokens[1..], false)
  }

  ghost predicate AllAt(q: string, i: nat, required: seq<string>, optional: seq<string>)
    decreases |required|
  {
    if required == [] then OrAt(q, i, optional, |optional| == 1)
    else
      var gap := AndGap(required, optional);
      TokenAt(q, i, required[0]) && GapAt(q, i + |required[0]| + 2, gap) && AllAt(q, i + |required[0]| + 2 + gap.Len(), required[1..], optional)
  }

  lemma {:induction false} ReadOr(lower: char -> char, q: string, i: nat, tokens: seq<string>, alone: bool, commaBefore: bool)
    requires forall t <- tokens :: Printable(lower, t)
    requires OrAt(q, i, tokens, alone) && (|tokens| == 1 ==> alone || commaBefore)
    ensures i <= |q| && Spec(lower, q, i, commaBefore) == Tokens(Expected([], tokens))
    decreases |tokens|
  {
    if tokens != [] {
      var gap := OrGap(tokens, alone);
      ReadToken(lower, q, i, tokens[0], gap, commaBefore);
      ReadOr(lower, q, i + |tokens[0]| + 2 + gap.Len(), tokens[1..], false, gap.Comma?);
      ExpectedNext([], tokens);
    }
  }

  lemma {:induction false} ReadAll(lower: char -> char, q: string, i: nat, required: seq<string>, optional: seq<string>)
    requires (forall t <- required :: Printable(lower, t)) && (forall t <- optional :: Printable(lower, t))
    requires AllAt(q, i, required, optional)
    ensures i <= |q| && Spec(lower, q, i, false) == Tokens(Expected(required, optional))
    decreases |required|
  {
    if required == [] {
      ReadOr(lower, q, i, optional, |optional| == 1, false);
    } else {
      var gap := AndGap(required, optional);
      ReadToken(lower, q, i, required[0], gap, false);
      ReadAll(lower, q, i + |required[0]| + 2 + gap.Len(), required[1..], optional);
      ExpectedNext(required, optional);
    }
  }

  // ----- the printer lays its tokens out like that

  lemma PrintStartsWithQuote(required: seq<string>, optional: seq<string>)
    ensures Print(required, optional) != [] ==> Print(required, optional)[0] == '"'
    ensures required != [] || optional != [] ==> Print(required, optional) != []
  {
  }

  lemma TokenFits(p: string, t: string, gap: Gap, rest: string, q: string)
    requires if gap.Nothing? then rest == [] else rest != [] ==> rest[0] == '"'
    requires q == p + (Quote(t) + gap.Text() + rest)
    ensures TokenAt(q, |p|, t) && GapAt(q, |p| + |t| + 2, gap)
    ensures q == (p + Quote(t) + gap.Text()) + rest && |p + Quote(t) + gap.Text()| == |p| + |t| + 2 + gap.Len()
  {
  }

  lemma {:induction false} PrintOrFits(p: string, tokens: seq<string>, alone: bool, q: string)
    requires q == p + PrintOr(tokens, alone)
    ensures OrAt(q, |p|, tokens, alone)
    decreases |tokens|
  {
    if tokens != [] {
      var gap, rest := OrGap(tokens, alone), PrintOr(tokens[1..], false);
      assert rest != [] ==> rest[0] == '"';
      TokenFits(p, tokens[0], gap, rest, q);
      PrintOrFits(p + Quote(tokens[0]) + gap.Text(), tokens[1..], false, q);
    }
  }

  lemma {:induction false} PrintFits(p: string, required: seq<string>, optional: seq<string>, q: string)
    requires q == p + Print(required, optional)
    ensures AllAt(q, |p|, required, optional)
    decreases |required|
  {
    if required == [] {
      PrintOrFits(p, optional, |optional| == 1, q);
    } else {
      var gap, rest := AndGap(required, optional), Print(required[1..], optional);
      PrintStartsWithQuote(required[1..], optional);
      TokenFits(p, required[0], gap, rest, q);
      PrintFits(p + Quote(required[0]) + gap.Text(), required[1..], optional, q);
    }
  }

  lemma {:induction false} SelectExpected(required: seq<string>, optional: seq<string>)
    ensures Select(Expected(required, optional), false) == required
    ensures Select(Expected(required, optional), true) == optional
    decreases |required| + |optional|
  {
    if required != [] {
      SelectExpected(required[1..], optional);
    } else if optional != [] {
      SelectExpected([], optional[1..]);
    }
  }

  lemma {:induction false} PrintOrEnds(tokens: seq<string>, alone: bool)
    requires tokens != []
    ensures PrintOr(tokens, alone) != [] && !IsSpace(PrintOr(tokens, alone)[|PrintOr(tokens, alone)| - 1])
  {
    if |tokens| > 1 { PrintOrEnds(tokens[1..], false); }
  }

  lemma {:induction false} PrintEnds(required: seq<string>, optional: seq<string>)
    requires required != [] || optional != []
    ensures Print(required, optional) != [] && !IsSpace(Print(required, optional)[|Print(required, optional)| - 1])
  {
    if required == [] {
      PrintOrEnds(optional, |optional| == 1);
    } else if |required| > 1 || optional != [] {
      PrintEnds(required[1..], optional);
    }
  }

  /** Parsing a printed pair of lists gives the same two lists back. */
  lemma RoundTrip(lower: char -> char, required: seq<string>, optional: seq<string>)
    requires required != [] || optional != []
    requires (forall t <- required :: Printable(lower, t)) && (forall t <- optional :: Printable(lower, t))
    ensures SearchSpec(lower, Print(required, optional)) == Parsed(required, optional)
  {
    var q := Print(required, optional);
    PrintStartsWithQuote(required, optional);
    PrintEnds(required, optional);
    assert Trim(q) == q;
    assert [] + q == q;
    PrintFits([], required, optional, q);
    ReadAll(lower, q, 0, required, optional);
    SelectExpected(required, optional);
  }
}
