/**
 The search query language: tags separated by spaces and commas, with quoted strings.

 The specification splits a query into words and the gaps between them. The parser is a single pass
 over the query with a handful of state variables.
 */
module SearchQuery {
  import opened Options

  datatype Error =
    | MissingOperator(pos: nat)
    | InvalidOperators(pos: nat)
    | UnterminatedQuote(pos: nat)

  datatype Token = Token(text: string, isOr: bool)

  datatype Parse = Tokens(tokens: seq<Token>) | Fails(error: Error)

  /** `Crashed` is an index out of range. */
  datatype Outcome =
    | Parsed(required: seq<string>, optional: seq<string>)
    | Rejected(error: Error)
    | Crashed

  // ----- the specification

  predicate IsGap(c: char) {
    c == ' ' || c == '\t' || c == ','
  }

  /** Where the word that goes on at i ends; quotes protect gap characters. */
  function WordEnd(q: string, i: nat, quoted: bool): (n: nat)
    requires i <= |q|
    ensures i <= n <= |q|
    decreases |q| - i
  {
    if i == |q| then i
    else if q[i] == '"' then WordEnd(q, i + 1, !quoted)
    else if !quoted && IsGap(q[i]) then i
    else WordEnd(q, i + 1, quoted)
  }

  function GapEnd(q: string, i: nat): (n: nat)
    requires i <= |q|
    ensures i <= n <= |q|
    decreases |q| - i
  {
    if i == |q| || !IsGap(q[i]) then i else GapEnd(q, i + 1)
  }

  /** The first place in from..to where c occurs, or `to`. */
  function Find(q: string, c: char, from: nat, to: nat): (k: nat)
    requires from <= to <= |q|
    ensures from <= k <= to && (forall j | from <= j < k :: q[j] != c) && (k < to ==> q[k] == c)
    decreases |q| - from
  {
    if from == to || q[from] == c then from else Find(q, c, from + 1, to)
  }

  /**
   A word is right if it has no quotes, or starts with one and has exactly one more. A quote in any
   other place opens a string right after an ordinary character.
   */
  function WordError(q: string, start: nat, end: nat): Option<Error>
    requires start <= end <= |q|
  {
    var first := Find(q, '"', start, end);
    if first == end then None
    else if first > start then Some(MissingOperator(first))
    else
      var second := Find(q, '"', start + 1, end);
      if second == end then Some(UnterminatedQuote(end))
      else
        var third := Find(q, '"', second + 1, end);
        if third == end then None else Some(MissingOperator(third))
  }

  /** A gap may contain one comma. */
  function GapError(q: string, start: nat, end: nat): Option<Error>
    requires start <= end <= |q|
  {
    var first := Find(q, ',', start, end);
    if first == end then None
    else
      var second := Find(q, ',', first + 1, end);
      if second == end then None else Some(InvalidOperators(second))
  }

  predicate HasComma(q: string, start: nat, end: nat)
    requires start <= end <= |q|
  {
    exists k :: start <= k < end && q[k] == ','
  }

  /** A word that starts and ends with a quote stands for what is inside. */
  function Strip(w: string): string {
    if |w| >= 2 && w[0] == '"' && w[|w| - 1] == '"' then w[1..|w| - 1] else w
  }

  function Lower(lower: char -> char, s: string): (r: string)
    ensures |r| == |s|
  {
    seq(|s|, i requires 0 <= i < |s| => lower(s[i]))
  }

  function Emit(lower: char -> char, w: string, isOr: bool): seq<Token> {
    if Strip(w) == [] then [] else [Token(Lower(lower, Strip(w)), isOr)]
  }

  /** The tokens in `done` come before those of the rest. */
  function After(done: seq<Token>, rest: Parse): Parse {
    if rest.Fails? then rest else Tokens(done + rest.tokens)
  }

  /** The tokens of the query from position i on: a word, the gap after it, and so on. */
  function Spec(lower: char -> char, q: string, i: nat, commaBefore: bool): Parse
    requires i <= |q|
    decreases |q| - i, 2
  {
    if i == |q| then Tokens([]) else FromWord(lower, q, i, WordEnd(q, i, false), commaBefore)
  }

  /** The word at start..end comes next. */
  function FromWord(lower: char -> char, q: string, start: nat, end: nat, commaBefore: bool): Parse
    requires start < |q| && end == WordEnd(q, start, false)
    decreases |q| - start, 1
  {
    if WordError(q, start, end).Some? then Fails(WordError(q, start, end).value)
    else FromGap(lower, q, start, end, GapEnd(q, end), commaBefore)
  }

  /**
   The gap at end..next comes next, after the word at start..end. The token is optional if there is a
   comma in the gap before (`commaBefore`) or after it.
   */
  function FromGap(lower: char -> char, q: string, start: nat, end: nat, next: nat, commaBefore: bool): Parse
    requires start < |q| && end == WordEnd(q, start, false) && next == GapEnd(q, end)
    decreases |q| - start, 0
  {
    if GapError(q, end, next).Some? then Fails(GapError(q, end, next).value)
    else
      After(Emit(lower, q[start..end], commaBefore || HasComma(q, end, next)),
            Spec(lower, q, next, HasComma(q, end, next)))
  }

  /** Texts of the tokens with the given operator, in order. */
  function Select(tokens: seq<Token>, isOr: bool): seq<string> {
    if tokens == [] then []
    else (if tokens[0].isOr == isOr then [tokens[0].text] else []) + Select(tokens[1..], isOr)
  }

  /** White space as `strings.TrimSpace` knows it. */
  predicate IsSpace(c: char) {
    || c == ' ' || '\t' <= c <= '\r' || c == '\U{85}' || c == '\U{A0}' || c == '\U{1680}'
    || '\U{2000}' <= c <= '\U{200A}' || c == '\U{2028}' || c == '\U{2029}' || c == '\U{202F}'
    || c == '\U{205F}' || c == '\U{3000}'
  }

  function TrimLeft(s: string): string {
    if s != [] && IsSpace(s[0]) then TrimLeft(s[1..]) else s
  }

  function TrimRight(s: string): string {
    if s != [] && IsSpace(s[|s| - 1]) then TrimRight(s[..|s| - 1]) else s
  }

  function Trim(s: string): string {
    TrimRight(TrimLeft(s))
  }

  function SearchSpec(lower: char -> char, query: string): Outcome {
    var q := Trim(query);
    if q == [] then Crashed
    else match Spec(lower, q, 0, false)
      case Fails(error) => Rejected(error)
      case Tokens(tokens) => Parsed(Select(tokens, false), Select(tokens, true))
  }

  // ----- the scan in the middle of a query

  /** Quotes seen in start..i: none (`close == start`), an open one, or a pair closed at `close`. */
  ghost predicate QuotesSeen(q: string, start: nat, i: nat, quoted: bool, close: nat)
    requires start <= i <= |q|
  {
    if quoted then
      start < i && q[start] == '"' && forall j | start < j < i :: q[j] != '"'
    else if close == start then
      forall j | start <= j < i :: q[j] != '"'
    else
      start < close < i && q[start] == '"' && q[close] == '"' && forall j | start < j < i && j != close :: q[j] != '"'
  }

  /** The scan is at i, inside or at the end of the word that begins at start. */
  ghost predicate InWord(q: string, start: nat, i: nat, quoted: bool, close: nat) {
    start <= i <= |q| && WordEnd(q, start, false) == WordEnd(q, i, quoted) && QuotesSeen(q, start, i, quoted, close)
  }

  /** start..end is a proper word. */
  ghost predicate GoodWord(q: string, start: nat, end: nat) {
    start <= end <= |q| && WordEnd(q, start, false) == end && WordError(q, start, end) == None
  }

  /** end..i holds one comma, at k, or none (`k == end - 1`). */
  ghost predicate CommasSeen(q: string, end: nat, i: nat, k: int)
    requires end <= i <= |q|
  {
    && -1 <= end - 1 <= k < i
    && (k >= end ==> q[k] == ',')
    && forall j | end <= j < i && j != k :: q[j] != ','
  }

  /** The scan is at i, inside or at the end of the gap after the word start..end. */
  ghost predicate InGap(q: string, start: nat, end: nat, i: nat, k: int) {
    GoodWord(q, start, end) && end < i <= |q| && GapEnd(q, end) == GapEnd(q, i) && CommasSeen(q, end, i, k)
  }

  lemma FindIs(q: string, c: char, from: nat, to: nat, k: nat)
    requires from <= k <= to <= |q| && (forall j | from <= j < k :: q[j] != c) && (k < to ==> q[k] == c)
    ensures Find(q, c, from, to) == k
  {
  }

  /** A quote that would open a string inside a word is the error the specification reports. */
  lemma QuoteInWord(lower: char -> char, q: string, start: nat, i: nat, close: nat, commaBefore: bool)
    requires InWord(q, start, i, false, close) && start < i < |q| && q[i] == '"'
    ensures Spec(lower, q, start, commaBefore) == Fails(MissingOperator(i))
  {
    var end := WordEnd(q, start, false);
    if close == start {
      FindIs(q, '"', start, end, i);
    } else {
      FindIs(q, '"', start, end, start);
      FindIs(q, '"', start + 1, end, close);
      FindIs(q, '"', close + 1, end, i);
    }
    assert FromWord(lower, q, start, end, commaBefore) == Fails(MissingOperator(i));
  }

  lemma UnclosedWord(lower: char -> char, q: string, start: nat, close: nat, commaBefore: bool)
    requires InWord(q, start, |q|, true, close)
    ensures Spec(lower, q, start, commaBefore) == Fails(UnterminatedQuote(|q|))
  {
    FindIs(q, '"', start, |q|, start);
    FindIs(q, '"', start + 1, |q|, |q|);
    assert FromWord(lower, q, start, |q|, commaBefore) == Fails(UnterminatedQuote(|q|));
  }

  lemma WordEnds(q: string, start: nat, i: nat, close: nat)
    requires InWord(q, start, i, false, close) && (i < |q| ==> IsGap(q[i]))
    ensures GoodWord(q, start, i)
  {
    if close == start {
      FindIs(q, '"', start, i, i);
    } else {
      FindIs(q, '"', start, i, start);
      FindIs(q, '"', start + 1, i, close);
      FindIs(q, '"', close + 1, i, i);
    }
  }

  lemma SecondComma(lower: char -> char, q: string, start: nat, end: nat, i: nat, k: int, commaBefore: bool)
    requires InGap(q, start, end, i, k) && end <= k && i < |q| && q[i] == ','
    ensures Spec(lower, q, start, commaBefore) == Fails(InvalidOperators(i))
  {
    var next := GapEnd(q, end);
    FindIs(q, ',', end, next, k);
    FindIs(q, ',', k + 1, next, i);
    assert FromGap(lower, q, start, end, next, commaBefore) == Fails(InvalidOperators(i));
    assert FromWord(lower, q, start, end, commaBefore) == Fails(InvalidOperators(i));
  }

  /** At the end of a gap the word before it is emitted. */
  lemma GapEnds(lower: char -> char, q: string, start: nat, end: nat, i: nat, k: int, commaBefore: bool)
    requires InGap(q, start, end, i, k) && (i < |q| ==> !IsGap(q[i]))
    ensures Spec(lower, q, start, commaBefore) ==
      After(Emit(lower, q[start..end], commaBefore || end <= k), Spec(lower, q, i, end <= k))
  {
    if end <= k {
      FindIs(q, ',', end, i, k);
      FindIs(q, ',', k + 1, i, i);
    } else {
      FindIs(q, ',', end, i, i);
    }
    SpecReads(lower, q, start, end, i, commaBefore, end <= k, Emit(lower, q[start..end], commaBefore || end <= k));
  }

  /** The three cases of the specification at a position before the end. */
  lemma SpecCases(lower: char -> char, q: string, i: nat, commaBefore: bool)
    requires i < |q|
    ensures var end := WordEnd(q, i, false);
      var next := GapEnd(q, end);
      Spec(lower, q, i, commaBefore) ==
        if WordError(q, i, end).Some? then Fails(WordError(q, i, end).value)
        else if GapError(q, end, next).Some? then Fails(GapError(q, end, next).value)
        else After(Emit(lower, q[i..end], commaBefore || HasComma(q, end, next)), Spec(lower, q, next, HasComma(q, end, next)))
  {
    var end := WordEnd(q, i, false);
    assert Spec(lower, q, i, commaBefore) == FromWord(lower, q, i, end, commaBefore);
    if WordError(q, i, end).None? {
      assert FromWord(lower, q, i, end, commaBefore) == FromGap(lower, q, i, end, GapEnd(q, end), commaBefore);
    }
  }

  /** A proper word and a proper gap: the token of the word, then the rest. */
  lemma SpecReads(lower: char -> char, q: string, start: nat, end: nat, next: nat, commaBefore: bool, comma: bool, token: seq<Token>)
    requires start < |q| && GoodWord(q, start, end)
    requires GapEnd(q, end) == next && GapError(q, end, next) == None && (HasComma(q, end, next) <==> comma)
    requires Emit(lower, q[start..end], commaBefore || comma) == token
    ensures Spec(lower, q, start, commaBefore) == After(token, Spec(lower, q, next, comma))
  {
    SpecCases(lower, q, start, commaBefore);
  }

  lemma LastWord(lower: char -> char, q: string, start: nat, close: nat, commaBefore: bool)
    requires InWord(q, start, |q|, false, close) && start < |q|
    ensures Spec(lower, q, start, commaBefore) == Tokens(Emit(lower, q[start..], commaBefore))
  {
    WordEnds(q, start, |q|, close);
    assert q[start..|q|] == q[start..];
    FindIs(q, ',', |q|, |q|, |q|);
    SpecReads(lower, q, start, |q|, |q|, commaBefore, false, Emit(lower, q[start..], commaBefore));
  }

  // ----- the parser

  datatype Symbol = NONE | QUO | AND | OR | END | ORD

  /** Pre- and post-token operators, whether inside a quoted string, and the bounds of the current token. */
  datatype Context = Context(preOp: Symbol, postOp: Symbol, quo: bool, start: nat, end: nat)

  /** The state of the scan at i, by the kind of the character before it. */
  ghost predicate Scanning(q: string, c: Context, prev: Symbol, i: nat, close: nat, k: int) {
    && i <= |q| && c.start <= i
    && (c.preOp == AND || c.preOp == OR)
    && match prev
       case NONE => i == c.start == c.end == 0 && !c.quo && c.postOp == NONE
       case ORD => c.start < i && c.postOp == NONE && InWord(q, c.start, i, c.quo, close)
       case AND => !c.quo && InGap(q, c.start, c.end, i, k) && c.postOp == if c.end <= k then OR else AND
       case OR => !c.quo && InGap(q, c.start, c.end, i, k) && c.postOp == OR && c.end <= k
       case _ => false
  }

  /** The state after an ordinary character or a quote in its place. */
  lemma OrdinaryStep(q: string, start: nat, i: nat, quo: bool, close: nat)
    requires i < |q| && start <= i
    requires if start == i then !quo else InWord(q, start, i, quo, close)
    requires if q[i] == '"' then start == i || quo else quo || !IsGap(q[i])
    ensures InWord(q, start, i + 1, if q[i] == '"' then !quo else quo,
                   if start == i then start else if q[i] == '"' then i else close)
  {
  }

  lemma GapStep(q: string, start: nat, end: nat, i: nat, k: int)
    requires InGap(q, start, end, i, k) && i < |q| && IsGap(q[i]) && (q[i] == ',' ==> k < end)
    ensures InGap(q, start, end, i + 1, if q[i] == ',' then i else k)
  {
  }

  lemma GapStart(q: string, start: nat, i: nat)
    requires GoodWord(q, start, i) && i < |q| && IsGap(q[i])
    ensures InGap(q, start, i, i + 1, if q[i] == ',' then i else i - 1)
  {
  }

  lemma AfterAfter(a: seq<Token>, b: seq<Token>, rest: Parse)
    ensures After(a, After(b, rest)) == After(a + b, rest)
  {
    if rest.Tokens? {
      assert a + (b + rest.tokens) == (a + b) + rest.tokens;
    }
  }

  /** A proper word that starts with a quote has a second one. */
  lemma QuotedWordIsLong(q: string, start: nat, end: nat)
    requires start < |q| && GoodWord(q, start, end) && q[start] == '"'
    ensures start + 1 < end
  {
    if start < end {
      FindIs(q, '"', start, end, start);
    }
  }

  lemma StripInPlace(q: string, start: nat, end: nat)
    requires start <= end <= |q|
    ensures Strip(q[start..end]) ==
      if start + 1 < end && q[start] == '"' && q[end - 1] == '"' then q[start + 1..end - 1] else q[start..end]
  {
    var w := q[start..end];
    if start + 1 < end {
      assert w[0] == q[start] && w[|w| - 1] == q[end - 1];
      SliceOfSlice(q, start, end, 1, |w| - 1);
    }
  }

  lemma SliceOfSlice(q: string, start: nat, end: nat, a: nat, b: nat)
    requires start <= end <= |q| && a <= b <= end - start
    ensures q[start..end][a..b] == q[start + a..start + b]
  {
    var left, right := q[start..end][a..b], q[start + a..start + b];
    assert |left| == |right|;
    forall j | 0 <= j < |left| ensures left[j] == right[j] {
    }
  }

  /** Cutting the token out of the query indexes outside of it. */
  predicate OutOfRange(q: string, start: nat, end: nat) {
    || start >= |q|
    || (q[start] == '"' && !(1 <= end <= |q|))
    || (q[start] != '"' && start < end && end > |q|)
  }

  /** Cut the quotes off and add the token, unless nothing is left; none if an index is out of range. */
  method EmitToken(lower: char -> char, q: string, start: nat, end: nat, isOr: bool) returns (emitted: Option<seq<Token>>)
    ensures emitted.None? <==> OutOfRange(q, start, end)
    ensures start < |q| && GoodWord(q, start, end) ==> emitted == Some(Emit(lower, q[start..end], isOr))
  {
    if start >= |q| {
      return None;
    }
    var s, e := start, end;
    if q[start] == '"' {
      if GoodWord(q, start, end) { QuotedWordIsLong(q, start, end); }
      if end < 1 || end > |q| {
        return None;
      }
      if q[end - 1] == '"' {
        s, e := s + 1, e - 1;
      }
    }
    if GoodWord(q, start, end) { StripInPlace(q, start, end); }
    if s < e {
      if e > |q| {
        return None;
      }
      emitted := Some([Token(Lower(lower, q[s..e]), isOr)]);
    } else {
      emitted := Some([]);
    }
  }

  /** The lexer: what the character at i is, given whether it is inside quotes. */
  method NextSymbol(q: string, i: nat, quo: bool) returns (curr: Symbol)
    requires i <= |q|
    ensures curr == if i == |q| then END else if q[i] == '"' then QUO
                    else if quo || !IsGap(q[i]) then ORD else if q[i] == ',' then OR else AND
  {
    curr := ORD;
    if i == |q| {
      curr := END;
    } else if q[i] == '"' {
      curr := QUO;
    } else if !quo {
      if q[i] == ' ' || q[i] == '\t' {
        curr := AND;
      } else if q[i] == ',' {
        curr := OR;
      }
    }
  }

  /** A space or a comma outside quotes: it closes the current token and sets the operator after it. */
  method AtGap(q: string, c: Context, prev: Symbol, curr: Symbol, i: nat, ghost close: nat, ghost k: int)
    returns (c': Context, ghost k': int)
    requires Scanning(q, c, prev, i, close, k) && !c.quo && i < |q|
    requires (curr == OR && q[i] == ',' && c.postOp != OR) || (curr == AND && IsGap(q[i]) && q[i] != ',')
    ensures Scanning(q, c', curr, i + 1, close, k')
    ensures c'.start == c.start && c'.preOp == c.preOp
  {
    c' := c;
    if curr == OR {
      c' := c'.(postOp := OR);
      if prev == ORD {
        c' := c'.(end := i);
      }
    } else {
      if prev == ORD {
        c' := c'.(end := i, postOp := AND);
      } else if c'.postOp != OR {
        c' := c'.(postOp := AND);
      }
    }
    if prev == ORD || prev == NONE {
      if prev == ORD { WordEnds(q, c.start, i, close); }
      GapStart(q, c.start, i);
      k' := if q[i] == ',' then i else i - 1;
    } else {
      GapStep(q, c.start, c.end, i, k);
      k' := if q[i] == ',' then i else k;
    }
  }

  /** Emit the token before a gap that ends at i. */
  method EmitBeforeGap(lower: char -> char, q: string, c: Context, prev: Symbol, i: nat, ghost close: nat, ghost k: int)
    returns (c': Context, token: Option<seq<Token>>)
    requires Scanning(q, c, prev, i, close, k) && (prev == AND || prev == OR)
    requires i < |q| ==> !IsGap(q[i])
    ensures c' == Context(c.postOp, NONE, c.quo, i, c.end) && (c'.preOp == AND || c'.preOp == OR)
    ensures token.Some? && Spec(lower, q, c.start, c.preOp == OR) == After(token.value, Spec(lower, q, i, c'.preOp == OR))
  {
    GapEnds(lower, q, c.start, c.end, i, k, c.preOp == OR);
    var op := c.preOp;
    if c.postOp == OR {
      op := OR;
    }
    token := EmitToken(lower, q, c.start, c.end, op == OR);
    c' := c.(start := i, preOp := c.postOp, postOp := NONE);
  }

  /** An ordinary character, or a quote in a place where it may stand. */
  lemma AtOrdinary(q: string, c: Context, prev: Symbol, i: nat, close: nat, k: int) returns (close': nat)
    requires Scanning(q, c, prev, i, close, k) && (prev == NONE || prev == ORD) && i < |q|
    requires if q[i] == '"' then prev == NONE || c.quo else c.quo || !IsGap(q[i])
    ensures Scanning(q, c.(quo := if q[i] == '"' then !c.quo else c.quo), ORD, i + 1, close', k)
  {
    OrdinaryStep(q, c.start, i, c.quo, close);
    close' := if c.start == i then c.start else if q[i] == '"' then i else close;
  }

  /** The first character of a token after a gap. */
  lemma AtTokenStart(q: string, c: Context, i: nat, k: int)
    requires c.start == i < |q| && c.postOp == NONE && !c.quo && !IsGap(q[i]) && (c.preOp == AND || c.preOp == OR)
    ensures Scanning(q, c.(quo := q[i] == '"'), ORD, i + 1, i, k)
  {
    OrdinaryStep(q, i, i, false, i);
  }

  /** An ordinary character or a quote: the first one after a gap emits the token before the gap. */
  method AtCharacter(lower: char -> char, q: string, c: Context, prev: Symbol, curr: Symbol, i: nat, ghost close: nat, ghost k: int)
    returns (c': Context, token: seq<Token>, ghost close': nat)
    requires Scanning(q, c, prev, i, close, k) && i < |q|
    requires if curr == QUO then q[i] == '"' && !(!c.quo && prev == ORD) else q[i] != '"' && (c.quo || !IsGap(q[i]))
    ensures Scanning(q, c', ORD, i + 1, close', k)
    ensures Spec(lower, q, c.start, c.preOp == OR) == After(token, Spec(lower, q, c'.start, c'.preOp == OR))
  {
    if prev == OR || prev == AND {
      var emitted;
      c', emitted := EmitBeforeGap(lower, q, c, prev, i, close, k);
      token := emitted.value;
      AtTokenStart(q, c', i, k);
      close' := i;
    } else {
      c', token := c, [];
      close' := AtOrdinary(q, c, prev, i, close, k);
      AfterNothing(Spec(lower, q, c.start, c.preOp == OR));
    }
    if curr == QUO {
      c' := c'.(quo := !c'.quo);
    }
  }

  lemma AfterNothing(rest: Parse)
    ensures After([], rest) == rest
  {
  }

  /** The end of the query emits the last token: out of range exactly if there has been no character at all. */
  method AtEnd(lower: char -> char, q: string, c: Context, prev: Symbol, ghost close: nat, ghost k: int)
    returns (token: Option<seq<Token>>)
    requires Scanning(q, c, prev, |q|, close, k) && !c.quo
    ensures token.None? <==> q == []
    ensures q != [] ==> Spec(lower, q, c.start, c.preOp == OR) == Tokens(token.value)
  {
    if prev == ORD {
      WordEnds(q, c.start, |q|, close);
      LastWord(lower, q, c.start, close, c.preOp == OR);
      assert q[c.start..|q|] == q[c.start..];
      token := EmitToken(lower, q, c.start, |q|, c.preOp == OR);
    } else if prev == NONE {
      token := EmitToken(lower, q, c.start, c.end, c.preOp == OR);
    } else {
      var _, emitted := EmitBeforeGap(lower, q, c, prev, |q|, close, k);
      token := emitted;
    }
  }

  /** The three errors, each reported where it is first noticed. */
  method Check(lower: char -> char, q: string, c: Context, prev: Symbol, curr: Symbol, i: nat, ghost close: nat, ghost k: int)
    returns (error: Option<Error>)
    requires Scanning(q, c, prev, i, close, k)
    requires curr == QUO ==> i < |q| && q[i] == '"'
    requires curr == OR ==> i < |q| && q[i] == ','
    requires curr == END ==> i == |q|
    ensures error.Some? ==> q != [] && Spec(lower, q, c.start, c.preOp == OR) == Fails(error.value)
    ensures error.None? ==> !(curr == QUO && !c.quo && prev == ORD) && !(curr == OR && c.postOp == OR) && !(curr == END && c.quo)
  {
    if curr == QUO && !c.quo && prev == ORD {
      QuoteInWord(lower, q, c.start, i, close, c.preOp == OR);
      error := Some(MissingOperator(i));
    } else if curr == OR && c.postOp == OR {
      SecondComma(lower, q, c.start, c.end, i, k, c.preOp == OR);
      error := Some(InvalidOperators(i));
    } else if curr == END && c.quo {
      UnclosedWord(lower, q, c.start, close, c.preOp == OR);
      error := Some(UnterminatedQuote(i));
    } else {
      error := None;
    }
  }

  /** Process one character. */
  method Advance(lower: char -> char, q: string, c: Context, prev: Symbol, curr: Symbol, i: nat, ghost close: nat, ghost k: int)
    returns (prev': Symbol, c': Context, token: seq<Token>, ghost close': nat, ghost k': int)
    requires Scanning(q, c, prev, i, close, k) && i < |q| && Passes(q, c, prev, curr, i)
    ensures prev' != END && Scanning(q, c', prev', i + 1, close', k')
    ensures Spec(lower, q, c.start, c.preOp == OR) == After(token, Spec(lower, q, c'.start, c'.preOp == OR))
  {
    close', k' := close, k;
    if curr == OR || curr == AND {
      prev', token := curr, [];
      c', k' := AtGap(q, c, prev, curr, i, close, k);
      AfterNothing(Spec(lower, q, c.start, c.preOp == OR));
    } else {
      prev' := ORD;
      c', token, close' := AtCharacter(lower, q, c, prev, curr, i, close, k);
    }
  }

  /** What the tokens emitted so far and the rest of the query come to. */
  function Completed(lower: char -> char, q: string, c: Context, prev: Symbol, out: seq<Token>): Parse
    requires c.start <= |q|
  {
    if prev == END then Tokens(out) else After(out, Spec(lower, q, c.start, c.preOp == OR))
  }

  /** Where the scan is and what the whole query comes to. */
  ghost predicate Progress(lower: char -> char, q: string, spec: Parse, c: Context, prev: Symbol, i: nat,
                           out: seq<Token>, close: nat, k: int) {
    && i <= |q| && c.start <= |q| && spec == Completed(lower, q, c, prev, out)
    && if prev == END then q != [] else Scanning(q, c, prev, i, close, k)
  }

  lemma Begins(lower: char -> char, q: string, c: Context)
    requires c == Context(AND, NONE, false, 0, 0)
    ensures Progress(lower, q, Spec(lower, q, c.start, false), c, NONE, c.start, [], c.start, -1)
  {
    AfterNothing(Spec(lower, q, c.start, false));
  }

  /** What the checks leave of a character. */
  predicate Passes(q: string, c: Context, prev: Symbol, curr: Symbol, i: nat)
    requires i < |q|
  {
    match curr
    case OR => !c.quo && q[i] == ',' && c.postOp != OR
    case AND => !c.quo && IsGap(q[i]) && q[i] != ','
    case QUO => q[i] == '"' && !(!c.quo && prev == ORD)
    case _ => q[i] != '"' && (c.quo || !IsGap(q[i]))
  }

  /** Process one character and keep what it emits. */
  method Feed(lower: char -> char, q: string, ghost spec: Parse, c: Context, prev: Symbol, curr: Symbol, i: nat,
              out: seq<Token>, ghost close: nat, ghost k: int)
    returns (prev': Symbol, c': Context, out': seq<Token>, ghost close': nat, ghost k': int)
    requires Progress(lower, q, spec, c, prev, i, out, close, k) && prev != END && i < |q| && Passes(q, c, prev, curr, i)
    ensures prev' != END && Progress(lower, q, spec, c', prev', i + 1, out', close', k')
  {
    var token;
    prev', c', token, close', k' := Advance(lower, q, c, prev, curr, i, close, k);
    AfterAfter(out, token, Spec(lower, q, c'.start, c'.preOp == OR));
    out' := out + token;
  }

  /** One pass over the query; none if an index is out of range, which happens on the empty query alone. */
  method Scan(lower: char -> char, q: string) returns (r: Option<Parse>)
    ensures r == if q == [] then None else Some(Spec(lower, q, 0, false))
  {
    var ctx := Context(AND, NONE, false, 0, 0);
    var out: seq<Token> := [];
    var prev, i := NONE, 0;
    ghost var close: nat, k: int := 0, -1;
    ghost var spec := Spec(lower, q, ctx.start, false);
    Begins(lower, q, ctx);
    while prev != END
      invariant 0 <= i && Progress(lower, q, spec, ctx, prev, i, out, close, k)
      decreases |q| - i, if prev == END then 0 else 1
    {
      var curr := NextSymbol(q, i, ctx.quo);
      var error := Check(lower, q, ctx, prev, curr, i, close, k);
      if error.Some? {
        return Some(Fails(error.value));
      }
      if curr == END {
        var token := AtEnd(lower, q, ctx, prev, close, k);
        if token.None? {
          return None;
        }
        out := out + token.value;
        prev := END;
      } else {
        prev, ctx, out, close, k := Feed(lower, q, spec, ctx, prev, curr, i, out, close, k);
        i := i + 1;
      }
    }
    r := Some(Tokens(out));
  }

  method ParseSearchQuery(lower: char -> char, query: string) returns (r: Outcome)
    ensures r == SearchSpec(lower, query)
  {
    var parse := Scan(lower, Trim(query));
    match parse
    case None => r := Crashed;
    case Some(Fails(error)) => r := Rejected(error);
    case Some(Tokens(tokens)) => r := Sift(tokens);
  }

  lemma SelectNext(tokens: seq<Token>, n: nat, before: seq<string>, isOr: bool)
    requires n < |tokens|
    ensures before + Select(tokens[n..], isOr) ==
      (if tokens[n].isOr == isOr then before + [tokens[n].text] else before) + Select(tokens[n + 1..], isOr)
  {
    assert tokens[n..][1..] == tokens[n + 1..];
  }

  /** Convert the tokens to the two lists. */
  method Sift(tokens: seq<Token>) returns (r: Outcome)
    ensures r == Parsed(Select(tokens, false), Select(tokens, true))
  {
    var required, optional := [], [];
    for n := 0 to |tokens|
      invariant required + Select(tokens[n..], false) == Select(tokens, false)
      invariant optional + Select(tokens[n..], true) == Select(tokens, true)
    {
      SelectNext(tokens, n, required, false);
      SelectNext(tokens, n, optional, true);
      if tokens[n].isOr {
        optional := optional + [tokens[n].text];
      } else {
        required := required + [tokens[n].text];
      }
    }
    r := Parsed(required, optional);
  }
}
