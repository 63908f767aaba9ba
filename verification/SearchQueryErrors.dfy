/** When a search query is rejected, said in terms of single positions of the query. */
module SearchQueryErrors {
  import opened SearchQuery

  /** Position i is inside a quoted string: an odd number of quotes comes before it. */
  ghost predicate Inside(q: string, i: nat)
    requires i <= |q|
  {
    i > 0 && (Inside(q, i - 1) <==> q[i - 1] != '"')
  }

  /** A space, tab or comma outside quotes. */
  ghost predicate Separates(q: string, i: nat)
    requires i < |q|
  {
    IsGap(q[i]) && !Inside(q, i)
  }

  /** A second comma in the same run of separators. */
  ghost predicate BadComma(q: string, i: nat)
    requires i < |q|
  {
    && q[i] == ',' && Separates(q, i)
    && exists j | 0 <= j < i :: q[j] == ',' && forall m | j <= m < i :: Separates(q, m)
  }

  /** A quote opened right after an ordinary character or a closing quote. */
  ghost predicate BadQuote(q: string, i: nat)
    requires i < |q|
  {
    q[i] == '"' && !Inside(q, i) && i > 0 && !Separates(q, i - 1)
  }

  ghost predicate CleanBetween(q: string, a: nat, b: nat)
    requires b <= |q|
  {
    forall p | a <= p < b :: !BadComma(q, p) && !BadQuote(q, p)
  }

  lemma {:induction false} NoQuotes(q: string, a: nat, b: nat)
    requires a <= b <= |q| && forall j | a <= j < b :: q[j] != '"'
    ensures forall j | a <= j <= b :: Inside(q, j) == Inside(q, a)
  {
    if a < b { NoQuotes(q, a, b - 1); }
  }

  lemma {:induction false} WordDoesNotSeparate(q: string, i: nat)
    requires i <= |q|
    ensures var end := WordEnd(q, i, Inside(q, i));
      && (forall p | i <= p < end :: !Separates(q, p))
      && (end < |q| ==> Separates(q, end))
    decreases |q| - i
  {
    if i < |q| && !(IsGap(q[i]) && !Inside(q, i)) {
      WordDoesNotSeparate(q, i + 1);
    }
  }

  lemma {:induction false} GapSeparates(q: string, i: nat)
    requires i <= |q| && !Inside(q, i)
    ensures forall p | i <= p < GapEnd(q, i) :: Separates(q, p)
    ensures !Inside(q, GapEnd(q, i)) && (GapEnd(q, i) < |q| ==> !IsGap(q[GapEnd(q, i)]))
    decreases |q| - i
  {
    if i < |q| && IsGap(q[i]) {
      GapSeparates(q, i + 1);
    }
  }

  /** A place where a word may start. */
  ghost predicate Boundary(q: string, i: nat) {
    i <= |q| && !Inside(q, i) && (i == 0 || (Separates(q, i - 1) && (i < |q| ==> !IsGap(q[i]))))
  }

  /** The error names the first bad position from `from` on; an open quote is noticed at the end. */
  ghost predicate Explains(q: string, from: nat, error: Error) {
    match error
    case MissingOperator(p) => from <= p < |q| && BadQuote(q, p) && CleanBetween(q, from, p)
    case InvalidOperators(p) => from <= p < |q| && BadComma(q, p) && CleanBetween(q, from, p)
    case UnterminatedQuote(p) => p == |q| && Inside(q, |q|) && CleanBetween(q, from, |q|)
  }

  /** A stretch of a word in which no quote opens a string is clean. */
  lemma CleanWord(q: string, start: nat, b: nat)
    requires start <= b <= |q| && Boundary(q, start)
    requires forall p | start <= p < b :: !Separates(q, p)
    requires forall p | start < p < b :: q[p] == '"' ==> Inside(q, p)
    ensures CleanBetween(q, start, b)
  {
  }

  /** The error of a word is the first bad quote in it, or that it is not closed. */
  lemma WordVerdict(q: string, start: nat)
    requires start < |q| && Boundary(q, start)
    ensures var end := WordEnd(q, start, false);
      match WordError(q, start, end)
      case None => CleanBetween(q, start, end) && !Inside(q, end)
      case Some(e) => Explains(q, start, e)
  {
    var end := WordEnd(q, start, false);
    WordDoesNotSeparate(q, start);
    var first := Find(q, '"', start, end);
    NoQuotes(q, start, first);
    if first != start || start == end {
      CleanWord(q, start, first);
    } else {
      QuotedWordVerdict(q, start, end);
    }
  }

  lemma QuotedWordVerdict(q: string, start: nat, end: nat)
    requires start < end <= |q| && Boundary(q, start) && q[start] == '"' && Find(q, '"', start, end) == start
    requires forall p | start <= p < end :: !Separates(q, p)
    requires end < |q| ==> Separates(q, end)
    ensures match WordError(q, start, end)
      case None => CleanBetween(q, start, end) && !Inside(q, end)
      case Some(e) => Explains(q, start, e)
  {
    var second := Find(q, '"', start + 1, end);
    assert Inside(q, start + 1);
    NoQuotes(q, start + 1, second);
    if second == end {
      CleanWord(q, start, end);
    } else {
      var third := Find(q, '"', second + 1, end);
      assert !Inside(q, second + 1);
      NoQuotes(q, second + 1, third);
      CleanWord(q, start, third);
    }
  }

  /** No comma repeats before the second comma of a gap. */
  lemma FirstCommas(q: string, end: nat, k: nat, p: nat)
    requires end <= p < |q| && (end > 0 ==> !Separates(q, end - 1))
    requires forall m | end <= m < p && m != k :: q[m] != ','
    requires p <= k || q[p] != ','
    ensures !BadComma(q, p)
  {
    forall j | 0 <= j < p && q[j] == ','
      ensures q[p] != ',' || exists m | j <= m < p :: !Separates(q, m)
    {
      if j < end {
        assert !Separates(q, end - 1);
      }
    }
  }

  /** The error of a gap is its second comma. */
  lemma GapVerdict(q: string, end: nat)
    requires end < |q| && Separates(q, end) && (end > 0 ==> !Separates(q, end - 1))
    ensures var next := GapEnd(q, end);
      && Boundary(q, next)
      && match GapError(q, end, next)
         case None => CleanBetween(q, end, next)
         case Some(e) => Explains(q, end, e)
  {
    var next := GapEnd(q, end);
    GapSeparates(q, end);
    var first := Find(q, ',', end, next);
    var second := if first < next then Find(q, ',', first + 1, next) else next;
    forall p | end <= p < second ensures !BadComma(q, p) {
      FirstCommas(q, end, first, p);
    }
  }

  /** The verdict on the query from a word boundary on: the first bad position, or an open quote at the end. */
  lemma {:induction false} Verdict(lower: char -> char, q: string, i: nat, commaBefore: bool)
    requires Boundary(q, i)
    ensures match Spec(lower, q, i, commaBefore)
      case Tokens(_) => CleanBetween(q, i, |q|) && !Inside(q, |q|)
      case Fails(e) => Explains(q, i, e)
    decreases |q| - i
  {
    if i < |q| {
      var end := WordEnd(q, i, false);
      WordVerdict(q, i);
      WordDoesNotSeparate(q, i);
      SpecCases(lower, q, i, commaBefore);
      if WordError(q, i, end).None? && end < |q| {
        var next := GapEnd(q, end);
        GapVerdict(q, end);
        if GapError(q, end, next).None? {
          Verdict(lower, q, next, HasComma(q, end, next));
        }
      }
    }
  }

  /**
   A query that is not blank is rejected exactly when it has a second comma in a run of separators, a
   quote opened right after an ordinary character, or an unclosed quote. The error names the first
   such position.
   */
  lemma RejectedExactly(lower: char -> char, query: string)
    requires Trim(query) != []
    ensures var q := Trim(query);
      && (SearchSpec(lower, query).Rejected? <==> !CleanBetween(q, 0, |q|) || Inside(q, |q|))
      && (SearchSpec(lower, query).Rejected? ==> Explains(q, 0, SearchSpec(lower, query).error))
  {
    Verdict(lower, Trim(query), 0, false);
  }

  /** The parser crashes on blank queries and on no others. */
  lemma CrashesExactly(lower: char -> char, query: string)
    ensures SearchSpec(lower, query).Crashed? <==> forall c <- query :: IsSpace(c)
  {
    TrimLeftBlank(query);
    TrimRightBlank(TrimLeft(query));
  }

  lemma {:induction false} TrimLeftBlank(s: string)
    ensures TrimLeft(s) == [] <==> forall c <- s :: IsSpace(c)
    ensures TrimLeft(s) != [] ==> !IsSpace(TrimLeft(s)[0])
  {
    if s != [] && IsSpace(s[0]) {
      TrimLeftBlank(s[1..]);
      assert s == [s[0]] + s[1..];
    }
  }

  lemma {:induction false} TrimRightBlank(s: string)
    ensures TrimRight(s) == [] <==> forall c <- s :: IsSpace(c)
  {
    if s != [] && IsSpace(s[|s| - 1]) {
      TrimRightBlank(s[..|s| - 1]);
      assert s == s[..|s| - 1] + [s[|s| - 1]];
    }
  }
}
