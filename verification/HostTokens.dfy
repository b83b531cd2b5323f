/**
The tokens of a C source, as the host-source scanner cuts them: blanks and
comments between them, literals, digraphs, words and single characters.
*/
module HostTokens {
  import opened StructViews
  import opened TranslationPhases

  datatype Token = Token(text: string, end: nat)

  /** The characters from `lo` up to `hi`, after the translation phases. */
  datatype Span = Span(lo: nat, hi: nat)

  // ----- characters

  predicate IsWhite(c: char) {
    c == ' ' || c == '\t' || c == '\n' || c == '\r' || c == '\U{0C}'
  }

  predicate IsWord(c: char) {
    'a' <= c <= 'z' || 'A' <= c <= 'Z' || '0' <= c <= '9' || c == '_'
  }

  predicate IsQuote(c: char) {
    c == '\'' || c == '\"'
  }

  /** The one character that a digraph spells (section 6.4.6 of ISO/IEC 9899:2011). */
  function Digraph(a: char, b: char): Option<char> {
    if a == '<' && b == '%' then Some('{')
    else if a == '%' && b == '>' then Some('}')
    else if a == '<' && b == ':' then Some('[')
    else if a == ':' && b == '>' then Some(']')
    else if a == '%' && b == ':' then Some('#')
    else None
  }

  predicate At(ms: seq<Mark>, i: nat, a: char, b: char) {
    i + 1 < |ms| && ms[i].c == a && ms[i + 1].c == b
  }

  predicate DigraphAt(ms: seq<Mark>, i: nat) {
    i + 1 < |ms| && Digraph(ms[i].c, ms[i + 1].c).Some?
  }

  // ----- blanks

  /** A line comment ends before the next newline, or with the source. */
  ghost predicate IsLineComment(ms: seq<Mark>, i: nat, j: nat) {
    && At(ms, i, '/', '/') && i <= j <= |ms|
    && (forall k | i <= k < j :: ms[k].c != '\n')
    && (j < |ms| ==> ms[j].c == '\n')
  }

  /** A block comment ends after the first closing mark, or with the source. */
  ghost predicate IsBlockComment(ms: seq<Mark>, i: nat, j: nat) {
    && At(ms, i, '/', '*') && i + 2 <= j <= |ms|
    && (|| (j >= i + 4 && At(ms, j - 2, '*', '/') && forall k | i + 2 <= k < j - 2 :: !At(ms, k, '*', '/'))
        || (j == |ms| && forall k | i + 2 <= k < j :: !At(ms, k, '*', '/')))
  }

  ghost predicate BlankPiece(ms: seq<Mark>, i: nat, j: nat) {
    || (i < |ms| && IsWhite(ms[i].c) && j == i + 1)
    || IsLineComment(ms, i, j)
    || IsBlockComment(ms, i, j)
  }

  /** White space and comments, end to end. */
  ghost predicate Blank(ms: seq<Mark>, i: nat, j: nat)
    decreases j - i
  {
    i == j || exists m | i < m <= j :: BlankPiece(ms, i, m) && Blank(ms, m, j)
  }

  lemma {:induction false} BlankSnoc(ms: seq<Mark>, i: nat, m: nat, j: nat)
    requires i <= m && Blank(ms, i, m) && BlankPiece(ms, m, j) && m < j
    ensures Blank(ms, i, j)
    decreases m - i
  {
    if i == m {
      assert Blank(ms, j, j);
    } else {
      var k :| i < k <= m && BlankPiece(ms, i, k) && Blank(ms, k, m);
      BlankSnoc(ms, k, m, j);
    }
  }

  // ----- literals

  /** Plain characters and escaped ones, none of them the closing quote. */
  ghost predicate Units(ms: seq<Mark>, quote: char, i: nat, j: nat)
    decreases j - i
  {
    || i == j
    || (i < j <= |ms| && ms[i].c != '\\' && ms[i].c != quote && Units(ms, quote, i + 1, j))
    || (i + 1 < j <= |ms| && ms[i].c == '\\' && Units(ms, quote, i + 2, j))
  }

  lemma {:induction false} UnitsSnoc(ms: seq<Mark>, quote: char, i: nat, m: nat, j: nat)
    requires i <= m < j <= |ms| && Units(ms, quote, i, m)
    requires (j == m + 1 && ms[m].c != '\\' && ms[m].c != quote) || (j == m + 2 && ms[m].c == '\\')
    ensures Units(ms, quote, i, j)
    decreases m - i
  {
    if i == m {
      assert Units(ms, quote, j, j);
    } else if ms[i].c == '\\' {
      UnitsSnoc(ms, quote, i + 2, m, j);
    } else {
      UnitsSnoc(ms, quote, i + 1, m, j);
    }
  }

  /** A literal ends with its quote; one that is not closed ends with the source. */
  ghost predicate IsLiteral(ms: seq<Mark>, i: nat, j: nat) {
    && i < j <= |ms| && IsQuote(ms[i].c)
    && (|| (i + 1 < j && ms[j - 1].c == ms[i].c && Units(ms, ms[i].c, i + 1, j - 1))
        || (j == |ms| && Units(ms, ms[i].c, i + 1, j))
        || (i + 1 < j == |ms| && ms[j - 1].c == '\\' && Units(ms, ms[i].c, i + 1, j - 1)))
  }

  // ----- tokens

  /** A longest run of word characters. */
  ghost predicate IsWordRun(ms: seq<Mark>, i: nat, j: nat) {
    && i < j <= |ms|
    && (forall k | i <= k < j :: IsWord(ms[k].c))
    && (j < |ms| ==> !IsWord(ms[j].c))
  }

  ghost predicate TokenSpan(ms: seq<Mark>, i: nat, j: nat) {
    && i < j <= |ms|
    && !IsWhite(ms[i].c) && !At(ms, i, '/', '/') && !At(ms, i, '/', '*')
    && if IsQuote(ms[i].c) then IsLiteral(ms, i, j)
       else if DigraphAt(ms, i) then j == i + 2
       else if IsWord(ms[i].c) then IsWordRun(ms, i, j)
       else j == i + 1
  }

  function Slice(ms: seq<Mark>, i: nat, j: nat): (s: string)
    requires i <= j <= |ms|
    ensures |s| == j - i && forall k | 0 <= k < |s| :: s[k] == ms[i + k].c
  {
    seq(j - i, k requires 0 <= k < j - i => ms[i + k].c)
  }

  function SpanText(ms: seq<Mark>, i: nat, j: nat): string
    requires i < j <= |ms|
  {
    if !IsQuote(ms[i].c) && DigraphAt(ms, i) then [Digraph(ms[i].c, ms[i + 1].c).value] else Slice(ms, i, j)
  }

  ghost predicate TokenOf(ms: seq<Mark>, s: Span, t: Token) {
    TokenSpan(ms, s.lo, s.hi) && t == Token(SpanText(ms, s.lo, s.hi), ms[s.hi - 1].end)
  }

  /** The tokens cover the first characters, with only blanks between them. */
  ghost predicate Lexed(ms: seq<Mark>, upto: nat, spans: seq<Span>, tokens: seq<Token>) {
    && |spans| == |tokens| && upto <= |ms|
    && (forall k | 0 <= k < |spans| :: TokenOf(ms, spans[k], tokens[k]) && spans[k].hi <= upto)
    && (forall k {:trigger StartOf(spans, k)} | 0 <= k < |spans| ::
          StartOf(spans, k) <= spans[k].lo && Blank(ms, StartOf(spans, k), spans[k].lo))
    && Blank(ms, LastEnd(spans), upto) && LastEnd(spans) <= upto
  }

  /** Where the blanks before a token start. */
  function StartOf(spans: seq<Span>, k: nat): nat
    requires k < |spans|
  {
    if k == 0 then 0 else spans[k - 1].hi
  }

  function LastEnd(spans: seq<Span>): nat {
    if spans == [] then 0 else spans[|spans| - 1].hi
  }

  /** Token ends rise strictly, inside the source. */
  ghost predicate EndsRise(tokens: seq<Token>, hi: nat) {
    && (forall k | 0 <= k < |tokens| :: 0 < tokens[k].end <= hi)
    && (forall i, j | 0 <= i < j < |tokens| :: tokens[i].end < tokens[j].end)
  }

  lemma {:induction false} SpansRise(ms: seq<Mark>, upto: nat, spans: seq<Span>, tokens: seq<Token>, i: nat, j: nat)
    requires Lexed(ms, upto, spans, tokens) && i < j < |spans|
    ensures spans[i].hi <= spans[j].lo
    decreases j
  {
    hide Blank, TokenSpan, SpanText;
    assert StartOf(spans, j) == spans[j - 1].hi;
    if i < j - 1 {
      assert TokenOf(ms, spans[j - 1], tokens[j - 1]);
      SpanInside(ms, spans[j - 1]);
      SpansRise(ms, upto, spans, tokens, i, j - 1);
    }
  }

  lemma LexedEndsRise(ms: seq<Mark>, upto: nat, spans: seq<Span>, tokens: seq<Token>, hi: nat)
    requires Lexed(ms, upto, spans, tokens) && Rising(ms, 0, hi)
    ensures EndsRise(tokens, hi)
  {
    hide Blank, TokenSpan, SpanText;
    forall k | 0 <= k < |tokens| ensures 0 < tokens[k].end <= hi && spans[k].lo < spans[k].hi <= |ms| {
      assert TokenOf(ms, spans[k], tokens[k]);
      SpanInside(ms, spans[k]);
    }
    forall i, j | 0 <= i < j < |tokens| ensures tokens[i].end < tokens[j].end {
      SpansRise(ms, upto, spans, tokens, i, j);
      assert TokenOf(ms, spans[i], tokens[i]) && TokenOf(ms, spans[j], tokens[j]);
    }
  }

  lemma SpanInside(ms: seq<Mark>, s: Span)
    requires TokenSpan(ms, s.lo, s.hi)
    ensures s.lo < s.hi <= |ms|
  {
  }

  lemma LexedBlank(ms: seq<Mark>, upto: nat, next: nat, spans: seq<Span>, tokens: seq<Token>)
    requires Lexed(ms, upto, spans, tokens) && BlankPiece(ms, upto, next) && upto < next <= |ms|
    ensures Lexed(ms, next, spans, tokens)
  {
    hide TokenOf, BlankPiece, Blank;
    BlankSnoc(ms, LastEnd(spans), upto, next);
  }

  lemma LexedToken(ms: seq<Mark>, upto: nat, next: nat, spans: seq<Span>, tokens: seq<Token>)
    requires Lexed(ms, upto, spans, tokens) && TokenSpan(ms, upto, next)
    ensures Lexed(ms, next, spans + [Span(upto, next)],
                  tokens + [Token(SpanText(ms, upto, next), ms[next - 1].end)])
  {
    hide TokenSpan, SpanText, Blank;
    SpanInside(ms, Span(upto, next));
    assert Blank(ms, next, next) by { BlankNothing(ms, next); }
    var more := spans + [Span(upto, next)];
    assert LastEnd(more) == next;
    assert forall k | 0 <= k < |spans| :: more[k] == spans[k] && StartOf(more, k) == StartOf(spans, k);
    assert StartOf(more, |spans|) == LastEnd(spans);
  }

  lemma BlankNothing(ms: seq<Mark>, i: nat)
    ensures Blank(ms, i, i)
  {
  }

  // ----- a source has one cut

  lemma {:induction false} UnitsUnique(ms: seq<Mark>, quote: char, i: nat, j: nat, k: nat)
    requires i <= j < k <= |ms| && Units(ms, quote, i, j) && Units(ms, quote, i, k) && quote != '\\'
    ensures ms[j].c != quote
    ensures ms[j].c == '\\' ==> j + 1 < |ms|
    decreases j - i
  {
    if i < j {
      UnitsUnique(ms, quote, if ms[i].c == '\\' then i + 2 else i + 1, j, k);
    }
  }

  lemma LiteralNoLonger(ms: seq<Mark>, i: nat, j: nat, k: nat)
    requires IsLiteral(ms, i, j) && IsLiteral(ms, i, k) && j <= k
    ensures j == k
  {
    if j < k {
      var end := if Units(ms, ms[i].c, i + 1, k) then k else k - 1;
      UnitsUnique(ms, ms[i].c, i + 1, j - 1, end);
    }
  }

  /** A position starts at most one token. */
  lemma TokenUnique(ms: seq<Mark>, i: nat, j: nat, k: nat)
    requires TokenSpan(ms, i, j) && TokenSpan(ms, i, k)
    ensures j == k
  {
    if IsQuote(ms[i].c) {
      if j <= k { LiteralNoLonger(ms, i, j, k); } else { LiteralNoLonger(ms, i, k, j); }
    }
  }

  /** A position starts at most one blank, and no token where it starts a blank. */
  lemma BlankPieceUnique(ms: seq<Mark>, i: nat, j: nat, k: nat)
    requires BlankPiece(ms, i, j)
    ensures BlankPiece(ms, i, k) ==> j == k
    ensures !TokenSpan(ms, i, k)
  {
  }

  /** A place where blanks stop: a token, or the end. */
  ghost predicate StopsAt(ms: seq<Mark>, a: nat) {
    a == |ms| || exists j: nat :: TokenSpan(ms, a, j)
  }

  lemma {:induction false} BlankUnique(ms: seq<Mark>, i: nat, a: nat, b: nat)
    requires i <= a && i <= b && Blank(ms, i, a) && Blank(ms, i, b) && StopsAt(ms, a) && StopsAt(ms, b)
    ensures a == b
    decreases a - i
  {
    hide TokenSpan, BlankPiece;
    if i < a {
      var m :| i < m <= a && BlankPiece(ms, i, m) && Blank(ms, m, a);
      NoStop(ms, i, m);
      var n :| i < n <= b && BlankPiece(ms, i, n) && Blank(ms, n, b);
      BlankPieceUnique(ms, i, m, n);
      BlankUnique(ms, m, a, b);
    } else if i < b {
      var n :| i < n <= b && BlankPiece(ms, i, n) && Blank(ms, n, b);
      NoStop(ms, i, n);
    }
  }

  lemma NoStop(ms: seq<Mark>, i: nat, m: nat)
    requires BlankPiece(ms, i, m)
    ensures !StopsAt(ms, i)
  {
    forall j: nat ensures !TokenSpan(ms, i, j) { BlankPieceUnique(ms, i, m, j); }
  }

  /** The tokens cut the source from a position on. */
  ghost predicate CutFrom(ms: seq<Mark>, i: nat, spans: seq<Span>, tokens: seq<Token>)
    decreases |spans|
  {
    && |spans| == |tokens| && i <= |ms|
    && if spans == [] then Blank(ms, i, |ms|)
       else i <= spans[0].lo && Blank(ms, i, spans[0].lo) && TokenOf(ms, spans[0], tokens[0]) &&
            CutFrom(ms, spans[0].hi, spans[1..], tokens[1..])
  }

  lemma {:induction false} LexedCuts(ms: seq<Mark>, spans: seq<Span>, tokens: seq<Token>, k: nat)
    requires Lexed(ms, |ms|, spans, tokens) && k <= |spans|
    ensures CutFrom(ms, LastEnd(spans[..k]), spans[k..], tokens[k..])
    decreases |spans| - k
  {
    hide Blank, TokenOf;
    if k < |spans| {
      LexedCuts(ms, spans, tokens, k + 1);
      var i, rest := LastEnd(spans[..k]), spans[k..];
      assert i == if k == 0 then 0 else spans[k - 1].hi;
      assert LastEnd(spans[..k + 1]) == spans[k].hi;
      assert rest[1..] == spans[k + 1..] && tokens[k..][1..] == tokens[k + 1..];
      assert rest[0] == spans[k] && tokens[k..][0] == tokens[k];
      assert TokenOf(ms, rest[0], tokens[k..][0]);
      assert i == StartOf(spans, k);
      assert Blank(ms, i, rest[0].lo) && i <= rest[0].lo;
      assert i <= |ms|;
    } else {
      assert spans[..k] == spans;
    }
  }

  lemma {:induction false} CutUnique(ms: seq<Mark>, i: nat, s: seq<Span>, a: seq<Token>, t: seq<Span>, b: seq<Token>)
    requires CutFrom(ms, i, s, a) && CutFrom(ms, i, t, b)
    ensures s == t && a == b
    decreases |s|
  {
    hide Blank, TokenOf, StopsAt;
    FirstStop(ms, i, s, a);
    FirstStop(ms, i, t, b);
    BlankUnique(ms, i, FirstStart(ms, s), FirstStart(ms, t));
    if s != [] && t != [] {
      SameToken(ms, s[0], a[0], t[0], b[0]);
      CutUnique(ms, s[0].hi, s[1..], a[1..], t[1..], b[1..]);
      assert s == [s[0]] + s[1..] && t == [t[0]] + t[1..];
      assert a == [a[0]] + a[1..] && b == [b[0]] + b[1..];
    }
  }

  function FirstStart(ms: seq<Mark>, s: seq<Span>): nat {
    if s == [] then |ms| else s[0].lo
  }

  lemma FirstStop(ms: seq<Mark>, i: nat, s: seq<Span>, a: seq<Token>)
    requires CutFrom(ms, i, s, a)
    ensures i <= FirstStart(ms, s) && Blank(ms, i, FirstStart(ms, s)) && StopsAt(ms, FirstStart(ms, s))
    ensures s != [] ==> FirstStart(ms, s) < |ms|
  {
    hide Blank, TokenSpan;
    if s != [] {
      SpanInside(ms, s[0]);
    }
  }

  lemma SameToken(ms: seq<Mark>, s: Span, a: Token, t: Span, b: Token)
    requires TokenOf(ms, s, a) && TokenOf(ms, t, b) && s.lo == t.lo
    ensures s == t && a == b
  {
    TokenUnique(ms, s.lo, s.hi, t.hi);
  }

  /** A source has one sequence of tokens. */
  lemma TokensAreUnique(ms: seq<Mark>, a: seq<Token>, b: seq<Token>)
    requires LexesTo(ms, a) && LexesTo(ms, b)
    ensures a == b
  {
    hide Lexed;
    var s :| Lexed(ms, |ms|, s, a);
    var t :| Lexed(ms, |ms|, t, b);
    LexedCuts(ms, s, a, 0);
    LexedCuts(ms, t, b, 0);
    assert s[0..] == s && t[0..] == t && a[0..] == a && b[0..] == b;
    assert s[..0] == [] && t[..0] == [];
    CutUnique(ms, 0, s, a, t, b);
  }

  // ----- the scanner

  method LineEnd(ms: seq<Mark>, i: nat) returns (j: nat)
    requires At(ms, i, '/', '/')
    ensures IsLineComment(ms, i, j) && i < j
  {
    j := i;
    while j < |ms| && ms[j].c != '\n'
      invariant i <= j <= |ms| && forall k | i <= k < j :: ms[k].c != '\n'
    {
      j := j + 1;
    }
  }

  method BlockEnd(ms: seq<Mark>, i: nat) returns (j: nat)
    requires At(ms, i, '/', '*')
    ensures IsBlockComment(ms, i, j)
  {
    j := i + 2;
    while j < |ms| && !At(ms, j, '*', '/')
      invariant i + 2 <= j <= |ms| && forall k | i + 2 <= k < j :: !At(ms, k, '*', '/')
    {
      j := j + 1;
    }
    j := if j + 2 <= |ms| then j + 2 else |ms|;
  }

  method LiteralEnd(ms: seq<Mark>, i: nat) returns (j: nat)
    requires i < |ms| && IsQuote(ms[i].c)
    ensures IsLiteral(ms, i, j)
  {
    var quote := ms[i].c;
    j := i + 1;
    while j < |ms|
      invariant i + 1 <= j <= |ms| && Units(ms, quote, i + 1, j)
    {
      if ms[j].c == '\\' {
        if j + 2 > |ms| {
          return |ms|;
        }
        UnitsSnoc(ms, quote, i + 1, j, j + 2);
        j := j + 2;
      } else if ms[j].c == quote {
        return j + 1;
      } else {
        UnitsSnoc(ms, quote, i + 1, j, j + 1);
        j := j + 1;
      }
    }
  }

  method WordEnd(ms: seq<Mark>, i: nat) returns (j: nat)
    requires i < |ms|
    ensures IsWord(ms[i].c) ==> IsWordRun(ms, i, j)
    ensures !IsWord(ms[i].c) ==> j == i + 1
  {
    j := i + 1;
    if IsWord(ms[i].c) {
      while j < |ms| && IsWord(ms[j].c)
        invariant i < j <= |ms| && forall k | i <= k < j :: IsWord(ms[k].c)
      {
        j := j + 1;
      }
    }
  }

  /** The tokens are a cut of the whole source. */
  ghost predicate LexesTo(ms: seq<Mark>, tokens: seq<Token>) {
    exists spans :: Lexed(ms, |ms|, spans, tokens)
  }

  method Scan(ms: seq<Mark>) returns (tokens: seq<Token>)
    ensures LexesTo(ms, tokens)
  {
    hide Blank, IsLiteral, IsBlockComment, IsLineComment, IsWordRun, Lexed, SpanText, DigraphAt;
    tokens := [];
    ghost var spans: seq<Span> := [];
    var i := 0;
    NothingLexed(ms);
    while i < |ms|
      invariant i <= |ms| && Lexed(ms, i, spans, tokens)
    {
      var j;
      if IsWhite(ms[i].c) {
        j := i + 1;
        LexedBlank(ms, i, j, spans, tokens);
      } else if At(ms, i, '/', '/') {
        j := LineEnd(ms, i);
        CommentInside(ms, i, j);
        LexedBlank(ms, i, j, spans, tokens);
      } else if At(ms, i, '/', '*') {
        j := BlockEnd(ms, i);
        CommentInside(ms, i, j);
        LexedBlank(ms, i, j, spans, tokens);
      } else {
        if IsQuote(ms[i].c) {
          j := LiteralEnd(ms, i);
        } else if DigraphAt(ms, i) {
          j := i + 2;
        } else {
          j := WordEnd(ms, i);
        }
        SpanIsToken(ms, i, j);
        LexedToken(ms, i, j, spans, tokens);
        tokens := tokens + [Token(SpanText(ms, i, j), ms[j - 1].end)];
        spans := spans + [Span(i, j)];
      }
      i := j;
    }
  }

  lemma NothingLexed(ms: seq<Mark>)
    ensures Lexed(ms, 0, [], [])
  {
  }

  lemma CommentInside(ms: seq<Mark>, i: nat, j: nat)
    requires (IsLineComment(ms, i, j) && i < j) || IsBlockComment(ms, i, j)
    ensures BlankPiece(ms, i, j) && i < j <= |ms|
  {
  }

  lemma SpanIsToken(ms: seq<Mark>, i: nat, j: nat)
    requires i < |ms| && !IsWhite(ms[i].c) && !At(ms, i, '/', '/') && !At(ms, i, '/', '*')
    requires IsQuote(ms[i].c) ==> IsLiteral(ms, i, j)
    requires !IsQuote(ms[i].c) && DigraphAt(ms, i) ==> j == i + 2
    requires !IsQuote(ms[i].c) && !DigraphAt(ms, i) && IsWord(ms[i].c) ==> IsWordRun(ms, i, j)
    requires !IsQuote(ms[i].c) && !DigraphAt(ms, i) && !IsWord(ms[i].c) ==> j == i + 1
    ensures TokenSpan(ms, i, j)
  {
  }

  /** The tokens of a source: their ends rise strictly and stay inside the source. */
  method Tokens(source: string) returns (tokens: seq<Token>)
    ensures LexesTo(Phased(source), tokens)
    ensures EndsRise(tokens, |source|)
  {
    var replaced := Replace(source);
    var ms := Splice(replaced);
    tokens := Scan(ms);
    PhasedRises(source);
    ghost var spans :| Lexed(ms, |ms|, spans, tokens);
    LexedEndsRise(ms, |ms|, spans, tokens, |source|);
  }

  // ----- what a brace token is

  /** Just before `end`, the source spells an opening brace: the character, its trigraph, or its digraph. */
  ghost predicate BraceBefore(source: string, end: nat) {
    var ms := Phased(source);
    exists i | 0 <= i < |ms| && ms[i].end == end ::
      && Spelled(source, ms[i])
      && (ms[i].c == '{' || (ms[i].c == '%' && i > 0 && ms[i - 1].c == '<'))
  }

  lemma BraceSpan(ms: seq<Mark>, s: Span, t: Token)
    requires TokenOf(ms, s, t) && t.text == "{"
    ensures 0 < s.hi <= |ms| && t.end == ms[s.hi - 1].end
    ensures ms[s.hi - 1].c == '{' || (ms[s.hi - 1].c == '%' && s.hi > 1 && ms[s.hi - 2].c == '<')
  {
    hide IsLiteral, IsWordRun;
    SpanInside(ms, s);
    if !IsQuote(ms[s.lo].c) && DigraphAt(ms, s.lo) {
      assert SpanText(ms, s.lo, s.hi)[0] == '{';
    } else {
      assert SpanText(ms, s.lo, s.hi)[0] == ms[s.lo].c;
      assert |SpanText(ms, s.lo, s.hi)| == s.hi - s.lo;
    }
  }

  lemma BraceToken(source: string, tokens: seq<Token>, k: nat)
    requires LexesTo(Phased(source), tokens)
    requires k < |tokens| && tokens[k].text == "{"
    ensures BraceBefore(source, tokens[k].end)
  {
    hide Blank, TokenOf, Phased, Spelled;
    var ms := Phased(source);
    PhasedRises(source);
    var spans :| Lexed(ms, |ms|, spans, tokens);
    var s := spans[k];
    assert TokenOf(ms, s, tokens[k]);
    BraceSpan(ms, s, tokens[k]);
    assert ms[s.hi - 1] in ms;
  }

  /** The digraphs of section 6.4.6 that the scanner knows, by their two characters. */
  lemma DigraphSpellings(a: char, b: char)
    ensures var first, second, stands := "<%<:%", "%>:>:", "{}[]#";
      && (forall i | 0 <= i < 5 && a == first[i] && b == second[i] :: LexesTo([Mark(a, 1), Mark(b, 2)], [Token([stands[i]], 2)]))
      && (Digraph(a, b).Some? ==> exists i | 0 <= i < 5 :: a == first[i] && b == second[i])
  {
    var first, second, stands := "<%<:%", "%>:>:", "{}[]#";
    forall i | 0 <= i < 5 && a == first[i] && b == second[i]
      ensures LexesTo([Mark(a, 1), Mark(b, 2)], [Token([stands[i]], 2)])
    {
      assert Digraph(a, b) == Some(stands[i]);
      DigraphToken(a, b, stands[i]);
    }
    if Digraph(a, b).Some? {
      assert
        || (a == first[0] && b == second[0]) || (a == first[1] && b == second[1]) || (a == first[2] && b == second[2])
        || (a == first[3] && b == second[3]) || (a == first[4] && b == second[4]);
    }
  }

  lemma DigraphToken(a: char, b: char, c: char)
    requires Digraph(a, b) == Some(c)
    ensures LexesTo([Mark(a, 1), Mark(b, 2)], [Token([c], 2)])
  {
    var ms, spans := [Mark(a, 1), Mark(b, 2)], [Span(0, 2)];
    assert TokenSpan(ms, 0, 2) && SpanText(ms, 0, 2) == [c];
    assert Blank(ms, 0, 0) && Blank(ms, 2, 2);
    assert StartOf(spans, 0) == 0;
    assert Lexed(ms, 2, spans, [Token([c], 2)]);
  }
}
