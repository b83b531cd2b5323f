/**
The first two translation phases of C (section 5.1.1.2 of ISO/IEC 9899:2011):
trigraph replacement and line splicing. Each character keeps the offset in the
source just after its spelling.
*/
module TranslationPhases {
  import opened StructViews

  datatype Mark = Mark(c: char, end: nat)

  /** The character that the third character of a trigraph selects (section 5.2.1.1). */
  function TrigraphOf(c: char): Option<char> {
    match c
    case '=' => Some('#')
    case '/' => Some('\\')
    case '\'' => Some('^')
    case '(' => Some('[')
    case ')' => Some(']')
    case '!' => Some('|')
    case '<' => Some('{')
    case '>' => Some('}')
    case '-' => Some('~')
    case _ => None
  }

  predicate StartsTrigraph(s: string) {
    |s| >= 3 && s[0] == '?' && s[1] == '?' && TrigraphOf(s[2]).Some?
  }

  /** Trigraph replacement of a source that starts at offset `at`. */
  function Replaced(s: string, at: nat): seq<Mark> {
    if s == "" then []
    else if StartsTrigraph(s) then [Mark(TrigraphOf(s[2]).value, at + 3)] + Replaced(s[3..], at + 3)
    else [Mark(s[0], at + 1)] + Replaced(s[1..], at + 1)
  }

  predicate StartsSplice(ms: seq<Mark>) {
    |ms| >= 2 && ms[0].c == '\\' && ms[1].c == '\n'
  }

  predicate StartsReturnSplice(ms: seq<Mark>) {
    |ms| >= 3 && ms[0].c == '\\' && ms[1].c == '\r' && ms[2].c == '\n'
  }

  /** Line splicing. */
  function Spliced(ms: seq<Mark>): seq<Mark> {
    if ms == [] then []
    else if StartsSplice(ms) then Spliced(ms[2..])
    else if StartsReturnSplice(ms) then Spliced(ms[3..])
    else [ms[0]] + Spliced(ms[1..])
  }

  /** The ends rise strictly and lie in `(lo, hi]`. */
  ghost predicate Rising(ms: seq<Mark>, lo: nat, hi: nat) {
    && (forall i | 0 <= i < |ms| :: lo < ms[i].end <= hi)
    && (forall i, j | 0 <= i < j < |ms| :: ms[i].end < ms[j].end)
  }

  /** The source, up to `end`, ends with a spelling of the character. */
  ghost predicate Spelled(source: string, m: Mark) {
    && 0 < m.end <= |source|
    && (|| source[m.end - 1] == m.c
        || (m.end >= 3 && source[m.end - 3] == '?' && source[m.end - 2] == '?' &&
            TrigraphOf(source[m.end - 1]) == Some(m.c)))
  }

  lemma RisingCons(m: Mark, rest: seq<Mark>, lo: nat, hi: nat)
    requires lo < m.end <= hi && Rising(rest, m.end, hi)
    ensures Rising([m] + rest, lo, hi)
  {
  }

  lemma RisingTail(ms: seq<Mark>, k: nat, lo: nat, hi: nat)
    requires Rising(ms, lo, hi) && 0 < k <= |ms|
    ensures lo < ms[k - 1].end <= hi && ms[0].end <= ms[k - 1].end
    ensures Rising(ms[k..], ms[k - 1].end, hi)
  {
  }

  lemma RisingWidens(ms: seq<Mark>, mid: nat, lo: nat, hi: nat)
    requires Rising(ms, mid, hi) && lo <= mid
    ensures Rising(ms, lo, hi)
  {
  }

  lemma {:induction false} ReplacedRises(source: string, at: nat)
    requires at <= |source|
    ensures Rising(Replaced(source[at..], at), at, |source|)
    ensures forall m | m in Replaced(source[at..], at) :: Spelled(source, m)
    decreases |source| - at
  {
    hide Rising, TrigraphOf, Spelled;
    var s := source[at..];
    if s == "" {
      assert Rising([], at, |source|) by { RisingEmpty(at, |source|); }
    } else {
      var k := if StartsTrigraph(s) then 3 else 1;
      var m := Mark(if k == 3 then TrigraphOf(s[2]).value else s[0], at + k);
      var rest := Replaced(s[k..], at + k);
      assert s[k..] == source[at + k..];
      ReplacedRises(source, at + k);
      HeadSpelled(source, at);
      RisingCons(m, rest, at, |source|);
      assert Replaced(s, at) == [m] + rest;
    }
  }

  lemma RisingEmpty(lo: nat, hi: nat)
    ensures Rising([], lo, hi)
  {
  }

  lemma HeadSpelled(source: string, at: nat)
    requires at < |source|
    ensures var s := source[at..];
      Spelled(source, if StartsTrigraph(s) then Mark(TrigraphOf(s[2]).value, at + 3) else Mark(s[0], at + 1))
  {
    hide TrigraphOf;
  }

  lemma {:induction false} SplicedRises(ms: seq<Mark>, lo: nat, hi: nat)
    requires Rising(ms, lo, hi)
    ensures Rising(Spliced(ms), lo, hi)
    ensures forall m | m in Spliced(ms) :: m in ms
  {
    hide Rising;
    if ms != [] {
      var k := if StartsSplice(ms) then 2 else if StartsReturnSplice(ms) then 3 else 1;
      RisingTail(ms, k, lo, hi);
      SplicedRises(ms[k..], ms[k - 1].end, hi);
      if k == 1 {
        RisingCons(ms[0], Spliced(ms[1..]), lo, hi);
      } else {
        RisingWidens(Spliced(ms[k..]), ms[k - 1].end, lo, hi);
      }
    }
  }

  /** The characters of the source after both phases. */
  function Phased(source: string): seq<Mark> {
    Spliced(Replaced(source, 0))
  }

  lemma PhasedRises(source: string)
    ensures Rising(Phased(source), 0, |source|)
    ensures forall m | m in Phased(source) :: Spelled(source, m)
  {
    assert source[0..] == source;
    ReplacedRises(source, 0);
    SplicedRises(Replaced(source, 0), 0, |source|);
  }

  lemma ReplacedStep(source: string, i: nat)
    requires i < |source|
    ensures var three := i + 3 <= |source| && source[i] == '?' && source[i + 1] == '?' && TrigraphOf(source[i + 2]).Some?;
      Replaced(source[i..], i) ==
        if three then [Mark(TrigraphOf(source[i + 2]).value, i + 3)] + Replaced(source[i + 3..], i + 3)
        else [Mark(source[i], i + 1)] + Replaced(source[i + 1..], i + 1)
  {
    hide TrigraphOf;
    var s := source[i..];
    if StartsTrigraph(s) {
      assert s[3..] == source[i + 3..];
    } else {
      assert s[1..] == source[i + 1..];
    }
  }

  method Replace(source: string) returns (ms: seq<Mark>)
    ensures ms == Replaced(source, 0)
  {
    hide TrigraphOf, Replaced;
    ms := [];
    var i := 0;
    assert source[0..] == source;
    while i < |source|
      invariant i <= |source|
      invariant Replaced(source, 0) == ms + Replaced(source[i..], i)
    {
      ReplacedStep(source, i);
      if i + 3 <= |source| && source[i] == '?' && source[i + 1] == '?' && TrigraphOf(source[i + 2]).Some? {
        ms := ms + [Mark(TrigraphOf(source[i + 2]).value, i + 3)];
        i := i + 3;
      } else {
        ms := ms + [Mark(source[i], i + 1)];
        i := i + 1;
      }
    }
    EndReplaced(source);
  }

  lemma EndReplaced(source: string)
    ensures Replaced(source[|source|..], |source|) == []
  {
  }

  method Splice(ms: seq<Mark>) returns (r: seq<Mark>)
    ensures r == Spliced(ms)
  {
    r := [];
    var i := 0;
    assert ms[0..] == ms;
    while i < |ms|
      invariant i <= |ms|
      invariant Spliced(ms) == r + Spliced(ms[i..])
    {
      if i + 1 < |ms| && ms[i].c == '\\' && ms[i + 1].c == '\n' {
        assert ms[i..][2..] == ms[i + 2..];
        i := i + 2;
      } else if i + 2 < |ms| && ms[i].c == '\\' && ms[i + 1].c == '\r' && ms[i + 2].c == '\n' {
        assert ms[i..][3..] == ms[i + 3..];
        i := i + 3;
      } else {
        assert ms[i..][1..] == ms[i + 1..];
        r := r + [ms[i]];
        i := i + 1;
      }
    }
  }

  // ----- what splicing takes away

  predicate CharAt(ms: seq<Mark>, i: int, c: char) {
    0 <= i < |ms| && ms[i].c == c
  }

  /** The character is a backslash, or a line end behind it: a newline, or a return and a newline. */
  ghost predicate InSplice(ms: seq<Mark>, i: int) {
    || (CharAt(ms, i, '\\') && (CharAt(ms, i + 1, '\n') || (CharAt(ms, i + 1, '\r') && CharAt(ms, i + 2, '\n'))))
    || (CharAt(ms, i, '\r') && CharAt(ms, i - 1, '\\') && CharAt(ms, i + 1, '\n'))
    || (CharAt(ms, i, '\n') && (CharAt(ms, i - 1, '\\') || (CharAt(ms, i - 1, '\r') && CharAt(ms, i - 2, '\\'))))
  }

  /** Inside a text that does not start in the middle of a splice, a suffix has the splices of the whole. */
  ghost predicate Cuts(ms: seq<Mark>, k: nat) {
    k <= |ms| && forall i | k <= i < |ms| :: InSplice(ms, i) <==> InSplice(ms[k..], i - k)
  }

  lemma CutAfter(ms: seq<Mark>)
    requires ms != []
    ensures Cuts(ms, if StartsSplice(ms) then 2 else if StartsReturnSplice(ms) then 3 else 1)
    ensures forall i | 0 <= i < if StartsSplice(ms) then 2 else if StartsReturnSplice(ms) then 3 else 1 ::
      InSplice(ms, i) <==> StartsSplice(ms) || StartsReturnSplice(ms)
  {
    var k := if StartsSplice(ms) then 2 else if StartsReturnSplice(ms) then 3 else 1;
    forall i | k <= i < |ms| ensures InSplice(ms, i) <==> InSplice(ms[k..], i - k) {
      assert forall j, c | k <= j :: CharAt(ms, j, c) <==> CharAt(ms[k..], j - k, c);
    }
  }

  /** Splicing keeps exactly the characters outside splices; their ends tell them apart. */
  lemma {:induction false} SplicedKeeps(ms: seq<Mark>, lo: nat, hi: nat, i: nat)
    requires Rising(ms, lo, hi) && i < |ms|
    ensures ms[i] in Spliced(ms) <==> !InSplice(ms, i)
    decreases |ms|
  {
    hide InSplice, Rising;
    var k := if StartsSplice(ms) then 2 else if StartsReturnSplice(ms) then 3 else 1;
    CutAfter(ms);
    RisingTail(ms, k, lo, hi);
    SplicedRises(ms[k..], ms[k - 1].end, hi);
    if i >= k {
      SplicedKeeps(ms[k..], ms[k - 1].end, hi, i - k);
      NotFirst(ms, i, lo, hi);
    } else {
      NotLater(ms, i, k, lo, hi);
    }
  }

  lemma NotFirst(ms: seq<Mark>, i: nat, lo: nat, hi: nat)
    requires Rising(ms, lo, hi) && 0 < i < |ms|
    ensures ms[i] != ms[0]
  {
  }

  lemma NotLater(ms: seq<Mark>, i: nat, k: nat, lo: nat, hi: nat)
    requires Rising(ms, lo, hi) && i < k <= |ms|
    ensures ms[i] !in ms[k..]
  {
  }

  // ----- text without trigraphs

  predicate HasTrigraph(s: string) {
    s != "" && (StartsTrigraph(s) || HasTrigraph(s[1..]))
  }

  function Chars(ms: seq<Mark>): string {
    if ms == [] then "" else [ms[0].c] + Chars(ms[1..])
  }

  lemma {:induction false} ReplacedIsShorter(s: string, at: nat)
    ensures |Chars(Replaced(s, at))| <= |s|
    ensures Chars(Replaced(s, at)) == s <==> !HasTrigraph(s)
    ensures HasTrigraph(s) ==> |Chars(Replaced(s, at))| < |s|
  {
    if s != "" {
      var k := if StartsTrigraph(s) then 3 else 1;
      ReplacedIsShorter(s[k..], at + k);
      var rest := Replaced(s[k..], at + k);
      assert Replaced(s, at)[1..] == rest;
      assert Chars(Replaced(s, at)) == [Replaced(s, at)[0].c] + Chars(rest);
      if k == 1 {
        assert s == [s[0]] + s[1..];
      }
    }
  }

  /** The nine trigraphs of section 5.2.1.1, by their last characters, and no others. */
  lemma TrigraphSpellings(c: char)
    ensures var last, stands := "=(/)'<!>-", "#[\\]^{|}~";
      && (forall i | 0 <= i < 9 && c == last[i] :: Chars(Replaced("??" + [c], 0)) == [stands[i]])
      && (c !in last ==> Chars(Replaced("??" + [c], 0)) == "??" + [c])
  {
    hide Replaced, Chars;
    OneTrigraph(c);
  }

  lemma OneTrigraph(c: char)
    ensures Chars(Replaced("??" + [c], 0)) == if TrigraphOf(c).Some? then [TrigraphOf(c).value] else "??" + [c]
  {
    hide TrigraphOf;
    var s := "??" + [c];
    if TrigraphOf(c).Some? {
      assert s[3..] == "";
      assert Replaced(s, 0) == [Mark(TrigraphOf(c).value, 3)];
      assert Chars(Replaced(s, 0)[1..]) == "";
    } else {
      ReplacedIsShorter(s, 0);
      assert s[1..] == "?" + [c] && s[1..][1..] == [c] && [c][1..] == "";
      assert !HasTrigraph([c]);
      assert !HasTrigraph("?" + [c]);
      assert !HasTrigraph(s);
    }
  }
}
