/**
The printer of C string literals, against a reader of adjacent string
literals: the escapes of section 6.4.4.4 and the concatenation of phase 6 of
section 5.1.1.2 of ISO/IEC 9899:2011.
*/
module StringLiterals {
  import opened StructViews
  import opened TranslationPhases

  type Byte = n: nat | n < 256

  const PIECE := 4000

  // ----- the printer

  function Digit(d: nat): char
    requires d < 8
  {
    '0' + d as char
  }

  function Spelling(b: Byte): string {
    if b == '\"' as int then "\\\""
    else if b == '\\' as int then "\\\\"
    else if 0x20 <= b <= 0x7e then [b as char]
    else ['\\', Digit(b / 64), Digit(b / 8 % 8), Digit(b % 8)]
  }

  predicate Splits(index: nat) {
    index != 0 && index % PIECE == 0
  }

  function Break(index: nat): string {
    if Splits(index) then "\"\n\"" else ""
  }

  /** The text of the bytes from a position of the whole on, with the closing quote. */
  function Body(bytes: seq<Byte>, index: nat): string {
    if bytes == [] then "\""
    else Break(index) + (Spelling(bytes[0]) + Body(bytes[1..], index + 1))
  }

  method CStringLiteral(bytes: seq<Byte>) returns (r: string)
    ensures r == "\"" + Body(bytes, 0)
  {
    hide Spelling, Splits;
    r := "\"";
    var index := 0;
    assert bytes[0..] == bytes;
    while index < |bytes|
      invariant index <= |bytes|
      invariant r + Body(bytes[index..], index) == "\"" + Body(bytes, 0)
    {
      assert bytes[index..][1..] == bytes[index + 1..];
      assert bytes[index..][0] == bytes[index];
      r := r + Break(index);
      r := r + Spelling(bytes[index]);
      index := index + 1;
    }
    r := r + "\"";
  }

  // ----- the reader

  predicate IsOctal(c: char) {
    '0' <= c <= '7'
  }

  function OctalValue(c: char): nat
    requires IsOctal(c)
  {
    (c - '0') as nat
  }

  /** An octal escape takes one to three digits. */
  function Octal(s: string, value: nat, left: nat): (nat, string) {
    if left > 0 && s != "" && IsOctal(s[0]) then Octal(s[1..], value * 8 + OctalValue(s[0]), left - 1)
    else (value, s)
  }

  function SimpleEscape(c: char): Option<Byte> {
    match c
    case '\'' => Some(39)
    case '\"' => Some(34)
    case '?' => Some(63)
    case '\\' => Some(92)
    case 'a' => Some(7)
    case 'b' => Some(8)
    case 'f' => Some(12)
    case 'n' => Some(10)
    case 'r' => Some(13)
    case 't' => Some(9)
    case 'v' => Some(11)
    case _ => None
  }

  datatype Reading = Reading(pieces: seq<seq<Byte>>, ok: bool)

  /** Outside a literal: white space, or the start of a literal. */
  function Outside(s: string): Reading
    decreases |s|, 1
  {
    if s == "" then Reading([], true)
    else if s[0] in {' ', '\n', '\t'} then Outside(s[1..])
    else if s[0] == '\"' then Inside(s[1..], [])
    else Reading([], false)
  }

  /** Inside a literal, after the bytes of `piece`. */
  function Inside(s: string, piece: seq<Byte>): Reading
    decreases |s|, 0
  {
    if s == "" || s[0] == '\n' || s[0] as int >= 128 then Reading([piece], false)
    else if s[0] == '\"' then
      var rest := Outside(s[1..]);
      Reading([piece] + rest.pieces, rest.ok)
    else if s[0] != '\\' then Inside(s[1..], piece + [s[0] as int])
    else if |s| >= 2 && IsOctal(s[1]) then
      var (value, rest) := Octal(s[1..], 0, 3);
      OctalShorter(s[1..], 0, 3);
      if value < 256 then Inside(rest, piece + [value]) else Reading([piece], false)
    else if |s| >= 2 && SimpleEscape(s[1]).Some? then Inside(s[2..], piece + [SimpleEscape(s[1]).value])
    else Reading([piece], false)
  }

  lemma {:induction false} OctalShorter(s: string, value: nat, left: nat)
    ensures |Octal(s, value, left).1| <= |s|
    decreases left
  {
    if left > 0 && s != "" && IsOctal(s[0]) {
      OctalShorter(s[1..], value * 8 + OctalValue(s[0]), left - 1);
    }
  }

  // ----- the round trip

  /** The bytes cut at each multiple of the piece length, the first piece begun. */
  function Pieces(bytes: seq<Byte>, index: nat, piece: seq<Byte>): seq<seq<Byte>> {
    if bytes == [] then [piece]
    else if Splits(index) then [piece] + Pieces(bytes[1..], index + 1, [bytes[0]])
    else Pieces(bytes[1..], index + 1, piece + [bytes[0]])
  }

  function Concat(pieces: seq<seq<Byte>>): seq<Byte> {
    if pieces == [] then [] else pieces[0] + Concat(pieces[1..])
  }

  lemma OctalReads(b: Byte, tail: string)
    ensures Octal([Digit(b / 64), Digit(b / 8 % 8), Digit(b % 8)] + tail, 0, 3) == (b, tail)
  {
    var d2, d1, d0 := Digit(b / 64), Digit(b / 8 % 8), Digit(b % 8);
    var s := [d2, d1, d0] + tail;
    assert s[1..] == [d1, d0] + tail && s[1..][1..] == [d0] + tail && s[1..][1..][1..] == tail;
    assert Octal(tail, b, 0) == (b, tail);
    assert Octal([d0] + tail, b / 8, 1) == (b, tail);
    assert Octal([d1, d0] + tail, b / 64, 2) == (b, tail);
  }

  /** The reader takes back one printed byte, whatever follows. */
  lemma ByteReads(b: Byte, tail: string, piece: seq<Byte>)
    ensures Inside(Spelling(b) + tail, piece) == Inside(tail, piece + [b])
  {
    var s := Spelling(b) + tail;
    if b == 34 || b == 92 {
      assert s[2..] == tail;
    } else if 0x20 <= b <= 0x7e {
      assert s[1..] == tail;
    } else {
      assert s[1..] == [Digit(b / 64), Digit(b / 8 % 8), Digit(b % 8)] + tail;
      OctalReads(b, tail);
    }
  }

  lemma BreakReads(tail: string, piece: seq<Byte>)
    ensures Inside("\"\n\"" + tail, piece) ==
      Reading([piece] + Inside(tail, []).pieces, Inside(tail, []).ok)
  {
    var s := "\"\n\"" + tail;
    assert s[1..] == "\n\"" + tail;
    assert s[1..][1..] == "\"" + tail;
    assert s[1..][1..][1..] == tail;
    assert Outside("\"" + tail) == Inside(tail, []);
    assert Outside(s[1..]) == Outside("\"" + tail);
  }

  lemma {:induction false} BodyReads(bytes: seq<Byte>, index: nat, piece: seq<Byte>)
    ensures Inside(Body(bytes, index), piece) == Reading(Pieces(bytes, index, piece), true)
    decreases |bytes|
  {
    hide Inside, Spelling, Splits;
    if bytes == [] {
      EndReads(piece);
    } else {
      var b, tail := bytes[0], Body(bytes[1..], index + 1);
      var text := Spelling(b) + tail;
      if Splits(index) {
        BreakReads(text, piece);
        ByteReads(b, tail, []);
        BodyReads(bytes[1..], index + 1, [b]);
        assert [] + [b] == [b];
      } else {
        assert Break(index) + text == text;
        ByteReads(b, tail, piece);
        BodyReads(bytes[1..], index + 1, piece + [b]);
      }
    }
  }

  lemma EndReads(piece: seq<Byte>)
    ensures Inside("\"", piece) == Reading([piece], true)
  {
    assert "\""[1..] == "";
  }

  lemma SplitLength(index: nat)
    requires index > 0
    ensures Splits(index) ==> (index - 1) % PIECE + 1 == PIECE
    ensures !Splits(index) ==> (index - 1) % PIECE + 1 == index % PIECE
  {
  }

  lemma {:induction false} PiecesJoin(bytes: seq<Byte>, index: nat, piece: seq<Byte>)
    ensures Concat(Pieces(bytes, index, piece)) == piece + bytes
    decreases |bytes|
  {
    hide Splits;
    if bytes == [] {
      assert Concat([piece]) == piece + Concat([piece][1..]);
    } else if Splits(index) {
      PiecesJoin(bytes[1..], index + 1, [bytes[0]]);
      var rest := Pieces(bytes[1..], index + 1, [bytes[0]]);
      assert ([piece] + rest)[1..] == rest;
      assert [bytes[0]] + bytes[1..] == bytes;
    } else {
      PiecesJoin(bytes[1..], index + 1, piece + [bytes[0]]);
      assert piece + [bytes[0]] + bytes[1..] == piece + bytes;
    }
  }

  /** All pieces but the last hold 4000 bytes, and the last no more. */
  ghost predicate Full(ps: seq<seq<Byte>>) {
    && |ps| > 0
    && |ps[|ps| - 1]| <= 4000
    && forall k | 0 <= k < |ps| - 1 :: |ps[k]| == 4000
  }

  lemma FullCons(piece: seq<Byte>, ps: seq<seq<Byte>>)
    requires |piece| == PIECE && Full(ps)
    ensures Full([piece] + ps)
  {
  }

  lemma {:induction false} PiecesAreFull(bytes: seq<Byte>, index: nat, piece: seq<Byte>)
    requires |piece| == if index == 0 then 0 else (index - 1) % PIECE + 1
    ensures Full(Pieces(bytes, index, piece))
    decreases |bytes|
  {
    hide Splits;
    NoSplitAtStart();
    if index > 0 {
      SplitLength(index);
    }
    if bytes != [] {
      if Splits(index) {
        PiecesAreFull(bytes[1..], index + 1, [bytes[0]]);
        FullCons(piece, Pieces(bytes[1..], index + 1, [bytes[0]]));
      } else {
        PiecesAreFull(bytes[1..], index + 1, piece + [bytes[0]]);
      }
    }
  }

  lemma NoSplitAtStart()
    ensures !Splits(0)
  {
  }

  /** Read back, the printed pieces hold exactly the bytes, at most the piece length each. */
  lemma RoundTrip(bytes: seq<Byte>)
    ensures var r := Outside("\"" + Body(bytes, 0));
      r.ok && Concat(r.pieces) == bytes && Full(r.pieces)
  {
    hide Inside, Body;
    var text := Body(bytes, 0);
    assert ("\"" + text)[1..] == text;
    BodyReads(bytes, 0, []);
    PiecesJoin(bytes, 0, []);
    PiecesAreFull(bytes, 0, []);
    assert [] + bytes == bytes;
  }

  // ----- trigraphs

  /** The bytes hold a trigraph that no split parts. */
  predicate ByteTrigraph(bytes: seq<Byte>, index: nat) {
    && bytes != []
    && (|| StartsByteTrigraph(bytes, index)
        || ByteTrigraph(bytes[1..], index + 1))
  }

  predicate StartsByteTrigraph(bytes: seq<Byte>, index: nat) {
    && |bytes| >= 3
    && bytes[0] == 63 && bytes[1] == 63 && TrigraphOf(bytes[2] as char).Some?
    && !Splits(index + 1) && !Splits(index + 2)
  }

  lemma SkipsOne(c: char, s: string)
    requires c != '?'
    ensures HasTrigraph([c] + s) <==> HasTrigraph(s)
  {
    assert ([c] + s)[1..] == s;
  }

  /** What begins with no question mark hides no trigraph start. */
  lemma {:induction false} Skips(t: string, s: string)
    requires '?' !in t
    ensures HasTrigraph(t + s) <==> HasTrigraph(s)
  {
    if t == "" {
      assert t + s == s;
    } else {
      assert t + s == [t[0]] + (t[1..] + s);
      SkipsOne(t[0], t[1..] + s);
      Skips(t[1..], s);
    }
  }

  lemma SpellingHasNoMark(b: Byte)
    requires b != 63
    ensures '?' !in Spelling(b) && Spelling(b) != ""
    ensures TrigraphOf(b as char).Some? ==> Spelling(b) == [b as char]
    ensures TrigraphOf(b as char).None? ==> TrigraphOf(Spelling(b)[0]).None?
  {
  }

  /** How the text goes on after a byte. */
  lemma BodyStarts(bytes: seq<Byte>, index: nat)
    ensures Body(bytes, index) != ""
    ensures Body(bytes, index)[0] == '?' <==> bytes != [] && !Splits(index) && bytes[0] == 63
    ensures TrigraphOf(Body(bytes, index)[0]).Some? <==>
      bytes != [] && !Splits(index) && TrigraphOf(bytes[0] as char).Some?
  {
    hide Splits;
    if bytes != [] && !Splits(index) && bytes[0] != 63 {
      SpellingHasNoMark(bytes[0]);
    }
  }

  lemma {:induction false} BodyTrigraphs(bytes: seq<Byte>, index: nat)
    ensures HasTrigraph(Body(bytes, index)) <==> ByteTrigraph(bytes, index)
    decreases |bytes|
  {
    hide Splits, TrigraphOf, Spelling;
    if bytes == [] {
      SkipsOne('\"', "");
      assert ['\"'] + "" == "\"";
    } else {
      var b, tail := bytes[0], Body(bytes[1..], index + 1);
      BodyTrigraphs(bytes[1..], index + 1);
      BreakHasNoMark(index);
      Skips(Break(index), Spelling(b) + tail);
      if b != 63 {
        SpellingHasNoMark(b);
        Skips(Spelling(b), tail);
      } else {
        MarkBefore(bytes, index);
      }
    }
  }

  lemma BreakHasNoMark(index: nat)
    ensures '?' !in Break(index)
  {
  }

  lemma MarkBefore(bytes: seq<Byte>, index: nat)
    requires bytes != [] && bytes[0] == 63
    ensures var tail := Body(bytes[1..], index + 1);
      HasTrigraph(Spelling(63) + tail) <==> StartsByteTrigraph(bytes, index) || HasTrigraph(tail)
  {
    hide Splits, TrigraphOf, Body, StartsByteTrigraph, StartsTrigraph;
    var tail := Body(bytes[1..], index + 1);
    assert Spelling(63) == "?";
    assert ("?" + tail)[1..] == tail;
    if StartsByteTrigraph(bytes, index) {
      TrigraphText(bytes, index);
    } else {
      NoTrigraphText(bytes, index);
    }
  }

  /** The printed text survives trigraph replacement exactly when the bytes hold no trigraph inside one piece. */
  lemma SurvivesReplacement(bytes: seq<Byte>)
    ensures var text := "\"" + Body(bytes, 0);
      Chars(Replaced(text, 0)) == text <==> !ByteTrigraph(bytes, 0)
  {
    var text := "\"" + Body(bytes, 0);
    ReplacedIsShorter(text, 0);
    BodyTrigraphs(bytes, 0);
    SkipsOne('\"', Body(bytes, 0));
  }

  // ----- what is read after trigraph replacement

  /** The printed text after trigraph replacement. */
  function Seen(bytes: seq<Byte>, index: nat): string {
    if bytes == [] then "\""
    else
      Break(index) +
      if StartsByteTrigraph(bytes, index)
      then [TrigraphOf(bytes[2] as char).value] + Seen(bytes[3..], index + 3)
      else Spelling(bytes[0]) + Seen(bytes[1..], index + 1)
  }

  function Unmarked(s: string): string {
    Chars(Replaced(s, 0))
  }

  lemma {:induction false} UnmarkedAt(s: string, at: nat, to: nat)
    ensures Chars(Replaced(s, at)) == Chars(Replaced(s, to))
    decreases |s|
  {
    if s != "" {
      var k := if StartsTrigraph(s) then 3 else 1;
      UnmarkedAt(s[k..], at + k, to + k);
      assert Replaced(s, at)[1..] == Replaced(s[k..], at + k);
      assert Replaced(s, to)[1..] == Replaced(s[k..], to + k);
    }
  }

  lemma UnmarkedStep(s: string)
    requires s != ""
    ensures Unmarked(s) ==
      if StartsTrigraph(s) then [TrigraphOf(s[2]).value] + Unmarked(s[3..]) else [s[0]] + Unmarked(s[1..])
  {
    var k := if StartsTrigraph(s) then 3 else 1;
    UnmarkedAt(s[k..], k, 0);
    assert Replaced(s, 0)[1..] == Replaced(s[k..], k);
  }

  /** Text without a question mark passes as it is. */
  lemma {:induction false} UnmarkedSkips(t: string, s: string)
    requires '?' !in t
    ensures Unmarked(t + s) == t + Unmarked(s)
  {
    hide Unmarked, TrigraphOf;
    if t == "" {
      assert t + s == s;
    } else {
      UnmarkedStep(t + s);
      assert (t + s)[1..] == t[1..] + s;
      UnmarkedSkips(t[1..], s);
      assert [t[0]] + (t[1..] + Unmarked(s)) == t + Unmarked(s);
    }
  }

  lemma {:induction false} BodySeen(bytes: seq<Byte>, index: nat)
    ensures Unmarked(Body(bytes, index)) == Seen(bytes, index)
    decreases |bytes|
  {
    hide Splits, TrigraphOf, Spelling, Unmarked;
    if bytes == [] {
      UnmarkedSkips("\"", "");
      assert Unmarked("") == "" by { NothingUnmarked(); }
      assert "\"" + "" == "\"";
    } else {
      var b, tail := bytes[0], Body(bytes[1..], index + 1);
      BreakHasNoMark(index);
      UnmarkedSkips(Break(index), Spelling(b) + tail);
      BodySeen(bytes[1..], index + 1);
      if b != 63 {
        SpellingHasNoMark(b);
        UnmarkedSkips(Spelling(b), tail);
      } else {
        MarkSeen(bytes, index);
        if StartsByteTrigraph(bytes, index) {
          BodySeen(bytes[3..], index + 3);
        }
      }
    }
  }

  lemma NothingUnmarked()
    ensures Unmarked("") == ""
  {
  }

  lemma MarkSeen(bytes: seq<Byte>, index: nat)
    requires bytes != [] && bytes[0] == 63
    ensures Unmarked(Spelling(63) + Body(bytes[1..], index + 1)) ==
      if StartsByteTrigraph(bytes, index) then [TrigraphOf(bytes[2] as char).value] + Unmarked(Body(bytes[3..], index + 3))
      else Spelling(63) + Unmarked(Body(bytes[1..], index + 1))
  {
    hide Splits, TrigraphOf, Unmarked, Body, StartsByteTrigraph, StartsTrigraph;
    var tail := Body(bytes[1..], index + 1);
    var s := "?" + tail;
    assert Spelling(63) == "?";
    assert s[1..] == tail;
    UnmarkedStep(s);
    if StartsByteTrigraph(bytes, index) {
      TrigraphText(bytes, index);
    } else {
      NoTrigraphText(bytes, index);
    }
  }

  lemma TrigraphText(bytes: seq<Byte>, index: nat)
    requires StartsByteTrigraph(bytes, index)
    ensures var s := "?" + Body(bytes[1..], index + 1);
      StartsTrigraph(s) && s[2] == bytes[2] as char && s[3..] == Body(bytes[3..], index + 3)
  {
    hide Splits, TrigraphOf;
    var tail, after, last := Body(bytes[1..], index + 1), Body(bytes[2..], index + 2), Body(bytes[3..], index + 3);
    assert bytes[1..][1..] == bytes[2..] && bytes[2..][1..] == bytes[3..];
    assert Break(index + 1) == "" && Break(index + 2) == "";
    TrigraphEnds(bytes[2], last);
    assert after == [bytes[2] as char] + last;
    assert tail == "?" + after;
    assert "?" + tail == "??" + [bytes[2] as char] + last;
  }

  lemma NoTrigraphText(bytes: seq<Byte>, index: nat)
    requires bytes != [] && bytes[0] == 63 && !StartsByteTrigraph(bytes, index)
    ensures !StartsTrigraph("?" + Body(bytes[1..], index + 1))
  {
    hide Splits, TrigraphOf;
    var tail := Body(bytes[1..], index + 1);
    BodyStarts(bytes[1..], index + 1);
    if tail[0] == '?' {
      var after := Body(bytes[2..], index + 2);
      assert bytes[1..][1..] == bytes[2..];
      assert Break(index + 1) == "";
      assert tail == "?" + after;
      BodyStarts(bytes[2..], index + 2);
      assert ("?" + tail)[2] == after[0];
    }
  }

  lemma TrigraphEnds(b: Byte, tail: string)
    requires TrigraphOf(b as char).Some?
    ensures Spelling(b) == [b as char] && b != 63
  {
  }

  // ----- the question marks that are read

  function Marks(bytes: seq<Byte>): nat {
    if bytes == [] then 0 else (if bytes[0] == 63 then 1 else 0) + Marks(bytes[1..])
  }

  lemma {:induction false} MarksJoin(a: seq<Byte>, b: seq<Byte>)
    ensures Marks(a + b) == Marks(a) + Marks(b)
  {
    if a == [] {
      assert a + b == b;
    } else {
      assert (a + b)[1..] == a[1..] + b;
      MarksJoin(a[1..], b);
    }
  }

  lemma MarksSnoc(a: seq<Byte>, b: Byte)
    ensures Marks(a + [b]) == Marks(a) + if b == 63 then 1 else 0
  {
    MarksJoin(a, [b]);
    assert [b][1..] == [];
  }

  /** The question marks in everything read. */
  function Read(r: Reading): nat {
    Marks(Concat(r.pieces))
  }

  lemma ReadCons(piece: seq<Byte>, r: Reading)
    ensures Read(Reading([piece] + r.pieces, r.ok)) == Marks(piece) + Read(r)
  {
    assert ([piece] + r.pieces)[1..] == r.pieces;
    MarksJoin(piece, Concat(r.pieces));
  }

  /** Outside a literal the rest of the text never makes a whole reading. */
  lemma {:induction false} OutsideFails(bytes: seq<Byte>, index: nat)
    ensures !Outside(Seen(bytes, index)).ok
    decreases |bytes|
  {
    var s := Seen(bytes, index);
    if bytes == [] {
      assert s[1..] == "";
    } else if Splits(index) {
      assert s[0] == '\"' && s[1..][0] == '\n';
    } else if bytes[0] == 32 {
      assert s[0] == ' ' && s[1..] == Seen(bytes[1..], index + 1);
      OutsideFails(bytes[1..], index + 1);
    } else {
      OutsideChar(bytes, index);
    }
  }

  lemma OutsideChar(bytes: seq<Byte>, index: nat)
    requires bytes != [] && !Splits(index) && bytes[0] != 32
    ensures Seen(bytes, index) != "" && Seen(bytes, index)[0] !in {' ', '\n', '\t', '\"'}
  {
    if !StartsByteTrigraph(bytes, index) {
      assert Seen(bytes, index)[0] == Spelling(bytes[0])[0];
    }
  }

  /** After a backslash that replacement made: at most one question mark is gained. */
  lemma {:induction false} ShiftedMarks(bytes: seq<Byte>, index: nat, piece: seq<Byte>)
    ensures var r := Inside("\\" + Seen(bytes, index), piece);
      r.ok ==> Read(r) <= Marks(piece) + Marks(bytes) + 1
    decreases |bytes|, 2
  {
    var s := "\\" + Seen(bytes, index);
    if bytes == [] || Splits(index) {
      ShiftedEnds(bytes, index, piece);
    } else if StartsByteTrigraph(bytes, index) {
      ShiftedTrigraph(bytes, index, piece);
    } else {
      var rest := Seen(bytes[1..], index + 1);
      assert Seen(bytes, index) == Spelling(bytes[0]) + rest;
      ShiftedByte(bytes, index, piece);
    }
  }

  lemma ShiftedEnds(bytes: seq<Byte>, index: nat, piece: seq<Byte>)
    requires bytes == [] || Splits(index)
    ensures !Inside("\\" + Seen(bytes, index), piece).ok
  {
    var s := "\\" + Seen(bytes, index);
    assert s[1] == '\"';
    if bytes == [] {
      assert s[2..] == "";
    } else {
      assert s[2..][0] == '\n';
    }
  }

  lemma {:induction false} ShiftedTrigraph(bytes: seq<Byte>, index: nat, piece: seq<Byte>)
    requires StartsByteTrigraph(bytes, index) && !Splits(index)
    ensures var r := Inside("\\" + Seen(bytes, index), piece);
      r.ok ==> Read(r) <= Marks(piece) + Marks(bytes) + 1
    decreases |bytes|, 1
  {
    var rest := Seen(bytes[3..], index + 3);
    var s := "\\" + Seen(bytes, index);
    var c := TrigraphOf(bytes[2] as char).value;
    assert s[1] == c && s[2..] == rest;
    if c == '\\' {
      assert Inside(s, piece) == Inside(rest, piece + [92]);
      SeenMarks(bytes[3..], index + 3, piece + [92]);
      MarksSnoc(piece, 92);
      MarksDrop(bytes, 3);
    }
  }

  lemma {:induction false} MarksDrop(bytes: seq<Byte>, k: nat)
    requires k <= |bytes|
    ensures Marks(bytes[k..]) <= Marks(bytes)
  {
    MarksJoin(bytes[..k], bytes[k..]);
    assert bytes[..k] + bytes[k..] == bytes;
  }

  lemma {:induction false} ShiftedByte(bytes: seq<Byte>, index: nat, piece: seq<Byte>)
    requires bytes != [] && !Splits(index) && !StartsByteTrigraph(bytes, index)
    ensures var r := Inside("\\" + (Spelling(bytes[0]) + Seen(bytes[1..], index + 1)), piece);
      r.ok ==> Read(r) <= Marks(piece) + Marks(bytes) + 1
    decreases |bytes|, 1
  {
    hide Seen, Splits, Read, Octal;
    var b, rest := bytes[0], Seen(bytes[1..], index + 1);
    var s := "\\" + (Spelling(b) + rest);
    MarksDrop(bytes, 1);
    if b == 34 {
      assert s[1] == '\\' && s[2..] == "\"" + rest;
      assert s[2..][1..] == rest;
      OutsideFails(bytes[1..], index + 1);
    } else if b == 92 {
      assert s[1] == '\\' && s[2..] == "\\" + rest;
      assert Inside(s, piece) == Inside(s[2..], piece + [92]);
      ShiftedMarks(bytes[1..], index + 1, piece + [92]);
      MarksSnoc(piece, 92);
    } else if b < 0x20 || b > 0x7e {
      ShiftedOctal(bytes, index, piece);
    } else {
      assert s[1] == b as char && s[2..] == rest;
      if IsOctal(b as char) {
        SeenPlain(bytes, index);
        ShiftedDigits(bytes, index, piece);
      } else if SimpleEscape(b as char).Some? {
        var e := SimpleEscape(b as char).value;
        SeenMarks(bytes[1..], index + 1, piece + [e]);
        MarksSnoc(piece, e);
      }
    }
  }

  lemma {:induction false} ShiftedOctal(bytes: seq<Byte>, index: nat, piece: seq<Byte>)
    requires bytes != [] && (bytes[0] < 0x20 || bytes[0] > 0x7e)
    ensures var r := Inside("\\" + (Spelling(bytes[0]) + Seen(bytes[1..], index + 1)), piece);
      r.ok ==> Read(r) <= Marks(piece) + Marks(bytes) + 1
    decreases |bytes|, 0
  {
    hide Seen, Read, Inside, Marks;
    var b, rest := bytes[0], Seen(bytes[1..], index + 1);
    var d2, d1, d0 := Digit(b / 64), Digit(b / 8 % 8), Digit(b % 8);
    var s := "\\" + (Spelling(b) + rest);
    var p2 := piece + [92] + [d2 as int];
    assert s == "\\\\" + ([d2, d1, d0] + rest);
    BackslashReads([d2, d1, d0] + rest, piece);
    PlainReads(d2, [d1, d0] + rest, piece + [92]);
    assert [d2, d1, d0] + rest == [d2] + ([d1, d0] + rest);
    PlainReads(d1, [d0] + rest, p2);
    assert [d1, d0] + rest == [d1] + ([d0] + rest);
    PlainReads(d0, rest, p2 + [d1 as int]);
    SeenMarks(bytes[1..], index + 1, p2 + [d1 as int] + [d0 as int]);
    MarksSnoc(piece, 92);
    MarksSnoc(piece + [92], d2 as int);
    MarksSnoc(p2, d1 as int);
    MarksSnoc(p2 + [d1 as int], d0 as int);
    MarksDrop(bytes, 1);
  }

  lemma BackslashReads(rest: string, piece: seq<Byte>)
    ensures Inside("\\\\" + rest, piece) == Inside(rest, piece + [92])
  {
    assert ("\\\\" + rest)[2..] == rest;
  }

  lemma PlainReads(c: char, rest: string, piece: seq<Byte>)
    requires c as int < 128 && c != '\n' && c != '\"' && c != '\\'
    ensures Inside([c] + rest, piece) == Inside(rest, piece + [c as int])
  {
    assert ([c] + rest)[1..] == rest;
  }

  /** An octal escape over the text takes whole bytes, all of them digits. */
  lemma {:induction false} OctalSeen(bytes: seq<Byte>, index: nat, value: nat, left: nat) returns (k: nat)
    ensures k <= |bytes| && k <= left
    ensures Octal(Seen(bytes, index), value, left).1 == Seen(bytes[k..], index + k)
    ensures bytes != [] && !Splits(index) && left > 0 && IsOctal(bytes[0] as char) ==> k > 0
    decreases left
  {
    hide Seen, Splits;
    var s := Seen(bytes, index);
    if left > 0 && bytes != [] && !Splits(index) && IsOctal(bytes[0] as char) {
      SeenPlain(bytes, index);
      assert s[0] == bytes[0] as char && s[1..] == Seen(bytes[1..], index + 1);
      k := OctalSeen(bytes[1..], index + 1, value * 8 + OctalValue(s[0]), left - 1);
      assert bytes[1..][k..] == bytes[k + 1..];
      k := k + 1;
    } else {
      k := 0;
      assert bytes[0..] == bytes;
      if left > 0 {
        NoDigit(bytes, index);
      }
    }
  }

  lemma SeenPlain(bytes: seq<Byte>, index: nat)
    requires bytes != [] && !Splits(index) && 0x20 <= bytes[0] <= 0x7e && bytes[0] !in {34, 63, 92}
    ensures Seen(bytes, index) == [bytes[0] as char] + Seen(bytes[1..], index + 1)
  {
  }

  lemma NoDigit(bytes: seq<Byte>, index: nat)
    requires bytes == [] || Splits(index) || !IsOctal(bytes[0] as char)
    ensures Seen(bytes, index) != "" && !IsOctal(Seen(bytes, index)[0])
  {
    if bytes != [] && !Splits(index) && !StartsByteTrigraph(bytes, index) {
      assert Seen(bytes, index)[0] == Spelling(bytes[0])[0];
    }
  }

  lemma EscapeReads(s: string, piece: seq<Byte>)
    requires |s| >= 2 && s[0] == '\\' && IsOctal(s[1])
    ensures var r := Octal(s[1..], 0, 3);
      Inside(s, piece) == if r.0 < 256 then Inside(r.1, piece + [r.0]) else Reading([piece], false)
  {
    hide Octal;
  }

  lemma {:induction false} ShiftedDigits(bytes: seq<Byte>, index: nat, piece: seq<Byte>)
    requires bytes != [] && !Splits(index) && IsOctal(bytes[0] as char)
    ensures var r := Inside("\\" + Seen(bytes, index), piece);
      r.ok ==> Read(r) <= Marks(piece) + Marks(bytes) + 1
    decreases |bytes|, 0
  {
    hide Seen, Splits, Spelling, Octal, Read;
    var seen := Seen(bytes, index);
    var s := "\\" + seen;
    SeenPlain(bytes, index);
    assert s[1] == bytes[0] as char && s[1..] == seen;
    var k := OctalSeen(bytes, index, 0, 3);
    var value := Octal(seen, 0, 3).0;
    EscapeReads(s, piece);
    if value < 256 {
      SeenMarks(bytes[k..], index + k, piece + [value]);
      MarksSnoc(piece, value);
      MarksDrop(bytes, k);
    }
  }

  /** Read after replacement, the text gives back no more question marks than the bytes hold, and fewer with a trigraph. */
  lemma {:induction false} SeenMarks(bytes: seq<Byte>, index: nat, piece: seq<Byte>)
    ensures var r := Inside(Seen(bytes, index), piece);
      r.ok ==> Read(r) <= Marks(piece) + Marks(bytes) && (ByteTrigraph(bytes, index) ==> Read(r) < Marks(piece) + Marks(bytes))
    decreases |bytes|, 4
  {
    hide Inside, Read;
    if bytes == [] {
      EndReads(piece);
      ReadCons(piece, Reading([], true));
      NothingRead();
      assert [piece] + [] == [piece];
    } else if Splits(index) {
      var text := Unbroken(bytes, index);
      assert Seen(bytes, index) == "\"\n\"" + text;
      BreakReads(text, piece);
      UnbrokenMarks(bytes, index, []);
      ReadCons(piece, Inside(text, []));
    } else {
      assert Seen(bytes, index) == Unbroken(bytes, index);
      UnbrokenMarks(bytes, index, piece);
    }
  }

  lemma NothingRead()
    ensures Read(Reading([], true)) == 0
  {
  }

  /** The text of the bytes without a break before it. */
  function Unbroken(bytes: seq<Byte>, index: nat): string
    requires bytes != []
  {
    if StartsByteTrigraph(bytes, index)
    then [TrigraphOf(bytes[2] as char).value] + Seen(bytes[3..], index + 3)
    else Spelling(bytes[0]) + Seen(bytes[1..], index + 1)
  }

  lemma {:induction false} UnbrokenMarks(bytes: seq<Byte>, index: nat, piece: seq<Byte>)
    requires bytes != []
    ensures var r := Inside(Unbroken(bytes, index), piece);
      r.ok ==> Read(r) <= Marks(piece) + Marks(bytes) && (ByteTrigraph(bytes, index) ==> Read(r) < Marks(piece) + Marks(bytes))
    decreases |bytes|, 3
  {
    hide Inside, Read, Splits, Spelling;
    if StartsByteTrigraph(bytes, index) {
      var c, rest := TrigraphOf(bytes[2] as char).value, bytes[3..];
      ThreeMarks(bytes);
      if c == '\\' {
        ShiftedMarks(rest, index + 3, piece);
      } else {
        PlainReads(c, Seen(rest, index + 3), piece);
        SeenMarks(rest, index + 3, piece + [c as int]);
        MarksSnoc(piece, c as int);
      }
    } else {
      ByteReads(bytes[0], Seen(bytes[1..], index + 1), piece);
      SeenMarks(bytes[1..], index + 1, piece + [bytes[0]]);
      MarksSnoc(piece, bytes[0]);
    }
  }

  lemma ThreeMarks(bytes: seq<Byte>)
    requires |bytes| >= 3 && bytes[0] == 63 && bytes[1] == 63
    ensures Marks(bytes) >= 2 + Marks(bytes[3..])
  {
    assert bytes[1..][1..] == bytes[2..] && bytes[2..][1..] == bytes[3..];
    assert Marks(bytes) == 1 + Marks(bytes[1..]) && Marks(bytes[1..]) == 1 + Marks(bytes[2..]);
  }

  /**
  An implementation that replaces trigraphs reads the bytes back exactly when
  they hold no trigraph inside one piece.
  */
  lemma ReadsBackUnlessTrigraph(bytes: seq<Byte>)
    ensures var r := Outside(Chars(Replaced("\"" + Body(bytes, 0), 0)));
      r.ok && Concat(r.pieces) == bytes <==> !ByteTrigraph(bytes, 0)
  {
    hide Body, Seen, Inside, ByteTrigraph, Replaced, Chars;
    var text := "\"" + Body(bytes, 0);
    if !ByteTrigraph(bytes, 0) {
      SurvivesReplacement(bytes);
      RoundTrip(bytes);
    } else {
      UnmarkedSkips("\"", Body(bytes, 0));
      BodySeen(bytes, 0);
      var seen := "\"" + Seen(bytes, 0);
      assert Unmarked(text) == seen;
      assert seen[1..] == Seen(bytes, 0);
      SeenMarks(bytes, 0, []);
      assert Marks([]) == 0;
    }
  }

  /** The bytes of a trigraph are printed as they are, and read as the one byte it stands for. */
  lemma TrigraphIsLost()
    ensures Outside(Chars(Replaced("\"" + Body([63, 63, 61], 0), 0))) == Reading([[35]], true)
  {
    hide Body;
    var bytes: seq<Byte> := [63, 63, 61];
    UnmarkedSkips("\"", Body(bytes, 0));
    BodySeen(bytes, 0);
    assert StartsByteTrigraph(bytes, 0);
    assert bytes[3..] == [];
    assert Seen(bytes, 0) == "#\"";
    assert "\"" + Seen(bytes, 0) == "\"#\"";
    assert "\"#\""[1..] == "#\"" && "#\""[1..] == "\"" && "\""[1..] == "";
    assert Inside("\"", [35]) == Reading([[35]], true);
    assert [] + [35] == [35];
    assert Inside("#\"", []) == Reading([[35]], true);
  }
}
