/**
The search for the body of a C main definition: balanced groups of tokens, the
declarator around the name, and what may stand before the body.
*/
module HostMain {
  import opened StructViews
  import opened TranslationPhases
  import opened HostTokens

  function Text(tokens: seq<Token>, i: nat): string {
    if i < |tokens| then tokens[i].text else ""
  }

  // ----- balanced groups

  predicate IsOpen(t: string) {
    t == "(" || t == "[" || t == "{"
  }

  predicate IsClose(t: string) {
    t == ")" || t == "]" || t == "}"
  }

  function CloseOf(open: string): string {
    if open == "(" then ")" else if open == "[" then "]" else "}"
  }

  /** The tokens from `s` up to `e` are one bracket, what it holds, and its own closing bracket. */
  ghost predicate Group(tokens: seq<Token>, s: nat, e: nat)
    decreases e - s, 0
  {
    && s + 2 <= e <= |tokens|
    && IsOpen(Text(tokens, s)) && Text(tokens, e - 1) == CloseOf(Text(tokens, s))
    && Balanced(tokens, s + 1, e - 1)
  }

  /** Tokens that are no brackets, and groups, end to end. */
  ghost predicate Balanced(tokens: seq<Token>, i: nat, j: nat)
    decreases j - i, 1
  {
    && i <= j
    && (|| i == j
        || (!IsOpen(Text(tokens, i)) && !IsClose(Text(tokens, i)) && Balanced(tokens, i + 1, j))
        || exists m | i < m <= j :: Group(tokens, i, m) && Balanced(tokens, m, j))
  }

  lemma {:induction false} BalancedSnoc(tokens: seq<Token>, a: nat, i: nat, j: nat)
    requires Balanced(tokens, a, i) && i < j
    requires (j == i + 1 && !IsOpen(Text(tokens, i)) && !IsClose(Text(tokens, i))) || Group(tokens, i, j)
    ensures Balanced(tokens, a, j)
    decreases i - a
  {
    hide Group, IsOpen, IsClose;
    if a == i {
      assert Balanced(tokens, j, j);
    } else if !IsOpen(Text(tokens, a)) && !IsClose(Text(tokens, a)) && Balanced(tokens, a + 1, i) {
      BalancedSnoc(tokens, a + 1, i, j);
    } else {
      var m :| a < m <= i && Group(tokens, a, m) && Balanced(tokens, m, i);
      BalancedSnoc(tokens, m, i, j);
    }
  }

  /** A balanced prefix stops before a closing bracket that ends a longer one, and the rest is balanced. */
  lemma {:induction false} BalancedSplit(tokens: seq<Token>, a: nat, i: nat, z: nat)
    requires Balanced(tokens, a, i) && Balanced(tokens, a, z) && IsClose(Text(tokens, z))
    ensures i <= z && Balanced(tokens, i, z)
    decreases i - a, 1
  {
    if a < i {
      if IsOpen(Text(tokens, a)) {
        var m :| a < m <= i && Group(tokens, a, m) && Balanced(tokens, m, i);
        var n :| a < n <= z && Group(tokens, a, n) && Balanced(tokens, n, z);
        GroupIsUnique(tokens, a, m, n);
        BalancedSplit(tokens, m, i, z);
      } else {
        assert !Group(tokens, a, i);
        BalancedSplit(tokens, a + 1, i, z);
      }
    }
  }

  /** A bracket has at most one group. */
  lemma {:induction false} GroupIsUnique(tokens: seq<Token>, s: nat, e: nat, f: nat)
    requires Group(tokens, s, e) && Group(tokens, s, f)
    ensures e == f
    decreases e - s, 0
  {
    BalancedSplit(tokens, s + 1, e - 1, f - 1);
    if e < f {
      assert Balanced(tokens, e - 1, f - 1);
      assert false;
    }
  }

  /** The end of the group at a token: found exactly when the token starts a group. */
  method GroupEnd(tokens: seq<Token>, start: nat) returns (r: Option<nat>)
    ensures r.Some? ==> Group(tokens, start, r.value)
    ensures r.None? ==> forall e: nat :: !Group(tokens, start, e)
    decreases |tokens| - start
  {
    var open := Text(tokens, start);
    if !IsOpen(open) {
      return None;
    }
    var close := CloseOf(open);
    var i := start + 1;
    while i < |tokens|
      invariant start < i <= |tokens| && Balanced(tokens, start + 1, i)
      decreases |tokens| - i
    {
      var t := Text(tokens, i);
      if t == close {
        return Some(i + 1);
      } else if IsOpen(t) {
        var inner := GroupEnd(tokens, i);
        if inner.None? {
          NoGroup(tokens, start, i);
          return None;
        }
        BalancedSnoc(tokens, start + 1, i, inner.value);
        i := inner.value;
      } else if IsClose(t) {
        NoGroup(tokens, start, i);
        return None;
      } else {
        BalancedSnoc(tokens, start + 1, i, i + 1);
        i := i + 1;
      }
    }
    NoGroup(tokens, start, i);
    r := None;
  }

  /** Where the walk inside a bracket can neither close it nor go on, the bracket has no group. */
  lemma NoGroup(tokens: seq<Token>, start: nat, i: nat)
    requires Balanced(tokens, start + 1, i) && IsOpen(Text(tokens, start))
    requires
      || i >= |tokens|
      || (IsClose(Text(tokens, i)) && Text(tokens, i) != CloseOf(Text(tokens, start)))
      || (IsOpen(Text(tokens, i)) && forall e: nat :: !Group(tokens, i, e))
    ensures forall e: nat :: !Group(tokens, start, e)
  {
    forall e: nat ensures !Group(tokens, start, e) {
      if Group(tokens, start, e) {
        NoGroupTo(tokens, start, i, e);
      }
    }
  }

  lemma NoGroupTo(tokens: seq<Token>, start: nat, i: nat, e: nat)
    requires Balanced(tokens, start + 1, i) && Group(tokens, start, e)
    ensures i < |tokens|
    ensures IsClose(Text(tokens, i)) ==> Text(tokens, i) == CloseOf(Text(tokens, start))
    ensures IsOpen(Text(tokens, i)) ==> exists m: nat :: Group(tokens, i, m)
  {
    BalancedSplit(tokens, start + 1, i, e - 1);
  }

  // ----- the declarator

  /** The tokens from `left` up to `right` declare the name, as a function when parameters follow it. */
  datatype Declarator = Declarator(left: nat, right: nat, isFunction: bool)

  /** A parameter list after the declarator, or a pair of parentheses around it. */
  ghost predicate Grows(tokens: seq<Token>, c: Declarator, d: Declarator) {
    || (Text(tokens, c.right) == "(" && Group(tokens, c.right, d.right) && d == Declarator(c.left, d.right, true))
    || (Text(tokens, c.right) == ")" && c.left > 0 && Text(tokens, c.left - 1) == "(" &&
        d == Declarator(c.left - 1, c.right + 1, c.isFunction))
  }

  ghost predicate Declares(tokens: seq<Token>, name: nat, d: Declarator)
    decreases d.right
  {
    || d == Declarator(name, name + 1, false)
    || exists c: Declarator :: c.right < d.right && Declares(tokens, name, c) && Grows(tokens, c, d)
  }

  ghost predicate Stuck(tokens: seq<Token>, d: Declarator) {
    forall e :: !Grows(tokens, d, e)
  }

  lemma GrowsUnique(tokens: seq<Token>, c: Declarator, d: Declarator, e: Declarator)
    requires Grows(tokens, c, d) && Grows(tokens, c, e)
    ensures d == e && c.right < d.right <= |tokens|
  {
    if Text(tokens, c.right) == "(" {
      GroupIsUnique(tokens, c.right, d.right, e.right);
    }
  }

  lemma {:induction false} DeclaresAfterName(tokens: seq<Token>, name: nat, d: Declarator)
    requires Declares(tokens, name, d)
    ensures d.right > name
    decreases d.right
  {
    if d != Declarator(name, name + 1, false) {
      var c: Declarator :| c.right < d.right && Declares(tokens, name, c) && Grows(tokens, c, d);
      DeclaresAfterName(tokens, name, c);
    }
  }

  /** Nothing is declared between a declarator and what it grows into. */
  lemma {:induction false} NextDeclarator(tokens: seq<Token>, name: nat, d: Declarator, e: Declarator, x: Declarator)
    requires Declares(tokens, name, d) && Grows(tokens, d, e) && Declares(tokens, name, x) && d.right < x.right
    ensures e.right <= x.right
    decreases d.right + x.right, 1
  {
    hide Grows;
    DeclaresAfterName(tokens, name, d);
    var y: Declarator :| y.right < x.right && Declares(tokens, name, y) && Grows(tokens, y, x);
    if d.right < y.right {
      NextDeclarator(tokens, name, d, e, y);
    } else if d.right == y.right {
      SameDeclarator(tokens, name, d, y);
      GrowsUnique(tokens, d, e, x);
    } else {
      NextDeclarator(tokens, name, y, x, d);
    }
  }

  lemma {:induction false} SameDeclarator(tokens: seq<Token>, name: nat, d: Declarator, e: Declarator)
    requires Declares(tokens, name, d) && Declares(tokens, name, e) && d.right == e.right
    ensures d == e
    decreases d.right + e.right, 0
  {
    hide Grows;
    if d != Declarator(name, name + 1, false) && e != Declarator(name, name + 1, false) {
      var c: Declarator :| c.right < d.right && Declares(tokens, name, c) && Grows(tokens, c, d);
      var b: Declarator :| b.right < e.right && Declares(tokens, name, b) && Grows(tokens, b, e);
      if b.right < c.right {
        NextDeclarator(tokens, name, b, e, c);
      } else if c.right < b.right {
        NextDeclarator(tokens, name, c, d, b);
      } else {
        SameDeclarator(tokens, name, b, c);
        GrowsUnique(tokens, b, d, e);
      }
    } else if d != e {
      var x := if d == Declarator(name, name + 1, false) then e else d;
      var c: Declarator :| c.right < x.right && Declares(tokens, name, c) && Grows(tokens, c, x);
      DeclaresAfterName(tokens, name, c);
    }
  }

  /** A declarator that cannot grow is the longest one. */
  lemma {:induction false} StuckIsLongest(tokens: seq<Token>, name: nat, d: Declarator, x: Declarator)
    requires Declares(tokens, name, d) && Stuck(tokens, d) && Declares(tokens, name, x)
    ensures x.right <= d.right
    decreases x.right
  {
    hide Grows;
    if d.right < x.right {
      DeclaresAfterName(tokens, name, d);
      var y: Declarator :| y.right < x.right && Declares(tokens, name, y) && Grows(tokens, y, x);
      if y.right < d.right {
        NextDeclarator(tokens, name, y, x, d);
      } else if y.right == d.right {
        SameDeclarator(tokens, name, d, y);
      } else {
        StuckIsLongest(tokens, name, d, y);
      }
    }
  }

  predicate IsControl(t: string) {
    t in {"if", "while", "switch", "for", "return", "sizeof", "_Alignof"}
  }

  predicate IsAttribute(t: string) {
    t == "__attribute__" || t == "__declspec"
  }

  // ----- attributes

  /** Attributes, each with its group, end to end. */
  ghost predicate Attributes(tokens: seq<Token>, i: nat, j: nat)
    decreases j - i
  {
    i == j || exists m | i < m <= j :: IsAttribute(Text(tokens, i)) && Group(tokens, i + 1, m) && Attributes(tokens, m, j)
  }

  ghost predicate HasGroup(tokens: seq<Token>, s: nat) {
    exists e: nat :: Group(tokens, s, e)
  }

  /** No attribute with its group starts here. */
  ghost predicate NoAttribute(tokens: seq<Token>, i: nat) {
    !(IsAttribute(Text(tokens, i)) && HasGroup(tokens, i + 1))
  }

  lemma {:induction false} AttributesSnoc(tokens: seq<Token>, a: nat, i: nat, j: nat)
    requires a <= i < j && Attributes(tokens, a, i) && IsAttribute(Text(tokens, i)) && Group(tokens, i + 1, j)
    ensures Attributes(tokens, a, j)
    decreases i - a
  {
    hide Group, IsAttribute;
    if a == i {
      assert Attributes(tokens, j, j);
    } else {
      var m :| a < m <= i && IsAttribute(Text(tokens, a)) && Group(tokens, a + 1, m) && Attributes(tokens, m, i);
      AttributesSnoc(tokens, m, i, j);
    }
  }

  lemma {:induction false} AttributesUnique(tokens: seq<Token>, a: nat, i: nat, j: nat)
    requires a <= i && a <= j && Attributes(tokens, a, i) && Attributes(tokens, a, j)
    requires NoAttribute(tokens, i) && NoAttribute(tokens, j)
    ensures i == j
    decreases i - a
  {
    hide Group, IsAttribute;
    assert a < i || a < j ==> IsAttribute(Text(tokens, a)) && HasGroup(tokens, a + 1);
    if a < i && a < j {
      var m :| a < m <= i && IsAttribute(Text(tokens, a)) && Group(tokens, a + 1, m) && Attributes(tokens, m, i);
      var n :| a < n <= j && IsAttribute(Text(tokens, a)) && Group(tokens, a + 1, n) && Attributes(tokens, n, j);
      GroupIsUnique(tokens, a + 1, m, n);
      AttributesUnique(tokens, m, i, j);
    }
  }

  // ----- old-style parameters

  predicate EndsDeclaration(t: string) {
    t == ";" || t == "=" || t == "}"
  }

  predicate StartsName(t: string) {
    t != "" && IsWord(t[0]) && !('0' <= t[0] <= '9')
  }

  /** Tokens and groups, no token among them an end of a declaration. */
  ghost predicate Flat(tokens: seq<Token>, i: nat, j: nat)
    decreases j - i
  {
    || i == j
    || (i < j && !EndsDeclaration(Text(tokens, i)) && !IsOpen(Text(tokens, i)) && Flat(tokens, i + 1, j))
    || exists m | i < m <= j :: Group(tokens, i, m) && Flat(tokens, m, j)
  }

  /** A flat run cannot go on here. */
  ghost predicate FlatStops(tokens: seq<Token>, i: nat) {
    || i >= |tokens|
    || EndsDeclaration(Text(tokens, i))
    || (IsOpen(Text(tokens, i)) && forall e: nat :: !Group(tokens, i, e))
  }

  lemma {:induction false} FlatSnoc(tokens: seq<Token>, a: nat, i: nat, j: nat)
    requires a <= i < j && Flat(tokens, a, i)
    requires (j == i + 1 && !EndsDeclaration(Text(tokens, i)) && !IsOpen(Text(tokens, i))) || Group(tokens, i, j)
    ensures Flat(tokens, a, j)
    decreases i - a
  {
    hide Group, IsOpen, EndsDeclaration;
    if a == i {
      assert Flat(tokens, j, j);
    } else if !EndsDeclaration(Text(tokens, a)) && !IsOpen(Text(tokens, a)) && Flat(tokens, a + 1, i) {
      FlatSnoc(tokens, a + 1, i, j);
    } else {
      var m :| a < m <= i && Group(tokens, a, m) && Flat(tokens, m, i);
      FlatSnoc(tokens, m, i, j);
    }
  }

  lemma GroupOpens(tokens: seq<Token>, s: nat, e: nat)
    requires Group(tokens, s, e)
    ensures IsOpen(Text(tokens, s)) && !EndsDeclaration(Text(tokens, s)) && s + 2 <= e <= |tokens|
  {
  }

  /** A flat run that ends at the end of a declaration has every flat run as a prefix. */
  lemma {:induction false} FlatSplit(tokens: seq<Token>, a: nat, i: nat, z: nat)
    requires a <= i && a <= z && Flat(tokens, a, i) && Flat(tokens, a, z) && EndsDeclaration(Text(tokens, z))
    ensures i <= z && Flat(tokens, i, z)
    decreases i - a
  {
    hide Group, IsOpen, EndsDeclaration;
    if a < i {
      if !IsOpen(Text(tokens, a)) {
        forall m: nat ensures !Group(tokens, a, m) { if Group(tokens, a, m) { GroupOpens(tokens, a, m); } }
        FlatSplit(tokens, a + 1, i, z);
      } else {
        var m :| a < m <= i && Group(tokens, a, m) && Flat(tokens, m, i);
        GroupOpens(tokens, a, m);
        var n :| a < n <= z && Group(tokens, a, n) && Flat(tokens, n, z);
        GroupIsUnique(tokens, a, m, n);
        FlatSplit(tokens, m, i, z);
      }
    }
  }

  lemma FlatUnique(tokens: seq<Token>, a: nat, i: nat, z: nat)
    requires a <= i && a <= z && Flat(tokens, a, i) && FlatStops(tokens, i)
    requires Flat(tokens, a, z) && EndsDeclaration(Text(tokens, z))
    ensures i == z
  {
    FlatSplit(tokens, a, i, z);
    if i < z {
      forall m: nat ensures !Group(tokens, i, m) { if Group(tokens, i, m) { GroupOpens(tokens, i, m); } }
    }
  }

  /** The declarations of old-style parameters, end to end. */
  ghost predicate Parameters(tokens: seq<Token>, i: nat, j: nat)
    decreases j - i
  {
    i == j || exists m | i < m <= j :: IsDeclaration(tokens, i, m) && Parameters(tokens, m, j)
  }

  /** One declaration, with its semicolon. */
  ghost predicate IsDeclaration(tokens: seq<Token>, i: nat, m: nat) {
    i < m && StartsName(Text(tokens, i)) && Flat(tokens, i, m - 1) && Text(tokens, m - 1) == ";"
  }

  lemma {:induction false} ParametersSnoc(tokens: seq<Token>, a: nat, i: nat, m: nat)
    requires a <= i < m && Parameters(tokens, a, i) && IsDeclaration(tokens, i, m)
    ensures Parameters(tokens, a, m)
    decreases i - a
  {
    hide IsDeclaration;
    if a == i {
      assert Parameters(tokens, m, m);
    } else {
      var n :| a < n <= i && IsDeclaration(tokens, a, n) && Parameters(tokens, n, i);
      ParametersSnoc(tokens, n, i, m);
    }
  }

  /** The brace that follows the parameters. */
  ghost predicate BodyAfter(tokens: seq<Token>, i: nat, body: nat) {
    i <= body && Text(tokens, body) == "{" && Parameters(tokens, i, body)
  }

  /** From a token other than the brace, the body is found behind one declaration. */
  lemma BodyBehind(tokens: seq<Token>, i: nat, body: nat) returns (m: nat)
    requires BodyAfter(tokens, i, body) && Text(tokens, i) != "{"
    ensures IsDeclaration(tokens, i, m) && BodyAfter(tokens, m, body)
  {
    m :| i < m <= body && IsDeclaration(tokens, i, m) && Parameters(tokens, m, body);
  }

  lemma BodyHere(tokens: seq<Token>, i: nat, body: nat)
    requires BodyAfter(tokens, i, body) && Text(tokens, i) == "{"
    ensures body == i
  {
  }

  // ----- definitions

  /** What stands before the brace: a declarator that is no condition, all attributes, old-style parameters. */
  ghost predicate Leads(tokens: seq<Token>, name: nat, d: Declarator, after: nat, body: nat) {
    && Declares(tokens, name, d) && d.isFunction
    && !(d.left > 0 && IsControl(Text(tokens, d.left - 1)))
    && d.right <= after && Attributes(tokens, d.right, after) && NoAttribute(tokens, after)
    && BodyAfter(tokens, after, body)
  }

  /** `body` is the opening brace of a definition of the function named at `name`. */
  ghost predicate Defines(tokens: seq<Token>, name: nat, body: nat) {
    Text(tokens, name) == "main" && exists d: Declarator, after: nat :: Leads(tokens, name, d, after, body)
  }

  /** The declarator of a definition cannot grow: only a brace, an attribute or a name follows it. */
  lemma LeadsIsStuck(tokens: seq<Token>, name: nat, d: Declarator, after: nat, body: nat)
    requires Leads(tokens, name, d, after, body)
    ensures Stuck(tokens, d)
  {
    hide Group, Declares;
  }

  // ----- the usual forms

  /** The name with its parameters, and then a token that is no parenthesis. */
  ghost predicate IsPlain(tokens: seq<Token>, name: nat, right: nat) {
    && Text(tokens, name) == "main" && Text(tokens, name + 1) == "(" && Group(tokens, name + 1, right)
    && Text(tokens, right) !in {"(", ")"}
  }

  predicate AfterKeyword(tokens: seq<Token>, name: nat) {
    name > 0 && Text(tokens, name - 1) in {"if", "while", "switch", "for", "return", "sizeof", "_Alignof"}
  }

  ghost predicate BodyFrom(tokens: seq<Token>, right: nat, after: nat, body: nat) {
    right <= after && Attributes(tokens, right, after) && NoAttribute(tokens, after) && BodyAfter(tokens, after, body)
  }

  /** The name with its parameters is the longest declarator. */
  lemma PlainDeclares(tokens: seq<Token>, name: nat, right: nat)
    requires IsPlain(tokens, name, right)
    ensures Declares(tokens, name, Declarator(name, right, true)) && Stuck(tokens, Declarator(name, right, true))
  {
    hide Group;
    var c, d := Declarator(name, name + 1, false), Declarator(name, right, true);
    GroupOpens(tokens, name + 1, right);
    assert Declares(tokens, name, c) && Grows(tokens, c, d);
  }

  /** After the parameters, a definition is what stands behind no keyword and leads to a body. */
  lemma PlainLeads(tokens: seq<Token>, name: nat, right: nat, body: nat)
    requires IsPlain(tokens, name, right)
    ensures Defines(tokens, name, body) <==>
      !AfterKeyword(tokens, name) && exists after: nat :: BodyFrom(tokens, right, after, body)
  {
    hide Group, Declares, Attributes, NoAttribute, BodyAfter, Stuck;
    var c := Declarator(name, right, true);
    PlainDeclares(tokens, name, right);
    if Defines(tokens, name, body) {
      var d: Declarator, after: nat :| Leads(tokens, name, d, after, body);
      LeadsIsStuck(tokens, name, d, after, body);
      StuckIsLongest(tokens, name, c, d);
      StuckIsLongest(tokens, name, d, c);
      SameDeclarator(tokens, name, c, d);
      assert BodyFrom(tokens, right, after, body);
    }
    if !AfterKeyword(tokens, name) {
      forall after: nat | BodyFrom(tokens, right, after, body) ensures Defines(tokens, name, body) {
        assert Leads(tokens, name, c, after, body);
      }
    }
  }

  lemma NoAttributeHere(tokens: seq<Token>, right: nat, after: nat, body: nat)
    requires BodyFrom(tokens, right, after, body) && NoAttribute(tokens, right)
    ensures after == right
  {
    hide Group, BodyAfter;
  }

  /** A name with its parameters and the brace is a definition, except after a keyword. */
  lemma PlainDefines(tokens: seq<Token>, name: nat, right: nat, body: nat)
    requires IsPlain(tokens, name, right) && Text(tokens, right) == "{"
    ensures Defines(tokens, name, body) <==> !AfterKeyword(tokens, name) && body == right
  {
    hide IsPlain, Group;
    PlainLeads(tokens, name, right, body);
    assert NoAttribute(tokens, right);
    forall after: nat | BodyFrom(tokens, right, after, body) ensures body == right {
      NoAttributeHere(tokens, right, after, body);
      BodyHere(tokens, right, body);
    }
    if body == right {
      assert Attributes(tokens, right, right) && Parameters(tokens, right, right);
      assert BodyFrom(tokens, right, right, body);
    }
  }

  /** An attribute between the two changes nothing. */
  lemma AttributedDefines(tokens: seq<Token>, name: nat, right: nat, m: nat, body: nat)
    requires IsPlain(tokens, name, right) && Text(tokens, right) in {"__attribute__", "__declspec"}
    requires Group(tokens, right + 1, m) && Text(tokens, m) == "{"
    ensures Defines(tokens, name, body) <==> !AfterKeyword(tokens, name) && body == m
  {
    hide IsPlain, Group;
    PlainLeads(tokens, name, right, body);
    GroupOpens(tokens, right + 1, m);
    assert NoAttribute(tokens, m) && Attributes(tokens, m, m) && Parameters(tokens, m, m);
    assert Attributes(tokens, right, m);
    forall after: nat | BodyFrom(tokens, right, after, body) ensures body == m {
      AttributesUnique(tokens, right, m, after);
      BodyHere(tokens, m, body);
    }
    if body == m {
      assert BodyFrom(tokens, right, m, body);
    }
  }

  /** No bracket, and no end of a declaration, from `i` up to `j`. */
  ghost predicate IsRun(tokens: seq<Token>, i: nat, j: nat) {
    i <= j <= |tokens| && forall k | i <= k < j :: Text(tokens, k) !in {"(", "[", "{", ";", "=", "}"}
  }

  lemma {:induction false} RunIsFlat(tokens: seq<Token>, i: nat, j: nat)
    requires IsRun(tokens, i, j)
    ensures Flat(tokens, i, j)
    decreases j - i
  {
    if i < j {
      RunIsFlat(tokens, i + 1, j);
    }
  }

  predicate IsLetter(c: char) {
    'a' <= c <= 'z' || 'A' <= c <= 'Z' || c == '_'
  }

  /** A declaration of old-style parameters before the brace starts with a letter and ends at a semicolon. */
  lemma OldStyleDefines(tokens: seq<Token>, name: nat, right: nat, end: nat, body: nat)
    requires IsPlain(tokens, name, right) && IsRun(tokens, right, end)
    requires Text(tokens, end) in {";", "=", "}"} && (Text(tokens, end) == ";" ==> Text(tokens, end + 1) == "{")
    ensures Defines(tokens, name, body) <==>
      && !AfterKeyword(tokens, name) && Text(tokens, end) == ";" && body == end + 1
      && Text(tokens, right) != "" && IsLetter(Text(tokens, right)[0])
  {
    hide IsPlain, Group, Flat, BodyAfter;
    PlainLeads(tokens, name, right, body);
    RunIsFlat(tokens, right, end);
    NoGroupAfter(tokens, right, end);
    assert Attributes(tokens, right, right);
    forall after: nat | BodyFrom(tokens, right, after, body)
      ensures Text(tokens, end) == ";" && body == end + 1 && StartsName(Text(tokens, right))
    {
      NoAttributeHere(tokens, right, after, body);
      var m := BodyBehind(tokens, right, body);
      FlatUnique(tokens, right, end, m - 1);
      BodyHere(tokens, m, body);
    }
    if Text(tokens, end) == ";" && StartsName(Text(tokens, right)) && body == end + 1 {
      OneDeclarationLeads(tokens, right, end);
      assert BodyFrom(tokens, right, right, body);
    }
  }

  lemma NoGroupAfter(tokens: seq<Token>, right: nat, end: nat)
    requires IsRun(tokens, right, end) && Text(tokens, end) in {";", "=", "}"}
    ensures NoAttribute(tokens, right) && FlatStops(tokens, end) && Text(tokens, right) != "{"
  {
    if right < end {
      assert Text(tokens, right + 1) !in {"(", "[", "{"};
    }
  }

  lemma OneDeclarationLeads(tokens: seq<Token>, right: nat, end: nat)
    requires right <= end && Flat(tokens, right, end) && StartsName(Text(tokens, right))
    requires Text(tokens, end) == ";" && Text(tokens, end + 1) == "{"
    ensures BodyAfter(tokens, right, end + 1)
  {
    hide Flat;
    assert IsDeclaration(tokens, right, end + 1) && Parameters(tokens, end + 1, end + 1);
  }

  // ----- the search

  /** Grows the declarator around a name as far as it goes. */
  method FindDeclarator(tokens: seq<Token>, name: nat) returns (d: Declarator)
    requires name < |tokens|
    ensures Declares(tokens, name, d) && Stuck(tokens, d) && d.left <= name < d.right <= |tokens|
  {
    hide Group, Declares;
    d := Declarator(name, name + 1, false);
    DeclaresName(tokens, name);
    while true
      invariant Declares(tokens, name, d) && d.left <= name < d.right <= |tokens|
      decreases |tokens| - d.right
    {
      if Text(tokens, d.right) == "(" {
        var end := GroupEnd(tokens, d.right);
        if end.None? {
          break;
        }
        GroupOpens(tokens, d.right, end.value);
        var e := Declarator(d.left, end.value, true);
        DeclaresGrown(tokens, name, d, e);
        d := e;
      } else if d.left > 0 && Text(tokens, d.left - 1) == "(" && Text(tokens, d.right) == ")" {
        var e := Declarator(d.left - 1, d.right + 1, d.isFunction);
        DeclaresGrown(tokens, name, d, e);
        d := e;
      } else {
        break;
      }
    }
  }

  lemma DeclaresName(tokens: seq<Token>, name: nat)
    ensures Declares(tokens, name, Declarator(name, name + 1, false))
  {
  }

  lemma DeclaresGrown(tokens: seq<Token>, name: nat, d: Declarator, e: Declarator)
    requires Declares(tokens, name, d) && Grows(tokens, d, e)
    ensures Declares(tokens, name, e)
  {
    GrowsUnique(tokens, d, e, e);
  }

  /** Skips every attribute that has its group. */
  method SkipAttributes(tokens: seq<Token>, right: nat) returns (after: nat)
    requires right <= |tokens|
    ensures right <= after <= |tokens| && Attributes(tokens, right, after) && NoAttribute(tokens, after)
  {
    hide Group;
    after := right;
    while IsAttribute(Text(tokens, after))
      invariant right <= after <= |tokens| && Attributes(tokens, right, after)
      decreases |tokens| - after
    {
      var end := GroupEnd(tokens, after + 1);
      if end.None? {
        return;
      }
      GroupOpens(tokens, after + 1, end.value);
      AttributesSnoc(tokens, right, after, end.value);
      after := end.value;
    }
  }

  /** The longest flat run. */
  method DeclarationEnd(tokens: seq<Token>, i: nat) returns (end: nat)
    requires i <= |tokens|
    ensures i <= end <= |tokens| && Flat(tokens, i, end) && FlatStops(tokens, end)
  {
    hide Group;
    end := i;
    while end < |tokens| && !EndsDeclaration(Text(tokens, end))
      invariant i <= end <= |tokens| && Flat(tokens, i, end)
      decreases |tokens| - end
    {
      if IsOpen(Text(tokens, end)) {
        var next := GroupEnd(tokens, end);
        if next.None? {
          return;
        }
        GroupOpens(tokens, end, next.value);
        FlatSnoc(tokens, i, end, next.value);
        end := next.value;
      } else {
        FlatSnoc(tokens, i, end, end + 1);
        end := end + 1;
      }
    }
  }

  /** The brace after zero or more old-style parameter declarations, if there is one. */
  method SkipParameters(tokens: seq<Token>, after: nat) returns (body: Option<nat>)
    requires after <= |tokens|
    ensures forall b: nat :: BodyAfter(tokens, after, b) <==> body == Some(b)
  {
    hide Flat, FlatStops, IsDeclaration, BodyAfter, Parameters;
    if Text(tokens, after) == "{" {
      BodyIsHere(tokens, after, after);
      return Some(after);
    }
    var right := after;
    NoParameters(tokens, after);
    while StartsName(Text(tokens, right))
      invariant after <= right <= |tokens| && Parameters(tokens, after, right) && Text(tokens, right) != "{"
      invariant forall b: nat | BodyAfter(tokens, after, b) :: BodyAfter(tokens, right, b)
      decreases |tokens| - right
    {
      var end := DeclarationEnd(tokens, right);
      if Text(tokens, end) != ";" {
        NoBody(tokens, after, right, end);
        return None;
      }
      OneDeclaration(tokens, after, right, end);
      right := end + 1;
      if Text(tokens, right) == "{" {
        BodyIsHere(tokens, after, right);
        return Some(right);
      }
    }
    NoBodyHere(tokens, after, right);
    body := None;
  }

  lemma NoParameters(tokens: seq<Token>, i: nat)
    ensures Parameters(tokens, i, i)
  {
  }

  lemma NoBodyHere(tokens: seq<Token>, after: nat, right: nat)
    requires Text(tokens, right) != "{" && !StartsName(Text(tokens, right))
    requires forall b: nat | BodyAfter(tokens, after, b) :: BodyAfter(tokens, right, b)
    ensures forall b: nat :: !BodyAfter(tokens, after, b)
  {
    hide BodyAfter;
    forall b: nat ensures !BodyAfter(tokens, after, b) {
      if BodyAfter(tokens, after, b) {
        var m := BodyBehind(tokens, right, b);
      }
    }
  }

  lemma BodyIsHere(tokens: seq<Token>, after: nat, right: nat)
    requires after <= right && Text(tokens, right) == "{" && (after == right || Parameters(tokens, after, right))
    requires forall b: nat | BodyAfter(tokens, after, b) :: BodyAfter(tokens, right, b)
    ensures forall b: nat :: BodyAfter(tokens, after, b) <==> b == right
  {
    assert BodyAfter(tokens, after, right);
    forall b: nat | BodyAfter(tokens, after, b) ensures b == right {
      BodyHere(tokens, right, b);
    }
  }

  lemma NoBody(tokens: seq<Token>, after: nat, right: nat, end: nat)
    requires Text(tokens, right) != "{" && right <= end && Flat(tokens, right, end) && FlatStops(tokens, end)
    requires Text(tokens, end) != ";"
    requires forall b: nat | BodyAfter(tokens, after, b) :: BodyAfter(tokens, right, b)
    ensures forall b: nat :: !BodyAfter(tokens, after, b)
  {
    hide Flat, FlatStops, BodyAfter;
    forall b: nat ensures !BodyAfter(tokens, after, b) {
      if BodyAfter(tokens, after, b) {
        var m := BodyBehind(tokens, right, b);
        FlatUnique(tokens, right, end, m - 1);
      }
    }
  }

  lemma OneDeclaration(tokens: seq<Token>, after: nat, right: nat, end: nat)
    requires after <= right <= end < |tokens| && Parameters(tokens, after, right) && Text(tokens, right) != "{"
    requires StartsName(Text(tokens, right)) && Flat(tokens, right, end) && FlatStops(tokens, end) && Text(tokens, end) == ";"
    requires forall b: nat | BodyAfter(tokens, after, b) :: BodyAfter(tokens, right, b)
    ensures Parameters(tokens, after, end + 1)
    ensures forall b: nat | BodyAfter(tokens, after, b) :: BodyAfter(tokens, end + 1, b)
  {
    hide Flat, FlatStops, BodyAfter, Parameters;
    ParametersSnoc(tokens, after, right, end + 1);
    forall b: nat | BodyAfter(tokens, after, b) ensures BodyAfter(tokens, end + 1, b) {
      var m := BodyBehind(tokens, right, b);
      FlatUnique(tokens, right, end, m - 1);
    }
  }

  /** The body of the definition whose name is at a token, exactly when it is the name of one. */
  method BodyOf(tokens: seq<Token>, name: nat) returns (body: Option<nat>)
    requires name < |tokens|
    ensures forall b: nat :: Defines(tokens, name, b) <==> body == Some(b)
  {
    hide Declares, Attributes, NoAttribute, BodyAfter, Stuck, Group;
    if Text(tokens, name) != "main" {
      return None;
    }
    var d := FindDeclarator(tokens, name);
    if !d.isFunction || (d.left > 0 && IsControl(Text(tokens, d.left - 1))) {
      forall b: nat ensures !Defines(tokens, name, b) {
        if Defines(tokens, name, b) {
          var e, at := LeadsFrom(tokens, name, d, b);
        }
      }
      return None;
    }
    var after := SkipAttributes(tokens, d.right);
    body := SkipParameters(tokens, after);
    forall b: nat ensures Defines(tokens, name, b) <==> body == Some(b) {
      if Defines(tokens, name, b) {
        var e, at := LeadsFrom(tokens, name, d, b);
        AttributesUnique(tokens, d.right, after, at);
      }
      if body == Some(b) {
        assert Leads(tokens, name, d, after, b);
      }
    }
  }

  /** Every definition has the longest declarator. */
  lemma LeadsFrom(tokens: seq<Token>, name: nat, d: Declarator, body: nat) returns (e: Declarator, after: nat)
    requires Declares(tokens, name, d) && Stuck(tokens, d) && Defines(tokens, name, body)
    ensures e == d && Leads(tokens, name, e, after, body)
  {
    hide Declares, Attributes, NoAttribute, BodyAfter, Stuck;
    e, after :| Leads(tokens, name, e, after, body);
    LeadsIsStuck(tokens, name, e, after, body);
    StuckIsLongest(tokens, name, d, e);
    StuckIsLongest(tokens, name, e, d);
    SameDeclarator(tokens, name, d, e);
  }

  /** What the search answers for the tokens of the source: the end of the brace of the first definition. */
  ghost predicate Answers(tokens: seq<Token>, r: Option<nat>) {
    match r
    case Some(end) => exists name: nat, body: nat :: IsFirstBody(tokens, name, body, end)
    case None => forall name: nat, body: nat :: !Defines(tokens, name, body)
  }

  ghost predicate IsFirstBody(tokens: seq<Token>, name: nat, body: nat, end: nat) {
    && body < |tokens| && Defines(tokens, name, body) && end == tokens[body].end
    && forall k: nat, b: nat | k < name :: !Defines(tokens, k, b)
  }

  /**
  The offset just after the opening brace of the first main definition, exactly
  when the source has one; it follows a source spelling of the brace.
  */
  method MainBodyStart(source: string) returns (r: Option<nat>)
    ensures exists tokens :: LexesTo(Phased(source), tokens) && Answers(tokens, r)
    ensures r.Some? ==> 0 < r.value <= |source| && BraceBefore(source, r.value)
  {
    hide LexesTo, BraceBefore, Defines;
    var tokens := Tokens(source);
    for name := 0 to |tokens|
      invariant forall k: nat, b: nat | k < name :: !Defines(tokens, k, b)
    {
      var body := BodyOf(tokens, name);
      if body.Some? {
        DefinesBrace(tokens, name, body.value);
        BraceToken(source, tokens, body.value);
        r := Some(tokens[body.value].end);
        assert IsFirstBody(tokens, name, body.value, r.value);
        assert Answers(tokens, r);
        return;
      }
    }
    forall name: nat, body: nat ensures !Defines(tokens, name, body) {
      if name >= |tokens| {
        NoMainOutside(tokens, name, body);
      }
    }
    r := None;
    assert Answers(tokens, r);
  }

  lemma DefinesBrace(tokens: seq<Token>, name: nat, body: nat)
    requires Defines(tokens, name, body)
    ensures body < |tokens| && Text(tokens, body) == "{"
  {
  }

  lemma NoMainOutside(tokens: seq<Token>, name: nat, body: nat)
    requires name >= |tokens|
    ensures !Defines(tokens, name, body)
  {
  }
}
