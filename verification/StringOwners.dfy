/**
The collection of the aggregates that own strings, below one aggregate. It
follows the same edges as the check of scratch roots.
*/
module StringOwners {
  import opened Graphs
  import opened EmbeddedPairs
  import opened HeaderWalks

  /** The collection goes on into the struct of the field. */
  predicate Follows(h: Header, f: CField) {
    !f.isArray && IsBoundary(h.registry, f.base)
  }

  ghost function OwnerGraph(h: Header): Graph<string> {
    map a | a in h.decls :: set i | 0 <= i < |h.decls[a]| && Paired(h, a) && Follows(h, h.decls[a][i]) :: h.decls[a][i].base
  }

  /** The guard of the recursive call. */
  predicate FollowStep(registry: Registry, pairs: Pairs, f: CField, i: nat) {
    var pairElement := i in pairs.elements;
    var embeddedValue := !f.pointer && !f.isArray && IsBoundary(registry, f.base);
    var pointerMember := f.pointer && !f.isArray && !pairElement && IsBoundary(registry, f.base);
    (pairElement || embeddedValue || pointerMember) && IsBoundary(registry, f.base)
  }

  lemma FollowStepOf(h: Header, a: string, pairs: Pairs, i: nat)
    requires a in h.decls && PairsOf(h.decls[a], h.registry, h.scalars, |h.decls[a]|, pairs) && i < |h.decls[a]|
    ensures FollowStep(h.registry, pairs, h.decls[a][i], i) <==> Follows(h, h.decls[a][i])
  {
    hide WellPaired, Collapses;
    PairsAreDisjoint(h.decls[a], h.registry, h.scalars, pairs);
    if i in pairs.elements {
      assert IsCount(h, a, i - 1);
      assert i - 1 in pairs.counts && i - 1 + 1 == i;
    }
  }

  ghost predicate Unpaired(h: Header, a: string) {
    a in h.decls && !Paired(h, a)
  }

  ghost function UnpairedIn(h: Header, u: set<string>): set<string> {
    set a | a in u && Unpaired(h, a)
  }

  /** The owners at the end of a path that avoids the active aggregates. */
  ghost function OwnersBelow(h: Header, a: string, active: set<string>, owners: set<string>): set<string> {
    set y | y in owners && Finds(OwnerGraph(h), a, active, {y})
  }

  /** The owners below the first fields. */
  ghost function OwnersUpTo(h: Header, a: string, n: nat, active: set<string>, owners: set<string>): set<string>
    requires a in h.decls && n <= |h.decls[a]|
  {
    set y, i | y in owners && 0 <= i < n && Follows(h, h.decls[a][i]) &&
               Finds(OwnerGraph(h), h.decls[a][i].base, active, {y}) :: y
  }

  ghost function FieldOwners(h: Header, f: CField, active: set<string>, owners: set<string>): set<string> {
    if Follows(h, f) then OwnersBelow(h, f.base, active, owners) else {}
  }

  lemma OwnersUpToNext(h: Header, a: string, n: nat, active: set<string>, owners: set<string>)
    requires a in h.decls && n < |h.decls[a]|
    ensures OwnersUpTo(h, a, n + 1, active, owners) ==
      OwnersUpTo(h, a, n, active, owners) + FieldOwners(h, h.decls[a][n], active, owners)
  {
    hide Follows, Finds;
  }

  /** The owners below a struct are itself, if it owns, and those below its fields. */
  lemma OwnersStep(h: Header, a: string, active: set<string>, owners: set<string>)
    requires Paired(h, a) && a !in active
    ensures OwnersBelow(h, a, active, owners) ==
      (if a in owners then {a} else {}) + OwnersUpTo(h, a, |h.decls[a]|, active + {a}, owners)
  {
    hide Follows, Finds, WellPaired;
    var g := OwnerGraph(h);
    var rest := OwnersUpTo(h, a, |h.decls[a]|, active + {a}, owners);
    forall y | y in owners ensures y in OwnersBelow(h, a, active, owners) <==> y == a || y in rest {
      FindsStep(g, a, active, {y});
      if n :| n in Succ(g, a) && Finds(g, n, active + {a}, {y}) {
        var i :| 0 <= i < |h.decls[a]| && Follows(h, h.decls[a][i]) && h.decls[a][i].base == n;
        assert y in rest;
      }
      if y in rest {
        var i :| 0 <= i < |h.decls[a]| && Follows(h, h.decls[a][i]) &&
                 Finds(g, h.decls[a][i].base, active + {a}, {y});
        assert h.decls[a][i].base in Succ(g, a);
      }
    }
  }

  lemma UnpairedStep(h: Header, a: string, active: set<string>, u: set<string>)
    requires Paired(h, a) && a !in active && a in u
    ensures Finds(OwnerGraph(h), a, active, UnpairedIn(h, u)) <==>
      exists i :: 0 <= i < |h.decls[a]| && FieldUnpaired(h, a, i, active + {a}, u)
  {
    hide Follows, Finds, WellPaired;
    var g, goal := OwnerGraph(h), UnpairedIn(h, u);
    FindsStep(g, a, active, goal);
    if n :| n in Succ(g, a) && Finds(g, n, active + {a}, goal) {
      var i :| 0 <= i < |h.decls[a]| && Follows(h, h.decls[a][i]) && h.decls[a][i].base == n;
      assert FieldUnpaired(h, a, i, active + {a}, u);
    }
    if i :| 0 <= i < |h.decls[a]| && FieldUnpaired(h, a, i, active + {a}, u) {
      assert h.decls[a][i].base in Succ(g, a);
    }
  }

  ghost predicate FieldUnpaired(h: Header, a: string, i: nat, active: set<string>, u: set<string>)
    requires a in h.decls && i < |h.decls[a]|
  {
    Follows(h, h.decls[a][i]) && Finds(OwnerGraph(h), h.decls[a][i].base, active, UnpairedIn(h, u))
  }

  lemma UndeclaredEnds(h: Header, a: string, active: set<string>, owners: set<string>, u: set<string>)
    requires a !in h.decls && a !in active
    ensures OwnersBelow(h, a, active, owners) == if a in owners then {a} else {}
    ensures !Finds(OwnerGraph(h), a, active, UnpairedIn(h, u))
  {
    hide Finds;
    var g := OwnerGraph(h);
    forall y | y in owners ensures y in OwnersBelow(h, a, active, owners) <==> y == a {
      FindsStep(g, a, active, {y});
    }
    FindsStep(g, a, active, UnpairedIn(h, u));
  }

  lemma ActiveEnds(h: Header, a: string, active: set<string>, owners: set<string>, u: set<string>)
    requires a in active
    ensures OwnersBelow(h, a, active, owners) == {}
    ensures !Finds(OwnerGraph(h), a, active, UnpairedIn(h, u))
  {
  }

  // ----- the collection

  method Collect(h: Header, a: string, owners: set<string>, lowered: set<string>, visiting: set<string>, ghost u: set<string>)
    returns (ok: bool, now: set<string>, path: set<string>)
    requires Spans(h, u) && a in u && visiting <= u
    ensures ok <==> !Finds(OwnerGraph(h), a, visiting, UnpairedIn(h, u))
    ensures ok ==> path == visiting && now == lowered + OwnersBelow(h, a, visiting, owners)
    decreases |u - visiting|, 1
  {
    hide WellPaired, Follows, Finds, OwnerGraph, PairsOf, FollowStep, OwnersBelow, OwnersUpTo, FieldOwners, FieldUnpaired, Spans;
    now, path := lowered, visiting;
    if a in path {
      ActiveEnds(h, a, visiting, owners, u);
      return true, now, path;
    }
    BackOut(visiting, a);
    path := path + {a};
    if a in owners {
      now := now + {a};
    }
    ghost var own := if a in owners then {a} else {};
    assert now == lowered + own;
    if a !in h.decls {
      UndeclaredEnds(h, a, visiting, owners, u);
      return true, now, path - {a};
    }
    var found := EmbeddedArrayPairs(h.decls[a], h.registry, h.scalars);
    if found.Refused? {
      FindsStep(OwnerGraph(h), a, visiting, UnpairedIn(h, u));
      return false, now, path;
    }
    UnpairedStep(h, a, visiting, u);
    OwnersStep(h, a, visiting, owners);
    StrictSubsetSize(u - path, u - visiting);
    ok, now, path := CollectFields(h, a, found.pairs, owners, now, path, u);
    if ok {
      path := path - {a};
      UnionStep(lowered, own, OwnersUpTo(h, a, |h.decls[a]|, visiting + {a}, owners));
    }
  }

  method CollectFields(h: Header, a: string, pairs: Pairs, owners: set<string>, lowered: set<string>,
                       visiting: set<string>, ghost u: set<string>)
    returns (ok: bool, now: set<string>, path: set<string>)
    requires Spans(h, u) && visiting <= u && a in h.decls
    requires PairsOf(h.decls[a], h.registry, h.scalars, |h.decls[a]|, pairs)
    ensures ok <==> forall i | 0 <= i < |h.decls[a]| :: !FieldUnpaired(h, a, i, visiting, u)
    ensures ok ==> path == visiting && now == lowered + OwnersUpTo(h, a, |h.decls[a]|, visiting, owners)
    decreases |u - visiting|, 3
  {
    hide Follows, Finds, OwnerGraph, PairsOf, OwnersBelow, OwnersUpTo, FieldOwners, FieldUnpaired, Spans;
    ok, now, path := true, lowered, visiting;
    NothingUpToZero(h, a, visiting, owners);
    for i := 0 to |h.decls[a]|
      invariant path == visiting
      invariant forall k | 0 <= k < i :: !FieldUnpaired(h, a, k, visiting, u)
      invariant ok && now == lowered + OwnersUpTo(h, a, i, visiting, owners)
    {
      OwnersUpToNext(h, a, i, visiting, owners);
      UnionStep(lowered, OwnersUpTo(h, a, i, visiting, owners), FieldOwners(h, h.decls[a][i], visiting, owners));
      ok, now, path := CollectField(h, a, pairs, i, owners, now, path, u);
      if !ok {
        return;
      }
    }
  }

  method CollectField(h: Header, a: string, pairs: Pairs, i: nat, owners: set<string>, lowered: set<string>,
                      visiting: set<string>, ghost u: set<string>)
    returns (ok: bool, now: set<string>, path: set<string>)
    requires Spans(h, u) && visiting <= u && a in h.decls && i < |h.decls[a]|
    requires PairsOf(h.decls[a], h.registry, h.scalars, |h.decls[a]|, pairs)
    ensures ok <==> !FieldUnpaired(h, a, i, visiting, u)
    ensures ok ==> path == visiting && now == lowered + FieldOwners(h, h.decls[a][i], visiting, owners)
    decreases |u - visiting|, 2
  {
    hide Follows, Finds, OwnerGraph, PairsOf, FollowStep, OwnersBelow, UnpairedIn;
    FollowStepOf(h, a, pairs, i);
    ok, now, path := true, lowered, visiting;
    if FollowStep(h.registry, pairs, h.decls[a][i], i) {
      ok, now, path := Collect(h, h.decls[a][i].base, owners, now, path, u);
    }
  }

  lemma BackOut(visiting: set<string>, a: string)
    requires a !in visiting
    ensures visiting + {a} - {a} == visiting
  {
  }

  lemma UnionStep(a: set<string>, b: set<string>, c: set<string>)
    ensures a + b + c == a + (b + c)
  {
  }

  lemma NothingUpToZero(h: Header, a: string, active: set<string>, owners: set<string>)
    requires a in h.decls
    ensures OwnersUpTo(h, a, 0, active, owners) == {}
  {
  }

  /** Below a root, exactly the reachable owners are added; only a reachable pair defect makes it fail. */
  method CollectFrom(h: Header, root: string, owners: set<string>, lowered: set<string>)
    returns (ok: bool, now: set<string>)
    ensures ok <==> forall a | Reaches(OwnerGraph(h), root, a) :: !Unpaired(h, a)
    ensures ok ==> forall y :: y in now <==> y in lowered || (y in owners && Reaches(OwnerGraph(h), root, y))
  {
    hide Reaches, Finds, OwnerGraph, Unpaired, Spans;
    ghost var u := Span(h, root);
    var path;
    ok, now, path := Collect(h, root, owners, lowered, {}, u);
    FindsReaches(OwnerGraph(h), root, UnpairedIn(h, u));
    forall a | Reaches(OwnerGraph(h), root, a) ensures a in u { OwnerInSpan(h, u, root, a); }
    if ok {
      forall y ensures y in now <==> y in lowered || (y in owners && Reaches(OwnerGraph(h), root, y)) {
        FindsReaches(OwnerGraph(h), root, {y});
      }
    }
  }

  lemma OwnerInSpan(h: Header, u: set<string>, root: string, a: string)
    requires Spans(h, u) && root in u && Reaches(OwnerGraph(h), root, a)
    ensures a in u
  {
    assert Closed(OwnerGraph(h), u);
    ClosedReaches(OwnerGraph(h), u, root, a);
  }

  // ----- one traversal

  /** A count field of the aggregate is itself entered by the collection, and by no other field. */
  ghost predicate EntersCount(h: Header, a: string) {
    && Paired(h, a) && IsBoundary(h.registry, "size_t")
    && (exists i | 0 <= i < |h.decls[a]| :: IsCount(h, a, i))
    && forall i | 0 <= i < |h.decls[a]| && Enters(h, a, i) :: h.decls[a][i].base != "size_t"
  }

  /** The two walks differ in one edge at most, to `size_t` where it is a boundary struct and a count. */
  lemma EdgesOf(h: Header, a: string)
    requires a in h.decls
    ensures LoweredGraph(h)[a] <= OwnerGraph(h)[a] <= LoweredGraph(h)[a] + {"size_t"}
    ensures OwnerGraph(h)[a] == LoweredGraph(h)[a] <==> !EntersCount(h, a)
    ensures OwnerGraph(h)[a] != LoweredGraph(h)[a] ==> IsBoundary(h.registry, "size_t")
  {
    hide Collapses, WellPaired;
    forall i | 0 <= i < |h.decls[a]|
      ensures Enters(h, a, i) <==> Follows(h, h.decls[a][i]) && !IsCount(h, a, i)
      ensures IsCount(h, a, i) ==> h.decls[a][i].base == "size_t" && !h.decls[a][i].isArray
    {
      if IsCount(h, a, i) {
        CollapsesHalves(h.decls[a], h.registry, h.scalars, i);
      }
    }
    if EntersCount(h, a) {
      var i :| 0 <= i < |h.decls[a]| && IsCount(h, a, i);
      assert Follows(h, h.decls[a][i]);
      assert "size_t" in OwnerGraph(h)[a];
    }
    forall n | n in OwnerGraph(h)[a] && n !in LoweredGraph(h)[a] ensures n == "size_t" && EntersCount(h, a) {
      var i :| 0 <= i < |h.decls[a]| && Paired(h, a) && Follows(h, h.decls[a][i]) && h.decls[a][i].base == n;
      assert IsCount(h, a, i);
    }
  }

  /** Both walks follow the same edges exactly when no aggregate enters a count. */
  lemma SameEdges(h: Header)
    ensures OwnerGraph(h) == LoweredGraph(h) <==> forall a :: !EntersCount(h, a)
  {
    hide EntersCount;
    forall a | a in h.decls ensures OwnerGraph(h)[a] == LoweredGraph(h)[a] <==> !EntersCount(h, a) { EdgesOf(h, a); }
    assert forall a :: EntersCount(h, a) ==> a in h.decls by {
      forall a | EntersCount(h, a) ensures a in h.decls { EntersDeclared(h, a); }
    }
  }

  lemma EntersDeclared(h: Header, a: string)
    requires EntersCount(h, a)
    ensures a in h.decls
  {
  }

  /** A header where they differ: `size_t` is a boundary struct, and the count of an array of it. */
  lemma EdgesDiffer() returns (h: Header)
    ensures OwnerGraph(h) != LoweredGraph(h)
  {
    var count := CField("xCount", "size_t", false, false, false);
    var pointer := CField("x", "int", true, true, false);
    h := Header(map["s" := [count, pointer]], map["size_t" := Kind.Boundary], map["int" := "i32"]);
    ElementNameInverts("xCount", "x");
    var fields := h.decls["s"];
    assert LooksLikeCount(count) && Matches(count, pointer) && !Matches(count, count);
    assert Partners(fields, 0, 1);
    assert Collapses(fields, h.registry, h.scalars, 0);
    assert IsCount(h, "s", 0);
    assert WellPaired(fields, h.registry, h.scalars);
    assert EntersCount(h, "s");
    SameEdges(h);
  }

  /** Below an accepted root the collection fails only behind a count that it entered. */
  lemma AcceptedIsCollected(h: Header, root: string, a: string)
    requires forall x | Reaches(LoweredGraph(h), root, x) :: !Unlowerable(h, x)
    requires Reaches(OwnerGraph(h), root, a) && Unpaired(h, a)
    ensures IsBoundary(h.registry, "size_t") && Reaches(OwnerGraph(h), root, "size_t")
  {
    hide Unlowerable, Unpaired, Reaches;
    CountOrLowered(h, root, a);
    if Reaches(LoweredGraph(h), root, a) {
      LoweredIsPaired(h, a);
    }
  }

  lemma CountOrLowered(h: Header, x: string, y: string)
    requires Reaches(OwnerGraph(h), x, y)
    ensures Reaches(LoweredGraph(h), x, y) || (IsBoundary(h.registry, "size_t") && Reaches(OwnerGraph(h), x, "size_t"))
  {
    var p :| PathFrom(OwnerGraph(h), x, p) && p[|p| - 1] == y;
    CountOrLoweredAlong(h, p);
  }

  lemma {:induction false} CountOrLoweredAlong(h: Header, p: seq<string>)
    requires |p| > 0 && IsPath(OwnerGraph(h), p)
    ensures Reaches(LoweredGraph(h), p[0], p[|p| - 1]) ||
      (IsBoundary(h.registry, "size_t") && Reaches(OwnerGraph(h), p[0], "size_t"))
  {
    hide LoweredGraph, OwnerGraph, Reaches, IsPath;
    ReachesSelf(LoweredGraph(h), p[0]);
    if |p| > 1 {
      FirstEdge(h, p);
      var q := p[1..];
      CountOrLoweredAlong(h, q);
      if p[1] in Succ(LoweredGraph(h), p[0]) && Reaches(LoweredGraph(h), p[1], p[|p| - 1]) {
        ReachesEdge(LoweredGraph(h), p[0], p[1]);
        ReachesTrans(LoweredGraph(h), p[0], p[1], p[|p| - 1]);
      } else {
        ReachesSelf(OwnerGraph(h), p[1]);
        ReachesEdge(OwnerGraph(h), p[0], p[1]);
        ReachesTrans(OwnerGraph(h), p[0], p[1], "size_t");
      }
    }
  }

  lemma FirstEdge(h: Header, p: seq<string>)
    requires IsPath(OwnerGraph(h), p) && |p| > 1
    ensures IsPath(OwnerGraph(h), p[1..]) && p[1] in Succ(OwnerGraph(h), p[0])
    ensures p[1] in Succ(LoweredGraph(h), p[0]) || (p[1] == "size_t" && IsBoundary(h.registry, "size_t"))
  {
    hide LoweredGraph, OwnerGraph;
    PathSuffix(OwnerGraph(h), p, 1);
    assert p[1] in Succ(OwnerGraph(h), p[0]);
    EdgeIsLowered(h, p[0], p[1]);
  }

  lemma EdgeIsLowered(h: Header, x: string, y: string)
    requires y in Succ(OwnerGraph(h), x)
    ensures y in Succ(LoweredGraph(h), x) || (y == "size_t" && IsBoundary(h.registry, "size_t"))
  {
    hide EntersCount;
    EdgesOf(h, x);
  }

  lemma LoweredIsPaired(h: Header, a: string)
    requires !Unlowerable(h, a)
    ensures !Unpaired(h, a)
  {
  }
}
