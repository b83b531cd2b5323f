/**
Paths in a finite directed graph, and what a depth-first walk that stops only
at nodes of its current path can see.

A graph is a map from a node to its successors. A node that is not a key has
no successor. The walks of the boundary crate keep the nodes of the current
path in a vector named `active`; they do not remember a node that they have
left. `Finds` and `Loops` say what such a walk decides, and `FindsStep` and
`LoopsStep` are the two equations that make the recursive walks correct.
*/
module Graphs {

  type Graph<T> = map<T, set<T>>

  function Succ<T>(g: Graph<T>, x: T): set<T> {
    if x in g then g[x] else {}
  }

  ghost predicate IsPath<T(!new)>(g: Graph<T>, p: seq<T>) {
    && |p| > 0
    && forall i, j | 0 <= i < j < |p| && j == i + 1 :: p[j] in Succ(g, p[i])
  }

  ghost predicate PathFrom<T(!new)>(g: Graph<T>, x: T, p: seq<T>) {
    IsPath(g, p) && p[0] == x
  }

  /** `y` is at the end of some path from `x`; the path may have no edge. */
  ghost predicate Reaches<T(!new)>(g: Graph<T>, x: T, y: T) {
    exists p :: PathFrom(g, x, p) && p[|p| - 1] == y
  }

  /** Some path from `x` has an edge and ends at `y`. */
  ghost predicate ReachesByEdge<T(!new)>(g: Graph<T>, x: T, y: T) {
    exists z :: z in Succ(g, x) && Reaches(g, z, y)
  }

  ghost predicate Avoids<T(!new)>(p: seq<T>, active: set<T>) {
    forall i | 0 <= i < |p| :: p[i] !in active
  }

  /** A path from `x` that meets no node of `active` ends in `goal`. */
  ghost predicate Finds<T(!new)>(g: Graph<T>, x: T, active: set<T>, goal: set<T>) {
    exists p :: PathFrom(g, x, p) && Avoids(p, active) && p[|p| - 1] in goal
  }

  /** A path from `x` ends in `active` or at an earlier node of the path. */
  ghost predicate Loops<T(!new)>(g: Graph<T>, x: T, active: set<T>) {
    exists p :: PathFrom(g, x, p) && Closes(p, active)
  }

  ghost predicate Closes<T(!new)>(p: seq<T>, active: set<T>)
    requires |p| > 0
  {
    p[|p| - 1] in active || p[|p| - 1] in p[..|p| - 1]
  }

  ghost predicate Closed<T(!new)>(g: Graph<T>, s: set<T>) {
    forall x | x in s :: Succ(g, x) <= s
  }

  // ----- paths

  lemma PathCons<T(!new)>(g: Graph<T>, x: T, p: seq<T>)
    requires IsPath(g, p) && p[0] in Succ(g, x)
    ensures PathFrom(g, x, [x] + p)
  {
  }

  lemma PathSuffix<T(!new)>(g: Graph<T>, p: seq<T>, k: nat)
    requires IsPath(g, p) && k < |p|
    ensures PathFrom(g, p[k], p[k..])
  {
  }

  lemma PathPrefix<T(!new)>(g: Graph<T>, p: seq<T>, k: nat)
    requires IsPath(g, p) && 0 < k <= |p|
    ensures PathFrom(g, p[0], p[..k])
  {
  }

  lemma PathJoin<T(!new)>(g: Graph<T>, p: seq<T>, q: seq<T>)
    requires IsPath(g, p) && IsPath(g, q) && p[|p| - 1] == q[0]
    ensures PathFrom(g, p[0], p + q[1..]) && (p + q[1..])[|p + q[1..]| - 1] == q[|q| - 1]
  {
  }

  lemma ReachesSelf<T(!new)>(g: Graph<T>, x: T)
    ensures Reaches(g, x, x)
  {
    assert PathFrom(g, x, [x]);
  }

  lemma ReachesTrans<T(!new)>(g: Graph<T>, x: T, y: T, z: T)
    requires Reaches(g, x, y) && Reaches(g, y, z)
    ensures Reaches(g, x, z)
  {
    var p :| PathFrom(g, x, p) && p[|p| - 1] == y;
    var q :| PathFrom(g, y, q) && q[|q| - 1] == z;
    PathJoin(g, p, q);
  }

  lemma ReachesEdge<T(!new)>(g: Graph<T>, x: T, y: T)
    requires y in Succ(g, x)
    ensures Reaches(g, x, y)
  {
    assert PathFrom(g, x, [x, y]);
  }

  /** A path either has no edge or leaves through a successor. */
  lemma ReachesStep<T(!new)>(g: Graph<T>, x: T, y: T)
    ensures Reaches(g, x, y) <==> x == y || ReachesByEdge(g, x, y)
  {
    if Reaches(g, x, y) && x != y {
      var p :| PathFrom(g, x, p) && p[|p| - 1] == y;
      PathSuffix(g, p, 1);
      assert Reaches(g, p[1], y);
    }
    if x == y {
      ReachesSelf(g, x);
    }
    if ReachesByEdge(g, x, y) {
      var z :| z in Succ(g, x) && Reaches(g, z, y);
      ReachesEdge(g, x, z);
      ReachesTrans(g, x, z, y);
    }
  }

  /** A closed set holds every node that its nodes reach. */
  lemma {:induction false} ClosedHolds<T(!new)>(g: Graph<T>, s: set<T>, p: seq<T>)
    requires Closed(g, s) && IsPath(g, p) && p[0] in s
    ensures forall i | 0 <= i < |p| :: p[i] in s
  {
    if |p| > 1 {
      assert p[1] in Succ(g, p[0]);
      PathSuffix(g, p, 1);
      ClosedHolds(g, s, p[1..]);
      assert forall i | 0 < i < |p| :: p[i] == p[1..][i - 1];
    }
  }

  lemma ClosedReaches<T(!new)>(g: Graph<T>, s: set<T>, x: T, y: T)
    requires Closed(g, s) && x in s && Reaches(g, x, y)
    ensures y in s
  {
    var p :| PathFrom(g, x, p) && p[|p| - 1] == y;
    ClosedHolds(g, s, p);
  }

  // ----- worklists

  /** `y` is at the end of some path from a node of `roots`. */
  ghost predicate ReachedFrom<T(!new)>(g: Graph<T>, roots: set<T>, y: T) {
    exists x :: x in roots && Reaches(g, x, y)
  }

  lemma ReachedFromOne<T(!new)>(g: Graph<T>, x: T, y: T)
    ensures ReachedFrom(g, {x}, y) <==> Reaches(g, x, y)
  {
    assert x in {x};
  }

  /**
  A worklist from `roots`: the nodes of `done` have been expanded and the nodes
  of `todo` wait. Everything met is reachable, and nothing below `done` is missed.
  */
  ghost predicate Frontier<T(!new)>(g: Graph<T>, roots: set<T>, done: set<T>, todo: set<T>) {
    && roots <= done + todo
    && (forall y | y in done + todo :: ReachedFrom(g, roots, y))
    && (forall y | y in done :: Succ(g, y) <= done + todo)
  }

  lemma FrontierStart<T(!new)>(g: Graph<T>, roots: set<T>)
    ensures Frontier(g, roots, {}, roots)
  {
    forall y | y in roots ensures ReachedFrom(g, roots, y) { ReachesSelf(g, y); }
  }

  lemma FrontierVisit<T(!new)>(g: Graph<T>, roots: set<T>, done: set<T>, todo: set<T>, next: T, rest: set<T>)
    requires Frontier(g, roots, done, todo) && next in todo && rest + {next} == todo
    ensures Frontier(g, roots, done + {next}, rest + Succ(g, next))
  {
    hide Reaches, Succ;
    forall y | y in Succ(g, next) ensures ReachedFrom(g, roots, y) {
      var x :| x in roots && Reaches(g, x, next);
      ReachesEdge(g, next, y);
      ReachesTrans(g, x, next, y);
    }
  }

  /** A visit may leave out what is already done or waiting. */
  lemma FrontierGrow<T(!new)>(g: Graph<T>, roots: set<T>, done: set<T>, todo: set<T>, next: T, rest: set<T>, more: set<T>)
    requires Frontier(g, roots, done, todo) && next in todo && rest + {next} == todo
    requires more <= Succ(g, next) <= done + {next} + rest + more
    ensures Frontier(g, roots, done + {next}, rest + more)
  {
    hide ReachedFrom, Succ;
    FrontierVisit(g, roots, done, todo, next, rest);
  }

  lemma FrontierDone<T(!new)>(g: Graph<T>, roots: set<T>, done: set<T>)
    requires Frontier(g, roots, done, {})
    ensures Closed(g, done)
    ensures forall y :: y in done <==> ReachedFrom(g, roots, y)
  {
    forall y | ReachedFrom(g, roots, y) ensures y in done {
      var x :| x in roots && Reaches(g, x, y);
      ClosedReaches(g, done, x, y);
    }
  }

  /** A node that reaches itself has a predecessor among the nodes that it reaches. */
  lemma CyclePredecessor<T(!new)>(g: Graph<T>, x: T) returns (y: T)
    requires ReachesByEdge(g, x, x)
    ensures Reaches(g, x, y) && x in Succ(g, y)
  {
    var z :| z in Succ(g, x) && Reaches(g, z, x);
    var p :| PathFrom(g, z, p) && p[|p| - 1] == x;
    if |p| == 1 {
      ReachesSelf(g, x);
      y := x;
    } else {
      y := p[|p| - 2];
      PathPrefix(g, p, |p| - 1);
      assert Reaches(g, z, y);
      ReachesEdge(g, x, z);
      ReachesTrans(g, x, z, y);
    }
  }

  /** An edge back to `x` from a node that `x` reaches makes `x` reach itself. */
  lemma CycleEdge<T(!new)>(g: Graph<T>, x: T, y: T)
    requires Reaches(g, x, y) && x in Succ(g, y)
    ensures ReachesByEdge(g, x, x)
  {
    ReachesStep(g, x, y);
    if x == y {
      ReachesSelf(g, x);
    } else {
      var z :| z in Succ(g, x) && Reaches(g, z, y);
      ReachesEdge(g, y, x);
      ReachesTrans(g, z, y, x);
    }
  }

  // ----- two graphs that agree on a closed set

  ghost predicate AgreeOn<T(!new)>(g: Graph<T>, h: Graph<T>, s: set<T>) {
    forall x | x in s :: Succ(g, x) == Succ(h, x)
  }

  lemma PathLocal<T(!new)>(g: Graph<T>, h: Graph<T>, s: set<T>, p: seq<T>)
    requires Closed(g, s) && AgreeOn(g, h, s) && IsPath(g, p) && p[0] in s
    ensures IsPath(h, p)
  {
    ClosedHolds(g, s, p);
  }

  lemma ReachesLocal<T(!new)>(g: Graph<T>, h: Graph<T>, s: set<T>, x: T, y: T)
    requires Closed(g, s) && AgreeOn(g, h, s) && x in s
    ensures Reaches(g, x, y) <==> Reaches(h, x, y)
  {
    forall p | PathFrom(g, x, p) ensures PathFrom(h, x, p) { PathLocal(g, h, s, p); }
    forall p | PathFrom(h, x, p) ensures PathFrom(g, x, p) { PathLocal(h, g, s, p); }
  }

  lemma ReachesByEdgeLocal<T(!new)>(g: Graph<T>, h: Graph<T>, s: set<T>, x: T, y: T)
    requires Closed(g, s) && AgreeOn(g, h, s) && x in s
    ensures ReachesByEdge(g, x, y) <==> ReachesByEdge(h, x, y)
  {
    forall z | z in Succ(g, x) ensures Reaches(g, z, y) <==> Reaches(h, z, y) {
      ReachesLocal(g, h, s, z, y);
    }
  }

  lemma LoopsLocal<T(!new)>(g: Graph<T>, h: Graph<T>, s: set<T>, x: T)
    requires Closed(g, s) && AgreeOn(g, h, s) && x in s
    ensures Loops(g, x, {}) <==> Loops(h, x, {})
  {
    forall p | PathFrom(g, x, p) ensures PathFrom(h, x, p) { PathLocal(g, h, s, p); }
    forall p | PathFrom(h, x, p) ensures PathFrom(g, x, p) { PathLocal(h, g, s, p); }
  }

  // ----- the walk that looks for a goal

  lemma FindsReaches<T(!new)>(g: Graph<T>, x: T, goal: set<T>)
    ensures Finds(g, x, {}, goal) <==> exists y :: y in goal && Reaches(g, x, y)
  {
    if y :| y in goal && Reaches(g, x, y) {
      var p :| PathFrom(g, x, p) && p[|p| - 1] == y;
      assert Avoids(p, {});
    }
    if Finds(g, x, {}, goal) {
      var p :| PathFrom(g, x, p) && Avoids(p, {}) && p[|p| - 1] in goal;
      assert Reaches(g, x, p[|p| - 1]);
    }
  }

  /** The last position of `x` in `p`. */
  lemma {:induction false} LastOccurrence<T(!new)>(p: seq<T>, x: T) returns (k: nat)
    requires x in p
    ensures k < |p| && p[k] == x && x !in p[k + 1..]
  {
    k := |p| - 1;
    while p[k] != x
      invariant k < |p| && x in p[..k + 1] && x !in p[k + 1..]
      decreases k
    {
      assert p[k..] == [p[k]] + p[k + 1..];
      assert p[..k + 1] == p[..k] + [p[k]];
      k := k - 1;
    }
  }

  /** A path that comes back to `x` can start at its last visit of `x`. */
  lemma FindsLeaves<T(!new)>(g: Graph<T>, x: T, active: set<T>, goal: set<T>) returns (y: T)
    requires Finds(g, x, active, goal) && x !in goal
    ensures y in Succ(g, x) && Finds(g, y, active + {x}, goal)
  {
    var p :| PathFrom(g, x, p) && Avoids(p, active) && p[|p| - 1] in goal;
    var k := LastOccurrence(p, x);
    PathSuffix(g, p, k + 1);
    var q := p[k + 1..];
    y := q[0];
    assert p[k + 1] in Succ(g, p[k]);
    assert Avoids(q, active + {x}) by {
      forall i | 0 <= i < |q| ensures q[i] !in active + {x} { assert q[i] == p[k + 1 + i]; }
    }
    assert q[|q| - 1] == p[|p| - 1];
  }

  lemma FindsThrough<T(!new)>(g: Graph<T>, x: T, y: T, active: set<T>, goal: set<T>)
    requires x !in active && y in Succ(g, x) && Finds(g, y, active + {x}, goal)
    ensures Finds(g, x, active, goal)
  {
    var q :| PathFrom(g, y, q) && Avoids(q, active + {x}) && q[|q| - 1] in goal;
    PathCons(g, x, q);
    var p := [x] + q;
    assert Avoids(p, active);
    assert p[|p| - 1] == q[|q| - 1];
  }

  /**
  One step of a walk that stops at the nodes of its current path: the walk
  from `x` finds a goal exactly when `x` is one or the walk from a successor
  finds one with `x` added to the path. The cut loses no goal.
  */
  lemma FindsStep<T(!new)>(g: Graph<T>, x: T, active: set<T>, goal: set<T>)
    requires x !in active
    ensures Finds(g, x, active, goal)
       <==> x in goal || exists y :: y in Succ(g, x) && Finds(g, y, active + {x}, goal)
  {
    if x in goal {
      assert PathFrom(g, x, [x]) && Avoids([x], active);
    } else if Finds(g, x, active, goal) {
      var y := FindsLeaves(g, x, active, goal);
    }
    if y :| y in Succ(g, x) && Finds(g, y, active + {x}, goal) {
      FindsThrough(g, x, y, active, goal);
    }
  }

  lemma FindsStopped<T(!new)>(g: Graph<T>, x: T, active: set<T>, goal: set<T>)
    requires x in active
    ensures !Finds(g, x, active, goal)
  {
  }

  // ----- the walk that looks for a cycle

  lemma LoopsStopped<T(!new)>(g: Graph<T>, x: T, active: set<T>)
    requires x in active
    ensures Loops(g, x, active)
  {
    assert PathFrom(g, x, [x]) && Closes([x], active);
  }

  /** One step of a walk that reports a node of its current path as a cycle. */
  lemma LoopsStep<T(!new)>(g: Graph<T>, x: T, active: set<T>)
    requires x !in active
    ensures Loops(g, x, active) <==> exists y :: y in Succ(g, x) && Loops(g, y, active + {x})
  {
    if Loops(g, x, active) {
      var p :| PathFrom(g, x, p) && Closes(p, active);
      assert |p| > 1;
      var q := p[1..];
      PathSuffix(g, p, 1);
      assert q[..|q| - 1] == p[..|p| - 1][1..];
      assert Closes(q, active + {x});
      assert q[0] in Succ(g, x) && Loops(g, q[0], active + {x});
    }
    if y :| y in Succ(g, x) && Loops(g, y, active + {x}) {
      var q :| PathFrom(g, y, q) && Closes(q, active + {x});
      PathCons(g, x, q);
      var p := [x] + q;
      assert p[..|p| - 1] == [x] + q[..|q| - 1];
      assert Closes(p, active);
    }
  }

  /** A path that reaches a node from which some path loops, loops too. */
  lemma LoopsBack<T(!new)>(g: Graph<T>, x: T, y: T)
    requires Reaches(g, x, y) && Loops(g, y, {})
    ensures Loops(g, x, {})
  {
    var p :| PathFrom(g, x, p) && p[|p| - 1] == y;
    var q :| PathFrom(g, y, q) && Closes(q, {});
    PathJoin(g, p, q);
    var r := p + q[1..];
    assert r == p[..|p| - 1] + q;
    assert r[..|r| - 1] == p[..|p| - 1] + q[..|q| - 1];
    assert Closes(r, {});
  }

  /** `Loops` with an empty path is the same as reaching a node that reaches itself. */
  lemma LoopsIsCycle<T(!new)>(g: Graph<T>, x: T)
    ensures Loops(g, x, {}) <==> exists y :: Reaches(g, x, y) && ReachesByEdge(g, y, y)
  {
    if Loops(g, x, {}) {
      var p :| PathFrom(g, x, p) && Closes(p, {});
      var n := |p| - 1;
      var k :| 0 <= k < n && p[k] == p[n];
      PathPrefix(g, p, k + 1);
      assert Reaches(g, x, p[k]);
      PathSuffix(g, p, k + 1);
      assert Reaches(g, p[k + 1], p[n]);
      assert p[k + 1] in Succ(g, p[k]);
      assert ReachesByEdge(g, p[k], p[k]);
    }
    if y :| Reaches(g, x, y) && ReachesByEdge(g, y, y) {
      var z :| z in Succ(g, y) && Reaches(g, z, y);
      var q :| PathFrom(g, z, q) && q[|q| - 1] == y;
      PathCons(g, y, q);
      var r := [y] + q;
      assert r[|r| - 1] == y && r[..|r| - 1][0] == y;
      assert Closes(r, {});
      LoopsBack(g, x, y);
    }
  }

  /** When no path from `x` loops, every path from `x` visits a node once. */
  lemma NoLoopNoRepeat<T(!new)>(g: Graph<T>, x: T, p: seq<T>)
    requires !Loops(g, x, {}) && PathFrom(g, x, p)
    ensures forall i, j | 0 <= i < j < |p| :: p[i] != p[j]
  {
    forall i, j | 0 <= i < j < |p| ensures p[i] != p[j] {
      var q := p[..j + 1];
      PathPrefix(g, p, j + 1);
      if p[i] == p[j] {
        assert q[..|q| - 1][i] == q[|q| - 1];
        assert Closes(q, {});
      }
    }
  }

  // ----- a rank for a graph without loops

  lemma StrictSubsetSize<T>(small: set<T>, large: set<T>)
    requires small < large
    ensures |small| < |large|
  {
    var rest := large - small;
    assert large == small + rest && |rest| > 0;
  }

  /** The nodes of `u` that `x` reaches. */
  ghost function ReachSet<T(!new)>(g: Graph<T>, u: set<T>, x: T): set<T> {
    set y | y in u && Reaches(g, x, y)
  }

  /** Where no path loops, a successor reaches strictly fewer nodes, and no path from it loops. */
  lemma RankFalls<T(!new)>(g: Graph<T>, u: set<T>, x: T, y: T)
    requires !Loops(g, x, {}) && y in Succ(g, x) && x in u
    ensures !Loops(g, y, {})
    ensures |ReachSet(g, u, y)| < |ReachSet(g, u, x)|
  {
    ReachesEdge(g, x, y);
    if Loops(g, y, {}) {
      LoopsBack(g, x, y);
    }
    forall z | z in ReachSet(g, u, y) ensures z in ReachSet(g, u, x) { ReachesTrans(g, x, y, z); }
    ReachesSelf(g, x);
    if Reaches(g, y, x) {
      assert ReachesByEdge(g, x, x);
      LoopsIsCycle(g, x);
    }
    assert x in ReachSet(g, u, x) && x !in ReachSet(g, u, y);
    StrictSubsetSize(ReachSet(g, u, y), ReachSet(g, u, x));
  }
}
