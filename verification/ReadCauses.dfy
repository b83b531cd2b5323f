/**
The members that the diagnostics of the boundary name: the member that closes
a cycle in a scratch build, and the pointer that makes a pair written back.
Each walk reads the members of a view; the pass decision reads its fields.
*/
module ReadCauses {
  import opened Graphs
  import opened StructViews
  import opened StructPasses
  import opened PassDecision
  import opened PointerPasses
  import opened MemberReads
  import opened ReadWalk

  /** An edge for each struct that the members of a struct make a scratch build build. */
  ghost function MemberBuildGraph(rv: ReadView): Graph<Struct> {
    map s | s in rv.members ::
      set m | m in rv.members[s] && m.shape.Nested().Some? && Pass(rv.view.table, m.shape.Nested().value) != StructPass.Bytes
        :: m.shape.Nested().value
  }

  /** The structs that have both readings or neither. */
  ghost function BothOrNeither(rv: ReadView, s: Struct): set<Struct> {
    set x | x in Universe(rv.view.table, s) && (x in rv.view.table || x !in rv.members)
  }

  lemma SameNested(rv: ReadView, s: Struct)
    requires Coherent(rv) && s in rv.view.table
    ensures Succ(MemberBuildGraph(rv), s) == Succ(BuildGraph(rv.view.table), s)
  {
    var t, fields, members := rv.view.table, rv.view.table[s], rv.members[s];
    forall n | n in Succ(MemberBuildGraph(rv), s) ensures n in Succ(BuildGraph(t), s) {
      var m :| m in members && m.shape.Nested() == Some(n);
      var i :| 0 <= i < |members| && members[i] == m;
      assert SameShape(fields[i], members[i]);
      assert fields[i] in fields && fields[i].Nested() == Some(n);
      BuildEdge(t, s, fields[i]);
    }
    forall n | n in Succ(BuildGraph(t), s) ensures n in Succ(MemberBuildGraph(rv), s) {
      var f :| f in fields && f.Nested() == Some(n);
      var i :| 0 <= i < |fields| && fields[i] == f;
      assert SameShape(fields[i], members[i]);
      assert members[i] in members && members[i].shape.Nested() == Some(n);
    }
  }

  /** From a struct with both readings, the walk over members loops exactly when the build does. */
  lemma SameLoops(rv: ReadView, s: Struct)
    requires Coherent(rv) && (s in rv.view.table || s !in rv.members)
    ensures Loops(MemberBuildGraph(rv), s, {}) <==> Loops(BuildGraph(rv.view.table), s, {})
  {
    var g, h, c := BuildGraph(rv.view.table), MemberBuildGraph(rv), BothOrNeither(rv, s);
    forall x | x in c ensures Succ(g, x) == Succ(h, x) && Succ(g, x) <= c {
      if x in rv.view.table {
        SameNested(rv, x);
        forall n | n in Succ(g, x) ensures n in c {
          var m :| m in rv.members[x] && m.shape.Nested() == Some(n);
          var f :| f in rv.view.table[x] && f.Nested() == Some(n);
          assert n in NestedOf(rv.view.table[x]);
        }
      }
    }
    LoopsLocal(g, h, c, s);
  }

  lemma BytesBuildsNothing(t: Table, s: Struct)
    requires Pass(t, s) == StructPass.Bytes
    ensures !Loops(BuildGraph(t), s, {})
  {
    CopyingIsGreatest(t);
    forall n | n in Succ(BuildGraph(t), s) ensures false {
      var f :| f in t[s] && f.Nested() == Some(n);
      BytesNestsBytes(t, s, f);
    }
    LoopsStep(BuildGraph(t), s, {});
  }

  /** The walk over members finds a cycle exactly for the structs whose pass is a cycle. */
  lemma CycleWalkDecidesPass(rv: ReadView, s: Struct)
    requires Coherent(rv) && s in rv.view.table
    ensures Loops(MemberBuildGraph(rv), s, {}) <==> Pass(rv.view.table, s) == StructPass.Cycle
  {
    SameLoops(rv, s);
    if Pass(rv.view.table, s) == StructPass.Bytes {
      BytesBuildsNothing(rv.view.table, s);
    }
  }

  /** When the walk from `s` finds no cycle, no member of `s` nests a struct that no call can build. */
  lemma NoCycleBelow(rv: ReadView, s: Struct, m: Member)
    requires Coherent(rv) && s in rv.members && m in rv.members[s] && m.shape.Nested().Some?
    requires !Loops(MemberBuildGraph(rv), s, {})
    ensures Pass(rv.view.table, m.shape.Nested().value) != StructPass.Cycle
  {
    var n := m.shape.Nested().value;
    if Pass(rv.view.table, n) == StructPass.Cycle {
      SameLoops(rv, n);
      assert n in Succ(MemberBuildGraph(rv), s);
      ReachesEdge(MemberBuildGraph(rv), s, n);
      LoopsBack(MemberBuildGraph(rv), s, n);
    }
  }

  // ----- the member that closes a cycle

  /** The member leads from a struct that the build of `s` reaches back to a struct that reaches it. */
  ghost predicate ClosesCycle(rv: ReadView, s: Struct, site: Site) {
    && site.owner in rv.members
    && site.member < |rv.members[site.owner]|
    && var nested := rv.members[site.owner][site.member].shape.Nested();
       && nested.Some?
       && nested.value in Succ(MemberBuildGraph(rv), site.owner)
       && Reaches(MemberBuildGraph(rv), s, site.owner)
       && Reaches(MemberBuildGraph(rv), nested.value, site.owner)
  }

  lemma ClosesCycleAbove(rv: ReadView, s: Struct, n: Struct, site: Site)
    requires n in Succ(MemberBuildGraph(rv), s) && ClosesCycle(rv, n, site)
    ensures ClosesCycle(rv, s, site)
  {
    ReachesEdge(MemberBuildGraph(rv), s, n);
    ReachesTrans(MemberBuildGraph(rv), s, n, site.owner);
  }

  /** A struct of the path reaches the end of the path. */
  lemma OnPathReachesEnd(g: Graph<Struct>, path: seq<Struct>, n: Struct)
    requires IsPath(g, path) && n in path
    ensures Reaches(g, n, path[|path| - 1])
  {
    var i :| 0 <= i < |path| && path[i] == n;
    PathSuffix(g, path, i);
    assert path[i..][|path| - i - 1] == path[|path| - 1];
  }

  /** The build that goes on through the member comes back to a struct of `active` or of its own path. */
  ghost predicate MemberLoops(rv: ReadView, m: Member, active: set<Struct>) {
    && m.shape.Nested().Some?
    && Pass(rv.view.table, m.shape.Nested().value) != StructPass.Bytes
    && Loops(MemberBuildGraph(rv), m.shape.Nested().value, active)
  }

  lemma CycleStep(rv: ReadView, s: Struct, active: set<Struct>)
    requires s in rv.members && s !in active
    ensures Loops(MemberBuildGraph(rv), s, active)
       <==> exists i :: 0 <= i < |rv.members[s]| && MemberLoops(rv, rv.members[s][i], active + {s})
  {
    var g := MemberBuildGraph(rv);
    LoopsStep(g, s, active);
    if n :| n in Succ(g, s) && Loops(g, n, active + {s}) {
      var m :| m in rv.members[s] && m.shape.Nested() == Some(n);
      var i :| 0 <= i < |rv.members[s]| && rv.members[s][i] == m;
      assert MemberLoops(rv, rv.members[s][i], active + {s});
    }
    if i :| 0 <= i < |rv.members[s]| && MemberLoops(rv, rv.members[s][i], active + {s}) {
      assert rv.members[s][i].shape.Nested().value in Succ(g, s);
    }
  }

  /** The first member that leads back to a struct of the current path. */
  method CycleMember(rv: ReadView, s: Struct, path: seq<Struct>)
    returns (found: Option<Site>, active: seq<Struct>)
    requires ValidView(rv.view) && Elems(path) <= rv.members.Keys
    requires s !in path && IsPath(MemberBuildGraph(rv), path + [s])
    ensures active == path
    ensures found.Some? <==> Loops(MemberBuildGraph(rv), s, Elems(path))
    ensures found.Some? ==> ClosesCycle(rv, s, found.value)
    decreases |rv.members.Keys - Elems(path)|, 0
  {
    hide MemberLoops, ClosesCycle, IsPath, Loops, ValidView, Pass;
    found, active := None, path;
    if s !in rv.members {
      LoopsStep(MemberBuildGraph(rv), s, Elems(path));
      return;
    }
    CycleStep(rv, s, Elems(path));
    active := active + [s];
    ElemsSnoc(path, s);
    StrictSubsetSize(rv.members.Keys - Elems(active), rv.members.Keys - Elems(path));
    var members := rv.members[s];
    ghost var on := Elems(path + [s]);
    for i := 0 to |members|
      invariant active == path + [s] && found == None
      invariant forall j | 0 <= j < i :: !MemberLoops(rv, members[j], on)
    {
      found, active := MemberCycle(rv, s, i, active);
      if found.Some? {
        break;
      }
    }
    active := active[..|active| - 1];
  }

  /** The cycle that member `i` of `s`, the last struct of the path, closes or leads to. */
  method MemberCycle(rv: ReadView, s: Struct, i: nat, path: seq<Struct>)
    returns (found: Option<Site>, active: seq<Struct>)
    requires ValidView(rv.view) && Elems(path) <= rv.members.Keys
    requires s in rv.members && i < |rv.members[s]|
    requires IsPath(MemberBuildGraph(rv), path) && path[|path| - 1] == s
    ensures active == path
    ensures found.Some? <==> MemberLoops(rv, rv.members[s][i], Elems(path))
    ensures found.Some? ==> ClosesCycle(rv, s, found.value)
    decreases |rv.members.Keys - Elems(path)|, 1
  {
    ghost var g := MemberBuildGraph(rv);
    found, active := None, path;
    var nested := rv.members[s][i].shape.Nested();
    if nested.None? {
      return;
    }
    var pass := StructPassOf(rv.view, nested.value);
    if pass == StructPass.Bytes {
      return;
    }
    assert rv.members[s][i] in rv.members[s] && nested.value in Succ(g, s);
    if nested.value in active {
      LoopsStopped(g, nested.value, Elems(path));
      ReachesSelf(g, s);
      OnPathReachesEnd(g, path, nested.value);
      found := Some(Site(s, i));
    } else {
      PathSnoc(g, path, nested.value);
      found, active := CycleMember(rv, nested.value, active);
      if found.Some? {
        ClosesCycleAbove(rv, s, nested.value, found.value);
      }
    }
  }

  lemma PathSnoc(g: Graph<Struct>, path: seq<Struct>, n: Struct)
    requires IsPath(g, path) && n in Succ(g, path[|path| - 1])
    ensures IsPath(g, path + [n])
  {
  }

  /** The member that closes a cycle in the scratch build of `s`. */
  method FirstCycle(rv: ReadView, s: Struct) returns (found: Option<Site>)
    requires ValidView(rv.view)
    ensures found.Some? <==> Loops(MemberBuildGraph(rv), s, {})
    ensures found.Some? ==> ClosesCycle(rv, s, found.value)
    ensures Coherent(rv) && s in rv.view.table ==> (found.Some? <==> Pass(rv.view.table, s) == StructPass.Cycle)
  {
    var active;
    assert [] + [s] == [s] && Elems<Struct>([]) == {};
    found, active := CycleMember(rv, s, []);
    if Coherent(rv) && s in rv.view.table {
      CycleWalkDecidesPass(rv, s);
    }
  }

  // ----- the pointer that makes a pair written back

  /** C can write the target of a pointer member exactly when the pointer is not `const`. */
  ghost predicate MutableAgrees(rv: ReadView) {
    forall s, m | s in rv.members && m in rv.members[s] && m.shape.Pointer? :: m.mutable == !m.shape.constant
  }

  /** The member is a pointer through which C writes a scratch target in the build of `s`. */
  ghost predicate WritesTargetAt(rv: ReadView, s: Struct, site: Site) {
    && site.owner in rv.members
    && site.member < |rv.members[site.owner]|
    && Reaches(WriteBackGraph(rv.view.table), s, site.owner)
    && WritesTarget(rv.view.table, rv.members[site.owner][site.member].shape)
  }

  lemma SameWriteBack(rv: ReadView, s: Struct, active: set<Struct>)
    requires Coherent(rv) && s in rv.view.table && s !in active
    ensures Finds(WriteBackGraph(rv.view.table), s, active, WriteBackOwners(rv.view.table))
       <==> exists i :: 0 <= i < |rv.members[s]| && MemberWritesBack(rv.view.table, rv.members[s][i].shape, active + {s})
  {
    var t, members := rv.view.table, rv.members[s];
    WritesBackStep(t, s, active);
    forall i | 0 <= i < |members|
      ensures MemberWritesBack(t, members[i].shape, active + {s}) == MemberWritesBack(t, t[s][i], active + {s})
    {
      assert SameShape(t[s][i], members[i]);
    }
  }

  lemma WriteBackMemberEdge(rv: ReadView, s: Struct, i: nat)
    requires Coherent(rv) && s in rv.view.table && i < |rv.members[s]|
    requires ReadOnlyStep(rv.view.table, rv.members[s][i].shape).Some?
    ensures var n := ReadOnlyStep(rv.view.table, rv.members[s][i].shape).value;
      && n in Succ(WriteBackGraph(rv.view.table), s)
      && (n in rv.view.table || n !in rv.members)
  {
    assert SameShape(rv.view.table[s][i], rv.members[s][i]);
    assert rv.view.table[s][i] in rv.view.table[s] && rv.members[s][i] in rv.members[s];
    WriteBackEdge(rv.view.table, s, rv.view.table[s][i]);
  }

  /** The first pointer member, at any depth of `s`, that makes the build of `s` write a target back. */
  method WrittenBackMember(rv: ReadView, s: Struct, path: seq<Struct>)
    returns (found: Option<Site>, active: seq<Struct>)
    requires ValidView(rv.view) && Coherent(rv) && MutableAgrees(rv)
    requires Elems(path) <= rv.members.Keys && (s in rv.view.table || s !in rv.members)
    ensures active == path
    ensures found.Some? <==> Finds(WriteBackGraph(rv.view.table), s, Elems(path), WriteBackOwners(rv.view.table))
    ensures found.Some? ==> WritesTargetAt(rv, s, found.value)
    decreases |rv.members.Keys - Elems(path)|, 0
  {
    hide MemberWritesBack, WritesTargetAt, MutableAgrees, ValidView, Finds, Pass;
    found, active := None, path;
    if s in active {
      FindsStopped(WriteBackGraph(rv.view.table), s, Elems(path), WriteBackOwners(rv.view.table));
      return;
    }
    if s !in rv.members {
      FindsStep(WriteBackGraph(rv.view.table), s, Elems(path), WriteBackOwners(rv.view.table));
      return;
    }
    SameWriteBack(rv, s, Elems(path));
    active := active + [s];
    ElemsSnoc(path, s);
    StrictSubsetSize(rv.members.Keys - Elems(active), rv.members.Keys - Elems(path));
    var members := rv.members[s];
    ghost var on := Elems(path + [s]);
    for i := 0 to |members|
      invariant active == path + [s] && found == None
      invariant forall j | 0 <= j < i :: !MemberWritesBack(rv.view.table, members[j].shape, on)
    {
      found, active := WrittenBackBy(rv, s, i, active);
      if found.Some? {
        break;
      }
    }
    active := active[..|active| - 1];
  }

  /** What member `i` of `s` adds to the search of `WrittenBackMember`. */
  method WrittenBackBy(rv: ReadView, s: Struct, i: nat, path: seq<Struct>)
    returns (found: Option<Site>, active: seq<Struct>)
    requires ValidView(rv.view) && Coherent(rv) && MutableAgrees(rv)
    requires Elems(path) <= rv.members.Keys && s in rv.view.table && i < |rv.members[s]|
    ensures active == path
    ensures found.Some? <==> MemberWritesBack(rv.view.table, rv.members[s][i].shape, Elems(path))
    ensures found.Some? ==> WritesTargetAt(rv, s, found.value)
    decreases |rv.members.Keys - Elems(path)|, 1
  {
    found, active := None, path;
    var m := rv.members[s][i];
    var nested := m.shape.Nested();
    assert m in rv.members[s];
    if nested.None? {
      return;
    }
    var pass := StructPassOf(rv.view, nested.value);
    if pass != Scratch {
      return;
    }
    if m.shape.Pointer? && m.mutable {
      ReachesSelf(WriteBackGraph(rv.view.table), s);
      found := Some(Site(s, i));
    } else {
      WriteBackMemberEdge(rv, s, i);
      found, active := WrittenBackMember(rv, nested.value, active);
      if found.Some? {
        ReachesEdge(WriteBackGraph(rv.view.table), s, nested.value);
        ReachesTrans(WriteBackGraph(rv.view.table), s, nested.value, found.value.owner);
      }
    }
  }

  /** The cause that the diagnostic of a written-back pair names for its elements. */
  method WrittenBackCause(rv: ReadView, element: Struct) returns (found: Option<Site>)
    requires ValidView(rv.view) && Coherent(rv) && MutableAgrees(rv)
    requires element in rv.view.table || element !in rv.members
    ensures found.Some? <==> WritesBack(rv.view.table, element)
    ensures found.Some? ==> WritesTargetAt(rv, element, found.value)
  {
    var active;
    found, active := WrittenBackMember(rv, element, []);
    FindsReaches(WriteBackGraph(rv.view.table), element, WriteBackOwners(rv.view.table));
  }
}
