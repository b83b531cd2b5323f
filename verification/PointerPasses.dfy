/**
How a foreign call passes the target of a pointer, and the two walks over the
scratch build: does the build of a struct write a target back, and does it
allocate a scratch target.
*/
module PointerPasses {
  import opened Graphs
  import opened StructViews
  import opened StructPasses
  import opened PassDecision

  datatype PointerPass = ScriptMemory | ScratchWrittenBack | ScratchReadOnly | Cycle

  ghost function ClassPass(t: Table, s: Struct, writable: bool): PointerPass {
    match Pass(t, s)
    case Bytes => ScriptMemory
    case Scratch => if writable then ScratchWrittenBack else ScratchReadOnly
    case Cycle => PointerPass.Cycle
  }

  /** The pass of a struct that a struct passed as `parent` embeds by value. */
  ghost function EmbeddedPass(t: Table, parent: StructPass, nested: Struct): StructPass {
    match parent
    case Bytes => StructPass.Bytes
    case Scratch => Pass(t, nested)
    case Cycle => StructPass.Cycle
  }

  /** The pass of the target of a pointer member of a struct passed as `parent`. */
  ghost function MemberPass(t: Table, parent: StructPass, target: Struct, writable: bool): PointerPass {
    match parent
    case Bytes => ScriptMemory
    case Scratch => ClassPass(t, target, writable)
    case Cycle => PointerPass.Cycle
  }

  /** The pass of the struct that a pointer of pass `pointer` targets. */
  function TargetPass(pointer: PointerPass): StructPass {
    match pointer
    case ScriptMemory => StructPass.Bytes
    case ScratchWrittenBack => Scratch
    case ScratchReadOnly => Scratch
    case Cycle => StructPass.Cycle
  }

  /** The pass of the elements of a pair. */
  ghost function ElementPass(t: Table, element: Struct, writable: bool): PointerPass {
    match Pass(t, element)
    case Bytes => ScriptMemory
    case Scratch => if writable || WritesBack(t, element) then ScratchWrittenBack else ScratchReadOnly
    case Cycle => PointerPass.Cycle
  }

  // ----- what a build writes back

  /** The scratch struct that a build fills through this member and C cannot write through it. */
  ghost function ReadOnlyStep(t: Table, f: FieldShape): Option<Struct> {
    match f
    case Embedded(nested) => if Pass(t, nested) == Scratch then Some(nested) else None
    case Pointer(target, _, constant) => if constant && Pass(t, target) == Scratch then Some(target) else None
    case Pair(Some(element)) => if Pass(t, element) == Scratch then Some(element) else None
    case _ => None
  }

  /** The member is a non-`const` pointer whose target the call passes as a scratch copy. */
  ghost predicate WritesTarget(t: Table, f: FieldShape) {
    f.Pointer? && !f.constant && Pass(t, f.target) == Scratch
  }

  ghost function WriteBackGraph(t: Table): Graph<Struct> {
    map s | s in t :: set f | f in t[s] && ReadOnlyStep(t, f).Some? :: ReadOnlyStep(t, f).value
  }

  ghost function WriteBackOwners(t: Table): set<Struct> {
    set s | s in t && exists f :: f in t[s] && WritesTarget(t, f)
  }

  /** Some struct that the build of `s` fills has a member that C can write a scratch target through. */
  ghost predicate WritesBack(t: Table, s: Struct) {
    exists owner :: owner in WriteBackOwners(t) && Reaches(WriteBackGraph(t), s, owner)
  }

  lemma WriteBackEdge(t: Table, s: Struct, f: FieldShape)
    requires s in t && f in t[s] && ReadOnlyStep(t, f).Some?
    ensures ReadOnlyStep(t, f).value in Succ(WriteBackGraph(t), s)
  {
  }

  lemma WriteBackEdgeBuilds(t: Table, s: Struct, n: Struct)
    requires n in Succ(WriteBackGraph(t), s)
    ensures n in Succ(BuildGraph(t), s) && Pass(t, n) == Scratch
  {
    var f :| f in t[s] && ReadOnlyStep(t, f) == Some(n);
    assert f.Nested() == Some(n);
    BuildEdge(t, s, f);
  }

  /** The walk can never come back to a struct of its path, whatever struct it starts at. */
  lemma WriteBackPathsVisitOnce(t: Table, p: seq<Struct>)
    requires IsPath(WriteBackGraph(t), p)
    ensures Distinct(p)
  {
    forall j | 0 < j < |p| ensures p[j] in Succ(BuildGraph(t), p[j - 1]) && Pass(t, p[j]) == Scratch {
      assert p[j] in Succ(WriteBackGraph(t), p[j - 1]);
      WriteBackEdgeBuilds(t, p[j - 1], p[j]);
    }
    assert IsPath(BuildGraph(t), p);
    forall i, j | 0 <= i < j < |p| ensures p[i] != p[j] {
      if p[i] == p[j] {
        PathSuffix(BuildGraph(t), p, i);
        assert p[i..][0] == p[i..][j - i];
        NoLoopNoRepeat(BuildGraph(t), p[i], p[i..]);
      }
    }
  }

  /** The walk from `s` with the path `active` finds a write-back through the member. */
  ghost predicate MemberWritesBack(t: Table, f: FieldShape, active: set<Struct>) {
    || WritesTarget(t, f)
    || (ReadOnlyStep(t, f).Some? &&
        Finds(WriteBackGraph(t), ReadOnlyStep(t, f).value, active, WriteBackOwners(t)))
  }

  lemma WritesBackStep(t: Table, s: Struct, active: set<Struct>)
    requires s in t && s !in active
    ensures Finds(WriteBackGraph(t), s, active, WriteBackOwners(t))
       <==> exists i :: 0 <= i < |t[s]| && MemberWritesBack(t, t[s][i], active + {s})
  {
    var g, goal := WriteBackGraph(t), WriteBackOwners(t);
    FindsStep(g, s, active, goal);
    if s in goal {
      var f :| f in t[s] && WritesTarget(t, f);
      var i :| 0 <= i < |t[s]| && t[s][i] == f;
      assert MemberWritesBack(t, t[s][i], active + {s});
    }
    if n :| n in Succ(g, s) && Finds(g, n, active + {s}, goal) {
      var f :| f in t[s] && ReadOnlyStep(t, f) == Some(n);
      var i :| 0 <= i < |t[s]| && t[s][i] == f;
      assert MemberWritesBack(t, t[s][i], active + {s});
    }
    if i :| 0 <= i < |t[s]| && MemberWritesBack(t, t[s][i], active + {s}) {
      var f := t[s][i];
      if ReadOnlyStep(t, f).Some? {
        WriteBackEdge(t, s, f);
      }
    }
  }

  /**
  True when the build of `s` writes back a target. The walk keeps its path in
  `active` and answers false at a struct that is on it.
  */
  method WritesBackFrom(v: View, s: Struct, path: seq<Struct>) returns (found: bool, active: seq<Struct>)
    requires ValidView(v) && Elems(path) <= v.table.Keys
    ensures active == path
    ensures found == Finds(WriteBackGraph(v.table), s, Elems(path), WriteBackOwners(v.table))
    decreases |v.table.Keys - Elems(path)|, 1
  {
    hide MemberWritesBack, Pass, Finds;
    ghost var g, goal := WriteBackGraph(v.table), WriteBackOwners(v.table);
    active := path;
    if s in active {
      FindsStopped(g, s, Elems(path), goal);
      return false, active;
    }
    if s !in v.table {
      FindsStep(g, s, Elems(path), goal);
      return false, active;
    }
    WritesBackStep(v.table, s, Elems(path));
    active := active + [s];
    ElemsSnoc(path, s);
    StrictSubsetSize(v.table.Keys - Elems(active), v.table.Keys - Elems(path));
    found := false;
    var fields := v.table[s];
    ghost var on := Elems(active);
    for i := 0 to |fields|
      invariant active == path + [s] && Elems(active) == on && !found
      invariant forall k | 0 <= k < i :: !MemberWritesBack(v.table, fields[k], on)
    {
      found, active := MemberWritesBackFrom(v, fields[i], active);
      if found {
        break;
      }
    }
    active := active[..|active| - 1];
  }

  method MemberWritesBackFrom(v: View, f: FieldShape, path: seq<Struct>)
    returns (found: bool, active: seq<Struct>)
    requires ValidView(v) && Elems(path) <= v.table.Keys
    ensures active == path
    ensures found == MemberWritesBack(v.table, f, Elems(path))
    decreases |v.table.Keys - Elems(path)|, 2
  {
    hide Pass, Finds;
    found, active := false, path;
    match f
    case Embedded(nested) =>
      var pass := StructPassOf(v, nested);
      if pass == Scratch {
        found, active := WritesBackFrom(v, nested, active);
      }
    case Pointer(target, _, constant) =>
      var pass := StructPassOf(v, target);
      if pass == Scratch {
        if constant {
          found, active := WritesBackFrom(v, target, active);
        } else {
          found := true;
        }
      }
    case Pair(Some(element)) =>
      var pass := StructPassOf(v, element);
      if pass == Scratch {
        found, active := WritesBackFrom(v, element, active);
      }
    case _ =>
  }

  method BuildWritesBack(v: View, s: Struct) returns (found: bool)
    requires ValidView(v)
    ensures found == WritesBack(v.table, s)
  {
    var active;
    found, active := WritesBackFrom(v, s, []);
    FindsReaches(WriteBackGraph(v.table), s, WriteBackOwners(v.table));
  }

  // ----- what a build allocates

  ghost function ScratchEmbedGraph(t: Table): Graph<Struct> {
    map s | s in t :: set f | f in t[s] && f.Embedded? && Pass(t, f.nested) == Scratch :: f.nested
  }

  /** The member is a pointer or a pair whose struct the call passes as a scratch copy. */
  ghost predicate Allocates(t: Table, f: FieldShape) {
    (f.Pointer? || f.Pair?) && f.Nested().Some? && Pass(t, f.Nested().value) == Scratch
  }

  ghost function AllocatingOwners(t: Table): set<Struct> {
    set s | s in t && exists f :: f in t[s] && Allocates(t, f)
  }

  /** A struct that `s` holds by embedding allocates a scratch target or a scratch array. */
  ghost predicate BuildsScratch(t: Table, s: Struct) {
    exists owner :: owner in AllocatingOwners(t) && Reaches(ScratchEmbedGraph(t), s, owner)
  }

  /** A build that writes a target back has allocated one, so its call opens a scratch scope. */
  lemma {:induction false} WritesBackAllocates(t: Table, p: seq<Struct>)
    requires IsPath(WriteBackGraph(t), p) && p[|p| - 1] in WriteBackOwners(t)
    ensures BuildsScratch(t, p[0])
  {
    var s, g := p[0], ScratchEmbedGraph(t);
    ReachesSelf(g, s);
    if |p| == 1 {
      var f :| f in t[s] && WritesTarget(t, f);
      assert Allocates(t, f);
    } else {
      assert p[1] in Succ(WriteBackGraph(t), s);
      var f :| f in t[s] && ReadOnlyStep(t, f) == Some(p[1]);
      if f.Embedded? {
        PathSuffix(WriteBackGraph(t), p, 1);
        WritesBackAllocates(t, p[1..]);
        var owner :| owner in AllocatingOwners(t) && Reaches(g, p[1], owner);
        assert p[1] in Succ(g, s);
        ReachesStep(g, s, owner);
      } else {
        assert Allocates(t, f);
      }
    }
  }

  lemma WritesBackBuildsScratch(t: Table, s: Struct)
    requires WritesBack(t, s)
    ensures BuildsScratch(t, s)
  {
    var owner :| owner in WriteBackOwners(t) && Reaches(WriteBackGraph(t), s, owner);
    var p :| PathFrom(WriteBackGraph(t), s, p) && p[|p| - 1] == owner;
    WritesBackAllocates(t, p);
  }

  /** The build goes on into the embedded struct, or allocates for the member. */
  ghost predicate MemberAllocates(t: Table, f: FieldShape, active: set<Struct>) {
    || Allocates(t, f)
    || (f.Embedded? && Pass(t, f.nested) == Scratch && Finds(ScratchEmbedGraph(t), f.nested, active, AllocatingOwners(t)))
  }

  lemma AllocatesStep(t: Table, s: Struct, active: set<Struct>)
    requires s in t && s !in active
    ensures Finds(ScratchEmbedGraph(t), s, active, AllocatingOwners(t))
       <==> exists i :: 0 <= i < |t[s]| && MemberAllocates(t, t[s][i], active + {s})
  {
    hide Pass, Finds;
    var g, goal := ScratchEmbedGraph(t), AllocatingOwners(t);
    FindsStep(g, s, active, goal);
    if s in goal {
      var f :| f in t[s] && Allocates(t, f);
      var i :| 0 <= i < |t[s]| && t[s][i] == f;
      assert MemberAllocates(t, t[s][i], active + {s});
    }
    if n :| n in Succ(g, s) && Finds(g, n, active + {s}, goal) {
      var f :| f in t[s] && f.Embedded? && Pass(t, f.nested) == Scratch && f.nested == n;
      var i :| 0 <= i < |t[s]| && t[s][i] == f;
      assert MemberAllocates(t, t[s][i], active + {s});
    }
    if i :| 0 <= i < |t[s]| && MemberAllocates(t, t[s][i], active + {s}) {
      var f := t[s][i];
      if f.Embedded? {
        assert f.nested in Succ(g, s);
      }
    }
  }

  /** True when the build of `s` allocates a scratch target or a scratch array. */
  method BuildsScratchFrom(v: View, s: Struct, path: seq<Struct>) returns (found: bool, active: seq<Struct>)
    requires ValidView(v) && Elems(path) <= v.table.Keys
    ensures active == path
    ensures found == Finds(ScratchEmbedGraph(v.table), s, Elems(path), AllocatingOwners(v.table))
    decreases |v.table.Keys - Elems(path)|, 1
  {
    hide MemberAllocates, Pass, Finds;
    ghost var g, goal := ScratchEmbedGraph(v.table), AllocatingOwners(v.table);
    active := path;
    if s in active {
      FindsStopped(g, s, Elems(path), goal);
      return false, active;
    }
    if s !in v.table {
      FindsStep(g, s, Elems(path), goal);
      return false, active;
    }
    AllocatesStep(v.table, s, Elems(path));
    active := active + [s];
    ElemsSnoc(path, s);
    StrictSubsetSize(v.table.Keys - Elems(active), v.table.Keys - Elems(path));
    found := false;
    var fields := v.table[s];
    ghost var on := Elems(active);
    for i := 0 to |fields|
      invariant active == path + [s] && Elems(active) == on && !found
      invariant forall k | 0 <= k < i :: !MemberAllocates(v.table, fields[k], on)
    {
      found, active := MemberBuildsScratch(v, fields[i], active);
      if found {
        break;
      }
    }
    active := active[..|active| - 1];
  }

  method MemberBuildsScratch(v: View, f: FieldShape, path: seq<Struct>) returns (found: bool, active: seq<Struct>)
    requires ValidView(v) && Elems(path) <= v.table.Keys
    ensures active == path
    ensures found == MemberAllocates(v.table, f, Elems(path))
    decreases |v.table.Keys - Elems(path)|, 2
  {
    hide Pass, Finds;
    found, active := false, path;
    match f
    case Embedded(nested) =>
      var pass := StructPassOf(v, nested);
      if pass == Scratch {
        found, active := BuildsScratchFrom(v, nested, active);
      }
    case Pointer(target, _, _) =>
      var pass := StructPassOf(v, target);
      found := pass == Scratch;
    case Pair(Some(element)) =>
      var pass := StructPassOf(v, element);
      found := pass == Scratch;
    case _ =>
  }

  method BuildAllocates(v: View, s: Struct) returns (found: bool)
    requires ValidView(v)
    ensures found == BuildsScratch(v.table, s)
  {
    var active;
    found, active := BuildsScratchFrom(v, s, []);
    FindsReaches(ScratchEmbedGraph(v.table), s, AllocatingOwners(v.table));
  }
}
