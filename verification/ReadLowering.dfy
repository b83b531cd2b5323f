/**
The check of one foreign-function parameter: the pass decision, the cycle
check and the read walk together, and what code generation may rely on for a
parameter that the check accepts.
*/
module ReadLowering {
  import opened Graphs
  import opened StructViews
  import opened StructPasses
  import opened PassDecision
  import opened PointerPasses
  import opened MemberReads
  import opened ReadWalk
  import opened ReadCauses

  /** What the registry of a header says of a type name. */
  datatype Kind = Boundary | ArrayPair | StringView | OtherKind

  datatype Parameter = Parameter(base: Struct, pointer: bool, constant: bool, fixedArray: bool)

  /** A parse: its read view, the structs that it declares, and the kind of each name. */
  datatype Header = Header(rv: ReadView, declared: set<Struct>, registry: map<Struct, Kind>)

  /** The pass decision defines boundary structs; the walk also reads descriptor aggregates. */
  ghost predicate ValidHeader(h: Header) {
    && ValidView(h.rv.view) && Coherent(h.rv)
    && (forall s | s in h.rv.view.table :: s in h.registry && h.registry[s] == Boundary)
  }

  datatype Verdict = Accepted | StructCycle(member: Site) | NoReadLowering(finding: Finding)

  function KindOf(h: Header, s: Struct): Kind {
    if s in h.registry then h.registry[s] else OtherKind
  }

  predicate IsStruct(h: Header, p: Parameter) {
    !p.fixedArray && !KindOf(h, p.base).OtherKind? && p.base in h.declared
  }

  function Writable(p: Parameter): bool {
    p.pointer && !p.constant
  }

  /** The pass of the parameter: a descriptor aggregate and a string view are built. */
  ghost function ParameterPass(h: Header, p: Parameter): StructPass {
    if KindOf(h, p.base) != Boundary then Scratch
    else if p.pointer then TargetPass(ClassPass(h.rv.view.table, p.base, Writable(p)))
    else Pass(h.rv.view.table, p.base)
  }

  /** The state at which the walk of the parameter starts. */
  ghost function Start(h: Header, p: Parameter): State {
    var pass := ParameterPass(h, p);
    State(p.base, if Writable(p) then Fill(pass) else Input(pass), Root)
  }

  /** A root that C writes and that is itself a descriptor aggregate or a string view. */
  function RootKind(h: Header, p: Parameter): Option<UnreadableKind> {
    if !Writable(p) then None
    else match KindOf(h, p.base)
      case ArrayPair => Some(UnreadableKind.DescriptorAggregate)
      case StringView => Some(UnreadableKind.StringView)
      case _ => None
  }

  /** No cycle in the build, no root that C cannot fill, and no member with no read lowering. */
  ghost predicate Accepts(h: Header, p: Parameter) {
    && (ParameterPass(h, p) == StructPass.Bytes || !Loops(MemberBuildGraph(h.rv), p.base, {}))
    && RootKind(h, p).None?
    && FirstUnreadable(h.rv, Start(h, p)).None?
  }

  method ValidateParameter(h: Header, p: Parameter) returns (verdict: Verdict)
    requires ValidHeader(h)
    ensures verdict.Accepted? <==> !IsStruct(h, p) || Accepts(h, p)
    ensures verdict.StructCycle? <==>
      IsStruct(h, p) && ParameterPass(h, p) != StructPass.Bytes && Loops(MemberBuildGraph(h.rv), p.base, {})
    ensures verdict.StructCycle? ==> ClosesCycle(h.rv, p.base, verdict.member)
    ensures verdict.NoReadLowering? ==>
      if RootKind(h, p).Some? then verdict.finding == Finding(Site(p.base, 0), RootKind(h, p).value, None)
      else FirstUnreadable(h.rv, Start(h, p)) == Some(verdict.finding)
  {
    if !IsStruct(h, p) {
      return Accepted;
    }
    var pass := Scratch;
    if KindOf(h, p.base) == Boundary {
      if p.pointer {
        var pointer := ClassPassOf(h.rv.view, p.base, Writable(p));
        pass := TargetPass(pointer);
      } else {
        pass := StructPassOf(h.rv.view, p.base);
      }
    }
    if pass != StructPass.Bytes {
      var cycle := FirstCycle(h.rv, p.base);
      if cycle.Some? {
        return StructCycle(cycle.value);
      }
    }
    if RootKind(h, p).Some? {
      return NoReadLowering(Finding(Site(p.base, 0), RootKind(h, p).value, None));
    }
    var root := if Writable(p) then Fill(pass) else Input(pass);
    var found := FirstUnreadableOf(h.rv, State(p.base, root, Root));
    return if found.Some? then NoReadLowering(found.value) else Accepted;
  }

  // ----- what an accepted parameter promises

  /** The walk reads the struct with the pass that code generation gives it, and a call can build it. */
  ghost predicate Agrees(rv: ReadView, n: State) {
    && !n.root.Value?
    && n.root.Pass() == Pass(rv.view.table, n.struct)
    && !Loops(MemberBuildGraph(rv), n.struct, {})
  }

  lemma AgreesIsBuildable(rv: ReadView, n: State)
    requires Coherent(rv) && Agrees(rv, n)
    ensures Pass(rv.view.table, n.struct) != StructPass.Cycle
  {
    if n.struct in rv.view.table {
      CycleWalkDecidesPass(rv, n.struct);
    } else {
      UndefinedIsScratch(rv.view.table, n.struct);
    }
  }

  lemma NestedIsBuildable(rv: ReadView, s: Struct, m: Member)
    requires Coherent(rv) && s in rv.members && m in rv.members[s] && m.shape.Nested().Some?
    requires !Loops(MemberBuildGraph(rv), s, {})
    ensures !Loops(MemberBuildGraph(rv), m.shape.Nested().value, {})
  {
    var n, g := m.shape.Nested().value, MemberBuildGraph(rv);
    if Pass(rv.view.table, n) == StructPass.Bytes {
      CycleWalkDecidesPass(rv, n);
    } else if Loops(g, n, {}) {
      assert n in Succ(g, s);
      ReachesEdge(g, s, n);
      LoopsBack(g, s, n);
    }
  }

  /** A readable member that nests a struct leads the walk to it, at the pass of that struct. */
  lemma NestedAgrees(rv: ReadView, k: State, m: Member)
    requires Coherent(rv) && Agrees(rv, k)
    requires k.struct in rv.members && m in rv.members[k.struct] && m.shape.Nested().Some?
    requires FailsAt(rv, k, m).None?
    ensures NextAt(rv, k, m).Some? && NextAt(rv, k, m).value.struct == m.shape.Nested().value
    ensures Agrees(rv, NextAt(rv, k, m).value)
  {
    var t := rv.view.table;
    NestedIsBuildable(rv, k.struct, m);
    AgreesIsBuildable(rv, k);
    if Pass(t, k.struct) == StructPass.Bytes {
      var i :| 0 <= i < |rv.members[k.struct]| && rv.members[k.struct][i] == m;
      assert SameShape(t[k.struct][i], m);
      BytesNestsBytes(t, k.struct, t[k.struct][i]);
    }
  }

  ghost predicate ReadableBelow(rv: ReadView, k: State) {
    forall n, m | Reaches(WalkGraph(rv), k, n) && n.struct in rv.members && m in rv.members[n.struct] ::
      FailsAt(rv, n, m).None?
  }

  /** An edge for each struct that a member of a struct holds, points to or holds elements of. */
  ghost function MemberGraph(rv: ReadView): Graph<Struct> {
    map s | s in rv.members :: NestedOf(Shapes(rv.members[s]))
  }

  lemma MemberGraphEdge(rv: ReadView, s: Struct, m: Member)
    requires s in rv.members && m in rv.members[s] && m.shape.Nested().Some?
    ensures m.shape.Nested().value in Succ(MemberGraph(rv), s)
  {
    var i :| 0 <= i < |rv.members[s]| && rv.members[s][i] == m;
    assert Shapes(rv.members[s])[i] == m.shape;
  }

  lemma MemberGraphMember(rv: ReadView, s: Struct, n: Struct) returns (m: Member)
    requires n in Succ(MemberGraph(rv), s)
    ensures s in rv.members && m in rv.members[s] && m.shape.Nested() == Some(n)
  {
    var f :| f in Shapes(rv.members[s]) && f.Nested() == Some(n);
    var i :| 0 <= i < |rv.members[s]| && Shapes(rv.members[s])[i] == f;
    m := rv.members[s][i];
  }

  lemma WalkStepAgrees(rv: ReadView, k: State, n: State)
    requires Coherent(rv) && Agrees(rv, k) && n in Succ(WalkGraph(rv), k) && ReadableBelow(rv, k)
    ensures Agrees(rv, n) && ReadableBelow(rv, n)
    ensures n.struct in Succ(MemberGraph(rv), k.struct)
  {
    var i := WalkEdgeMember(rv, k, n);
    var m := rv.members[k.struct][i];
    ReachesSelf(WalkGraph(rv), k);
    assert FailsAt(rv, k, m).None?;
    NestedAgrees(rv, k, m);
    forall x, y | Reaches(WalkGraph(rv), n, x) && x.struct in rv.members && y in rv.members[x.struct]
      ensures FailsAt(rv, x, y).None?
    {
      ReachesEdge(WalkGraph(rv), k, n);
      ReachesTrans(WalkGraph(rv), k, n, x);
    }
    MemberGraphEdge(rv, k.struct, m);
  }

  /** Every state of an accepted walk agrees with the pass decision, and its struct is nested in the root's. */
  lemma {:induction false} WalkAgrees(rv: ReadView, k: State, p: seq<State>)
    requires Coherent(rv) && Agrees(rv, k) && ReadableBelow(rv, k)
    requires PathFrom(WalkGraph(rv), k, p)
    ensures Agrees(rv, p[|p| - 1]) && ReadableBelow(rv, p[|p| - 1])
    ensures Reaches(MemberGraph(rv), k.struct, p[|p| - 1].struct)
    decreases |p|
  {
    if |p| == 1 {
      ReachesSelf(MemberGraph(rv), k.struct);
    } else {
      assert p[1] in Succ(WalkGraph(rv), p[0]);
      WalkStepAgrees(rv, k, p[1]);
      PathSuffix(WalkGraph(rv), p, 1);
      WalkAgrees(rv, p[1], p[1..]);
      ReachesEdge(MemberGraph(rv), k.struct, p[1].struct);
      ReachesTrans(MemberGraph(rv), k.struct, p[1].struct, p[|p| - 1].struct);
    }
  }

  /** An accepted walk visits every struct that its root nests, at any depth. */
  lemma {:induction false} WalkVisits(rv: ReadView, k: State, p: seq<Struct>) returns (n: State)
    requires Coherent(rv) && Agrees(rv, k) && ReadableBelow(rv, k)
    requires PathFrom(MemberGraph(rv), k.struct, p)
    ensures n.struct == p[|p| - 1] && Reaches(WalkGraph(rv), k, n)
    decreases |p|
  {
    ReachesSelf(WalkGraph(rv), k);
    if |p| == 1 {
      n := k;
    } else {
      assert p[1] in Succ(MemberGraph(rv), p[0]);
      var m := MemberGraphMember(rv, k.struct, p[1]);
      assert FailsAt(rv, k, m).None?;
      NestedAgrees(rv, k, m);
      var next := NextAt(rv, k, m).value;
      var i :| 0 <= i < |rv.members[k.struct]| && rv.members[k.struct][i] == m;
      WalkEdge(rv, k, i);
      WalkStepAgrees(rv, k, next);
      PathSuffix(MemberGraph(rv), p, 1);
      n := WalkVisits(rv, next, p[1..]);
      ReachesEdge(WalkGraph(rv), k, next);
      ReachesTrans(WalkGraph(rv), k, next, n);
    }
  }

  lemma StartAgrees(h: Header, p: Parameter)
    requires ValidHeader(h) && IsStruct(h, p) && Accepts(h, p)
    ensures Agrees(h.rv, Start(h, p)) && ReadableBelow(h.rv, Start(h, p))
  {
    var rv, t := h.rv, h.rv.view.table;
    assert ParameterPass(h, p) == Pass(t, p.base) by {
      if p.base !in t {
        UndefinedIsScratch(t, p.base);
      }
    }
    if ParameterPass(h, p) == StructPass.Bytes {
      CycleWalkDecidesPass(rv, p.base);
    }
    FirstUnreadableIsComplete(rv, Start(h, p));
  }

  lemma AcceptedState(rv: ReadView, k: State, n: State)
    requires Coherent(rv) && Agrees(rv, k) && ReadableBelow(rv, k) && Reaches(WalkGraph(rv), k, n)
    ensures n.root.Pass() == Pass(rv.view.table, n.struct) != StructPass.Cycle
    ensures Reaches(MemberGraph(rv), k.struct, n.struct)
  {
    var path :| PathFrom(WalkGraph(rv), k, path) && path[|path| - 1] == n;
    WalkAgrees(rv, k, path);
    AgreesIsBuildable(rv, n);
  }

  /** The member is no pair whose elements the call would copy in and back. */
  ghost predicate NotWrittenBack(rv: ReadView, m: Member) {
    m.shape.Pair? && m.shape.elements.Some? ==>
      ElementPass(rv.view.table, m.shape.elements.value, m.mutable) != ScratchWrittenBack
  }

  lemma ReadableIsNotWrittenBack(rv: ReadView, n: State, m: Member)
    requires !n.root.Value? && FailsAt(rv, n, m).None?
    ensures NotWrittenBack(rv, m)
  {
  }

  lemma AcceptedStruct(rv: ReadView, k: State, s: Struct) returns (n: State)
    requires Coherent(rv) && Agrees(rv, k) && ReadableBelow(rv, k) && Reaches(MemberGraph(rv), k.struct, s)
    ensures Reaches(WalkGraph(rv), k, n) && n.struct == s
    ensures s in rv.members ==> forall m | m in rv.members[s] :: NotWrittenBack(rv, m)
  {
    hide NotWrittenBack, FailsAt, Coherent, WalkGraph, MemberGraph, Pass;
    var path :| PathFrom(MemberGraph(rv), k.struct, path) && path[|path| - 1] == s;
    n := WalkVisits(rv, k, path);
    var walked :| PathFrom(WalkGraph(rv), k, walked) && walked[|walked| - 1] == n;
    WalkAgrees(rv, k, walked);
    if s in rv.members {
      forall m | m in rv.members[s] ensures NotWrittenBack(rv, m) {
        ReadableIsNotWrittenBack(rv, n, m);
      }
    }
  }

  /**
  What code generation is promised for an accepted parameter: the walk visits
  exactly the structs that the parameter nests, it reads each one with the pass
  that code generation gives it, none of them is a cycle, and no pair among
  them has elements that the call would copy in and back.
  */
  lemma AcceptedParameter(h: Header, p: Parameter)
    requires ValidHeader(h) && IsStruct(h, p) && Accepts(h, p)
    ensures forall n | Reaches(WalkGraph(h.rv), Start(h, p), n) ::
      n.root.Pass() == Pass(h.rv.view.table, n.struct) != StructPass.Cycle
    ensures forall s :: Reaches(MemberGraph(h.rv), p.base, s) <==>
              exists n :: Reaches(WalkGraph(h.rv), Start(h, p), n) && n.struct == s
    ensures forall s, m | Reaches(MemberGraph(h.rv), p.base, s) && s in h.rv.members && m in h.rv.members[s] ::
      NotWrittenBack(h.rv, m)
    ensures forall s, m, e | Reaches(MemberGraph(h.rv), p.base, s) && s in h.rv.members && m in h.rv.members[s] &&
              m.shape == FieldShape.Pair(Some(e)) && Pass(h.rv.view.table, e) == Scratch ::
      !m.mutable && !WritesBack(h.rv.view.table, e)
  {
    hide WritesBack, Reaches, Pass, WalkGraph, MemberGraph, Agrees, ReadableBelow, NotWrittenBack;
    var rv, k := h.rv, Start(h, p);
    StartAgrees(h, p);
    forall n | Reaches(WalkGraph(rv), k, n)
      ensures n.root.Pass() == Pass(rv.view.table, n.struct) != StructPass.Cycle
      ensures Reaches(MemberGraph(rv), p.base, n.struct)
    {
      AcceptedState(rv, k, n);
    }
    forall s | Reaches(MemberGraph(rv), p.base, s)
      ensures exists n :: Reaches(WalkGraph(rv), k, n) && n.struct == s
      ensures s in rv.members ==> forall m | m in rv.members[s] :: NotWrittenBack(rv, m)
    {
      var n := AcceptedStruct(rv, k, s);
    }
    forall m, e | NotWrittenBack(rv, m) && m.shape == FieldShape.Pair(Some(e)) && Pass(rv.view.table, e) == Scratch
      ensures !m.mutable && !WritesBack(rv.view.table, e)
    {
      ReadOnlyPair(rv, m, e);
    }
  }

  lemma ReadOnlyPair(rv: ReadView, m: Member, e: Struct)
    requires NotWrittenBack(rv, m) && m.shape == FieldShape.Pair(Some(e)) && Pass(rv.view.table, e) == Scratch
    ensures !m.mutable && !WritesBack(rv.view.table, e)
  {
  }
}
