/**
The read walk read off the members: which shapes a parameter may reach, and by
which members, for the check to accept it.
*/
module ReadShapes {
  import opened Graphs
  import opened StructViews
  import opened StructPasses
  import opened PointerPasses
  import opened MemberReads
  import opened ReadWalk
  import opened ReadCauses
  import opened ReadLowering

  // ----- trails over shapes

  /** A struct that a trail of members leads to; whether C writes it, and whether only values lead to it. */
  datatype Place = Place(struct: Struct, filled: bool, direct: bool)

  /** Where a member leads: a value stays in its struct, the rest is behind a pointer. */
  function Follow(k: Place, m: Member): Option<Place> {
    match m.shape
    case Embedded(nested) => Some(Place(nested, k.filled, k.direct))
    case Pointer(target, _, _) => Some(Place(target, m.mutable, false))
    case Pair(Some(element)) => Some(Place(element, m.mutable, false))
    case _ => None
  }

  /** The place that a trail of member indices leads to. */
  ghost function Landing(rv: ReadView, k: Place, trail: seq<nat>): Option<Place>
    decreases |trail|
  {
    if trail == [] then Some(k)
    else if k.struct !in rv.members || trail[0] >= |rv.members[k.struct]| then None
    else
      var next := Follow(k, rv.members[k.struct][trail[0]]);
      if next.None? then None else Landing(rv, next.value, trail[1..])
  }

  /** No pair that the call would have to copy back. */
  ghost predicate NoCopyBack(t: Table, m: Member) {
    && !(m.shape.ValidatedPair? && m.mutable)
    && forall e | m.shape == FieldShape.Pair(Some(e)) && Pass(t, e) == Scratch :: !m.mutable && !WritesBack(t, e)
  }

  /** What C writes into the member can be read back. */
  ghost predicate Fillable(t: Table, k: Place, m: Member) {
    match m.shape
    case StringView => Pass(t, k.struct) == Scratch && k.direct
    case Userdata => Pass(t, k.struct) == Scratch
    case Callback => Pass(t, k.struct) == Scratch
    case DescriptorAggregate => false
    case Unlowered => false
    case _ => true
  }

  ghost predicate Clean(t: Table, k: Place, m: Member) {
    NoCopyBack(t, m) && (k.filled ==> Fillable(t, k, m))
  }

  ghost predicate CleanAt(rv: ReadView, k: Place) {
    k.struct in rv.members ==> forall m | m in rv.members[k.struct] :: Clean(rv.view.table, k, m)
  }

  ghost predicate CleanBelow(rv: ReadView, k: Place) {
    forall trail | Landing(rv, k, trail).Some? :: CleanAt(rv, Landing(rv, k, trail).value)
  }

  // ----- one member

  /** The walk is at the place. */
  ghost predicate IsAt(n: State, k: Place) {
    n.struct == k.struct && !n.root.Value? && n.root.Fill? == k.filled && (n.reach != Indirect) == k.direct
  }

  lemma CleanIsReadable(rv: ReadView, n: State, k: Place, m: Member)
    requires Coherent(rv) && Agrees(rv, n) && IsAt(n, k) && k.struct in rv.members && m in rv.members[k.struct]
    ensures Clean(rv.view.table, k, m) <==> FailsAt(rv, n, m).None?
  {
    hide Pass, WritesBack, Loops;
    AgreesIsBuildable(rv, n);
  }

  /** A readable member leads the walk where it leads the trail. */
  lemma FollowIsNext(rv: ReadView, n: State, k: Place, m: Member)
    requires Coherent(rv) && Agrees(rv, n) && IsAt(n, k) && k.struct in rv.members && m in rv.members[k.struct]
    requires FailsAt(rv, n, m).None?
    ensures Follow(k, m).Some? <==> NextAt(rv, n, m).Some?
    ensures Follow(k, m).Some? ==> IsAt(NextAt(rv, n, m).value, Follow(k, m).value) && Agrees(rv, NextAt(rv, n, m).value)
  {
    hide Pass, WritesBack, Loops;
    if m.shape.Nested().Some? {
      NestedAgrees(rv, n, m);
    }
  }

  // ----- the whole walk

  lemma {:induction false} ReadableIsClean(rv: ReadView, n: State, k: Place, trail: seq<nat>)
    requires Coherent(rv) && Agrees(rv, n) && IsAt(n, k) && ReadableBelow(rv, n) && Landing(rv, k, trail).Some?
    ensures CleanAt(rv, Landing(rv, k, trail).value)
    decreases |trail|
  {
    hide Agrees, IsAt, Follow, FailsAt, NextAt, Coherent;
    SamePlace(n, k);
    ReachesSelf(WalkGraph(rv), n);
    if k.struct in rv.members {
      forall m | m in rv.members[k.struct] ensures FailsAt(rv, n, m).None? && Clean(rv.view.table, k, m) {
        CleanIsReadable(rv, n, k, m);
      }
    }
    if trail != [] {
      var m := rv.members[k.struct][trail[0]];
      FollowIsNext(rv, n, k, m);
      var next := NextAt(rv, n, m).value;
      WalkEdge(rv, n, trail[0]);
      WalkStepAgrees(rv, n, next);
      ReadableIsClean(rv, next, Follow(k, m).value, trail[1..]);
    }
  }

  lemma SamePlace(n: State, k: Place)
    requires IsAt(n, k)
    ensures n.struct == k.struct
  {
  }

  lemma CleanBelowNext(rv: ReadView, k: Place, i: nat)
    requires CleanBelow(rv, k) && k.struct in rv.members && i < |rv.members[k.struct]|
    requires Follow(k, rv.members[k.struct][i]).Some?
    ensures CleanBelow(rv, Follow(k, rv.members[k.struct][i]).value)
  {
    hide CleanAt;
    var next := Follow(k, rv.members[k.struct][i]).value;
    forall trail | Landing(rv, next, trail).Some? ensures CleanAt(rv, Landing(rv, next, trail).value) {
      assert ([i] + trail)[1..] == trail;
      assert Landing(rv, k, [i] + trail) == Landing(rv, next, trail);
    }
  }

  lemma CleanHere(rv: ReadView, k: Place)
    requires CleanBelow(rv, k)
    ensures CleanAt(rv, k)
  {
    assert Landing(rv, k, []) == Some(k);
  }

  lemma {:induction false} CleanIsReadableAlong(rv: ReadView, n: State, k: Place, p: seq<State>)
    requires Coherent(rv) && Agrees(rv, n) && IsAt(n, k) && CleanBelow(rv, k) && PathFrom(WalkGraph(rv), n, p)
    ensures var end := p[|p| - 1];
      end.struct in rv.members ==> forall m | m in rv.members[end.struct] :: FailsAt(rv, end, m).None?
    decreases |p|
  {
    hide Agrees, IsAt, Follow, FailsAt, NextAt, Coherent, CleanBelow, Clean;
    SamePlace(n, k);
    CleanHere(rv, k);
    if n.struct in rv.members {
      forall m | m in rv.members[n.struct] ensures FailsAt(rv, n, m).None? { CleanIsReadable(rv, n, k, m); }
    }
    if |p| > 1 {
      assert p[1] in Succ(WalkGraph(rv), p[0]);
      var i := WalkEdgeMember(rv, n, p[1]);
      FollowIsNext(rv, n, k, rv.members[n.struct][i]);
      CleanBelowNext(rv, k, i);
      PathSuffix(WalkGraph(rv), p, 1);
      CleanIsReadableAlong(rv, p[1], Follow(k, rv.members[n.struct][i]).value, p[1..]);
    }
  }

  lemma CleanIsReadableBelow(rv: ReadView, n: State, k: Place)
    requires Coherent(rv) && Agrees(rv, n) && IsAt(n, k)
    ensures CleanBelow(rv, k) <==> ReadableBelow(rv, n)
  {
    hide Agrees, IsAt, FailsAt, Coherent, CleanAt, Landing;
    if CleanBelow(rv, k) {
      forall x, m | Reaches(WalkGraph(rv), n, x) && x.struct in rv.members && m in rv.members[x.struct]
        ensures FailsAt(rv, x, m).None?
      {
        var p :| PathFrom(WalkGraph(rv), n, p) && p[|p| - 1] == x;
        CleanIsReadableAlong(rv, n, k, p);
      }
    }
    if ReadableBelow(rv, n) {
      forall trail | Landing(rv, k, trail).Some? ensures CleanAt(rv, Landing(rv, k, trail).value) {
        ReadableIsClean(rv, n, k, trail);
      }
    }
  }

  /**
  A parameter is accepted exactly when its build has no cycle, C does not write
  a descriptor or a string view itself, and every member on every trail is clean.
  */
  lemma AcceptedByShape(h: Header, p: Parameter)
    requires ValidHeader(h) && IsStruct(h, p)
    ensures var written := p.pointer && !p.constant;
      Accepts(h, p) <==>
        && !Loops(MemberBuildGraph(h.rv), p.base, {})
        && !(written && h.registry[p.base] in {Kind.ArrayPair, Kind.StringView})
        && CleanBelow(h.rv, Place(p.base, written, true))
  {
    hide Loops, Pass, CleanBelow, FirstUnreadable;
    var rv, k := h.rv, Place(p.base, p.pointer && !p.constant, true);
    assert ParameterPass(h, p) == Pass(rv.view.table, p.base) by { PassOfParameter(h, p); }
    FirstUnreadableIsComplete(rv, Start(h, p));
    if !Loops(MemberBuildGraph(rv), p.base, {}) {
      assert Agrees(rv, Start(h, p)) && IsAt(Start(h, p), k);
      CleanIsReadableBelow(rv, Start(h, p), k);
    } else {
      LoopsIsNotBytes(rv, p.base);
    }
  }

  lemma PassOfParameter(h: Header, p: Parameter)
    requires ValidHeader(h) && IsStruct(h, p)
    ensures ParameterPass(h, p) == Pass(h.rv.view.table, p.base)
  {
    if p.base !in h.rv.view.table {
      UndefinedIsScratch(h.rv.view.table, p.base);
    }
  }

  lemma LoopsIsNotBytes(rv: ReadView, s: Struct)
    requires Coherent(rv) && Loops(MemberBuildGraph(rv), s, {})
    ensures Pass(rv.view.table, s) != StructPass.Bytes
  {
    if s in rv.view.table {
      CycleWalkDecidesPass(rv, s);
    }
  }

  // ----- pairs

  /** A pair with scratch elements that C can write, wherever the walk reaches it, is found. */
  lemma WritablePairIsFound(rv: ReadView, k: State, n: State, m: Member, e: Struct)
    requires Reaches(WalkGraph(rv), k, n) && !n.root.Value? && n.struct in rv.members && m in rv.members[n.struct]
    requires m.shape == FieldShape.Pair(Some(e)) && Pass(rv.view.table, e) == Scratch && (m.mutable || WritesBack(rv.view.table, e))
    ensures FirstUnreadable(rv, k).Some?
  {
    hide Pass, WritesBack, Reaches;
    FirstUnreadableIsComplete(rv, k);
    assert FailsAt(rv, n, m).Some?;
  }

  // ----- returned values

  /** The struct that a trail of values and pointers leads to. */
  ghost function ValueLanding(rv: ReadView, s: Struct, trail: seq<nat>): Option<Struct>
    decreases |trail|
  {
    if trail == [] then Some(s)
    else if s !in rv.members || trail[0] >= |rv.members[s]| then None
    else
      match rv.members[s][trail[0]].shape
      case Embedded(nested) => ValueLanding(rv, nested, trail[1..])
      case Pointer(target, _, _) => ValueLanding(rv, target, trail[1..])
      case _ => None
  }

  ghost predicate PlainAt(rv: ReadView, s: Struct) {
    s in rv.members ==> forall m | m in rv.members[s] :: m.shape.Bytes? || m.shape.Embedded? || m.shape.Pointer?
  }

  ghost predicate PlainBelow(rv: ReadView, s: Struct) {
    forall trail | ValueLanding(rv, s, trail).Some? :: PlainAt(rv, ValueLanding(rv, s, trail).value)
  }

  lemma {:induction false} ValueIsPlain(rv: ReadView, n: State, trail: seq<nat>)
    requires n.root.Value? && ReadableBelow(rv, n) && ValueLanding(rv, n.struct, trail).Some?
    ensures PlainAt(rv, ValueLanding(rv, n.struct, trail).value)
    decreases |trail|
  {
    hide WritesBack, Pass;
    ReachesSelf(WalkGraph(rv), n);
    if n.struct in rv.members {
      forall m | m in rv.members[n.struct] ensures m.shape.Bytes? || m.shape.Embedded? || m.shape.Pointer? {
        assert FailsAt(rv, n, m).None?;
      }
    }
    if trail != [] {
      WalkEdge(rv, n, trail[0]);
      var next := NextAt(rv, n, rv.members[n.struct][trail[0]]).value;
      ReadableNext(rv, n, next);
      ValueIsPlain(rv, next, trail[1..]);
    }
  }

  lemma ReadableNext(rv: ReadView, n: State, next: State)
    requires ReadableBelow(rv, n) && next in Succ(WalkGraph(rv), n)
    ensures ReadableBelow(rv, next)
  {
    hide FailsAt;
    forall x, m | Reaches(WalkGraph(rv), next, x) && x.struct in rv.members && m in rv.members[x.struct]
      ensures FailsAt(rv, x, m).None?
    {
      ReachesEdge(WalkGraph(rv), n, next);
      ReachesTrans(WalkGraph(rv), n, next, x);
    }
  }

  lemma {:induction false} PlainIsReadable(rv: ReadView, n: State, p: seq<State>)
    requires n.root.Value? && PlainBelow(rv, n.struct) && PathFrom(WalkGraph(rv), n, p)
    ensures var end := p[|p| - 1];
      end.struct in rv.members ==> forall m | m in rv.members[end.struct] :: FailsAt(rv, end, m).None?
    decreases |p|
  {
    assert ValueLanding(rv, n.struct, []) == Some(n.struct);
    assert PlainAt(rv, n.struct);
    if |p| > 1 {
      assert p[1] in Succ(WalkGraph(rv), p[0]);
      var i := WalkEdgeMember(rv, n, p[1]);
      PlainBelowNext(rv, n.struct, i, p[1].struct);
      PathSuffix(WalkGraph(rv), p, 1);
      PlainIsReadable(rv, p[1], p[1..]);
    }
  }

  lemma PlainBelowNext(rv: ReadView, s: Struct, i: nat, next: Struct)
    requires PlainBelow(rv, s) && s in rv.members && i < |rv.members[s]|
    requires var f := rv.members[s][i].shape; f == FieldShape.Embedded(next) || (f.Pointer? && f.target == next)
    ensures PlainBelow(rv, next)
  {
    forall trail | ValueLanding(rv, next, trail).Some? ensures PlainAt(rv, ValueLanding(rv, next, trail).value) {
      assert ([i] + trail)[1..] == trail;
      assert ValueLanding(rv, s, [i] + trail) == ValueLanding(rv, next, trail);
    }
  }

  /** A returned value can be read exactly when it holds bytes, values and pointers only, at any depth. */
  lemma ValueByShape(rv: ReadView, s: Struct, reach: Reach)
    ensures FirstUnreadable(rv, State(s, Value, reach)).None? <==> PlainBelow(rv, s)
  {
    hide FailsAt, PlainAt, ValueLanding;
    var n := State(s, Value, reach);
    FirstUnreadableIsComplete(rv, n);
    if PlainBelow(rv, s) {
      forall x, m | Reaches(WalkGraph(rv), n, x) && x.struct in rv.members && m in rv.members[x.struct]
        ensures FailsAt(rv, x, m).None?
      {
        var p :| PathFrom(WalkGraph(rv), n, p) && p[|p| - 1] == x;
        PlainIsReadable(rv, n, p);
      }
    } else {
      var trail :| ValueLanding(rv, s, trail).Some? && !PlainAt(rv, ValueLanding(rv, s, trail).value);
      if ReadableBelow(rv, n) {
        ValueIsPlain(rv, n, trail);
      }
    }
  }

  // ----- the kind of a finding

  /** The kind that a finding names for a shape; pairs are named by what is wrong with them. */
  predicate Names(kind: UnreadableKind, m: Member) {
    match kind
    case Userdata => m.shape.Userdata?
    case Callback => m.shape.Callback?
    case StringView => m.shape.StringView?
    case DescriptorAggregate => m.shape.DescriptorAggregate?
    case Unlowered => m.shape.Unlowered?
    case ValidatedPair => m.shape.ValidatedPair? && m.mutable
    case WrittenBackPair => m.shape.Pair? && m.shape.elements.Some?
    case Pair => m.shape.Pair? || m.shape.ValidatedPair?
  }

  /** A finding names a member of its own kind. */
  lemma FindingKind(rv: ReadView, k: State)
    requires FirstUnreadable(rv, k).Some?
    ensures var f := FirstUnreadable(rv, k).value;
      && f.site.owner in rv.members && f.site.member < |rv.members[f.site.owner]|
      && Names(f.kind, rv.members[f.site.owner][f.site.member])
  {
    hide Pass, WritesBack;
    var trail, n := FindingNamesItsCause(rv, k);
  }
}
