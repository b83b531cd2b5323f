/**
The one walk that decides whether C's writes can be read back: it visits every
member that a read root reaches, keeps the states of its current path, and
names the first member with no read lowering.
*/
module ReadWalk {
  import opened Graphs
  import opened StructViews
  import opened StructPasses
  import opened PassDecision
  import opened PointerPasses
  import opened MemberReads

  /**
  A view that also gives the members of each struct. A descriptor aggregate has
  members but no table entry: the pass decision does not define it.
  */
  datatype ReadView = ReadView(view: View, members: map<Struct, seq<Member>>)

  function Shapes(members: seq<Member>): seq<FieldShape> {
    seq(|members|, i requires 0 <= i < |members| => members[i].shape)
  }

  /** A member has the shape of its field, or reads as bytes when the field has no lowering. */
  predicate SameShape(field: FieldShape, member: Member) {
    member.shape == field || (field.Unlowered? && member.shape.Bytes?)
  }

  ghost predicate SameShapes(fields: seq<FieldShape>, members: seq<Member>) {
    |fields| == |members| && forall i | 0 <= i < |fields| :: SameShape(fields[i], members[i])
  }

  /** The two readings of a struct agree, and a nested struct has both or neither. */
  ghost predicate Coherent(rv: ReadView) {
    && (forall s | s in rv.view.table ::
          s in rv.members && SameShapes(rv.view.table[s], rv.members[s]))
    && (forall s, m | s in rv.members && m in rv.members[s] && m.shape.Nested().Some? ::
          m.shape.Nested().value in rv.members ==> m.shape.Nested().value in rv.view.table)
  }

  // ----- the states of the walk

  /** A struct, the root at which C reaches it, and how the walk reached it. */
  datatype State = State(struct: Struct, root: ReadRoot, reach: Reach)

  const ALL_ROOTS: set<ReadRoot> :=
    {Value, Fill(StructPass.Bytes), Fill(Scratch), Fill(StructPass.Cycle),
     Input(StructPass.Bytes), Input(Scratch), Input(StructPass.Cycle)}

  const ALL_REACHES: set<Reach> := {Root, Reach.Embedded, Indirect}

  ghost function AllStates(rv: ReadView): set<State> {
    set s, r, e | s in rv.members && r in ALL_ROOTS && e in ALL_REACHES :: State(s, r, e)
  }

  lemma StateIsListed(rv: ReadView, k: State)
    ensures k in AllStates(rv) <==> k.struct in rv.members
  {
    assert k.root in ALL_ROOTS by {
      match k.root
      case Value =>
      case Fill(pass) => assert pass == StructPass.Bytes || pass == Scratch || pass == StructPass.Cycle;
      case Input(pass) => assert pass == StructPass.Bytes || pass == Scratch || pass == StructPass.Cycle;
    }
    assert k.reach == Root || k.reach == Reach.Embedded || k.reach == Indirect;
    assert k == State(k.struct, k.root, k.reach);
  }

  ghost function ReadAt(rv: ReadView, k: State, m: Member): MemberRead {
    ReadMember(MemberKindOf(rv.view.table, k.root.Pass(), m.shape, m.mutable), k.root, k.reach)
  }

  /** The state that the read of member `m` at `k` goes on with. */
  ghost function NextAt(rv: ReadView, k: State, m: Member): Option<State> {
    var read := ReadAt(rv, k, m);
    if read.Nested? && m.shape.Nested().Some?
    then Some(State(m.shape.Nested().value, read.root, read.reach))
    else None
  }

  /** The member has no read lowering at `k`, by itself or when its struct is readable. */
  ghost function FailsAt(rv: ReadView, k: State, m: Member): Option<UnreadableKind> {
    var read := ReadAt(rv, k, m);
    if read.Unreadable? then Some(read.kind)
    else if read.Nested? then read.otherwise
    else None
  }

  ghost function WalkGraph(rv: ReadView): Graph<State> {
    map k | k in AllStates(rv) ::
      set m | m in rv.members[k.struct] && NextAt(rv, k, m).Some? :: NextAt(rv, k, m).value
  }

  ghost function UnreadableStates(rv: ReadView): set<State> {
    set k | k in AllStates(rv) && exists m :: m in rv.members[k.struct] && FailsAt(rv, k, m).Some?
  }

  /** A member, by its struct and its index. */
  datatype Site = Site(owner: Struct, member: nat)

  /** A member with no read lowering, and the member through which C writes the struct that holds it. */
  datatype Finding = Finding(site: Site, kind: UnreadableKind, through: Option<Site>)

  // ----- what the walk returns

  ghost function EntersFill(fromInput: bool, root: ReadRoot, nested: ReadRoot): bool {
    fromInput && root.Input? && nested.Fill?
  }

  ghost function ThroughAt(fromInput: bool, through: Option<Site>, k: State, i: nat, nested: ReadRoot): Option<Site> {
    if through.Some? then through
    else if EntersFill(fromInput, k.root, nested) then Some(Site(k.struct, i))
    else None
  }

  /** The first finding of the walk from `k`, with the states of `active` on its path. */
  ghost function WalkStruct(rv: ReadView, fromInput: bool, k: State, active: set<State>, through: Option<Site>)
    : Option<Finding>
    decreases |AllStates(rv) - active|, 0
  {
    if k in active || k.struct !in rv.members then None
    else
      StateIsListed(rv, k);
      StrictSubsetSize(AllStates(rv) - (active + {k}), AllStates(rv) - active);
      WalkMembers(rv, fromInput, k, active + {k}, through, 0)
  }

  /** The first finding in the members from index `i` on. */
  ghost function WalkMembers(rv: ReadView, fromInput: bool, k: State, active: set<State>, through: Option<Site>, i: nat)
    : Option<Finding>
    requires k.struct in rv.members && i <= |rv.members[k.struct]|
    decreases |AllStates(rv) - active|, 2 + |rv.members[k.struct]| - i
  {
    if i == |rv.members[k.struct]| then None
    else
      var found := WalkMember(rv, fromInput, k, active, through, i);
      if found.Some? then found else WalkMembers(rv, fromInput, k, active, through, i + 1)
  }

  /** The finding of one member: inside its struct first, then the member itself. */
  ghost function WalkMember(rv: ReadView, fromInput: bool, k: State, active: set<State>, through: Option<Site>, i: nat)
    : Option<Finding>
    requires k.struct in rv.members && i < |rv.members[k.struct]|
    decreases |AllStates(rv) - active|, 1
  {
    var m := rv.members[k.struct][i];
    match ReadAt(rv, k, m)
    case Readable => None
    case Unreadable(kind) => Some(Finding(Site(k.struct, i), kind, through))
    case Nested(root, reach, otherwise) =>
      var inner := ThroughAt(fromInput, through, k, i, root);
      var found :=
        if m.shape.Nested().None? then None
        else WalkStruct(rv, fromInput, State(m.shape.Nested().value, root, reach), active, inner);
      if found.Some? then found
      else if otherwise.Some? then Some(Finding(Site(k.struct, i), otherwise.value, inner))
      else None
  }

  ghost function FirstUnreadable(rv: ReadView, k: State): Option<Finding> {
    WalkStruct(rv, k.root.Input?, k, {}, None)
  }

  // ----- sound and complete

  lemma WalkEdge(rv: ReadView, k: State, i: nat)
    requires k.struct in rv.members && i < |rv.members[k.struct]|
    requires NextAt(rv, k, rv.members[k.struct][i]).Some?
    ensures NextAt(rv, k, rv.members[k.struct][i]).value in Succ(WalkGraph(rv), k)
  {
    StateIsListed(rv, k);
  }

  lemma WalkEdgeMember(rv: ReadView, k: State, n: State) returns (i: nat)
    requires n in Succ(WalkGraph(rv), k)
    ensures k.struct in rv.members && i < |rv.members[k.struct]|
    ensures NextAt(rv, k, rv.members[k.struct][i]) == Some(n)
  {
    StateIsListed(rv, k);
    var m :| m in rv.members[k.struct] && NextAt(rv, k, m) == Some(n);
    i :| 0 <= i < |rv.members[k.struct]| && rv.members[k.struct][i] == m;
  }

  /** Member `i` at `k` makes the walk find something. */
  ghost predicate MemberFinds(rv: ReadView, k: State, active: set<State>, i: nat)
    requires k.struct in rv.members && i < |rv.members[k.struct]|
  {
    var m := rv.members[k.struct][i];
    || FailsAt(rv, k, m).Some?
    || (NextAt(rv, k, m).Some? && Finds(WalkGraph(rv), NextAt(rv, k, m).value, active, UnreadableStates(rv)))
  }

  lemma WalkFindsStep(rv: ReadView, k: State, active: set<State>)
    requires k.struct in rv.members && k !in active
    ensures Finds(WalkGraph(rv), k, active, UnreadableStates(rv))
       <==> exists i: nat :: i < |rv.members[k.struct]| && MemberFinds(rv, k, active + {k}, i)
  {
    var g, goal, members := WalkGraph(rv), UnreadableStates(rv), rv.members[k.struct];
    StateIsListed(rv, k);
    FindsStep(g, k, active, goal);
    if k in goal {
      var m :| m in members && FailsAt(rv, k, m).Some?;
      var i :| 0 <= i < |members| && members[i] == m;
      assert MemberFinds(rv, k, active + {k}, i);
    }
    if n :| n in Succ(g, k) && Finds(g, n, active + {k}, goal) {
      var i := WalkEdgeMember(rv, k, n);
      assert MemberFinds(rv, k, active + {k}, i);
    }
    if i: nat :| i < |members| && MemberFinds(rv, k, active + {k}, i) {
      if FailsAt(rv, k, members[i]).None? {
        WalkEdge(rv, k, i);
      }
    }
  }

  /** The walk finds something exactly when a path off `active` ends at a state with an unreadable member. */
  lemma {:induction false} WalkStructFinds(rv: ReadView, fromInput: bool, k: State, active: set<State>, through: Option<Site>)
    ensures WalkStruct(rv, fromInput, k, active, through).Some?
       <==> Finds(WalkGraph(rv), k, active, UnreadableStates(rv))
    decreases |AllStates(rv) - active|, 0
  {
    StateIsListed(rv, k);
    if k in active {
      FindsStopped(WalkGraph(rv), k, active, UnreadableStates(rv));
    } else if k.struct !in rv.members {
      FindsStep(WalkGraph(rv), k, active, UnreadableStates(rv));
    } else {
      StrictSubsetSize(AllStates(rv) - (active + {k}), AllStates(rv) - active);
      WalkFindsStep(rv, k, active);
      WalkMembersFinds(rv, fromInput, k, active + {k}, through, 0);
    }
  }

  lemma {:induction false} WalkMembersFinds(rv: ReadView, fromInput: bool, k: State, active: set<State>, through: Option<Site>, i: nat)
    requires k.struct in rv.members && i <= |rv.members[k.struct]|
    ensures WalkMembers(rv, fromInput, k, active, through, i).Some?
       <==> exists j: nat :: i <= j < |rv.members[k.struct]| && MemberFinds(rv, k, active, j)
    decreases |AllStates(rv) - active|, 2 + |rv.members[k.struct]| - i
  {
    if i < |rv.members[k.struct]| {
      WalkMemberFinds(rv, fromInput, k, active, through, i);
      WalkMembersFinds(rv, fromInput, k, active, through, i + 1);
    }
  }

  lemma {:induction false} WalkMemberFinds(rv: ReadView, fromInput: bool, k: State, active: set<State>, through: Option<Site>, i: nat)
    requires k.struct in rv.members && i < |rv.members[k.struct]|
    ensures WalkMember(rv, fromInput, k, active, through, i).Some? <==> MemberFinds(rv, k, active, i)
    decreases |AllStates(rv) - active|, 1
  {
    var m := rv.members[k.struct][i];
    var read := ReadAt(rv, k, m);
    if read.Nested? && m.shape.Nested().Some? {
      WalkStructFinds(rv, fromInput, State(m.shape.Nested().value, read.root, read.reach), active,
                      ThroughAt(fromInput, through, k, i, read.root));
    }
  }

  /**
  For every view, cyclic or not, the walk accepts a root exactly when no state
  that the root reaches holds a member with no read lowering.
  */
  lemma FirstUnreadableIsComplete(rv: ReadView, k: State)
    ensures FirstUnreadable(rv, k).None?
       <==> forall n, m | Reaches(WalkGraph(rv), k, n) && n.struct in rv.members && m in rv.members[n.struct] ::
              FailsAt(rv, n, m).None?
  {
    WalkStructFinds(rv, k.root.Input?, k, {}, None);
    FindsReaches(WalkGraph(rv), k, UnreadableStates(rv));
    forall n ensures n in AllStates(rv) <==> n.struct in rv.members { StateIsListed(rv, n); }
    if FirstUnreadable(rv, k).Some? {
      var n :| n in UnreadableStates(rv) && Reaches(WalkGraph(rv), k, n);
      var m :| m in rv.members[n.struct] && FailsAt(rv, n, m).Some?;
    } else {
      forall n, m | Reaches(WalkGraph(rv), k, n) && n.struct in rv.members && m in rv.members[n.struct]
        ensures FailsAt(rv, n, m).None?
      {
        assert n !in UnreadableStates(rv);
      }
    }
  }

  // ----- what a finding names

  /** One step of the walk: a state and the member that the walk leaves it through. */
  datatype Step = Step(state: State, member: nat)

  /** The walk goes from `k` to `n` through the members of `trail`. */
  ghost predicate IsTrail(rv: ReadView, k: State, trail: seq<Step>, n: State)
    decreases |trail|
  {
    if trail == [] then k == n
    else
      && trail[0].state == k
      && k.struct in rv.members
      && trail[0].member < |rv.members[k.struct]|
      && var next := NextAt(rv, k, rv.members[k.struct][trail[0].member]);
         next.Some? && IsTrail(rv, next.value, trail[1..], n)
  }

  /** The first member of the trail through which the walk leaves an input for a fill. */
  ghost function FirstCrossing(trail: seq<Step>, n: State): Option<Site> {
    if trail == [] then None
    else
      var k := trail[0].state;
      var next := if |trail| == 1 then n else trail[1].state;
      if k.root.Input? && next.root.Fill? then Some(Site(k.struct, trail[0].member))
      else FirstCrossing(trail[1..], n)
  }

  /** The finding is a member of `n` with no read lowering there. */
  ghost predicate NamesUnreadable(rv: ReadView, n: State, f: Finding) {
    && f.site.owner == n.struct
    && n.struct in rv.members
    && f.site.member < |rv.members[n.struct]|
    && FailsAt(rv, n, rv.members[n.struct][f.site.member]) == Some(f.kind)
  }

  ghost function ThroughOn(fromInput: bool, through: Option<Site>, trail: seq<Step>, n: State): Option<Site> {
    if through.Some? then through
    else if fromInput then FirstCrossing(trail, n)
    else None
  }

  lemma {:induction false} WalkStructTrail(rv: ReadView, fromInput: bool, k: State, active: set<State>, through: Option<Site>)
    returns (trail: seq<Step>, n: State)
    requires WalkStruct(rv, fromInput, k, active, through).Some?
    ensures IsTrail(rv, k, trail, n)
    ensures var f := WalkStruct(rv, fromInput, k, active, through).value;
      NamesUnreadable(rv, n, f) && f.through == ThroughOn(fromInput, through, trail, n)
    decreases |AllStates(rv) - active|, 0
  {
    StateIsListed(rv, k);
    StrictSubsetSize(AllStates(rv) - (active + {k}), AllStates(rv) - active);
    trail, n := WalkMembersTrail(rv, fromInput, k, active + {k}, through, 0);
  }

  lemma {:induction false} WalkMembersTrail(rv: ReadView, fromInput: bool, k: State, active: set<State>, through: Option<Site>, i: nat)
    returns (trail: seq<Step>, n: State)
    requires k.struct in rv.members && i <= |rv.members[k.struct]|
    requires WalkMembers(rv, fromInput, k, active, through, i).Some?
    ensures IsTrail(rv, k, trail, n)
    ensures var f := WalkMembers(rv, fromInput, k, active, through, i).value;
      NamesUnreadable(rv, n, f) && f.through == ThroughOn(fromInput, through, trail, n)
    decreases |AllStates(rv) - active|, 2 + |rv.members[k.struct]| - i
  {
    if WalkMember(rv, fromInput, k, active, through, i).Some? {
      trail, n := WalkMemberTrail(rv, fromInput, k, active, through, i);
    } else {
      trail, n := WalkMembersTrail(rv, fromInput, k, active, through, i + 1);
    }
  }

  lemma {:induction false} WalkMemberTrail(rv: ReadView, fromInput: bool, k: State, active: set<State>, through: Option<Site>, i: nat)
    returns (trail: seq<Step>, n: State)
    requires k.struct in rv.members && i < |rv.members[k.struct]|
    requires WalkMember(rv, fromInput, k, active, through, i).Some?
    ensures IsTrail(rv, k, trail, n)
    ensures var f := WalkMember(rv, fromInput, k, active, through, i).value;
      NamesUnreadable(rv, n, f) && f.through == ThroughOn(fromInput, through, trail, n)
    decreases |AllStates(rv) - active|, 1
  {
    var m := rv.members[k.struct][i];
    var read := ReadAt(rv, k, m);
    trail, n := [], k;
    if read.Nested? && m.shape.Nested().Some? {
      var next := State(m.shape.Nested().value, read.root, read.reach);
      var inner := ThroughAt(fromInput, through, k, i, read.root);
      if WalkStruct(rv, fromInput, next, active, inner).Some? {
        var rest;
        rest, n := WalkStructTrail(rv, fromInput, next, active, inner);
        trail := [Step(k, i)] + rest;
        assert trail[1..] == rest;
      }
    }
  }

  lemma {:induction false} NoCrossingStaysInput(rv: ReadView, k: State, trail: seq<Step>, n: State)
    requires IsTrail(rv, k, trail, n) && k.root.Input? && FirstCrossing(trail, n).None?
    ensures n.root.Input?
    decreases |trail|
  {
    if trail != [] {
      var next := NextAt(rv, k, rv.members[k.struct][trail[0].member]).value;
      assert trail[1..] != [] ==> trail[1].state == next;
      NoCrossingStaysInput(rv, next, trail[1..], n);
    }
  }

  lemma {:induction false} CrossingIsMutable(rv: ReadView, k: State, trail: seq<Step>, n: State)
    requires IsTrail(rv, k, trail, n) && FirstCrossing(trail, n).Some?
    ensures var site := FirstCrossing(trail, n).value;
      && site.owner in rv.members
      && site.member < |rv.members[site.owner]|
      && rv.members[site.owner][site.member].mutable
    decreases |trail|
  {
    var next := NextAt(rv, k, rv.members[k.struct][trail[0].member]).value;
    assert trail[1..] != [] ==> trail[1].state == next;
    if !(k.root.Input? && next.root.Fill?) {
      CrossingIsMutable(rv, next, trail[1..], n);
    }
  }

  /**
  A finding names a member with no read lowering at a state that the root
  reaches. From an input, `through` is the first member on the way through
  which C writes, a non-`const` one; with no such member the finding is a pair
  that C can write in place or that the call would copy back.
  */
  lemma FindingNamesItsCause(rv: ReadView, k: State) returns (trail: seq<Step>, n: State)
    requires FirstUnreadable(rv, k).Some?
    ensures IsTrail(rv, k, trail, n)
    ensures var f := FirstUnreadable(rv, k).value;
      && NamesUnreadable(rv, n, f)
      && f.through == (if k.root.Input? then FirstCrossing(trail, n) else None)
      && (k.root.Input? && f.through.None? ==> f.kind.ValidatedPair? || f.kind.WrittenBackPair?)
      && (f.through.Some? ==>
            var site := f.through.value;
            && site.owner in rv.members
            && site.member < |rv.members[site.owner]|
            && rv.members[site.owner][site.member].mutable)
  {
    trail, n := WalkStructTrail(rv, k.root.Input?, k, {}, None);
    var f := FirstUnreadable(rv, k).value;
    if f.through.Some? {
      CrossingIsMutable(rv, k, trail, n);
    } else if k.root.Input? {
      NoCrossingStaysInput(rv, k, trail, n);
    }
  }

  // ----- the walk as it runs

  /** The walk keeps the states of its current path in `active`. */
  class Walk {
    const rv: ReadView
    const fromInput: bool
    var active: seq<State>

    constructor (rv: ReadView, fromInput: bool)
      ensures this.rv == rv && this.fromInput == fromInput && active == []
    {
      this.rv, this.fromInput, this.active := rv, fromInput, [];
    }

    method Structure(k: State, through: Option<Site>) returns (found: Option<Finding>)
      requires ValidView(rv.view)
      modifies this`active
      ensures active == old(active)
      ensures found == WalkStruct(rv, fromInput, k, Elems(old(active)), through)
      decreases |AllStates(rv) - Elems(active)|, 0
    {
      if k in active || k.struct !in rv.members {
        return None;
      }
      StateIsListed(rv, k);
      ElemsSnoc(active, k);
      StrictSubsetSize(AllStates(rv) - (Elems(active) + {k}), AllStates(rv) - Elems(active));
      active := active + [k];
      found := None;
      var members := rv.members[k.struct];
      ghost var on := Elems(active);
      ghost var first := WalkMembers(rv, fromInput, k, on, through, 0);
      for i := 0 to |members|
        invariant active == old(active) + [k] && found == None
        invariant first == WalkMembers(rv, fromInput, k, on, through, i)
      {
        found := MemberOf(k, i, through);
        if found.Some? {
          break;
        }
      }
      active := active[..|active| - 1];
    }

    method MemberOf(k: State, i: nat, through: Option<Site>) returns (found: Option<Finding>)
      requires ValidView(rv.view)
      requires k.struct in rv.members && i < |rv.members[k.struct]|
      modifies this`active
      ensures active == old(active)
      ensures found == WalkMember(rv, fromInput, k, Elems(old(active)), through, i)
      decreases |AllStates(rv) - Elems(active)|, 1
    {
      var m := rv.members[k.struct][i];
      var kind := ClassifyMember(rv.view, k.root.Pass(), m.shape, m.mutable);
      match ReadMember(kind, k.root, k.reach)
      case Readable => return None;
      case Unreadable(why) => return Some(Finding(Site(k.struct, i), why, through));
      case Nested(root, reach, otherwise) =>
        var entersFill := fromInput && k.root.Input? && root.Fill?;
        var inner := if through.Some? then through else if entersFill then Some(Site(k.struct, i)) else None;
        found := None;
        if m.shape.Nested().Some? {
          found := Structure(State(m.shape.Nested().value, root, reach), inner);
        }
        if found.None? && otherwise.Some? {
          found := Some(Finding(Site(k.struct, i), otherwise.value, inner));
        }
    }
  }

  method FirstUnreadableOf(rv: ReadView, k: State) returns (found: Option<Finding>)
    requires ValidView(rv.view)
    ensures found == FirstUnreadable(rv, k)
  {
    var walk := new Walk(rv, k.root.Input?);
    assert Elems(walk.active) == {};
    found := walk.Structure(k, None);
  }
}
