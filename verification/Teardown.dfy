/**
The release of the scheduler storage: a worklist over the owning edges of the
coroutines that takes every edge away, so that no ring of coroutines that own
each other survives. A task group is shared: the join of the group and every
reaction of the group own it, and it owns its inputs and its join.
*/
module Teardown {
  import opened Graphs
  import opened StructViews
  import opened PassDecision
  import opened SchedulerSteps

  type GroupId = nat

  /** A value, as far as it owns coroutines. */
  datatype Value =
    | Handle(coroutine: Id)
    | Callable(captures: seq<Value>)
    | Iterator(subject: Value)
    | Plain

  /** A registration: a continuation of the scheduler, or the reaction of a group to one of its inputs. */
  datatype Registration = Continuation(job: Job) | GroupReaction(group: GroupId, index: nat)

  datatype Group = Group(inputs: seq<Option<Id>>, join: Option<Id>)

  /** What a suspended frame has saved. */
  datatype Frame = Frame(generatorOwners: seq<Value>, values: seq<Option<Value>>, locals: seq<Value>, resume: Option<Value>)

  /** What a coroutine holds for its own work. */
  datatype Holding = Saved(frame: Frame) | Pending(inputs: seq<Option<Id>>) | Joining(group: GroupId)

  /** A coroutine, as far as it owns others. */
  datatype Node = Node(waiters: seq<Registration>, awaiting: Option<Id>, holding: Holding, completion: Option<Value>)

  type Nodes = map<Id, Node>
  type Groups = map<GroupId, Group>

  // ----- owning edges

  /** The coroutines that the value owns, directly, through a capture, or as an iteration subject. */
  ghost function OwnedBy(value: Value): set<Id> {
    match value
    case Handle(c) => {c}
    case Callable(captures) => set v, c | v in captures && c in OwnedBy(v) :: c
    case Iterator(subject) => OwnedBy(subject)
    case Plain => {}
  }

  ghost function OwnedByAll(values: seq<Value>): set<Id> {
    set v, c | v in values && c in OwnedBy(v) :: c
  }

  ghost function OwnedByOption(value: Option<Value>): set<Id> {
    if value.Some? then OwnedBy(value.value) else {}
  }

  ghost function OwnedByOptions(values: seq<Option<Value>>): set<Id> {
    set v, c | v in values && c in OwnedByOption(v) :: c
  }

  ghost function Known(id: Option<Id>): set<Id> {
    if id.Some? then {id.value} else {}
  }

  ghost function Inputs(inputs: seq<Option<Id>>): set<Id> {
    set i | i in inputs && i.Some? :: i.value
  }

  function GroupOf(groups: Groups, g: GroupId): Group {
    if g in groups then groups[g] else Group([], None)
  }

  ghost function GroupOwns(group: Group): set<Id> {
    Inputs(group.inputs) + Known(group.join)
  }

  ghost function FrameOwns(f: Frame): set<Id> {
    OwnedByAll(f.generatorOwners) + OwnedByOptions(f.values) + OwnedByAll(f.locals) + OwnedByOption(f.resume)
  }

  /** The coroutine that a registration names: the frame or aggregate that it runs, or the input that it reacts to. */
  function Names(groups: Groups, r: Registration): Option<Id> {
    match r
    case Continuation(Resume(f)) => Some(f)
    case Continuation(React(a, _)) => Some(a)
    case GroupReaction(g, i) =>
      if i < |GroupOf(groups, g).inputs| then GroupOf(groups, g).inputs[i] else None
  }

  ghost function NamedBy(groups: Groups, rs: seq<Registration>): set<Id> {
    set r | r in rs && Names(groups, r).Some? :: Names(groups, r).value
  }

  /** What the release puts on its worklist for a coroutine. */
  ghost function Pushes(groups: Groups, n: Node): set<Id> {
    NamedBy(groups, n.waiters) + Known(n.awaiting) + OwnedByOption(n.completion) +
    match n.holding
    case Saved(f) => FrameOwns(f)
    case Pending(inputs) => Inputs(inputs)
    case Joining(g) => Inputs(GroupOf(groups, g).inputs)
  }

  /** What a registration owns: a group reaction owns its whole group. */
  ghost function RegistrationOwns(groups: Groups, r: Registration): set<Id> {
    match r
    case Continuation(_) => Known(Names(groups, r))
    case GroupReaction(g, _) => GroupOwns(GroupOf(groups, g))
  }

  /** Every coroutine that the coroutine owns, groups included. */
  ghost function Owns(groups: Groups, n: Node): set<Id> {
    (set r, c | r in n.waiters && c in RegistrationOwns(groups, r) :: c) + Known(n.awaiting) + OwnedByOption(n.completion) +
    match n.holding
    case Saved(f) => FrameOwns(f)
    case Pending(inputs) => Inputs(inputs)
    case Joining(g) => GroupOwns(GroupOf(groups, g))
  }

  ghost function PushGraph(nodes: Nodes, groups: Groups): Graph<Id> {
    map c | c in nodes :: Pushes(groups, nodes[c])
  }

  ghost function OwnGraph(nodes: Nodes, groups: Groups): Graph<Id> {
    map c | c in nodes :: Owns(groups, nodes[c])
  }

  /** Every owned coroutine exists, and the completion of an aggregate or a join owns none. */
  ghost predicate WellFormed(nodes: Nodes, groups: Groups) {
    && (forall c | c in nodes ::
          && Pushes(groups, nodes[c]) <= nodes.Keys
          && (!nodes[c].holding.Saved? ==> OwnedByOption(nodes[c].completion) == {}))
    && forall g | g in groups :: GroupOwns(groups[g]) <= nodes.Keys
  }

  // ----- collecting

  /** Pushes every coroutine that the value owns. */
  method CollectCoroutines(value: Value, out: seq<Id>) returns (pushed: seq<Id>)
    ensures Elems(pushed) == Elems(out) + OwnedBy(value)
    decreases value
  {
    match value
    case Handle(c) =>
      ElemsSnoc(out, c);
      pushed := out + [c];
    case Callable(captures) =>
      pushed := out;
      for i := 0 to |captures|
        invariant Elems(pushed) == Elems(out) + OwnedByAll(captures[..i])
      {
        OwnedSnoc(captures, i);
        pushed := CollectCoroutines(captures[i], pushed);
      }
      assert captures[..|captures|] == captures;
      assert OwnedBy(value) == OwnedByAll(captures);
    case Iterator(subject) =>
      pushed := CollectCoroutines(subject, out);
    case Plain =>
      pushed := out;
  }

  lemma OwnedSnoc(values: seq<Value>, i: nat)
    requires i < |values|
    ensures OwnedByAll(values[..i + 1]) == OwnedByAll(values[..i]) + OwnedBy(values[i])
  {
    assert values[..i + 1] == values[..i] + [values[i]];
  }

  method CollectAll(values: seq<Value>, out: seq<Id>) returns (pushed: seq<Id>)
    ensures Elems(pushed) == Elems(out) + OwnedByAll(values)
  {
    pushed := out;
    for i := 0 to |values|
      invariant Elems(pushed) == Elems(out) + OwnedByAll(values[..i])
    {
      OwnedSnoc(values, i);
      pushed := CollectCoroutines(values[i], pushed);
    }
    assert values[..|values|] == values;
  }

  method CollectOptions(values: seq<Option<Value>>, out: seq<Id>) returns (pushed: seq<Id>)
    ensures Elems(pushed) == Elems(out) + OwnedByOptions(values)
  {
    pushed := out;
    for i := 0 to |values|
      invariant Elems(pushed) == Elems(out) + OwnedByOptions(values[..i])
    {
      assert values[..i + 1] == values[..i] + [values[i]];
      assert OwnedByOptions(values[..i + 1]) == OwnedByOptions(values[..i]) + OwnedByOption(values[i]);
      if values[i].Some? {
        pushed := CollectCoroutines(values[i].value, pushed);
      }
    }
    assert values[..|values|] == values;
  }

  method CollectNamed(groups: Groups, rs: seq<Registration>, out: seq<Id>) returns (pushed: seq<Id>)
    ensures Elems(pushed) == Elems(out) + NamedBy(groups, rs)
  {
    hide Names;
    pushed := out;
    for i := 0 to |rs|
      invariant Elems(pushed) == Elems(out) + NamedBy(groups, rs[..i])
    {
      assert rs[..i + 1] == rs[..i] + [rs[i]];
      assert NamedBy(groups, rs[..i + 1]) == NamedBy(groups, rs[..i]) + Known(Names(groups, rs[i]));
      var named := Names(groups, rs[i]);
      if named.Some? {
        ElemsSnoc(pushed, named.value);
        pushed := pushed + [named.value];
      }
    }
    assert rs[..|rs|] == rs;
  }

  method CollectInputs(inputs: seq<Option<Id>>, out: seq<Id>) returns (pushed: seq<Id>)
    ensures Elems(pushed) == Elems(out) + Inputs(inputs)
  {
    pushed := out;
    for i := 0 to |inputs|
      invariant Elems(pushed) == Elems(out) + Inputs(inputs[..i])
    {
      assert inputs[..i + 1] == inputs[..i] + [inputs[i]];
      if inputs[i].Some? {
        ElemsSnoc(pushed, inputs[i].value);
        pushed := pushed + [inputs[i].value];
      }
    }
    assert inputs[..|inputs|] == inputs;
  }

  method CollectFrame(f: Frame, completion: Option<Value>, out: seq<Id>) returns (pushed: seq<Id>)
    ensures Elems(pushed) == Elems(out) + FrameOwns(f) + OwnedByOption(completion)
  {
    pushed := CollectAll(f.generatorOwners, out);
    pushed := CollectOptions(f.values, pushed);
    pushed := CollectAll(f.locals, pushed);
    if f.resume.Some? {
      pushed := CollectCoroutines(f.resume.value, pushed);
    }
    if completion.Some? {
      pushed := CollectCoroutines(completion.value, pushed);
    }
  }

  // ----- the release

  function NoInputs(inputs: seq<Option<Id>>): (r: seq<Option<Id>>)
    ensures Inputs(r) == {}
  {
    seq(|inputs|, _ => None)
  }

  function ClearedGroup(group: Group): (r: Group)
    ensures GroupOwns(r) == {}
  {
    Group(NoInputs(group.inputs), None)
  }

  /** The coroutine with every edge of its own taken away. */
  function Cleared(n: Node): Node {
    Node([], None,
      match n.holding
      case Saved(_) => Saved(Frame([], [], [], None))
      case Pending(inputs) => Pending(NoInputs(inputs))
      case Joining(g) => Joining(g),
      None)
  }

  /** The group that the coroutine joins is cleared with it. */
  function ClearedGroups(groups: Groups, n: Node): Groups {
    if n.holding.Joining? && n.holding.group in groups
    then groups[n.holding.group := ClearedGroup(groups[n.holding.group])]
    else groups
  }

  /** The coroutines after those of `released` have been cleared. */
  ghost predicate Released(before: Nodes, after: Nodes, released: seq<Id>) {
    && after.Keys == before.Keys
    && forall c | c in before :: after[c] == if c in released then Cleared(before[c]) else before[c]
  }

  /** A group is as it was, or cleared; then everything that it held is done or waits. */
  ghost predicate GroupsReleased(before: Groups, after: Groups, nodes: Nodes, released: seq<Id>, met: set<Id>) {
    && after.Keys == before.Keys
    && (forall g | g in before ::
          after[g] == before[g] || (after[g] == ClearedGroup(before[g]) && Inputs(before[g].inputs) <= met))
    && forall c | c in released && c in nodes && nodes[c].holding.Joining? && nodes[c].holding.group in before ::
         GroupOwns(after[nodes[c].holding.group]) == {}
  }

  /** The state of the release: `seen` is cleared, `work` waits, and the edges are those of the start. */
  ghost predicate Releasing(before: Nodes, groups: Groups, roots: set<Id>, nodes: Nodes, now: Groups,
                            seen: seq<Id>, work: seq<Id>) {
    && Distinct(seen) && |seen| <= |before|
    && Elems(seen) + Elems(work) <= before.Keys
    && Frontier(PushGraph(before, groups), roots, Elems(seen), Elems(work))
    && Released(before, nodes, seen)
    && GroupsReleased(groups, now, before, seen, Elems(seen) + Elems(work))
  }

  lemma ReleaseStart(before: Nodes, groups: Groups, roots: set<Id>, work: seq<Id>)
    requires Elems(work) == roots && roots <= before.Keys
    ensures Releasing(before, groups, roots, before, groups, [], work)
  {
    FrontierStart(PushGraph(before, groups), roots);
    assert Elems<Id>([]) == {};
  }

  lemma ReleaseSkip(before: Nodes, groups: Groups, roots: set<Id>, nodes: Nodes, now: Groups, seen: seq<Id>, work: seq<Id>)
    requires Releasing(before, groups, roots, nodes, now, seen, work) && work != [] && work[|work| - 1] in seen
    ensures Releasing(before, groups, roots, nodes, now, seen, work[..|work| - 1])
  {
    hide ReachedFrom, PushGraph, Released, GroupsReleased;
    PopStack(work);
    assert Elems(seen) + Elems(work) == Elems(seen) + Elems(work[..|work| - 1]);
  }

  /** What a cleared group no longer gives the worklist is already done or waits. */
  lemma PushesNow(groups: Groups, now: Groups, nodes: Nodes, seen: seq<Id>, met: set<Id>, n: Node)
    requires GroupsReleased(groups, now, nodes, seen, met)
    ensures Pushes(now, n) <= Pushes(groups, n) <= Pushes(now, n) + met
  {
    forall g ensures Inputs(GroupOf(now, g).inputs) <= Inputs(GroupOf(groups, g).inputs) <= Inputs(GroupOf(now, g).inputs) + met {
    }
    forall r | r in n.waiters ensures Known(Names(now, r)) <= Known(Names(groups, r)) <= Known(Names(now, r)) + met {
      NamesNow(groups, now, nodes, seen, met, r);
    }
    assert NamedBy(now, n.waiters) <= NamedBy(groups, n.waiters) by {
      forall c | c in NamedBy(now, n.waiters) ensures c in NamedBy(groups, n.waiters) {
        var r :| r in n.waiters && Names(now, r) == Some(c);
        assert c in Known(Names(now, r));
      }
    }
    assert NamedBy(groups, n.waiters) <= NamedBy(now, n.waiters) + met by {
      forall c | c in NamedBy(groups, n.waiters) ensures c in NamedBy(now, n.waiters) + met {
        var r :| r in n.waiters && Names(groups, r) == Some(c);
        assert c in Known(Names(groups, r));
      }
    }
  }

  lemma NamesNow(groups: Groups, now: Groups, nodes: Nodes, seen: seq<Id>, met: set<Id>, r: Registration)
    requires GroupsReleased(groups, now, nodes, seen, met)
    ensures Known(Names(now, r)) <= Known(Names(groups, r)) <= Known(Names(now, r)) + met
  {
    if r.GroupReaction? && r.group in groups && now[r.group] != groups[r.group] {
      var inputs := groups[r.group].inputs;
      if r.index < |inputs| && inputs[r.index].Some? {
        assert inputs[r.index] in inputs;
        assert inputs[r.index].value in Inputs(inputs);
      }
    }
  }

  lemma ReleaseVisit(before: Nodes, groups: Groups, roots: set<Id>, nodes: Nodes, now: Groups, seen: seq<Id>, work: seq<Id>,
                     pushed: seq<Id>)
    requires WellFormed(before, groups) && Releasing(before, groups, roots, nodes, now, seen, work)
    requires work != [] && work[|work| - 1] !in seen && work[|work| - 1] in before
    requires Elems(pushed) == Elems(work[..|work| - 1]) + Pushes(now, before[work[|work| - 1]])
    ensures var next := work[|work| - 1];
      Releasing(before, groups, roots, nodes[next := Cleared(before[next])], ClearedGroups(now, before[next]),
                seen + [next], pushed)
  {
    hide ReachedFrom, Pushes, Cleared, GroupsReleased, Released;
    var next, rest := work[|work| - 1], work[..|work| - 1];
    var n := before[next];
    PopStack(work);
    ElemsSnoc(seen, next);
    PushesNow(groups, now, before, seen, Elems(seen) + Elems(work), n);
    FrontierGrow(PushGraph(before, groups), roots, Elems(seen), Elems(work), next, Elems(rest), Pushes(now, n));
    DistinctSize(seen + [next], before.Keys);
    ReleasedNext(before, nodes, seen, next);
    GroupsNext(groups, now, before, seen, Elems(seen) + Elems(work), next, Elems(seen + [next]) + Elems(pushed));
  }

  lemma ReleasedNext(before: Nodes, nodes: Nodes, seen: seq<Id>, next: Id)
    requires Released(before, nodes, seen) && next in before
    ensures Released(before, nodes[next := Cleared(before[next])], seen + [next])
  {
  }

  lemma GroupsNext(groups: Groups, now: Groups, before: Nodes, seen: seq<Id>, met: set<Id>, next: Id, more: set<Id>)
    requires GroupsReleased(groups, now, before, seen, met) && next in before && met <= more
    requires Pushes(now, before[next]) <= more
    ensures GroupsReleased(groups, ClearedGroups(now, before[next]), before, seen + [next], more)
  {
    var n := before[next];
    var after := ClearedGroups(now, n);
    if n.holding.Joining? && n.holding.group in groups {
      var g := n.holding.group;
      assert Inputs(now[g].inputs) <= Pushes(now, n);
      assert ClearedGroup(ClearedGroup(groups[g])) == ClearedGroup(groups[g]);
    }
  }

  lemma ReleaseDone(before: Nodes, groups: Groups, roots: set<Id>, nodes: Nodes, now: Groups, seen: seq<Id>)
    requires Releasing(before, groups, roots, nodes, now, seen, [])
    ensures forall c :: c in seen <==> ReachedFrom(PushGraph(before, groups), roots, c)
  {
    hide ReachedFrom, PushGraph, GroupsReleased;
    FrontierDone(PushGraph(before, groups), roots, Elems(seen));
  }

  // ----- what a coroutine owns, part by part

  /** The value is `w`, captures it, or iterates over it, at any depth. */
  ghost predicate Contains(v: Value, w: Value) {
    || v == w
    || (v.Callable? && exists u | u in v.captures :: Contains(u, w))
    || (v.Iterator? && Contains(v.subject, w))
  }

  lemma {:induction false} OwnedInside(v: Value, c: Id)
    ensures c in OwnedBy(v) <==> Contains(v, Handle(c))
  {
    match v
    case Handle(_) =>
    case Plain =>
    case Iterator(subject) => OwnedInside(subject, c);
    case Callable(captures) =>
      forall u | u in captures ensures c in OwnedBy(u) <==> Contains(u, Handle(c)) { OwnedInside(u, c); }
  }

  ghost predicate InValues(values: seq<Value>, c: Id) {
    exists v | v in values :: Contains(v, Handle(c))
  }

  ghost predicate InOption(value: Option<Value>, c: Id) {
    value.Some? && Contains(value.value, Handle(c))
  }

  ghost predicate InGroup(groups: Groups, g: GroupId, c: Id) {
    g in groups && (Some(c) in groups[g].inputs || groups[g].join == Some(c))
  }

  /** The registration runs the coroutine, or reacts for a group that holds it. */
  ghost predicate Registers(groups: Groups, r: Registration, c: Id) {
    match r
    case Continuation(Resume(f)) => f == c
    case Continuation(React(a, _)) => a == c
    case GroupReaction(g, _) => InGroup(groups, g, c)
  }

  /** A waiter, the awaited handle, the completion, or what the coroutine holds for its work. */
  ghost predicate Keeps(groups: Groups, n: Node, c: Id) {
    || (exists r | r in n.waiters :: Registers(groups, r, c))
    || n.awaiting == Some(c)
    || InOption(n.completion, c)
    || match n.holding
       case Saved(f) =>
         InValues(f.generatorOwners, c) || (exists v | v in f.values :: InOption(v, c)) || InValues(f.locals, c) ||
         InOption(f.resume, c)
       case Pending(inputs) => Some(c) in inputs
       case Joining(g) => InGroup(groups, g, c)
  }

  lemma OwnedByPart(values: seq<Value>, c: Id)
    ensures c in OwnedByAll(values) <==> InValues(values, c)
  {
    forall v ensures c in OwnedBy(v) <==> Contains(v, Handle(c)) { OwnedInside(v, c); }
  }

  lemma OptionByPart(value: Option<Value>, c: Id)
    ensures c in OwnedByOption(value) <==> InOption(value, c)
  {
    if value.Some? {
      OwnedInside(value.value, c);
    }
  }

  lemma FrameByPart(f: Frame, c: Id)
    ensures c in FrameOwns(f) <==>
      InValues(f.generatorOwners, c) || (exists v | v in f.values :: InOption(v, c)) || InValues(f.locals, c) ||
      InOption(f.resume, c)
  {
    hide OwnedByOption, InOption, OwnedByAll, InValues;
    OwnedByPart(f.generatorOwners, c);
    OwnedByPart(f.locals, c);
    forall v ensures c in OwnedByOption(v) <==> InOption(v, c) { OptionByPart(v, c); }
  }

  lemma RegistrationByPart(groups: Groups, r: Registration, c: Id)
    ensures c in RegistrationOwns(groups, r) <==> Registers(groups, r, c)
  {
  }

  lemma InputsByPart(inputs: seq<Option<Id>>, c: Id)
    ensures c in Inputs(inputs) <==> Some(c) in inputs
  {
  }

  /** What a coroutine owns, said of its waiters, its completion, its saved frame, its inputs and its group. */
  lemma OwnsByPart(groups: Groups, n: Node, c: Id)
    ensures c in Owns(groups, n) <==> Keeps(groups, n, c)
  {
    hide FrameOwns, OwnedByOption, InOption, InValues, RegistrationOwns, Registers, Inputs;
    forall r ensures c in RegistrationOwns(groups, r) <==> Registers(groups, r, c) { RegistrationByPart(groups, r, c); }
    OptionByPart(n.completion, c);
    match n.holding
    case Saved(f) => FrameByPart(f, c);
    case Pending(inputs) => InputsByPart(inputs, c);
    case Joining(g) => InputsByPart(GroupOf(groups, g).inputs, c);
  }

  // ----- what is left

  /** After the release no released coroutine owns a coroutine, itself included, also through a group. */
  lemma NoRingSurvives(before: Nodes, groups: Groups, after: Nodes, now: Groups, released: seq<Id>, met: set<Id>, c: Id)
    requires Released(before, after, released) && GroupsReleased(groups, now, before, released, met)
    requires c in released && c in before
    ensures forall x :: Reaches(OwnGraph(after, now), c, x) <==> x == c
    ensures !ReachesByEdge(OwnGraph(after, now), c, c)
  {
    assert Owns(now, after[c]) == {};
    assert Succ(OwnGraph(after, now), c) == {};
    forall x ensures Reaches(OwnGraph(after, now), c, x) <==> x == c {
      ReachesStep(OwnGraph(after, now), c, x);
    }
  }

  /** When every coroutine that a group owns is a root, the release reaches all that is owned, groups included. */
  lemma ReleasesAllOwned(nodes: Nodes, groups: Groups, roots: set<Id>, released: seq<Id>, c: Id)
    requires forall g | g in groups :: GroupOwns(groups[g]) <= roots
    requires forall x :: x in released <==> ReachedFrom(PushGraph(nodes, groups), roots, x)
    requires ReachedFrom(OwnGraph(nodes, groups), roots, c)
    ensures c in released
  {
    var own, push := OwnGraph(nodes, groups), PushGraph(nodes, groups);
    forall x, y | x in released && y in Succ(own, x) ensures y in released {
      OwnedIsPushed(nodes, groups, roots, x, y);
      if y in roots {
        ReachesSelf(push, y);
      } else {
        var r :| r in roots && Reaches(push, r, x);
        ReachesEdge(push, x, y);
        ReachesTrans(push, r, x, y);
      }
    }
    var r :| r in roots && Reaches(own, r, c);
    ReachesSelf(push, r);
    assert Closed(own, Elems(released));
    ClosedReaches(own, Elems(released), r, c);
  }

  lemma OwnedIsPushed(nodes: Nodes, groups: Groups, roots: set<Id>, x: Id, y: Id)
    requires forall g | g in groups :: GroupOwns(groups[g]) <= roots
    requires y in Succ(OwnGraph(nodes, groups), x)
    ensures y in roots || y in Succ(PushGraph(nodes, groups), x)
  {
    hide NamedBy, FrameOwns, OwnedByOption, RegistrationOwns, Inputs, Known;
    var n := nodes[x];
    assert y in Owns(groups, n);
    if r :| r in n.waiters && y in RegistrationOwns(groups, r) {
      RegistrationIsNamed(groups, roots, n.waiters, r, y);
    } else if n.holding.Joining? {
      GroupIsListed(groups, roots, n.holding.group);
    }
  }

  lemma GroupIsListed(groups: Groups, roots: set<Id>, g: GroupId)
    requires forall h | h in groups :: GroupOwns(groups[h]) <= roots
    ensures GroupOwns(GroupOf(groups, g)) <= roots
  {
  }

  lemma RegistrationIsNamed(groups: Groups, roots: set<Id>, rs: seq<Registration>, r: Registration, y: Id)
    requires forall g | g in groups :: GroupOwns(groups[g]) <= roots
    requires r in rs && y in RegistrationOwns(groups, r)
    ensures y in roots || y in NamedBy(groups, rs)
  {
    if r.Continuation? {
      assert Names(groups, r) == Some(y);
    } else {
      GroupIsListed(groups, roots, r.group);
    }
  }

  /** The storage that the release walks: the coroutines, the groups, and the places that own some of them. */
  class Storage {
    var nodes: Nodes
    var groups: Groups
    var ready: seq<Registration>
    var parked: seq<Id>
    var stopped: seq<Id>
    var asyncHandles: seq<Id>
    var generatorHandles: seq<Id>
    var globals: seq<Value>

    /** The coroutines that the scheduler state, the handle tables and the globals own. */
    ghost function Roots(): set<Id>
      reads this
    {
      NamedBy(groups, ready) + Elems(parked) + Elems(stopped) + Elems(asyncHandles) + Elems(generatorHandles)
      + OwnedByAll(globals)
    }

    /** Pushes what a coroutine owns on the worklist and clears it, and the group that it joins. */
    method ReleaseOne(c: Id, work: seq<Id>) returns (pushed: seq<Id>)
      requires c in nodes && (!nodes[c].holding.Saved? ==> OwnedByOption(nodes[c].completion) == {})
      modifies this`nodes, this`groups
      ensures Elems(pushed) == Elems(work) + old(Pushes(groups, nodes[c]))
      ensures nodes == old(nodes)[c := Cleared(old(nodes[c]))]
      ensures groups == ClearedGroups(old(groups), old(nodes[c]))
    {
      hide NamedBy, FrameOwns, OwnedBy, Inputs;
      var n := nodes[c];
      pushed := CollectNamed(groups, n.waiters, work);
      if n.awaiting.Some? {
        ElemsSnoc(pushed, n.awaiting.value);
        pushed := pushed + [n.awaiting.value];
      }
      match n.holding {
        case Pending(inputs) =>
          pushed := CollectInputs(inputs, pushed);
          nodes := nodes[c := Node([], None, Pending(NoInputs(inputs)), None)];
        case Joining(g) =>
          pushed := CollectInputs(GroupOf(groups, g).inputs, pushed);
          if g in groups {
            groups := groups[g := Group(NoInputs(groups[g].inputs), None)];
          }
          nodes := nodes[c := Node([], None, Joining(g), None)];
        case Saved(f) =>
          pushed := CollectFrame(f, n.completion, pushed);
          nodes := nodes[c := Node([], None, Saved(Frame([], [], [], None)), None)];
      }
    }

    /** Empties the queues and the handle tables and lists what they and the globals own. */
    method DrainRoots() returns (work: seq<Id>)
      modifies this`ready, this`parked, this`stopped, this`asyncHandles, this`generatorHandles
      ensures Elems(work) == old(Roots())
      ensures ready == [] && parked == [] && stopped == [] && asyncHandles == [] && generatorHandles == []
    {
      hide NamedBy, OwnedByAll;
      work := CollectNamed(groups, ready, []);
      work := work + parked + stopped + asyncHandles + generatorHandles;
      ready, parked, stopped, asyncHandles, generatorHandles := [], [], [], [], [];
      work := CollectAll(globals, work);
    }

    /** Releases every coroutine that the storage reaches, each one once. */
    method ReleaseSchedulerStorage() returns (released: seq<Id>)
      requires WellFormed(nodes, groups) && Roots() <= nodes.Keys
      modifies this
      ensures Distinct(released)
      ensures forall c :: c in released <==> ReachedFrom(PushGraph(old(nodes), old(groups)), old(Roots()), c)
      ensures Released(old(nodes), nodes, released)
      ensures GroupsReleased(old(groups), groups, old(nodes), released, Elems(released))
      ensures ready == [] && parked == [] && stopped == [] && asyncHandles == [] && generatorHandles == []
      ensures globals == old(globals)
      ensures forall c | c in old(parked) || c in old(stopped) || c in old(asyncHandles) || c in old(generatorHandles) ||
                InValues(globals, c) || Continuation(Resume(c)) in old(ready) :: c in released
    {
      hide ReachedFrom, PushGraph, Pushes, Cleared, ClearedGroups, Released, GroupsReleased, WellFormed;
      ghost var before, was, roots := nodes, groups, Roots();
      var work := DrainRoots();
      ReleaseStart(before, was, roots, work);
      released := [];
      while work != []
        invariant Releasing(before, was, roots, nodes, groups, released, work)
        invariant ready == [] && parked == [] && stopped == [] && asyncHandles == [] && generatorHandles == []
        invariant globals == old(globals)
        decreases |before| - |released|, |work|
      {
        ghost var waiting := work;
        var next := work[|work| - 1];
        work := work[..|work| - 1];
        if next in released {
          ReleaseSkip(before, was, roots, nodes, groups, released, waiting);
          continue;
        }
        assert next in Elems(waiting);
        ReleaseVisitReady(before, was, roots, nodes, groups, released, waiting);
        ghost var cleared, now := nodes, groups;
        work := ReleaseOne(next, work);
        ReleaseVisit(before, was, roots, cleared, now, released, waiting, work);
        released := released + [next];
      }
      ReleaseDone(before, was, roots, nodes, groups, released);
      forall c | c in old(parked) || c in old(stopped) || c in old(asyncHandles) || c in old(generatorHandles) ||
          InValues(globals, c) || Continuation(Resume(c)) in old(ready)
        ensures c in released
      {
        RootIsListed(was, old(ready), globals, c);
        RootIsReached(before, was, roots, c);
      }
      assert Elems(released) + Elems(work) == Elems(released);
    }
  }

  lemma RootIsListed(groups: Groups, ready: seq<Registration>, globals: seq<Value>, c: Id)
    ensures InValues(globals, c) ==> c in OwnedByAll(globals)
    ensures Continuation(Resume(c)) in ready ==> c in NamedBy(groups, ready)
  {
    OwnedByPart(globals, c);
    if Continuation(Resume(c)) in ready {
      assert Names(groups, Continuation(Resume(c))) == Some(c);
    }
  }

  lemma RootIsReached(nodes: Nodes, groups: Groups, roots: set<Id>, c: Id)
    requires c in roots
    ensures ReachedFrom(PushGraph(nodes, groups), roots, c)
  {
    ReachesSelf(PushGraph(nodes, groups), c);
  }

  lemma ReleaseVisitReady(before: Nodes, groups: Groups, roots: set<Id>, nodes: Nodes, now: Groups, seen: seq<Id>, work: seq<Id>)
    requires WellFormed(before, groups) && Releasing(before, groups, roots, nodes, now, seen, work)
    requires work != [] && work[|work| - 1] !in seen
    ensures work[|work| - 1] in before && work[|work| - 1] in nodes
    ensures nodes[work[|work| - 1]] == before[work[|work| - 1]]
    ensures !before[work[|work| - 1]].holding.Saved? ==> OwnedByOption(before[work[|work| - 1]].completion) == {}
  {
    assert work[|work| - 1] in Elems(work);
  }
}
