/**
Every event of a run keeps each frame and each registration in its one place,
whatever the owner counts are, as long as it meets no defect.
*/
module SchedulerPlaces {
  import opened StructViews
  import opened SchedulerSteps
  import opened SchedulerInvariant
  import opened SchedulerCounts
  import opened SchedulerRuns

  // ----- completions and aggregates

  lemma LinksInTable(c: Core, active: set<Id>)
    requires Homes(c, active)
    ensures forall f | f in c.table && c.table[f].awaiting.Some? :: c.table[f].awaiting.value in c.table
    ensures forall a, i, h | HasInput(c.table, a, i, h) :: h in c.table
  {
    forall a, i, h | HasInput(c.table, a, i, h) ensures h in c.table { assert At(c, h, React(a, i)); }
  }

  /** The two tables differ in owner counts, waiters and awaits of frames only. */
  ghost predicate SameReads(c: Core, d: Core) {
    && c.table.Keys == d.table.Keys
    && forall g | g in c.table ::
      && d.table[g].kind == c.table[g].kind
      && d.table[g].completed == c.table[g].completed
      && d.table[g].completion == c.table[g].completion
      && (c.table[g].kind.Aggregate? ==> d.table[g].awaiting == c.table[g].awaiting)
  }

  lemma RestSame(c: Core, d: Core, building: Option<Id>)
    requires Reads(c) && Aggregates(c, building) && SameReads(c, d)
    ensures Reads(d) && Aggregates(d, building)
  {
    assert forall g | g in c.table :: Unread(d.table[g]) == Unread(c.table[g]);
  }

  lemma RestDrop(c: Core, h: Id, building: Option<Id>)
    requires Reads(c) && Aggregates(c, building) && h in c.table
    ensures Reads(Drop(c, h)) && Aggregates(Drop(c, h), building)
  {
    assert Drop(c, h).table[h].kind == c.table[h].kind;
  }

  lemma RestRetain(c: Core, h: Id, building: Option<Id>)
    requires Reads(c) && Aggregates(c, building) && h in c.table
    ensures Reads(Retain(c, h)) && Aggregates(Retain(c, h), building)
  {
    RestSame(c, Retain(c, h), building);
  }

  lemma RestSettle(c: Core, h: Id, x: Completion)
    requires Reads(c) && Aggregates(c, None) && h in c.table
    ensures Reads(Settle(c, h, x)) && Aggregates(Settle(c, h, x), None)
  {
    assert Settle(c, h, x).table[h].kind == c.table[h].kind;
  }

  lemma RestRegister(c: Core, f: Id, h: Id, owned: bool)
    requires Reads(c) && Aggregates(c, None) && f in c.table && h in c.table && c.table[f].kind.Invocation?
    ensures Reads(Register(c, f, h, owned)) && Aggregates(Register(c, f, h, owned), None)
  {
    hide Reads, Aggregates;
    RegisterTable(c, f, h, owned);
    RestSame(c, Register(c, f, h, owned), None);
  }

  // ----- creation

  lemma RestNew(c: Core, id: Id, kind: Kind, hostRoot: bool)
    requires Reads(c) && Aggregates(c, None) && id !in c.table && (kind == Invocation || kind == Aggregate([], 0))
    ensures Reads(Put(c, id, NewCoroutine(kind, hostRoot)))
    ensures Aggregates(Put(c, id, NewCoroutine(kind, hostRoot)), if kind.Aggregate? then Some(id) else None)
  {
  }

  /** A new frame starts above the frame that creates or calls it, or alone. */
  lemma PlacesStart(s: Run, id: Id, purpose: Purpose, hostRoot: bool)
    requires Places(s) && s.building.None? && id !in s.core.table
    requires s.stack != [] ==> !Top(s).done
    requires purpose.Called? ==> s.stack != [] && Top(s).frame == purpose.parent
    ensures Places(s.(core := Put(s.core, id, NewCoroutine(Invocation, hostRoot)),
                      held := s.held[id := if purpose.Created? then 1 else 0],
                      stack := s.stack + [Activation(id, purpose, false)]))
  {
    hide Homes, Reads, Aggregates, ActiveOf, Stacked;
    HomesNew(s.core, ActiveOf(s.stack), id, hostRoot);
    RestNew(s.core, id, Invocation, hostRoot);
    StackPush(s.stack, id, purpose);
    StackedPush(s.stack, id, purpose);
  }

  lemma PlacesBeginAll(s: Run, id: Id)
    requires Places(s) && s.building.None? && id !in s.core.table
    ensures Places(s.(core := Put(s.core, id, NewCoroutine(Aggregate([], 0), false)), held := s.held[id := 1],
                      building := Some(id)))
  {
    hide Homes, Reads, Aggregates, ActiveOf, Stacked;
    HomesNew(s.core, ActiveOf(s.stack), id, false);
    RestNew(s.core, id, Aggregate([], 0), false);
  }

  // ----- aggregates

  lemma RestAddInput(c: Core, a: Id, h: Id)
    requires Reads(c) && Aggregates(c, Some(a)) && h in c.table && h != a
    ensures Reads(AddInput(c, a, h)) && Aggregates(AddInput(c, a, h), Some(a))
  {
    hide CountSome, AddInput;
    CountSomeAdd(c.table[a].kind.inputs, h);
    AddInputTable(c, a, h);
    var d := AddInput(c, a, h);
    assert forall g | g in c.table && g != a :: Unread(d.table[g]) == Unread(c.table[g]);
  }

  lemma PlacesAddOne(s: Run, h: Id)
    requires Places(s) && Enabled(s, AddOne(h))
    ensures Places(After(s, AddOne(h)))
  {
    hide Homes, Reads, Aggregates, ActiveOf, Stacked, AddInput;
    AddInputTable(s.core, s.building.value, h);
    HomesAddInput(s.core, ActiveOf(s.stack), s.building.value, h);
    RestAddInput(s.core, s.building.value, h);
  }

  lemma RestEndAll(c: Core, a: Id)
    requires Reads(c) && Aggregates(c, Some(a))
    ensures var d := if c.table[a].kind.inputs == [] then Settle(c, a, Returned(a)) else c;
      Reads(d) && Aggregates(d, None)
  {
    CountSomeUnread(c.table[a].kind.inputs);
    assert Settle(c, a, Returned(a)).table[a].kind == c.table[a].kind;
  }

  lemma PlacesEndAll(s: Run)
    requires Places(s) && Enabled(s, EndAll)
    ensures Places(After(s, EndAll))
  {
    hide Homes, Reads, Aggregates, ActiveOf;
    var a := s.building.value;
    RestEndAll(s.core, a);
    if s.core.table[a].kind.inputs == [] {
      BuildingIsOpen(s.core, a);
      HomesSettle(s.core, ActiveOf(s.stack), a, Returned(a));
      AggregateIsNotActive(s, a);
      assert ActiveOf(s.stack) - {a} == ActiveOf(s.stack);
    }
  }

  lemma BuildingIsOpen(c: Core, a: Id)
    requires Aggregates(c, Some(a))
    ensures a in c.table && c.table[a].kind.Aggregate? && !c.table[a].completed
  {
  }

  lemma AggregateIsNotActive(s: Run, a: Id)
    requires Places(s) && a in s.core.table && s.core.table[a].kind.Aggregate?
    ensures a !in ActiveOf(s.stack)
  {
    if a in ActiveOf(s.stack) {
      ActiveIsKnown(s.core, ActiveOf(s.stack), a);
    }
  }

  // ----- the script's counts

  lemma PlacesRetain(s: Run, h: Id)
    requires Places(s) && Enabled(s, RetainHandle(h))
    ensures Places(After(s, RetainHandle(h)))
  {
    hide Homes, Reads, Aggregates, ActiveOf, Stacked;
    HomesSame(s.core, Retain(s.core, h), ActiveOf(s.stack));
    RestRetain(s.core, h, None);
  }

  lemma PlacesRelease(s: Run, h: Id)
    requires Places(s) && Enabled(s, ReleaseHandle(h))
    ensures Places(After(s, ReleaseHandle(h)))
  {
    hide Homes, Reads, Aggregates, ActiveOf, Stacked;
    HomesSame(s.core, Drop(s.core, h), ActiveOf(s.stack));
    RestDrop(s.core, h, None);
  }

  // ----- the outcomes of the running frame

  lemma TopIsActive(s: Run)
    requires Places(s) && Running(s)
    ensures Top(s).frame in ActiveOf(s.stack)
    ensures Unfinished(s.core.table, Top(s).frame) && s.core.table[Top(s).frame].awaiting.None?
  {
    ActiveIsKnown(s.core, ActiveOf(s.stack), Top(s).frame);
  }

  /** A frame that returns or raises leaves the stack and makes its waiters ready. */
  lemma PlacesFinish(s: Run, x: Completion)
    requires Places(s) && Running(s)
    ensures Places(s.(core := Finish(s.core, Top(s).frame, x), stack := MarkDone(s.stack)))
  {
    hide Homes, Reads, Aggregates, ActiveOf;
    var f, c := Top(s).frame, s.core;
    TopIsActive(s);
    StackDone(s.stack);
    HomesSettle(c, ActiveOf(s.stack), f, x);
    RestSettle(c, f, x);
    RestDrop(Settle(c, f, x), f, None);
    HomesSame(Settle(c, f, x), Finish(c, f, x), ActiveOf(s.stack) - {f});
  }

  /** A parked frame leaves the stack and is in the parked list only. */
  lemma PlacesPark(s: Run)
    requires Places(s) && Enabled(s, Park)
    ensures Places(After(s, Park))
  {
    hide Homes, ActiveOf, Reads, Aggregates;
    TopIsActive(s);
    StackDone(s.stack);
    HomesPark(s.core, ActiveOf(s.stack), Top(s).frame);
    RestSame(s.core, After(s, Park).core, None);
  }

  /** A frame that awaits leaves the stack and is at its handle only, also when the handle is its own. */
  lemma PlacesAwait(s: Run, h: Id, owned: bool)
    requires Places(s) && Enabled(s, Await(h, owned))
    ensures Places(After(s, Await(h, owned)))
  {
    hide Homes, Reads, Aggregates, ActiveOf, Register;
    var f := Top(s).frame;
    TopIsActive(s);
    StackDone(s.stack);
    RegisterTable(s.core, f, h, owned);
    HomesRegister(s.core, ActiveOf(s.stack), f, h, owned);
    RestRegister(s.core, f, h, owned);
  }

  // ----- the end of an activation

  lemma PlacesUnwindKicked(s: Run)
    requires Places(s) && Enabled(s, Unwind) && Top(s).purpose.Kicked?
    ensures Places(After(s, Unwind))
  {
    hide Homes, Reads, Aggregates, ActiveOf;
    StackPop(s.stack);
    HomesSame(s.core, Drop(s.core, Top(s).frame), ActiveOf(s.stack));
    RestDrop(s.core, Top(s).frame, None);
  }

  /** The caller of a frame waits for it once its first part has run. */
  lemma PlacesUnwindCalled(s: Run)
    requires Places(s) && Enabled(s, Unwind) && Top(s).purpose.Called?
    ensures Places(After(s, Unwind))
  {
    hide Homes, Reads, Aggregates, ActiveOf, Register;
    var f, p, c, rest := Top(s).frame, Top(s).purpose.parent, s.core, Pop(s);
    StackPop(s.stack);
    assert rest[|rest| - 1] == s.stack[|s.stack| - 2];
    OnStack(rest, |rest| - 1);
    ActiveIsKnown(c, ActiveOf(rest), p);
    StackDone(rest);
    RegisterTable(c, p, f, true);
    HomesRegister(c, ActiveOf(rest), p, f, true);
    RestRegister(c, p, f, true);
  }

  lemma PlacesUnwindOther(s: Run)
    requires Places(s) && Enabled(s, Unwind) && !Top(s).purpose.Kicked? && !Top(s).purpose.Called?
    ensures Places(After(s, Unwind))
  {
    hide Homes, Reads, Aggregates, ActiveOf;
    StackPop(s.stack);
  }

  // ----- checkpoints

  lemma PlacesBeginCheckpoint(s: Run)
    requires Places(s) && Enabled(s, BeginCheckpoint)
    ensures Places(After(s, BeginCheckpoint))
  {
    hide Homes, ActiveOf, Reads, Aggregates;
    HomesUnpark(s.core, ActiveOf(s.stack));
    RestSame(s.core, Unpark(s.core), None);
  }

  lemma DispatchUnlinks(c: Core, d: Core)
    requires c.ready != []
    requires match c.ready[0]
      case Resume(f) => f in c.table && d == Put(c.(ready := c.ready[1..]), f, c.table[f].(awaiting := None)) && c.table[f].kind.Invocation?
      case React(a, i) => exists h :: HasInput(c.table, a, i, h) && d == TakeInput(c.(ready := c.ready[1..]), a, i)
    ensures Unlinked(c, d, c.ready[0])
  {
    match c.ready[0]
    case Resume(f) =>
      assert forall a, i, g :: HasInput(d.table, a, i, g) <==> HasInput(c.table, a, i, g);
    case React(a, i) =>
      assert forall b, j, g :: HasInput(d.table, b, j, g) <==> HasInput(c.table, b, j, g) && (b != a || j != i);
  }

  /** A ready frame is unfinished, and the handle that it awaits, if any, is known. */
  lemma ResumeIsKnown(s: Run, f: Id)
    requires Places(s) && Resume(f) in s.core.ready
    ensures Unfinished(s.core.table, f)
    ensures s.core.table[f].awaiting.Some? ==> s.core.table[f].awaiting.value in s.core.table
  {
    hide Aggregates, Reads, WaitingJobs, InputsKept, FramesKept;
    assert ReadyJob(s.core, ActiveOf(s.stack), Resume(f));
  }

  lemma RestTake(c: Core, f: Id)
    requires Reads(c) && Aggregates(c, None) && f in c.table && c.table[f].kind.Invocation?
    requires c.table[f].awaiting.Some? ==> c.table[f].awaiting.value in c.table
    ensures Reads(TakeCompletion(c, f)) && Aggregates(TakeCompletion(c, f), None)
  {
    var free := Put(c, f, c.table[f].(awaiting := None));
    assert Reads(free) && Aggregates(free, None);
    if c.table[f].awaiting.Some? {
      var h := c.table[f].awaiting.value;
      assert Observe(free, h).table[h].kind == c.table[h].kind;
      assert Reads(Observe(free, h)) && Aggregates(Observe(free, h), None);
      RestDrop(Observe(free, h), h, None);
    }
  }

  lemma TakePlaces(c: Core, f: Id)
    requires f in c.table && (c.table[f].awaiting.Some? ==> c.table[f].awaiting.value in c.table)
    ensures SamePlaces(Put(c, f, c.table[f].(awaiting := None)), TakeCompletion(c, f))
  {
  }

  lemma HomesTake(s: Core, active: set<Id>, f: Id)
    requires Homes(s, active) && s.ready != [] && s.ready[0] == Resume(f) && Unfinished(s.table, f)
    requires s.table[f].awaiting.Some? ==> s.table[f].awaiting.value in s.table
    ensures Homes(TakeCompletion(s.(ready := s.ready[1..]), f), active + {f})
  {
    hide Homes, Unlinked, TakeCompletion;
    var c := s.(ready := s.ready[1..]);
    var free := Put(c, f, c.table[f].(awaiting := None));
    DispatchUnlinks(s, free);
    HomesUnlink(s, free, active, Resume(f));
    TakePlaces(c, f);
    HomesSame(free, TakeCompletion(c, f), active + {f});
  }

  lemma PlacesDispatchResume(s: Run, f: Id)
    requires Places(s) && Idle(s) && s.core.ready != [] && s.core.ready[0] == Resume(f) && !DispatchHead(s).defect
    ensures Places(DispatchHead(s))
  {
    hide Homes, Reads, Aggregates, ActiveOf, Unfinished, TakeCompletion;
    var c := s.core.(ready := s.core.ready[1..]);
    ResumeIsKnown(s, f);
    UnfinishedIs(c.table, f);
    HomesTake(s.core, ActiveOf([]), f);
    RestSame(s.core, c, None);
    RestTake(c, f);
    StackPush([], f, Resumed);
    TakeTable(c, f);
    assert [] + [Activation(f, Resumed, false)] == [Activation(f, Resumed, false)];
  }

  lemma UnfinishedIs(t: Coroutines, f: Id)
    requires Unfinished(t, f)
    ensures f in t && t[f].kind.Invocation? && !t[f].completed
  {
  }

  // ----- reactions

  /** A ready reaction has an input to read, and its aggregate keeps a completion that it has. */
  lemma ReactionIsKnown(s: Run, a: Id, i: nat) returns (h: Id)
    requires Places(s) && React(a, i) in s.core.ready
    ensures HasInput(s.core.table, a, i, h) && h != a && h in s.core.table && s.core.table[h].completed
    ensures s.core.table[a].completed ==> s.core.table[a].completion.Some?
  {
    hide Aggregates, WaitingJobs, AwaitsKept, FramesKept;
    var c := s.core;
    assert ReadyJob(c, ActiveOf(s.stack), React(a, i));
    h :| HasInput(c.table, a, i, h) && h in c.table && c.table[h].completed;
    assert h != a && At(c, h, React(a, i));
    assert Unread(c.table[a]);
  }

  /** A release changes an owner count and a completion, and nothing else. */
  lemma DropPlaces(c: Core, h: Id)
    requires h in c.table
    ensures SamePlaces(c, Drop(c, h)) && SameLinks(c.table, Drop(c, h).table)
    ensures SamePlaces(c, DropUnowned(c, h)) && SameLinks(c.table, DropUnowned(c, h).table)
    ensures forall g | g in c.table ::
      Drop(c, h).table[g].owners == if g == h then OneLess(c.table[g].owners) else c.table[g].owners
    ensures forall g | g in c.table :: DropUnowned(c, h).table[g].owners == c.table[g].owners
  {
  }

  lemma ReactionPlaces(c: Core, a: Id, i: nat)
    requires CanReact(c, a, i)
    ensures SamePlaces(ReadInput(c, a, i), Reaction(c, a, i))
    ensures SameLinks(ReadInput(c, a, i).table, Reaction(c, a, i).table)
    ensures forall g | g in c.table :: Reaction(c, a, i).table[g].owners ==
              var n := ReadInput(c, a, i).table[g].owners;
              if g == c.table[a].kind.inputs[i].value then OneLess(n) else n
  {
    hide Drop, DropUnowned, ReadInput;
    var h := c.table[a].kind.inputs[i].value;
    DropPlaces(ReadInput(c, a, i), h);
    DropPlaces(Drop(ReadInput(c, a, i), h), a);
  }

  /** Reading an input takes it away from the aggregate and may complete the aggregate. */
  lemma ReadInputTable(c: Core, a: Id, i: nat)
    requires CanReact(c, a, i)
    ensures SameLinks(TakeInput(c, a, i).table, ReadInput(c, a, i).table)
    ensures forall g | g in c.table ::
      && ReadInput(c, a, i).table[g].owners == c.table[g].owners
      && (g != a ==> ReadInput(c, a, i).table[g].completed == c.table[g].completed)
    ensures ReadInput(c, a, i).table[a].completed ==
              (c.table[a].completed || Outcome(a, TakeInput(c, a, i).table[a], c.table[c.table[a].kind.inputs[i].value].completion.value).Some?)
  {
    var h := c.table[a].kind.inputs[i].value;
    assert Observe(TakeInput(c, a, i), h).table[a] == TakeInput(c, a, i).table[a];
  }

  lemma ReadsReaction(c: Core, a: Id, i: nat)
    requires Reads(c) && CanReact(c, a, i)
    ensures Reads(Reaction(c, a, i))
  {
    var h := c.table[a].kind.inputs[i].value;
    assert Reads(TakeInput(c, a, i)) by {
      var d := TakeInput(c, a, i);
      assert Unread(d.table[a]) ==> Unread(c.table[a]) by {
        if Unread(d.table[a]) {
          var j :| 0 <= j < |d.table[a].kind.inputs| && d.table[a].kind.inputs[j].Some?;
          assert c.table[a].kind.inputs[j].Some?;
        }
      }
    }
    assert Reads(Observe(TakeInput(c, a, i), h));
    assert Reads(ReadInput(c, a, i));
    ReadsDrop(ReadInput(c, a, i), h);
    ReadsDrop(Drop(ReadInput(c, a, i), h), a);
  }

  lemma ReadsDrop(c: Core, h: Id)
    requires Reads(c) && h in c.table
    ensures Reads(Drop(c, h))
  {
  }

  lemma AggregatesReaction(c: Core, a: Id, i: nat)
    requires Aggregates(c, None) && Reads(c) && CanReact(c, a, i)
    requires c.table[a].completed ==> c.table[a].completion.Some?
    ensures Aggregates(Reaction(c, a, i), None)
  {
    hide Reaction, ReadInput;
    CountSomeTake(c.table[a].kind.inputs, i);
    ReadInputTable(c, a, i);
    ReactionPlaces(c, a, i);
  }

  lemma HomesReadInput(c: Core, active: set<Id>, a: Id, i: nat)
    requires CanReact(c, a, i) && Homes(TakeInput(c, a, i), active) && a !in active
    requires c.table[a].completed ==> c.table[a].completion.Some?
    ensures Homes(ReadInput(c, a, i), active)
  {
    hide Homes;
    var h := c.table[a].kind.inputs[i].value;
    var taken := Observe(TakeInput(c, a, i), h);
    HomesSame(TakeInput(c, a, i), taken, active);
    var outcome := Outcome(a, taken.table[a], c.table[h].completion.value);
    if outcome.Some? {
      HomesSettle(taken, active, a, outcome.value);
      assert active - {a} == active;
    }
  }

  lemma HomesReaction(s: Core, active: set<Id>, a: Id, i: nat)
    requires Homes(s, active) && a !in active && s.ready != [] && s.ready[0] == React(a, i)
    requires CanReact(s, a, i) && (s.table[a].completed ==> s.table[a].completion.Some?)
    ensures Homes(Reaction(s.(ready := s.ready[1..]), a, i), active)
  {
    hide Homes, Unlinked, Reaction, ReadInput;
    var c := s.(ready := s.ready[1..]);
    assert HasInput(s.table, a, i, c.table[a].kind.inputs[i].value);
    DispatchUnlinks(s, TakeInput(c, a, i));
    HomesUnlink(s, TakeInput(c, a, i), active, React(a, i));
    HomesReadInput(c, active, a, i);
    ReactionPlaces(c, a, i);
    HomesSame(ReadInput(c, a, i), Reaction(c, a, i), active);
  }

  lemma PlacesDispatchReact(s: Run, a: Id, i: nat)
    requires Places(s) && Idle(s) && s.core.ready != [] && s.core.ready[0] == React(a, i) && !DispatchHead(s).defect
    ensures Places(DispatchHead(s))
  {
    hide Homes, Reads, Aggregates, ActiveOf, Reaction;
    var c := s.core.(ready := s.core.ready[1..]);
    var h := ReactionIsKnown(s, a, i);
    AggregateIsNotActive(s, a);
    HomesReaction(s.core, ActiveOf(s.stack), a, i);
    RestSame(s.core, c, None);
    ReadsReaction(c, a, i);
    AggregatesReaction(c, a, i);
    ReactionPlaces(c, a, i);
  }

  /** Every event that meets no defect keeps every frame and registration in its one place. */
  lemma PlacesStep(s: Run, e: Event)
    requires Places(s) && Enabled(s, e) && !After(s, e).defect
    ensures Places(After(s, e))
  {
    hide Places, DispatchHead;
    match e
    case Kick(id) =>
      PlacesStart(s, id, Kicked, true);
      assert s.stack + [Activation(id, Kicked, false)] == [Activation(id, Kicked, false)];
    case Spawn(id) => PlacesStart(s, id, Created, false);
    case Call(id) => PlacesStart(s, id, Called(Top(s).frame), false);
    case BeginAll(id) => PlacesBeginAll(s, id);
    case AddOne(h) => PlacesAddOne(s, h);
    case EndAll => PlacesEndAll(s);
    case RetainHandle(h) => PlacesRetain(s, h);
    case ReleaseHandle(h) => PlacesRelease(s, h);
    case Return(v) => PlacesFinish(s, Returned(v));
    case Raise(x) => PlacesFinish(s, Raised(x, false));
    case Park => PlacesPark(s);
    case Await(h, owned) => PlacesAwait(s, h, owned);
    case Unwind =>
      if Top(s).purpose.Kicked? {
        PlacesUnwindKicked(s);
      } else if Top(s).purpose.Called? {
        PlacesUnwindCalled(s);
      } else {
        PlacesUnwindOther(s);
      }
    case BeginCheckpoint => PlacesBeginCheckpoint(s);
    case Dispatch =>
      if s.core.ready[0].Resume? {
        PlacesDispatchResume(s, s.core.ready[0].frame);
      } else {
        PlacesDispatchReact(s, s.core.ready[0].aggregate, s.core.ready[0].index);
      }
    case EndCheckpoint => PlacesEndCheckpoint(s);
  }

  lemma PlacesEndCheckpoint(s: Run)
    requires Places(s)
    ensures Places(s.(draining := false))
  {
    hide Homes, Reads, Aggregates;
  }
}
