/**
The owner counts of a run: every event that has room for the count it adds
keeps every count exact, so that no resume and no reaction misses the
completion it waits for; an event without room makes the counts wrong.
*/
module SchedulerSafety {
  import opened StructViews
  import opened SchedulerSteps
  import opened SchedulerInvariant
  import opened SchedulerCounts
  import opened SchedulerRuns
  import opened SchedulerPlaces

  lemma HeldIsOwned(c: Core, held: map<Id, nat>, transit: set<Id>, h: Id)
    requires Owners(c, held, transit) && h in c.table && held[h] > 0
    ensures c.table[h].owners > 0
  {
    hide Links;
  }

  lemma TransitIsOwned(c: Core, held: map<Id, nat>, transit: set<Id>, h: Id)
    requires Owners(c, held, transit) && h in transit
    ensures h in c.table && c.table[h].owners > 0
  {
    hide Links;
  }

  // ----- owned handles keep their completions

  lemma KeptDrop(c: Core, h: Id)
    requires Kept(c) && h in c.table
    ensures Kept(Drop(c, h))
  {
  }

  lemma KeptRegister(c: Core, f: Id, h: Id, owned: bool)
    requires Kept(c) && f in c.table && h in c.table && c.table[h].owners > 0
    ensures Kept(Register(c, f, h, owned))
  {
    hide Register;
    RegisterTable(c, f, h, owned);
  }

  lemma KeptAddInput(c: Core, a: Id, h: Id)
    requires Kept(c) && a in c.table && c.table[a].kind.Aggregate? && h in c.table && h != a && c.table[h].owners > 0
    ensures Kept(AddInput(c, a, h))
  {
    hide AddInput;
    AddInputTable(c, a, h);
  }

  lemma KeptTake(c: Core, f: Id)
    requires Kept(c) && f in c.table && (c.table[f].awaiting.Some? ==> c.table[f].awaiting.value in c.table)
    ensures Kept(TakeCompletion(c, f))
  {
    if c.table[f].awaiting.Some? {
      var h := c.table[f].awaiting.value;
      var free := Put(c, f, c.table[f].(awaiting := None));
      assert Kept(Observe(free, h));
      KeptDrop(Observe(free, h), h);
    }
  }

  lemma KeptReaction(c: Core, a: Id, i: nat)
    requires Kept(c) && CanReact(c, a, i)
    ensures Kept(Reaction(c, a, i))
  {
    var h := c.table[a].kind.inputs[i].value;
    assert Kept(Observe(TakeInput(c, a, i), h));
    assert Kept(ReadInput(c, a, i));
    KeptDrop(ReadInput(c, a, i), h);
    KeptDrop(Drop(ReadInput(c, a, i), h), a);
  }

  // ----- creation

  lemma CountsCreate(s: Run, id: Id, kind: Kind, hostRoot: bool)
    requires Inv(s) && id !in s.core.table && (kind == Invocation || kind == Aggregate([], 0))
    ensures var c := Put(s.core, id, NewCoroutine(kind, hostRoot));
      && Kept(c)
      && Owners(c, s.held[id := 1], TransitOf(s.stack))
      && Owners(c, s.held[id := 0], TransitOf(s.stack) + {id})
  {
    hide Homes, Owners, ActiveOf, TransitOf, Reads, Aggregates, Stacked;
    LinksInTable(s.core, ActiveOf(s.stack));
    OwnersNew(s.core, s.held, TransitOf(s.stack), id, kind, hostRoot);
  }

  lemma CountsStart(s: Run, id: Id, purpose: Purpose, hostRoot: bool)
    requires Inv(s) && id !in s.core.table && !purpose.Resumed?
    ensures Counted(s.(core := Put(s.core, id, NewCoroutine(Invocation, hostRoot)),
                       held := s.held[id := if purpose.Created? then 1 else 0],
                       stack := s.stack + [Activation(id, purpose, false)]))
  {
    hide Places, Owners, Kept, TransitOf;
    CountsCreate(s, id, Invocation, hostRoot);
    StackPush(s.stack, id, purpose);
  }

  // ----- the events that add a count

  /** A new input is counted exactly when its count has room. */
  lemma CountsAddOne(s: Run, h: Id)
    requires Inv(s) && Enabled(s, AddOne(h))
    ensures Counted(After(s, AddOne(h))) <==> HasRoom(s, AddOne(h))
  {
    hide Places, Links, TransitOf, AddInput;
    var a := s.building.value;
    HeldIsOwned(s.core, s.held, TransitOf(s.stack), h);
    KeptAddInput(s.core, a, h);
    if HasRoom(s, AddOne(h)) {
      OwnersAddInput(s.core, s.held, TransitOf(s.stack), a, h);
    } else {
      LostInput(s.core, s.held, TransitOf(s.stack), a, h);
    }
  }

  lemma LostInput(c: Core, held: map<Id, nat>, transit: set<Id>, a: Id, h: Id)
    requires Owners(c, held, transit) && a in c.table && c.table[a].kind.Aggregate? && h in c.table && h != a
    requires c.table[h].owners == MAX_OWNERS
    ensures !Owners(AddInput(c, a, h), held, transit)
  {
    hide Links, AddInput;
    var d, n := AddInput(c, a, h), |c.table[a].kind.inputs|;
    AddInputTable(c, a, h);
    AddInputLinks(c, a, h);
    LinksInput(c.table, d.table, a, n, h);
    assert Claims(d.table, held, transit, h) == Claims(c.table, held, transit, h) + 1;
  }

  /** A retain is counted exactly when its count has room. */
  lemma CountsRetain(s: Run, h: Id)
    requires Inv(s) && Enabled(s, RetainHandle(h))
    ensures Counted(After(s, RetainHandle(h))) <==> HasRoom(s, RetainHandle(h))
  {
    hide Places, Links, TransitOf;
    var c := s.core;
    HeldIsOwned(c, s.held, TransitOf(s.stack), h);
    if HasRoom(s, RetainHandle(h)) {
      OwnersRetain(c, s.held, TransitOf(s.stack), h);
    } else {
      assert Retain(c, h).table == c.table;
      assert Claims(c.table, s.held[h := s.held[h] + 1], TransitOf(s.stack), h) ==
             Claims(c.table, s.held, TransitOf(s.stack), h) + 1;
    }
  }

  /** An await is counted exactly when it brings its own count or the count has room. */
  lemma CountsAwait(s: Run, h: Id, owned: bool)
    requires Inv(s) && Enabled(s, Await(h, owned))
    ensures Counted(After(s, Await(h, owned))) <==> HasRoom(s, Await(h, owned))
  {
    hide Places, Owners, Kept, TransitOf, Register, Stacked;
    var f, c, transit := Top(s).frame, s.core, TransitOf(s.stack);
    assert s.core.table[f].awaiting.None? && Stacked(s.stack) by { TopIsActive(s); StackedIn(s); }
    StackDone(s.stack);
    HeldIsOwned(c, s.held, transit, h);
    KeptRegister(c, f, h, owned);
    if owned {
      OwnersRegister(c, s.held, transit, f, h);
    } else if HasRoom(s, Await(h, owned)) {
      OwnersRegisterNew(c, s.held, transit, f, h);
    } else {
      LostAwait(c, s.held, transit, f, h);
    }
  }

  lemma StackedIn(s: Run)
    requires Places(s)
    ensures Stacked(s.stack)
  {
  }

  lemma LostAwait(c: Core, held: map<Id, nat>, transit: set<Id>, f: Id, h: Id)
    requires Owners(c, held, transit) && f in c.table && h in c.table && c.table[f].awaiting.None?
    requires c.table[h].owners == MAX_OWNERS
    ensures !Owners(Register(c, f, h, false), held, transit)
  {
    hide Links, Register;
    var d := Register(c, f, h, false);
    RegisterTable(c, f, h, false);
    LinksAwait(c.table, d.table, f, h);
    assert Claims(d.table, held, transit, h) == Claims(c.table, held, transit, h) + 1;
  }

  // ----- the events that add none

  lemma CountsEndAll(s: Run)
    requires Inv(s) && Enabled(s, EndAll)
    ensures Counted(After(s, EndAll))
  {
    hide Places, Owners, TransitOf;
    var a := s.building.value;
    if s.core.table[a].kind.inputs == [] {
      OwnersSame(s.core, Settle(s.core, a, Returned(a)), s.held, TransitOf(s.stack));
    }
  }

  lemma CountsRelease(s: Run, h: Id)
    requires Inv(s) && Enabled(s, ReleaseHandle(h))
    ensures Counted(After(s, ReleaseHandle(h)))
  {
    hide Places, Owners, Kept, TransitOf;
    OwnersRelease(s.core, s.held, TransitOf(s.stack), h);
    KeptDrop(s.core, h);
  }

  lemma CountsFinish(s: Run, x: Completion)
    requires Inv(s) && Running(s)
    ensures Counted(s.(core := Finish(s.core, Top(s).frame, x), stack := MarkDone(s.stack)))
  {
    hide Places, Owners, TransitOf, Stacked;
    var f, c := Top(s).frame, s.core;
    StackedIn(s);
    StackDone(s.stack);
    assert Kept(Settle(c, f, x));
    KeptDrop(Settle(c, f, x), f);
    OwnersFinish(c, s.held, TransitOf(s.stack), f, x);
  }

  lemma CountsPark(s: Run)
    requires Inv(s) && Enabled(s, Park)
    ensures Counted(After(s, Park))
  {
    hide Places, Owners, TransitOf, Stacked;
    StackedIn(s);
    StackDone(s.stack);
    OwnersSame(s.core, After(s, Park).core, s.held, TransitOf(s.stack));
  }

  lemma CountsUnwindKicked(s: Run)
    requires Inv(s) && Enabled(s, Unwind) && Top(s).purpose.Kicked?
    ensures Counted(After(s, Unwind))
  {
    hide Places, Owners, Kept, TransitOf, Stacked;
    StackedIn(s);
    StackPop(s.stack);
    OnStack(s.stack, |s.stack| - 1);
    OwnersArrive(s.core, s.held, TransitOf(s.stack), Top(s).frame);
    KeptDrop(s.core, Top(s).frame);
  }

  lemma CountsUnwindCalled(s: Run)
    requires Inv(s) && Enabled(s, Unwind) && Top(s).purpose.Called?
    ensures Counted(After(s, Unwind))
  {
    hide Places, Owners, Kept, TransitOf, Stacked, Register;
    var f, p, c, rest := Top(s).frame, Top(s).purpose.parent, s.core, Pop(s);
    StackedIn(s);
    StackPop(s.stack);
    CallerWaitsForNothing(s);
    StackDone(rest);
    OnStack(s.stack, |s.stack| - 1);
    TransitIsOwned(c, s.held, TransitOf(s.stack), f);
    OwnersRegister(c, s.held, TransitOf(s.stack), p, f);
    KeptRegister(c, p, f, true);
  }

  lemma CallerWaitsForNothing(s: Run)
    requires Places(s) && Enabled(s, Unwind) && Top(s).purpose.Called?
    ensures |s.stack| > 1 && !s.stack[|s.stack| - 2].done
    ensures s.core.table[Top(s).purpose.parent].awaiting.None?
  {
    hide Homes;
    OnStack(s.stack, |s.stack| - 2);
    ActiveIsKnown(s.core, ActiveOf(s.stack), Top(s).purpose.parent);
  }

  lemma CountsUnwindOther(s: Run)
    requires Inv(s) && Enabled(s, Unwind) && !Top(s).purpose.Kicked? && !Top(s).purpose.Called?
    ensures Counted(After(s, Unwind))
  {
    hide Places, Owners, Kept, TransitOf, Stacked;
    StackedIn(s);
    StackPop(s.stack);
  }

  lemma CountsBeginCheckpoint(s: Run)
    requires Inv(s) && Enabled(s, BeginCheckpoint)
    ensures Counted(After(s, BeginCheckpoint))
  {
    hide Places, Owners, TransitOf;
    OwnersSame(s.core, Unpark(s.core), s.held, TransitOf(s.stack));
  }

  // ----- dispatch

  /** A ready frame that awaited a handle finds its completion. */
  lemma ResumeHasCompletion(s: Run, f: Id)
    requires Inv(s) && Resume(f) in s.core.ready
    ensures Unfinished(s.core.table, f)
    ensures s.core.table[f].awaiting.Some? ==>
      var h := s.core.table[f].awaiting.value; h in s.core.table && s.core.table[h].completion.Some?
  {
    hide Owners, Aggregates, Reads, WaitingJobs, InputsKept, FramesKept, TransitOf;
    var c := s.core;
    assert ReadyJob(c, ActiveOf(s.stack), Resume(f));
    if c.table[f].awaiting.Some? {
      LinkOwns(c, s.held, TransitOf(s.stack), c.table[f].awaiting.value);
    }
  }

  /** A ready reaction finds the completion of the input that it reads. */
  lemma ReactionHasCompletion(s: Run, a: Id, i: nat)
    requires Inv(s) && React(a, i) in s.core.ready
    ensures CanReact(s.core, a, i)
  {
    hide Places, Owners, TransitOf;
    var h := ReactionIsKnown(s, a, i);
    LinkOwns(s.core, s.held, TransitOf(s.stack), h);
  }

  lemma CountsDispatchResume(s: Run, f: Id)
    requires Inv(s) && Idle(s) && s.core.ready != [] && s.core.ready[0] == Resume(f)
    ensures Counted(DispatchHead(s)) && !DispatchHead(s).defect
  {
    hide Places, Owners, Kept, TransitOf, Unfinished, TakeCompletion;
    var c := s.core.(ready := s.core.ready[1..]);
    ResumeHasCompletion(s, f);
    UnfinishedIs(c.table, f);
    OwnersSame(s.core, c, s.held, TransitOf([]));
    OwnersTake(c, s.held, TransitOf([]), f);
    assert Kept(c) by { KeptSame(s.core, c); }
    KeptTake(c, f);
    StackPush([], f, Resumed);
    assert [] + [Activation(f, Resumed, false)] == [Activation(f, Resumed, false)];
  }

  lemma KeptSame(c: Core, d: Core)
    requires Kept(c) && d.table == c.table
    ensures Kept(d)
  {
  }

  lemma OwnersReaction(c: Core, held: map<Id, nat>, transit: set<Id>, a: Id, i: nat)
    requires Owners(c, held, transit) && CanReact(c, a, i)
    ensures Owners(Reaction(c, a, i), held, transit)
  {
    hide Owners, Links, Reaction, ReadInput;
    var h := c.table[a].kind.inputs[i].value;
    OwnersTakeInput(c, held, transit, a, i, h);
    ReadInputTable(c, a, i);
    ReactionPlaces(c, a, i);
    DropPlaces(TakeInput(c, a, i), h);
    OwnersSame(Drop(TakeInput(c, a, i), h), Reaction(c, a, i), held, transit);
  }

  lemma CountsDispatchReact(s: Run, a: Id, i: nat)
    requires Inv(s) && Idle(s) && s.core.ready != [] && s.core.ready[0] == React(a, i)
    ensures Counted(DispatchHead(s)) && !DispatchHead(s).defect
  {
    hide Places, Owners, Kept, TransitOf, Reaction;
    var c := s.core.(ready := s.core.ready[1..]);
    ReactionHasCompletion(s, a, i);
    assert CanReact(c, a, i);
    OwnersSame(s.core, c, s.held, TransitOf(s.stack));
    OwnersReaction(c, s.held, TransitOf(s.stack), a, i);
    KeptSame(s.core, c);
    KeptReaction(c, a, i);
  }

  // ----- every event

  /** From a counted state no event meets a defect, and its counts stay exact exactly when it has room. */
  lemma CountsStep(s: Run, e: Event)
    requires Inv(s) && Enabled(s, e)
    ensures !After(s, e).defect
    ensures Counted(After(s, e)) <==> HasRoom(s, e)
  {
    hide Inv, Counted, DispatchHead;
    InvIs(s);
    match e
    case Kick(id) =>
      CountsStart(s, id, Kicked, true);
      assert s.stack + [Activation(id, Kicked, false)] == [Activation(id, Kicked, false)];
    case Spawn(id) => CountsStart(s, id, Created, false);
    case Call(id) => CountsStart(s, id, Called(Top(s).frame), false);
    case BeginAll(id) => CountsBeginAll(s, id);
    case AddOne(h) => CountsAddOne(s, h);
    case EndAll => CountsEndAll(s);
    case RetainHandle(h) => CountsRetain(s, h);
    case ReleaseHandle(h) => CountsRelease(s, h);
    case Return(v) => CountsFinish(s, Returned(v));
    case Raise(x) => CountsFinish(s, Raised(x, false));
    case Park => CountsPark(s);
    case Await(h, owned) => CountsAwait(s, h, owned);
    case Unwind =>
      if Top(s).purpose.Kicked? {
        CountsUnwindKicked(s);
      } else if Top(s).purpose.Called? {
        CountsUnwindCalled(s);
      } else {
        CountsUnwindOther(s);
      }
    case BeginCheckpoint => CountsBeginCheckpoint(s);
    case Dispatch =>
      if s.core.ready[0].Resume? {
        CountsDispatchResume(s, s.core.ready[0].frame);
      } else {
        CountsDispatchReact(s, s.core.ready[0].aggregate, s.core.ready[0].index);
      }
    case EndCheckpoint => CountsEndCheckpoint(s);
  }

  lemma InvIs(s: Run)
    requires Inv(s)
    ensures Places(s) && Counted(s) && !s.defect
  {
  }

  lemma CountsBeginAll(s: Run, id: Id)
    requires Inv(s) && Enabled(s, BeginAll(id))
    ensures Counted(After(s, BeginAll(id)))
  {
    hide Places, Owners, Kept, TransitOf;
    CountsCreate(s, id, Aggregate([], 0), false);
  }

  lemma CountsEndCheckpoint(s: Run)
    requires Counted(s)
    ensures Counted(s.(draining := false))
  {
    hide Owners, Kept;
  }

  /** An event keeps the invariant exactly when it has room for the count that it adds. */
  lemma StepKeepsInv(s: Run, e: Event)
    requires Inv(s) && Enabled(s, e)
    ensures Inv(After(s, e)) <==> HasRoom(s, e)
    ensures !After(s, e).defect && Places(After(s, e))
  {
    hide Places, Counted, After;
    CountsStep(s, e);
    PlacesStep(s, e);
  }
}
