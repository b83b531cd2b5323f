/**
What holds of every run of the scheduler: no protocol defect, no lost frame,
first-come order, completions that stay while somebody owns them, and a wait
cycle behind every frame that is left when no work is pending.
*/
module SchedulerTheorems {
  import opened Graphs
  import opened StructViews
  import opened SchedulerSteps
  import opened SchedulerInvariant
  import opened SchedulerCounts
  import opened SchedulerRuns
  import opened SchedulerPlaces
  import opened SchedulerSafety

  // ----- runs

  /** The states of a run and the events between them; only the last state can have met a defect. */
  ghost predicate IsRun(states: seq<Run>, events: seq<Event>) {
    && |states| == |events| + 1 && states[0] == INITIAL
    && forall i | 0 <= i < |events| :: Steps(states[i], events[i], states[i + 1])
  }

  ghost predicate Steps(s: Run, e: Event, t: Run) {
    Enabled(s, e) && t == After(s, e)
  }

  /** No event of the run loses a count. */
  ghost predicate CountsAll(states: seq<Run>, events: seq<Event>)
    requires IsRun(states, events)
  {
    forall i | 0 <= i < |events| :: Steps(states[i], events[i], states[i + 1]) && HasRoom(states[i], events[i])
  }

  /** In every run, whatever its counts, each state before a defect has every frame and registration in its place. */
  lemma {:induction false} RunKeepsPlaces(states: seq<Run>, events: seq<Event>, k: nat)
    requires IsRun(states, events) && k < |states| && !states[k].defect
    ensures Places(states[k])
  {
    hide Places, Enabled, After;
    if k == 0 {
      InitialInv();
      InvIs(INITIAL);
    } else {
      assert Steps(states[k - 1], events[k - 1], states[k - 1 + 1]);
      NotDefect(states[k - 1], events[k - 1]);
      RunKeepsPlaces(states, events, k - 1);
      PlacesStep(states[k - 1], events[k - 1]);
    }
  }

  lemma NotDefect(s: Run, e: Event)
    requires Enabled(s, e)
    ensures !s.defect
  {
  }

  /** A run that loses no count meets the invariant in every state; in particular it meets no defect. */
  lemma {:induction false} RunIsSafe(states: seq<Run>, events: seq<Event>, k: nat)
    requires IsRun(states, events) && CountsAll(states, events) && k < |states|
    ensures Inv(states[k]) && !states[k].defect
  {
    hide Inv, Enabled, HasRoom, After;
    if k == 0 {
      InitialInv();
    } else {
      assert Steps(states[k - 1], events[k - 1], states[k - 1 + 1]);
      RunIsSafe(states, events, k - 1);
      StepKeepsInv(states[k - 1], events[k - 1]);
    }
    InvIs(states[k]);
  }

  // ----- no frame is lost

  /** A suspended frame that has not returned is in exactly one place, and waits only at the handle that it awaits. */
  lemma OnePlace(s: Run, f: Id)
    requires Places(s) && Unfinished(s.core.table, f) && f !in ActiveOf(s.stack)
    ensures var t := s.core.table;
      if Resume(f) in s.core.ready then f !in s.core.parked && forall h | h in t :: Resume(f) !in t[h].waiters
      else if f in s.core.parked then forall h | h in t :: Resume(f) !in t[h].waiters
      else t[f].awaiting.Some? && forall h | h in t :: Resume(f) in t[h].waiters <==> h == t[f].awaiting.value
    ensures forall h | h in s.core.table && s.core.table[h].completed :: s.core.table[h].waiters == []
  {
    hide Aggregates, Reads, ActiveOf, InputsKept;
    var c := s.core;
    forall h | h in c.table && Resume(f) in c.table[h].waiters
      ensures Resume(f) !in c.ready && f !in c.parked && c.table[f].awaiting == Some(h)
    {
      assert WaitingJob(c, h, Resume(f));
      assert Resume(f) in c.ready ==> ReadyJob(c, ActiveOf(s.stack), Resume(f));
    }
    if Resume(f) in c.ready {
      assert ReadyJob(c, ActiveOf(s.stack), Resume(f));
    }
  }

  /** The same in every run, whatever its counts. */
  lemma RunOnePlace(states: seq<Run>, events: seq<Event>, k: nat, f: Id)
    requires IsRun(states, events) && k < |states| && !states[k].defect
    requires Unfinished(states[k].core.table, f) && f !in ActiveOf(states[k].stack)
    ensures var c, t := states[k].core, states[k].core.table;
      if Resume(f) in c.ready then f !in c.parked && forall h | h in t :: Resume(f) !in t[h].waiters
      else if f in c.parked then forall h | h in t :: Resume(f) !in t[h].waiters
      else t[f].awaiting.Some? && forall h | h in t :: Resume(f) in t[h].waiters <==> h == t[f].awaiting.value
  {
    hide Places, IsRun, ActiveOf;
    RunKeepsPlaces(states, events, k);
    OnePlace(states[k], f);
  }

  /** The handles that keep a coroutine from completing. */
  ghost function WaitGraph(t: map<Id, Coroutine>): Graph<Id> {
    map c | c in t && !t[c].completed :: set h | h in t && WaitsFor(t, c, h)
  }

  ghost predicate WaitsFor(t: map<Id, Coroutine>, c: Id, h: Id) {
    c in t && (t[c].awaiting == Some(h) || exists i :: HasInput(t, c, i, h))
  }

  /** No work is pending, and no operation is in progress. */
  predicate Quiescent(s: Run) {
    Idle(s) && |s.core.ready| + |s.core.parked| == 0
  }

  lemma BlockedWaits(s: Run, c: Id) returns (h: Id)
    requires Places(s) && Quiescent(s) && c in s.core.table && !s.core.table[c].completed
    ensures h in s.core.table && h in Succ(WaitGraph(s.core.table), c) && !s.core.table[h].completed
  {
    hide Reads, Stacked;
    var t := s.core.table;
    if t[c].kind.Invocation? {
      assert Unfinished(t, c) && c !in ActiveOf(s.stack);
      h := t[c].awaiting.value;
      assert At(s.core, h, Resume(c));
    } else {
      CountSomeUnread(t[c].kind.inputs);
      var i :| 0 <= i < |t[c].kind.inputs| && t[c].kind.inputs[i].Some?;
      h := t[c].kind.inputs[i].value;
      assert HasInput(t, c, i, h);
      assert At(s.core, h, React(c, i));
    }
    assert WaitsFor(t, c, h);
  }

  /** In a finite graph where every node of `u` has a successor in `u`, every path of `u` can be led into a cycle. */
  lemma {:induction false} NoWayOut(g: Graph<Id>, u: set<Id>, x: Id, active: set<Id>)
    requires x in u && forall y {:trigger Succ(g, y)} | y in u :: exists z :: z in u && z in Succ(g, y)
    ensures Loops(g, x, active)
    decreases |u - active|
  {
    if x in active {
      LoopsStopped(g, x, active);
    } else {
      var z :| z in u && z in Succ(g, x);
      StrictSubsetSize(u - (active + {x}), u - active);
      NoWayOut(g, u, z, active + {x});
      LoopsStep(g, x, active);
    }
  }

  /**
  At quiescence every coroutine that has not completed waits, directly or
  through others, for a cycle of coroutines that wait for each other.
  */
  lemma BlockedByCycle(s: Run, c: Id) returns (d: Id)
    requires Places(s) && Quiescent(s) && c in s.core.table && !s.core.table[c].completed
    ensures Reaches(WaitGraph(s.core.table), c, d) && ReachesByEdge(WaitGraph(s.core.table), d, d)
  {
    hide Places, WaitGraph, Reaches, ReachesByEdge, Loops, Succ, Quiescent;
    var g, u := WaitGraph(s.core.table), set x | x in s.core.table && !s.core.table[x].completed;
    assert forall x {:trigger Succ(g, x)} | x in u :: exists z :: z in u && z in Succ(g, x) by {
      forall x {:trigger Succ(g, x)} | x in u ensures exists z :: z in u && z in Succ(g, x) {
        var h := BlockedWaits(s, x);
        assert h in u;
      }
    }
    NoWayOut(g, u, c, {});
    LoopsIsCycle(g, c);
    d :| Reaches(g, c, d) && ReachesByEdge(g, d, d);
  }

  /** When no coroutine waits for itself, quiescence means that every coroutine has completed. */
  lemma QuiescentWithoutCycle(s: Run)
    requires Places(s) && Quiescent(s)
    requires forall c :: !ReachesByEdge(WaitGraph(s.core.table), c, c)
    ensures forall c | c in s.core.table :: s.core.table[c].completed
  {
    hide Places, WaitGraph, ReachesByEdge;
    forall c | c in s.core.table ensures s.core.table[c].completed {
      if !s.core.table[c].completed {
        var d := BlockedByCycle(s, c);
      }
    }
  }

  /** In every run, whatever its counts: at quiescence an uncompleted coroutine waits into a cycle. */
  lemma RunBlockedByCycle(states: seq<Run>, events: seq<Event>, k: nat, c: Id) returns (d: Id)
    requires IsRun(states, events) && k < |states| && !states[k].defect && Quiescent(states[k])
    requires c in states[k].core.table && !states[k].core.table[c].completed
    ensures Reaches(WaitGraph(states[k].core.table), c, d) && ReachesByEdge(WaitGraph(states[k].core.table), d, d)
  {
    hide Places, WaitGraph, Reaches, ReachesByEdge;
    RunKeepsPlaces(states, events, k);
    d := BlockedByCycle(states[k], c);
  }

  // ----- first come, first served

  /** `a` is before `b` in the queue. */
  ghost predicate Before(q: seq<Job>, a: Job, b: Job) {
    exists i, j :: 0 <= i < j < |q| && q[i] == a && q[j] == b
  }

  /** Frame `a` was parked before frame `b`. */
  ghost predicate ParkedBefore(parked: seq<Id>, a: Job, b: Job) {
    exists i, j :: 0 <= i < j < |parked| && a == Resume(parked[i]) && b == Resume(parked[j])
  }

  /** `a` is before `b` in the waiters of one handle, in the parked list, or in the ready queue. */
  ghost predicate Queued(c: Core, a: Job, b: Job) {
    || Before(c.ready, a, b)
    || ParkedBefore(c.parked, a, b)
    || exists h :: h in c.table && Before(c.table[h].waiters, a, b)
  }

  lemma BeforePrefix(q: seq<Job>, r: seq<Job>, a: Job, b: Job)
    requires Before(q, a, b) && q <= r
    ensures Before(r, a, b)
  {
  }

  lemma BeforeShift(p: seq<Job>, q: seq<Job>, a: Job, b: Job)
    requires Before(q, a, b)
    ensures Before(p + q, a, b)
  {
    var i, j :| 0 <= i < j < |q| && q[i] == a && q[j] == b;
    assert (p + q)[|p| + i] == a && (p + q)[|p| + j] == b;
  }

  /** Queues only grow at their tails. */
  ghost predicate Grows(c: Core, d: Core) {
    && c.ready <= d.ready && c.parked <= d.parked
    && forall h | h in c.table :: h in d.table && c.table[h].waiters <= d.table[h].waiters
  }

  lemma QueuedGrows(c: Core, d: Core, a: Job, b: Job)
    requires Queued(c, a, b) && Grows(c, d)
    ensures Queued(d, a, b)
  {
    if Before(c.ready, a, b) {
      BeforePrefix(c.ready, d.ready, a, b);
    } else if !ParkedBefore(c.parked, a, b) {
      var h :| h in c.table && Before(c.table[h].waiters, a, b);
      BeforePrefix(c.table[h].waiters, d.table[h].waiters, a, b);
    }
  }

  /** Completion moves the waiters behind the ready jobs and keeps their order. */
  lemma QueuedSettle(c: Core, h: Id, x: Completion, a: Job, b: Job)
    requires Queued(c, a, b) && h in c.table
    ensures Queued(Settle(c, h, x), a, b)
  {
    var d := Settle(c, h, x);
    if Before(c.ready, a, b) {
      BeforePrefix(c.ready, d.ready, a, b);
    } else if !ParkedBefore(c.parked, a, b) {
      var g :| g in c.table && Before(c.table[g].waiters, a, b);
      if g == h {
        BeforeShift(c.ready, c.table[h].waiters, a, b);
      } else {
        assert g in d.table && d.table[g].waiters == c.table[g].waiters;
      }
    }
  }

  /** A checkpoint moves the parked frames behind the ready jobs and keeps their order. */
  lemma QueuedUnpark(c: Core, a: Job, b: Job)
    requires Queued(c, a, b)
    ensures Queued(Unpark(c), a, b)
  {
    var d := Unpark(c);
    if Before(c.ready, a, b) {
      BeforePrefix(c.ready, d.ready, a, b);
    } else if ParkedBefore(c.parked, a, b) {
      var i, j :| 0 <= i < j < |c.parked| && a == Resume(c.parked[i]) && b == Resume(c.parked[j]);
      assert d.ready[|c.ready| + i] == a && d.ready[|c.ready| + j] == b;
    } else {
      var h :| h in c.table && Before(c.table[h].waiters, a, b);
      assert h in d.table && Before(d.table[h].waiters, a, b);
    }
  }

  lemma QueuedHead(c: Core, a: Job, b: Job)
    requires Queued(c, a, b) && c.ready != [] && c.ready[0] != a
    ensures Queued(c.(ready := c.ready[1..]), a, b)
  {
    if Before(c.ready, a, b) {
      var i, j :| 0 <= i < j < |c.ready| && c.ready[i] == a && c.ready[j] == b;
      assert c.ready[1..][i - 1] == a && c.ready[1..][j - 1] == b;
    }
  }

  lemma QueuedReaction(c: Core, x: Id, i: nat, a: Job, b: Job)
    requires Queued(c, a, b) && CanReact(c, x, i)
    ensures Queued(Reaction(c, x, i), a, b)
  {
    hide Queued, Reaction;
    var h := c.table[x].kind.inputs[i].value;
    var taken := Observe(TakeInput(c, x, i), h);
    QueuedGrows(c, taken, a, b);
    var outcome := Outcome(x, taken.table[x], c.table[h].completion.value);
    if outcome.Some? {
      QueuedSettle(taken, x, outcome.value, a, b);
    }
    ReactionPlaces(c, x, i);
    QueuedGrows(ReadInput(c, x, i), Reaction(c, x, i), a, b);
  }

  lemma QueuedFinish(c: Core, f: Id, x: Completion, a: Job, b: Job)
    requires Queued(c, a, b) && f in c.table
    ensures Queued(Finish(c, f, x), a, b)
  {
    hide Queued, Drop;
    QueuedSettle(c, f, x, a, b);
    DropPlaces(Settle(c, f, x), f);
    QueuedGrows(Settle(c, f, x), Finish(c, f, x), a, b);
  }

  lemma QueuedDispatch(s: Run, a: Job, b: Job)
    requires s.core.ready != [] && Queued(s.core, a, b) && !DispatchHead(s).defect && s.core.ready[0] != a
    ensures Queued(DispatchHead(s).core, a, b)
  {
    hide Queued, TakeCompletion, Reaction;
    var c := s.core.(ready := s.core.ready[1..]);
    QueuedHead(s.core, a, b);
    match s.core.ready[0]
    case Resume(f) =>
      TakeGrows(c, f);
      QueuedGrows(c, TakeCompletion(c, f), a, b);
    case React(x, i) =>
      QueuedReaction(c, x, i, a, b);
  }

  /** An event keeps the order of two queued jobs, unless it runs the first of them. */
  lemma QueuedStep(s: Run, e: Event, a: Job, b: Job)
    requires Enabled(s, e) && Queued(s.core, a, b) && !After(s, e).defect
    requires e.Dispatch? ==> s.core.ready[0] != a
    ensures Queued(After(s, e).core, a, b)
  {
    hide Queued, Finish, DispatchHead, Register, AddInput;
    match e
    case Return(v) => QueuedFinish(s.core, Top(s).frame, Returned(v), a, b);
    case Raise(x) => QueuedFinish(s.core, Top(s).frame, Raised(x, false), a, b);
    case EndAll => QueuedSettle(s.core, s.building.value, Returned(s.building.value), a, b);
    case Dispatch => QueuedDispatch(s, a, b);
    case BeginCheckpoint => QueuedUnpark(s.core, a, b);
    case Await(h, owned) =>
      RegisterGrows(s.core, Top(s).frame, h, owned);
      QueuedGrows(s.core, After(s, e).core, a, b);
    case Unwind =>
      if Top(s).purpose.Called? {
        RegisterGrows(s.core, Top(s).purpose.parent, Top(s).frame, true);
      }
      QueuedGrows(s.core, After(s, e).core, a, b);
    case AddOne(h) =>
      AddInputGrows(s.core, s.building.value, h);
      QueuedGrows(s.core, After(s, e).core, a, b);
    case _ =>
      QueuedGrows(s.core, After(s, e).core, a, b);
  }

  lemma RegisterGrows(c: Core, f: Id, h: Id, owned: bool)
    requires f in c.table && h in c.table
    ensures Grows(c, Register(c, f, h, owned))
  {
  }

  lemma AddInputGrows(c: Core, x: Id, h: Id)
    requires x in c.table && c.table[x].kind.Aggregate? && h in c.table
    ensures Grows(c, AddInput(c, x, h))
  {
  }

  lemma TakeGrows(c: Core, f: Id)
    requires f in c.table && (c.table[f].awaiting.Some? ==> c.table[f].awaiting.value in c.table)
    ensures Grows(c, TakeCompletion(c, f))
  {
  }

  /** A job at the head of the ready queue has no job before it. */
  lemma HeadIsFirst(s: Run, a: Job, b: Job)
    requires Places(s) && s.core.ready != [] && s.core.ready[0] == b
    ensures !Queued(s.core, a, b)
  {
    hide Aggregates, Reads, AwaitsKept, FramesKept, InputsKept, ActiveOf;
    var c := s.core;
    assert b in c.ready;
    if h :| h in c.table && Before(c.table[h].waiters, a, b) {
      WaitingIsNotReady(c, ActiveOf(s.stack), h, b);
    }
  }

  lemma DispatchIsReady(s: Run, e: Event)
    requires Enabled(s, e)
    ensures e.Dispatch? ==> s.core.ready != []
  {
  }

  /** The event runs the job. */
  ghost predicate Dispatches(states: seq<Run>, events: seq<Event>, k: int, job: Job) {
    0 <= k < |events| && k < |states| && events[k].Dispatch? && states[k].core.ready != [] && states[k].core.ready[0] == job
  }

  /**
  Continuations run in registration order, whatever the counts: when `a` was registered before `b`
  at one handle, was parked before it, or is before it in the ready queue, no event of the run
  dispatches `b` before some event has dispatched `a`.
  */
  lemma {:induction false} RegistrationOrder(states: seq<Run>, events: seq<Event>, i: nat, k: nat, a: Job, b: Job)
    requires IsRun(states, events) && i <= k < |events| && Queued(states[i].core, a, b)
    requires Dispatches(states, events, k, b)
    ensures exists m :: i <= m < k && Dispatches(states, events, m, a)
    decreases k - i
  {
    hide Places, Queued, After, Enabled;
    assert Steps(states[i], events[i], states[i + 1]);
    NotDefect(states[i], events[i]);
    RunKeepsPlaces(states, events, i);
    if i == k {
      HeadIsFirst(states[i], a, b);
    } else if !Dispatches(states, events, i, a) {
      DispatchIsReady(states[i], events[i]);
      assert Steps(states[i + 1], events[i + 1], states[i + 1 + 1]);
      NotDefect(states[i + 1], events[i + 1]);
      QueuedStep(states[i], events[i], a, b);
      RegistrationOrder(states, events, i + 1, k, a, b);
    }
  }

  // ----- completions

  predicate SameCompletion(x: Completion, y: Completion) {
    match x
    case Returned(_) => x == y
    case Raised(e, _) => y.Raised? && y.exception == e
  }

  /** A stored completion stays, or is dropped for good; a handle that has completed stays completed. */
  ghost predicate Stays(c: Core, d: Core) {
    forall h | h in c.table && c.table[h].completed ::
      && h in d.table && d.table[h].completed
      && (d.table[h].completion.Some? ==>
            c.table[h].completion.Some? && SameCompletion(c.table[h].completion.value, d.table[h].completion.value))
  }

  lemma StaysTrans(c: Core, d: Core, e: Core)
    requires Stays(c, d) && Stays(d, e)
    ensures Stays(c, e)
  {
  }

  lemma StaysSettle(c: Core, h: Id, x: Completion)
    requires h in c.table && !c.table[h].completed
    ensures Stays(c, Settle(c, h, x))
  {
  }

  lemma StaysDrop(c: Core, h: Id)
    requires h in c.table
    ensures Stays(c, Drop(c, h)) && Stays(c, DropUnowned(c, h))
  {
  }

  lemma StaysReaction(c: Core, a: Id, i: nat)
    requires CanReact(c, a, i) && (c.table[a].completed ==> c.table[a].completion.Some?)
    ensures Stays(c, Reaction(c, a, i))
  {
    hide Stays;
    var h := c.table[a].kind.inputs[i].value;
    var taken := Observe(TakeInput(c, a, i), h);
    StaysObserve(TakeInput(c, a, i), h);
    StaysTake(c, a, i);
    StaysTrans(c, TakeInput(c, a, i), taken);
    var outcome := Outcome(a, taken.table[a], c.table[h].completion.value);
    if outcome.Some? {
      StaysSettle(taken, a, outcome.value);
      StaysTrans(c, taken, ReadInput(c, a, i));
    }
    StaysDrop(ReadInput(c, a, i), h);
    StaysTrans(c, ReadInput(c, a, i), Drop(ReadInput(c, a, i), h));
    StaysDrop(Drop(ReadInput(c, a, i), h), a);
    StaysTrans(c, Drop(ReadInput(c, a, i), h), Reaction(c, a, i));
  }

  lemma StaysObserve(c: Core, h: Id)
    requires h in c.table
    ensures Stays(c, Observe(c, h))
  {
  }

  lemma StaysTake(c: Core, a: Id, i: nat)
    requires a in c.table && c.table[a].kind.Aggregate? && i < |c.table[a].kind.inputs|
    ensures Stays(c, TakeInput(c, a, i))
  {
  }

  lemma StaysStep(s: Run, e: Event)
    requires Places(s) && Enabled(s, e) && !After(s, e).defect
    ensures Stays(s.core, After(s, e).core)
  {
    hide Places, Stays, Finish, DispatchHead, Drop, Register, AddInput;
    match e
    case Return(v) => StaysFinish(s, Returned(v));
    case Raise(x) => StaysFinish(s, Raised(x, false));
    case EndAll => StaysEndAll(s);
    case Dispatch => StaysDispatch(s);
    case ReleaseHandle(h) => StaysDrop(s.core, h);
    case Await(h, owned) => StaysRegister(s.core, Top(s).frame, h, owned);
    case Unwind =>
      if Top(s).purpose.Called? {
        StaysRegister(s.core, Top(s).purpose.parent, Top(s).frame, true);
      } else {
        StaysDrop(s.core, Top(s).frame);
        StaysSame(s.core, s.core);
      }
    case AddOne(h) => StaysAddInput(s.core, s.building.value, h);
    case Kick(id) => StaysNew(s.core, id, NewCoroutine(Invocation, true));
    case Spawn(id) => StaysNew(s.core, id, NewCoroutine(Invocation, false));
    case Call(id) => StaysNew(s.core, id, NewCoroutine(Invocation, false));
    case BeginAll(id) => StaysNew(s.core, id, NewCoroutine(Aggregate([], 0), false));
    case RetainHandle(h) => StaysRetain(s.core, h);
    case Park => StaysSame(s.core, After(s, e).core);
    case BeginCheckpoint => StaysSame(s.core, After(s, e).core);
    case EndCheckpoint => StaysSame(s.core, s.core);
  }

  lemma StaysSame(c: Core, d: Core)
    requires d.table == c.table
    ensures Stays(c, d)
  {
  }

  lemma StaysNew(c: Core, id: Id, co: Coroutine)
    requires id !in c.table
    ensures Stays(c, Put(c, id, co))
  {
  }

  lemma StaysRetain(c: Core, h: Id)
    requires h in c.table
    ensures Stays(c, Retain(c, h))
  {
  }

  lemma StaysRegister(c: Core, f: Id, h: Id, owned: bool)
    requires f in c.table && h in c.table
    ensures Stays(c, Register(c, f, h, owned))
  {
  }

  lemma StaysAddInput(c: Core, a: Id, h: Id)
    requires a in c.table && c.table[a].kind.Aggregate? && h in c.table
    ensures Stays(c, AddInput(c, a, h))
  {
  }

  lemma StaysFinish(s: Run, x: Completion)
    requires Places(s) && Running(s)
    ensures Stays(s.core, Finish(s.core, Top(s).frame, x))
  {
    hide Places, Stays, Drop;
    TopIsActive(s);
    StaysSettle(s.core, Top(s).frame, x);
    StaysDrop(Settle(s.core, Top(s).frame, x), Top(s).frame);
    StaysTrans(s.core, Settle(s.core, Top(s).frame, x), Finish(s.core, Top(s).frame, x));
  }

  lemma StaysEndAll(s: Run)
    requires Places(s) && Enabled(s, EndAll)
    ensures Stays(s.core, After(s, EndAll).core)
  {
    hide Stays, Homes, Reads;
    BuildingIsOpen(s.core, s.building.value);
    StaysSettle(s.core, s.building.value, Returned(s.building.value));
    StaysSame(s.core, s.core);
  }

  lemma StaysDispatch(s: Run)
    requires Places(s) && Idle(s) && s.core.ready != [] && !DispatchHead(s).defect
    ensures Stays(s.core, DispatchHead(s).core)
  {
    hide Places, Stays, Reaction, TakeCompletion, Unfinished;
    var c := s.core.(ready := s.core.ready[1..]);
    StaysSame(s.core, c);
    match s.core.ready[0]
    case Resume(f) =>
      ResumeIsKnown(s, f);
      UnfinishedIs(s.core.table, f);
      StaysResume(c, f);
      StaysTrans(s.core, c, TakeCompletion(c, f));
    case React(a, i) =>
      var h := ReactionIsKnown(s, a, i);
      assert CanReact(c, a, i);
      StaysReaction(c, a, i);
      StaysTrans(s.core, c, Reaction(c, a, i));
  }

  lemma StaysResume(c: Core, f: Id)
    requires f in c.table && (c.table[f].awaiting.Some? ==> c.table[f].awaiting.value in c.table)
    ensures Stays(c, TakeCompletion(c, f))
  {
  }

  /**
  A completion once stored never changes: at every later state of the run it is
  the same or gone, and a run that loses no count has lost it only because
  nobody owned the handle any more.
  */
  lemma {:induction false} CompletionIsImmutable(states: seq<Run>, events: seq<Event>, i: nat, k: nat, h: Id)
    requires IsRun(states, events) && i <= k < |states| && !states[k].defect
    requires h in states[i].core.table && states[i].core.table[h].completion.Some?
    ensures h in states[k].core.table
    ensures var x, co := states[i].core.table[h].completion.value, states[k].core.table[h];
      co.completion.Some? ==> SameCompletion(x, co.completion.value)
    ensures CountsAll(states, events) && states[k].core.table[h].completion.None? ==> states[k].core.table[h].owners == 0
  {
    hide Homes, Aggregates, Stacked, IsRun, Owners, CountsAll;
    assert !states[i].defect by { EarlierIsNotDefect(states, events, i, k); }
    RunKeepsPlaces(states, events, i);
    StaysAlong(states, events, i, k);
    if CountsAll(states, events) {
      RunIsSafe(states, events, k);
    }
  }

  lemma EarlierIsNotDefect(states: seq<Run>, events: seq<Event>, i: nat, k: nat)
    requires IsRun(states, events) && i <= k < |states| && !states[k].defect
    ensures !states[i].defect
  {
    if i < k {
      assert Steps(states[i], events[i], states[i + 1]);
    }
  }

  lemma {:induction false} StaysAlong(states: seq<Run>, events: seq<Event>, i: nat, k: nat)
    requires IsRun(states, events) && i <= k < |states| && !states[k].defect
    ensures Stays(states[i].core, states[k].core)
    decreases k - i
  {
    hide Places, Stays, After, Enabled;
    if i == k {
      StaysSame(states[i].core, states[k].core);
    } else {
      assert Steps(states[i], events[i], states[i + 1]);
      NotDefect(states[i], events[i]);
      RunKeepsPlaces(states, events, i);
      EarlierIsNotDefect(states, events, i + 1, k);
      StaysStep(states[i], events[i]);
      StaysAlong(states, events, i + 1, k);
      StaysTrans(states[i].core, states[i + 1].core, states[k].core);
    }
  }
}
