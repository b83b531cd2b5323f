/**
A run that loses one count and meets a defect. A frame is retained up to the
largest count, awaited without a count of its own, and released as often as it
was retained: the release drops the completion that the await still needs.
*/
module SchedulerSaturation {
  import opened StructViews
  import opened SchedulerSteps
  import opened SchedulerInvariant
  import opened SchedulerRuns
  import opened SchedulerTheorems

  ghost predicate Reachable(s: Run) {
    exists states, events :: IsRun(states, events) && states[|events|] == s
  }

  lemma ReachInitial()
    ensures Reachable(INITIAL)
  {
    var states, events: seq<Event> := [INITIAL], [];
    assert IsRun(states, events) && states[|events|] == INITIAL;
  }

  lemma ReachStep(s: Run, e: Event)
    requires Reachable(s) && Enabled(s, e)
    ensures Reachable(After(s, e))
  {
    hide Enabled, After;
    var states, events :| IsRun(states, events) && states[|events|] == s;
    var t := After(s, e);
    var longer, more := states + [t], events + [e];
    forall i | 0 <= i < |more| ensures Steps(longer[i], more[i], longer[i + 1]) {
      if i < |events| {
        assert Steps(states[i], events[i], states[i + 1]);
      }
    }
    assert longer[0] == states[0];
    assert IsRun(longer, more) && longer[|more|] == t;
  }

  // ----- the states of the run

  const HOST: Id := 0
  const CHILD: Id := 1

  function Frame(owners: Count, hostRoot: bool, waiters: seq<Job>, awaiting: Option<Id>): Coroutine {
    Coroutine(Invocation, false, None, owners, hostRoot, waiters, awaiting)
  }

  /** The host frame runs and holds `n` counts of the parked child. */
  function Holding(n: Count): Run {
    Run(Core(map[HOST := Frame(1, true, [], None), CHILD := Frame(n, false, [], None)], [], [CHILD]),
        map[HOST := 0, CHILD := n], [Activation(HOST, Kicked, false)], false, None, false)
  }

  /** The host frame awaits the child, whose count is `n`, as many as are held. */
  function Awaiting(n: Count): Run {
    Run(Core(map[HOST := Frame(0, true, [], Some(CHILD)), CHILD := Frame(n, false, [Resume(HOST)], None)], [], [CHILD]),
        map[HOST := 0, CHILD := n], [], false, None, false)
  }

  lemma ReachHolding()
    ensures Reachable(Holding(1))
  {
    hide Reachable;
    ReachInitial();
    var s0 := INITIAL;
    ReachStep(s0, Kick(HOST));
    var s1 := Run(Core(map[HOST := Frame(1, true, [], None)], [], []), map[HOST := 0],
                  [Activation(HOST, Kicked, false)], false, None, false);
    assert After(s0, Kick(HOST)) == s1;
    ReachStep(s1, Spawn(CHILD));
    var table := map[HOST := Frame(1, true, [], None), CHILD := Frame(1, false, [], None)];
    var s2 := Run(Core(table, [], []), map[HOST := 0, CHILD := 1],
                  [Activation(HOST, Kicked, false), Activation(CHILD, Created, false)], false, None, false);
    assert After(s1, Spawn(CHILD)) == s2;
    ReachStep(s2, Park);
    var s3 := s2.(core := Core(table, [], [CHILD]),
                  stack := [Activation(HOST, Kicked, false), Activation(CHILD, Created, true)]);
    assert After(s2, Park) == s3;
    ReachStep(s3, Unwind);
    assert After(s3, Unwind).stack == [Activation(HOST, Kicked, false)];
    assert After(s3, Unwind) == Holding(1);
  }

  lemma {:induction false} ReachRetained(n: Count)
    requires n > 0
    ensures Reachable(Holding(n))
  {
    hide Reachable;
    if n == 1 {
      ReachHolding();
    } else {
      ReachRetained(n - 1);
      var s := Holding(n - 1);
      ReachStep(s, RetainHandle(CHILD));
      assert After(s, RetainHandle(CHILD)).core.table == Holding(n).core.table;
      assert After(s, RetainHandle(CHILD)).held == Holding(n).held;
    }
  }

  /** The state after the await, before the host frame gives its count back. */
  function Registered(): Run {
    Holding(MAX_OWNERS).(
      core := Core(map[HOST := Frame(1, true, [], Some(CHILD)), CHILD := Frame(MAX_OWNERS, false, [Resume(HOST)], None)],
                   [], [CHILD]),
      stack := [Activation(HOST, Kicked, true)])
  }

  lemma AwaitLosesCount()
    ensures Enabled(Holding(MAX_OWNERS), Await(CHILD, false)) && !HasRoom(Holding(MAX_OWNERS), Await(CHILD, false))
    ensures After(Holding(MAX_OWNERS), Await(CHILD, false)) == Registered()
  {
    var s, t := Holding(MAX_OWNERS), Registered();
    var c := Retain(s.core, CHILD);
    assert c.table == s.core.table;
    var d := Put(c, HOST, c.table[HOST].(awaiting := Some(CHILD)));
    assert d.table == map[HOST := Frame(1, true, [], Some(CHILD)), CHILD := Frame(MAX_OWNERS, false, [], None)];
    assert [] + [Resume(HOST)] == [Resume(HOST)];
    assert Register(s.core, HOST, CHILD, false).table == t.core.table;
    assert MarkDone(s.stack) == t.stack;
  }

  /** The await finds the count at its largest value, so the count it adds is lost. */
  lemma ReachAwaiting()
    ensures Reachable(Awaiting(MAX_OWNERS))
  {
    hide Reachable;
    ReachRetained(MAX_OWNERS);
    AwaitLosesCount();
    ReachStep(Holding(MAX_OWNERS), Await(CHILD, false));
    var t := Registered();
    ReachStep(t, Unwind);
    assert After(t, Unwind).core.table == Awaiting(MAX_OWNERS).core.table;
    assert After(t, Unwind).stack == [];
  }

  lemma {:induction false} ReachReleased(n: Count)
    ensures Reachable(Awaiting(n))
    decreases MAX_OWNERS - n
  {
    hide Reachable;
    if n == MAX_OWNERS {
      ReachAwaiting();
    } else {
      ReachReleased(n + 1);
      var s := Awaiting(n + 1);
      ReachStep(s, ReleaseHandle(CHILD));
      assert After(s, ReleaseHandle(CHILD)).core.table == Awaiting(n).core.table;
      assert After(s, ReleaseHandle(CHILD)).held == Awaiting(n).held;
    }
  }

  /** A checkpoint with the child ready, running, and returned; its completion was dropped at once. */
  function Draining(ready: seq<Job>, completed: bool, waiters: seq<Job>, stack: seq<Activation>): Run {
    Run(Core(map[HOST := Frame(0, true, [], Some(CHILD)),
                 CHILD := Coroutine(Invocation, completed, None, 0, false, waiters, None)], ready, []),
        map[HOST := 0, CHILD := 0], stack, true, None, false)
  }

  lemma ChildRuns()
    ensures Enabled(Awaiting(0), BeginCheckpoint)
    ensures After(Awaiting(0), BeginCheckpoint) == Draining([Resume(CHILD)], false, [Resume(HOST)], [])
    ensures var s := Draining([Resume(CHILD)], false, [Resume(HOST)], []);
      Enabled(s, Dispatch) && After(s, Dispatch) == Draining([], false, [Resume(HOST)], [Activation(CHILD, Resumed, false)])
  {
    var s := Awaiting(0);
    assert Unpark(s.core).ready == [Resume(CHILD)];
    var t := Draining([Resume(CHILD)], false, [Resume(HOST)], []);
    assert t.core.ready[1..] == [];
    assert TakeCompletion(t.core.(ready := []), CHILD).table == t.core.table;
  }

  lemma ChildReturns()
    ensures var s := Draining([], false, [Resume(HOST)], [Activation(CHILD, Resumed, false)]);
      && Enabled(s, Return(0))
      && After(s, Return(0)) == Draining([Resume(HOST)], true, [], [Activation(CHILD, Resumed, true)])
    ensures var s := Draining([Resume(HOST)], true, [], [Activation(CHILD, Resumed, true)]);
      Enabled(s, Unwind) && After(s, Unwind) == Draining([Resume(HOST)], true, [], [])
  {
    var s := Draining([], false, [Resume(HOST)], [Activation(CHILD, Resumed, false)]);
    var settled := Settle(s.core, CHILD, Returned(0));
    assert settled.ready == [Resume(HOST)];
    assert Finish(s.core, CHILD, Returned(0)).table == Draining([], true, [], []).core.table;
    assert MarkDone(s.stack) == [Activation(CHILD, Resumed, true)];
    var t := Draining([Resume(HOST)], true, [], [Activation(CHILD, Resumed, true)]);
    assert Pop(t) == [];
  }

  lemma ReachDropped()
    ensures Reachable(Draining([Resume(HOST)], true, [], []))
  {
    hide Reachable, Awaiting, Draining, After, Enabled;
    ReachReleased(0);
    ChildRuns();
    ChildReturns();
    ReachStep(Awaiting(0), BeginCheckpoint);
    ReachStep(Draining([Resume(CHILD)], false, [Resume(HOST)], []), Dispatch);
    ReachStep(Draining([], false, [Resume(HOST)], [Activation(CHILD, Resumed, false)]), Return(0));
    ReachStep(Draining([Resume(HOST)], true, [], [Activation(CHILD, Resumed, true)]), Unwind);
  }

  /** Some run that loses a count meets a defect: the resumed frame finds no completion. */
  lemma LostCountMeetsDefect() returns (states: seq<Run>, events: seq<Event>)
    ensures IsRun(states, events) && states[|events|].defect && !CountsAll(states, events)
  {
    hide CountsAll;
    var s := Draining([Resume(HOST)], true, [], []);
    ReachDropped();
    ReachStep(s, Dispatch);
    states, events :| IsRun(states, events) && states[|events|] == After(s, Dispatch);
    assert states[|events|].defect;
    if CountsAll(states, events) {
      RunIsSafe(states, events, |events|);
    }
  }

  /** Not every run that loses a count meets a defect. */
  lemma LostCountMayPass() returns (states: seq<Run>, events: seq<Event>)
    ensures IsRun(states, events) && !states[|events|].defect && !CountsAll(states, events)
  {
    hide CountsAll, Places, Enabled, After, Steps;
    ReachRetained(MAX_OWNERS);
    AwaitLosesCount();
    ReachStep(Holding(MAX_OWNERS), Await(CHILD, false));
    states, events :| IsRun(states, events) && states[|events|] == Registered();
    if CountsAll(states, events) {
      RunIsSafe(states, events, |events|);
      RegisteredIsMiscounted();
    }
  }

  /** One await and all holders are more than the count says. */
  lemma RegisteredIsMiscounted()
    ensures !Inv(Registered())
  {
    hide Places;
    var t := Registered().core.table;
    assert HOST in Awaiters(t, CHILD);
    assert Claims(t, Registered().held, TransitOf(Registered().stack), CHILD) > MAX_OWNERS;
  }
}
