/**
The scheduler as the interpreter runs it: its fields are updated in place, one
event at a time. Every event has the effect that the runs give it, keeps every
frame in its place, and keeps every count exact where it has room.
*/
module SchedulerMachine {
  import opened StructViews
  import opened SchedulerSteps
  import opened SchedulerInvariant
  import opened SchedulerCounts
  import opened SchedulerRuns
  import opened SchedulerPlaces
  import opened SchedulerSafety

  /** The scheduler fields of the interpreter, and the counts that the script holds. */
  class Interpreter {
    var table: map<Id, Coroutine>
    var ready: seq<Job>
    var parked: seq<Id>
    var stack: seq<Activation>
    var draining: bool
    var building: Option<Id>
    var defect: bool
    ghost var held: map<Id, nat>

    constructor ()
      ensures Now() == INITIAL && Inv(Now())
    {
      table, ready, parked, stack, draining, building, defect := map[], [], [], [], false, None, false;
      held := map[];
      new;
      InitialInv();
    }

    ghost function State(): Core
      reads this
    {
      Core(table, ready, parked)
    }

    ghost function Now(): Run
      reads this
    {
      Run(State(), held, stack, draining, building, defect)
    }

    // ----- operations

    method ReleaseCoroutine(h: Id)
      requires h in table
      modifies this`table
      ensures State() == Drop(old(State()), h)
    {
      var co := table[h];
      if co.owners != 0 {
        co := co.(owners := co.owners - 1);
      }
      if co.owners == 0 && co.completed {
        var unread := HasUnread(co);
        if !unread {
          co := co.(completion := None);
        }
      }
      table := table[h := co];
    }

    static method HasUnread(co: Coroutine) returns (unread: bool)
      ensures unread == Unread(co)
    {
      if co.kind.Invocation? {
        return false;
      }
      for i := 0 to |co.kind.inputs|
        invariant forall j | 0 <= j < i :: co.kind.inputs[j].None?
      {
        if co.kind.inputs[i].Some? {
          return true;
        }
      }
      return false;
    }

    method RetainCount(h: Id)
      requires h in table
      modifies this`table
      ensures State() == Retain(old(State()), h)
    {
      var n := table[h].owners;
      table := table[h := table[h].(owners := if n == MAX_OWNERS then MAX_OWNERS else n + 1)];
    }

    method EnqueueJob(h: Id, job: Job)
      requires h in table
      modifies this`table, this`ready
      ensures State() == Enqueue(old(State()), h, job)
    {
      if table[h].completed {
        ready := ready + [job];
      } else {
        table := table[h := table[h].(waiters := table[h].waiters + [job])];
      }
    }

    method RegisterContinuation(frame: Id, h: Id, owned: bool)
      requires frame in table && h in table
      modifies this`table, this`ready
      ensures State() == Register(old(State()), frame, h, owned)
    {
      if !owned {
        RetainCount(h);
      }
      table := table[frame := table[frame].(awaiting := Some(h))];
      EnqueueJob(h, Resume(frame));
    }

    method SettleHandle(h: Id, x: Completion)
      requires h in table
      modifies this`table, this`ready
      ensures State() == Settle(old(State()), h, x)
    {
      var waiters := table[h].waiters;
      table := table[h := table[h].(completed := true, completion := Some(x), waiters := [])];
      ready := ready + waiters;
    }

    /** The outcome of a frame that returned or raised. */
    method FinishFrame(frame: Id, x: Completion)
      requires frame in table
      modifies this`table, this`ready
      ensures State() == Finish(old(State()), frame, x)
    {
      SettleHandle(frame, x);
      if table[frame].owners == 0 {
        ReleaseCoroutine(frame);
      }
    }

    method ObserveCompletion(h: Id)
      requires h in table
      modifies this`table
      ensures State() == Observe(old(State()), h)
    {
      var co := table[h];
      if co.completion.Some? && co.completion.value.Raised? {
        table := table[h := co.(completion := Some(co.completion.value.(observed := true)))];
      }
    }

    /** The head of a resume: false when the awaited handle has no completion, an internal defect. */
    method BeginResume(frame: Id) returns (ok: bool)
      requires frame in table
      requires table[frame].awaiting.Some? ==> table[frame].awaiting.value in table
      modifies this`table
      ensures ok == (old(table[frame].awaiting).Some? ==>
                       old(table[table[frame].awaiting.value].completion.Some?))
      ensures ok ==> State() == TakeCompletion(old(State()), frame)
    {
      var awaited := table[frame].awaiting;
      table := table[frame := table[frame].(awaiting := None)];
      if awaited.Some? {
        if table[awaited.value].completion.None? {
          return false;
        }
        ObserveCompletion(awaited.value);
        ReleaseCoroutine(awaited.value);
      }
      return true;
    }

    /** The reaction of an aggregate: false when it has no unread input or the input has no completion. */
    method AsyncAllReact(a: Id, i: nat) returns (ok: bool)
      requires forall x, j | x in table && table[x].kind.Aggregate? && 0 <= j < |table[x].kind.inputs| ::
        table[x].kind.inputs[j].Some? ==> table[x].kind.inputs[j].value in table && table[x].kind.inputs[j].value != x
      modifies this`table, this`ready
      ensures ok == CanReact(old(State()), a, i)
      ensures ok ==> State() == Reaction(old(State()), a, i)
    {
      if a !in table || table[a].kind.Invocation? || i >= |table[a].kind.inputs| || table[a].kind.inputs[i].None? {
        return false;
      }
      var kind := table[a].kind;
      var h := kind.inputs[i].value;
      if table[h].completion.None? {
        return false;
      }
      var x := table[h].completion.value;
      table := table[a := table[a].(kind := Aggregate(kind.inputs[i := None], OneLess(kind.remaining)))];
      ObserveCompletion(h);
      var outcome := Outcome(a, table[a], x);
      if outcome.Some? {
        SettleHandle(a, outcome.value);
      }
      ReleaseCoroutine(h);
      if table[a].owners == 0 {
        ReleaseCoroutine(a);
      }
      return true;
    }

    /** The start of a checkpoint: the parked frames go behind the jobs that are ready. */
    method MoveParked()
      modifies this`ready, this`parked
      ensures State() == Unpark(old(State()))
    {
      var moved := parked;
      parked := [];
      for i := 0 to |moved|
        invariant ready == old(ready) + Resumes(moved[..i]) && parked == [] && table == old(table)
      {
        assert moved[..i + 1] == moved[..i] + [moved[i]];
        ready := ready + [Resume(moved[i])];
      }
      assert moved[..|moved|] == moved;
    }

    /** The aggregate under construction gets one more input. */
    method AddInputTo(a: Id, h: Id)
      requires a in table && table[a].kind.Aggregate? && h in table
      modifies this`table, this`ready
      ensures State() == AddInput(old(State()), a, h)
    {
      var kind := table[a].kind;
      RetainCount(h);
      table := table[a := table[a].(kind := Aggregate(kind.inputs + [Some(h)], kind.remaining + 1))];
      EnqueueJob(h, React(a, |kind.inputs|));
    }

    /** The head of the ready queue is taken and run. */
    method DispatchReady()
      requires Places(Now()) && Idle(Now()) && ready != []
      modifies this`table, this`ready, this`stack, this`defect
      ensures DispatchHead(old(Now())).defect ==> defect
      ensures !DispatchHead(old(Now())).defect ==> Now() == DispatchHead(old(Now()))
    {
      hide Places, Reaction, TakeCompletion;
      ghost var s := Now();
      var job := ready[0];
      ready := ready[1..];
      match job {
        case Resume(f) =>
          ResumeIsKnown(s, f);
          var ok := BeginResume(f);
          if ok {
            stack := [Activation(f, Resumed, false)];
          } else {
            defect := true;
          }
        case React(a, i) =>
          InputsAreKnown(s);
          var ok := AsyncAllReact(a, i);
          if !ok {
            defect := true;
          }
      }
    }

    // ----- events

    /** A new frame starts on the stack. */
    method StartFrame(id: Id, purpose: Purpose, hostRoot: bool)
      modifies this`table, this`stack, this`held
      ensures State() == Put(old(State()), id, NewCoroutine(Invocation, hostRoot))
      ensures stack == old(stack) + [Activation(id, purpose, false)]
      ensures held == old(held)[id := if purpose.Created? then 1 else 0]
    {
      table := table[id := NewCoroutine(Invocation, hostRoot)];
      stack := stack + [Activation(id, purpose, false)];
      held := held[id := if purpose.Created? then 1 else 0];
    }

    /** The activation on top has ended: its count goes back to the host, or to its caller that now waits. */
    method EndActivation()
      requires Enabled(Now(), Unwind)
      modifies this`table, this`ready, this`stack
      ensures Now() == After(old(Now()), Unwind)
    {
      hide Register, Drop;
      var ended := stack[|stack| - 1];
      stack := stack[..|stack| - 1];
      match ended.purpose {
        case Kicked => ReleaseCoroutine(ended.frame);
        case Called(parent) =>
          RegisterContinuation(parent, ended.frame, true);
          MarkTop();
        case _ =>
      }
    }

    /** What the running frame, the host or a release does in place. */
    method Perform(e: Event)
      requires Places(Now()) && Enabled(Now(), e) && !e.Dispatch?
      modifies this
      ensures Now() == After(old(Now()), e)
    {
      hide Places, Register, Finish, AddInput, DispatchHead, Drop, Settle, Retain, NewCoroutine, MarkDone;
      match e {
        case Kick(id) =>
          StartFrame(id, Kicked, true);
          assert stack == [Activation(id, Kicked, false)];
        case Spawn(id) => StartFrame(id, Created, false);
        case Call(id) => StartFrame(id, Called(stack[|stack| - 1].frame), false);
        case BeginAll(id) =>
          table, building := table[id := NewCoroutine(Aggregate([], 0), false)], Some(id);
          held := held[id := 1];
        case AddOne(h) => AddInputTo(building.value, h);
        case EndAll =>
          if table[building.value].kind.inputs == [] {
            SettleHandle(building.value, Returned(building.value));
          }
          building := None;
        case RetainHandle(h) =>
          RetainCount(h);
          held := held[h := held[h] + 1];
        case ReleaseHandle(h) =>
          ReleaseCoroutine(h);
          held := held[h := held[h] - 1];
        case Return(v) =>
          FinishFrame(stack[|stack| - 1].frame, Returned(v));
          MarkTop();
        case Raise(x) =>
          FinishFrame(stack[|stack| - 1].frame, Raised(x, false));
          MarkTop();
        case Park =>
          parked := parked + [stack[|stack| - 1].frame];
          MarkTop();
        case Await(h, owned) =>
          RegisterContinuation(stack[|stack| - 1].frame, h, owned);
          MarkTop();
          held := if owned then held[h := held[h] - 1] else held;
        case Unwind => EndActivation();
        case BeginCheckpoint =>
          MoveParked();
          draining := true;
        case EndCheckpoint => draining := false;
        case Dispatch =>
      }
    }

    /** Runs one event in place. */
    method Do(e: Event)
      requires Places(Now()) && Enabled(Now(), e)
      modifies this
      ensures After(old(Now()), e).defect ==> defect
      ensures !After(old(Now()), e).defect ==> Now() == After(old(Now()), e) && Places(Now())
      ensures old(Inv(Now())) ==> !defect && (Inv(Now()) <==> old(HasRoom(Now(), e)))
    {
      hide Places, Counted, DispatchHead;
      ghost var s := Now();
      if e.Dispatch? {
        DispatchReady();
      } else {
        Perform(e);
      }
      if Inv(s) {
        StepKeepsInv(s, e);
      }
      if !After(s, e).defect {
        PlacesStep(s, e);
      }
    }

    method MarkTop()
      requires stack != []
      modifies this`stack
      ensures stack == MarkDone(old(stack))
    {
      stack := stack[..|stack| - 1] + [stack[|stack| - 1].(done := true)];
    }
  }

  lemma InputsAreKnown(s: Run)
    requires Places(s)
    ensures forall x, j | x in s.core.table && s.core.table[x].kind.Aggregate? && 0 <= j < |s.core.table[x].kind.inputs| ::
      var input := s.core.table[x].kind.inputs[j]; input.Some? ==> input.value in s.core.table && input.value != x
  {
    var t := s.core.table;
    forall x, j | x in t && t[x].kind.Aggregate? && 0 <= j < |t[x].kind.inputs| && t[x].kind.inputs[j].Some?
      ensures t[x].kind.inputs[j].value in t && t[x].kind.inputs[j].value != x
    {
      assert HasInput(t, x, j, t[x].kind.inputs[j].value);
      assert At(s.core, t[x].kind.inputs[j].value, React(x, j));
    }
  }
}
