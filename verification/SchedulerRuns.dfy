/**
Runs of the scheduler: the events of the host, of the running frame and of
releases, with the stack of frames that are being started or resumed, and the
invariant that every event keeps.
*/
module SchedulerRuns {
  import opened StructViews
  import opened SchedulerSteps
  import opened SchedulerInvariant
  import opened SchedulerCounts

  /** What happens when the activation of a frame ends. */
  datatype Purpose =
    | Kicked               // the host gives its count back
    | Created              // the creator goes on and holds the handle
    | Called(parent: Id)   // the caller registers on the frame
    | Resumed

  /** One frame on the stack; `done` when its outcome is applied. */
  datatype Activation = Activation(frame: Id, purpose: Purpose, done: bool)

  /**
  The scheduler with what drives it: the counts that the script holds, the
  stack of activations, whether a checkpoint is draining, the aggregate that an
  operation is building, and whether an internal protocol defect was met.
  */
  datatype Run = Run(
    core: Core,
    held: map<Id, nat>,
    stack: seq<Activation>,
    draining: bool,
    building: Option<Id>,
    defect: bool)

  datatype Event =
    | Kick(id: Id)
    | Spawn(id: Id)
    | Call(id: Id)
    | BeginAll(id: Id)
    | AddOne(input: Id)
    | EndAll
    | RetainHandle(handle: Id)
    | ReleaseHandle(handle: Id)
    | Return(value: int)
    | Raise(exception: int)
    | Park
    | Await(handle: Id, owned: bool)
    | Unwind
    | BeginCheckpoint
    | Dispatch
    | EndCheckpoint

  const INITIAL := Run(Core(map[], [], []), map[], [], false, None, false)

  function Top(s: Run): Activation
    requires s.stack != []
  {
    s.stack[|s.stack| - 1]
  }

  function Pop(s: Run): seq<Activation>
    requires s.stack != []
  {
    s.stack[..|s.stack| - 1]
  }

  predicate Idle(s: Run) {
    s.stack == [] && s.building.None?
  }

  /** The frame on top of the stack executes. */
  predicate Running(s: Run) {
    s.stack != [] && !Top(s).done && s.building.None? && Top(s).frame in s.core.table
  }

  predicate Holds(s: Run, h: Id) {
    h in s.held && s.held[h] > 0 && h in s.core.table
  }

  /** What can happen next; a defect ends the run. */
  predicate Enabled(s: Run, e: Event) {
    && !s.defect
    && match e
    case Kick(id) => Idle(s) && !s.draining && id !in s.core.table
    case Spawn(id) => Running(s) && id !in s.core.table
    case Call(id) => Running(s) && id !in s.core.table
    case BeginAll(id) => Running(s) && id !in s.core.table
    case AddOne(h) =>
      && s.building.Some? && Holds(s, h) && h != s.building.value
      && s.building.value in s.core.table && s.core.table[s.building.value].kind.Aggregate?
    case EndAll =>
      s.building.Some? && s.building.value in s.core.table && s.core.table[s.building.value].kind.Aggregate?
    case RetainHandle(h) => Holds(s, h) && s.building.None?
    case ReleaseHandle(h) => Holds(s, h) && s.building.None? && !DropTraps(s.core, h)
    case Return(_) => Running(s)
    case Raise(_) =>
      Running(s) && !s.core.table[Top(s).frame].hostRoot && s.core.table[Top(s).frame].owners > 0
    case Park => Running(s)
    case Await(h, _) => Running(s) && Holds(s, h)
    case Unwind =>
      && s.stack != [] && Top(s).done && s.building.None? && Top(s).frame in s.core.table
      && (Top(s).purpose.Kicked? ==> !DropTraps(s.core, Top(s).frame))
      && (Top(s).purpose.Called? ==>
            |s.stack| > 1 && s.stack[|s.stack| - 2].frame == Top(s).purpose.parent
            && Top(s).purpose.parent in s.core.table)
    case BeginCheckpoint => Idle(s) && !s.draining
    case Dispatch => Idle(s) && s.draining && s.core.ready != []
    case EndCheckpoint => Idle(s) && s.draining
  }

  function MarkDone(stack: seq<Activation>): seq<Activation>
    requires stack != []
  {
    stack[..|stack| - 1] + [stack[|stack| - 1].(done := true)]
  }

  /** The head of the ready queue runs; a resume or a reaction without its completion is a defect. */
  function DispatchHead(s: Run): Run
    requires s.core.ready != []
  {
    var c := s.core.(ready := s.core.ready[1..]);
    match s.core.ready[0]
    case Resume(f) =>
      if f !in c.table then s.(core := c, defect := true)
      else
        var h := c.table[f].awaiting;
        if h.Some? && (h.value !in c.table || c.table[h.value].completion.None?) then s.(core := c, defect := true)
        else s.(core := TakeCompletion(c, f), stack := [Activation(f, Resumed, false)])
    case React(a, i) =>
      if CanReact(c, a, i) then s.(core := Reaction(c, a, i)) else s.(core := c, defect := true)
  }

  function After(s: Run, e: Event): Run
    requires Enabled(s, e)
  {
    match e
    case Kick(id) =>
      s.(core := Put(s.core, id, NewCoroutine(Invocation, true)), held := s.held[id := 0],
         stack := [Activation(id, Kicked, false)])
    case Spawn(id) =>
      s.(core := Put(s.core, id, NewCoroutine(Invocation, false)), held := s.held[id := 1],
         stack := s.stack + [Activation(id, Created, false)])
    case Call(id) =>
      s.(core := Put(s.core, id, NewCoroutine(Invocation, false)), held := s.held[id := 0],
         stack := s.stack + [Activation(id, Called(Top(s).frame), false)])
    case BeginAll(id) =>
      s.(core := Put(s.core, id, NewCoroutine(Aggregate([], 0), false)), held := s.held[id := 1], building := Some(id))
    case AddOne(h) => s.(core := AddInput(s.core, s.building.value, h))
    case EndAll =>
      var a := s.building.value;
      s.(building := None,
         core := if s.core.table[a].kind.inputs == [] then Settle(s.core, a, Returned(a)) else s.core)
    case RetainHandle(h) => s.(core := Retain(s.core, h), held := s.held[h := s.held[h] + 1])
    case ReleaseHandle(h) => s.(core := Drop(s.core, h), held := s.held[h := s.held[h] - 1])
    case Return(v) => s.(core := Finish(s.core, Top(s).frame, Returned(v)), stack := MarkDone(s.stack))
    case Raise(x) => s.(core := Finish(s.core, Top(s).frame, Raised(x, false)), stack := MarkDone(s.stack))
    case Park => s.(core := s.core.(parked := s.core.parked + [Top(s).frame]), stack := MarkDone(s.stack))
    case Await(h, owned) =>
      s.(core := Register(s.core, Top(s).frame, h, owned), stack := MarkDone(s.stack),
         held := if owned then s.held[h := s.held[h] - 1] else s.held)
    case Unwind =>
      (match Top(s).purpose
       case Kicked => s.(core := Drop(s.core, Top(s).frame), stack := Pop(s))
       case Called(parent) => s.(core := Register(s.core, parent, Top(s).frame, true), stack := MarkDone(Pop(s)))
       case _ => s.(stack := Pop(s)))
    case BeginCheckpoint => s.(core := Unpark(s.core), draining := true)
    case Dispatch => DispatchHead(s)
    case EndCheckpoint => s.(draining := false)
  }

  // ----- the invariant

  ghost function ActiveOf(stack: seq<Activation>): set<Id> {
    set i | 0 <= i < |stack| && !stack[i].done :: stack[i].frame
  }

  ghost function TransitOf(stack: seq<Activation>): set<Id> {
    set i | 0 <= i < |stack| && (stack[i].purpose.Kicked? || stack[i].purpose.Called?) :: stack[i].frame
  }

  /** Each frame is on the stack once, only the top is done, and a called frame is above its caller. */
  ghost predicate Stacked(stack: seq<Activation>) {
    && (forall i, j | 0 <= i < j < |stack| :: stack[i].frame != stack[j].frame)
    && (forall i | 0 <= i < |stack| - 1 :: !stack[i].done)
    && (forall i | 0 < i < |stack| && stack[i].purpose.Called? :: stack[i - 1].frame == stack[i].purpose.parent)
    && (stack != [] ==> !stack[0].purpose.Called?)
  }

  /** Every frame and every registration is in its one place. */
  ghost predicate Places(s: Run) {
    && Homes(s.core, ActiveOf(s.stack))
    && Reads(s.core)
    && Aggregates(s.core, s.building)
    && Stacked(s.stack)
    && forall i | 0 <= i < |s.stack| :: s.stack[i].frame in s.core.table
  }

  /** Every count is exact, and what is owned keeps its completion. */
  ghost predicate Counted(s: Run) {
    Owners(s.core, s.held, TransitOf(s.stack)) && Kept(s.core)
  }

  ghost predicate Inv(s: Run) {
    Places(s) && Counted(s) && !s.defect
  }

  /** The one count that the event adds is not at its largest value, so that it is not lost. */
  predicate HasRoom(s: Run, e: Event)
    requires Enabled(s, e)
  {
    match e
    case RetainHandle(h) => s.core.table[h].owners < MAX_OWNERS
    case Await(h, owned) => owned || s.core.table[h].owners < MAX_OWNERS
    case AddOne(h) => s.core.table[h].owners < MAX_OWNERS
    case _ => true
  }

  lemma InitialInv()
    ensures Inv(INITIAL)
  {
  }

  // ----- the stack

  lemma StackPush(stack: seq<Activation>, f: Id, purpose: Purpose)
    ensures var s := stack + [Activation(f, purpose, false)];
      && ActiveOf(s) == ActiveOf(stack) + {f}
      && TransitOf(s) == if purpose.Kicked? || purpose.Called? then TransitOf(stack) + {f} else TransitOf(stack)
  {
    var s := stack + [Activation(f, purpose, false)];
    assert s[|stack|] == Activation(f, purpose, false);
    assert forall i | 0 <= i < |stack| :: s[i] == stack[i];
    forall x | x in ActiveOf(stack) ensures x in ActiveOf(s) {
      var i :| 0 <= i < |stack| && !stack[i].done && stack[i].frame == x;
      assert s[i].frame == x;
    }
    forall x | x in TransitOf(stack) ensures x in TransitOf(s) {
      var i :| 0 <= i < |stack| && (stack[i].purpose.Kicked? || stack[i].purpose.Called?) && stack[i].frame == x;
      assert s[i].frame == x;
    }
  }

  lemma StackedPush(stack: seq<Activation>, f: Id, purpose: Purpose)
    requires Stacked(stack) && (stack != [] ==> !stack[|stack| - 1].done)
    requires forall i | 0 <= i < |stack| :: stack[i].frame != f
    requires purpose.Called? ==> stack != [] && stack[|stack| - 1].frame == purpose.parent
    ensures Stacked(stack + [Activation(f, purpose, false)])
  {
  }

  lemma OnStack(stack: seq<Activation>, i: nat)
    requires i < |stack|
    ensures !stack[i].done ==> stack[i].frame in ActiveOf(stack)
    ensures stack[i].purpose.Kicked? || stack[i].purpose.Called? ==> stack[i].frame in TransitOf(stack)
  {
  }

  lemma StackDone(stack: seq<Activation>)
    requires stack != [] && Stacked(stack) && !stack[|stack| - 1].done
    ensures Stacked(MarkDone(stack))
    ensures ActiveOf(MarkDone(stack)) == ActiveOf(stack) - {stack[|stack| - 1].frame}
    ensures TransitOf(MarkDone(stack)) == TransitOf(stack)
  {
    var d, n := MarkDone(stack), |stack| - 1;
    assert forall i | 0 <= i < n :: d[i] == stack[i];
    forall x | x in ActiveOf(stack) && x != stack[n].frame ensures x in ActiveOf(d) {
      var i :| 0 <= i < |stack| && !stack[i].done && stack[i].frame == x;
      assert d[i].frame == x;
    }
    forall x | x in TransitOf(stack) ensures x in TransitOf(d) {
      var i :| 0 <= i < |stack| && (stack[i].purpose.Kicked? || stack[i].purpose.Called?) && stack[i].frame == x;
      assert d[i].frame == x && d[i].purpose == stack[i].purpose;
    }
    forall x | x in TransitOf(d) ensures x in TransitOf(stack) {
      var i :| 0 <= i < |d| && (d[i].purpose.Kicked? || d[i].purpose.Called?) && d[i].frame == x;
      assert stack[i].frame == x && d[i].purpose == stack[i].purpose;
    }
  }

  lemma StackPop(stack: seq<Activation>)
    requires stack != [] && Stacked(stack) && stack[|stack| - 1].done
    ensures Stacked(stack[..|stack| - 1])
    ensures ActiveOf(stack[..|stack| - 1]) == ActiveOf(stack)
    ensures TransitOf(stack[..|stack| - 1]) == TransitOf(stack) - {stack[|stack| - 1].frame}
    ensures !stack[|stack| - 1].purpose.Kicked? && !stack[|stack| - 1].purpose.Called? ==>
      TransitOf(stack[..|stack| - 1]) == TransitOf(stack)
  {
    var d, n := stack[..|stack| - 1], |stack| - 1;
    assert forall i | 0 <= i < n :: d[i] == stack[i];
    forall x | x in ActiveOf(stack) ensures x in ActiveOf(d) {
      var i :| 0 <= i < |stack| && !stack[i].done && stack[i].frame == x;
      assert d[i].frame == x;
    }
    forall x | x in TransitOf(stack) && x != stack[n].frame ensures x in TransitOf(d) {
      var i :| 0 <= i < |stack| && (stack[i].purpose.Kicked? || stack[i].purpose.Called?) && stack[i].frame == x;
      assert d[i].frame == x && d[i].purpose == stack[i].purpose;
    }
    forall x | x in TransitOf(d) ensures x in TransitOf(stack) && x != stack[n].frame {
      var i :| 0 <= i < |d| && (d[i].purpose.Kicked? || d[i].purpose.Called?) && d[i].frame == x;
      assert stack[i].frame == x;
    }
  }
}
