/**
The host-driven continuation scheduler of the reference interpreter: the
coroutines with their completions and waiters, the ready queue and the parked
list, and every operation that changes them. A script is a source of
operations: each operation of a running frame, of the host or of a release is
one event of a run.
*/
module SchedulerSteps {
  import opened StructViews

  /** The identity of a coroutine. */
  type Id = nat

  const MAX_OWNERS: nat := 0xffff_ffff

  /** An owner count, a 32-bit number. */
  type Count = n: nat | n <= MAX_OWNERS

  /** The completion of a handle: a value, or an exception and whether an await raised it. */
  datatype Completion = Returned(value: int) | Raised(exception: int, observed: bool)

  /** A continuation: the resume of a frame, or the reaction of an aggregate to one of its inputs. */
  datatype Job = Resume(frame: Id) | React(aggregate: Id, index: nat)

  /** A frame, or the handle of an aggregate that waits for all its inputs. */
  datatype Kind = Invocation | Aggregate(inputs: seq<Option<Id>>, remaining: nat)

  datatype Coroutine = Coroutine(
    kind: Kind,
    completed: bool,
    completion: Option<Completion>,
    owners: Count,
    hostRoot: bool,
    waiters: seq<Job>,
    awaiting: Option<Id>)

  /** What the scheduler keeps: every coroutine, the ready queue and the parked frames. */
  datatype Core = Core(table: map<Id, Coroutine>, ready: seq<Job>, parked: seq<Id>)

  function NewCoroutine(kind: Kind, hostRoot: bool): Coroutine {
    Coroutine(kind, false, None, 1, hostRoot, [], None)
  }

  function Put(c: Core, id: Id, co: Coroutine): Core {
    c.(table := c.table[id := co])
  }

  predicate Unread(co: Coroutine) {
    co.kind.Aggregate? && exists i :: 0 <= i < |co.kind.inputs| && co.kind.inputs[i].Some?
  }

  // ----- owner counts

  /** One more owner; the count stops at the largest 32-bit value. */
  function Retain(c: Core, h: Id): Core
    requires h in c.table
  {
    var co := c.table[h];
    Put(c, h, co.(owners := OneMore(co.owners)))
  }

  function OneMore(n: Count): Count {
    if n == MAX_OWNERS then MAX_OWNERS else n + 1
  }

  function OneLess(n: nat): (r: nat)
    ensures r <= n
  {
    if n == 0 then 0 else n - 1
  }

  /** One owner less; the last release of a completed handle with nothing left to read drops its completion. */
  function Drop(c: Core, h: Id): Core
    requires h in c.table
  {
    var co := c.table[h].(owners := OneLess(c.table[h].owners));
    Put(c, h, if co.owners == 0 && co.completed && !Unread(co) then co.(completion := None) else co)
  }

  /** The last release of an exception that no await raised is a trap. */
  predicate DropTraps(c: Core, h: Id)
    requires h in c.table
  {
    var co := c.table[h];
    OneLess(co.owners) == 0 && co.completed && co.completion.Some? && co.completion.value.Raised?
    && !co.completion.value.observed
  }

  function DropUnowned(c: Core, h: Id): Core
    requires h in c.table
  {
    if c.table[h].owners == 0 then Drop(c, h) else c
  }

  // ----- continuations

  /** A completed handle makes the job ready; an unfinished one keeps it in registration order. */
  function Enqueue(c: Core, h: Id, job: Job): Core
    requires h in c.table
  {
    if c.table[h].completed then c.(ready := c.ready + [job])
    else Put(c, h, c.table[h].(waiters := c.table[h].waiters + [job]))
  }

  /** The frame waits for the handle; the registration owns one count of it. */
  function Register(c: Core, frame: Id, h: Id, owned: bool): Core
    requires frame in c.table && h in c.table
  {
    var counted := if owned then c else Retain(c, h);
    Enqueue(Put(counted, frame, counted.table[frame].(awaiting := Some(h))), h, Resume(frame))
  }

  /** The handle is completed; its waiters become ready, in registration order, at the tail. */
  function Settle(c: Core, h: Id, x: Completion): Core
    requires h in c.table
  {
    var co := c.table[h];
    Put(c, h, co.(completed := true, completion := Some(x), waiters := [])).(ready := c.ready + co.waiters)
  }

  /** The frame has returned or raised. */
  function Finish(c: Core, frame: Id, x: Completion): Core
    requires frame in c.table
  {
    DropUnowned(Settle(c, frame, x), frame)
  }

  function Observe(c: Core, h: Id): Core
    requires h in c.table
  {
    var co := c.table[h];
    if co.completion.Some? && co.completion.value.Raised?
    then Put(c, h, co.(completion := Some(co.completion.value.(observed := true))))
    else c
  }

  /** A resumed frame reads the completion that it waited for and gives its count back. */
  function TakeCompletion(c: Core, frame: Id): Core
    requires frame in c.table
    requires c.table[frame].awaiting.Some? ==> c.table[frame].awaiting.value in c.table
  {
    var h := c.table[frame].awaiting;
    var free := Put(c, frame, c.table[frame].(awaiting := None));
    if h.None? then free else Drop(Observe(free, h.value), h.value)
  }

  function TakeInput(c: Core, a: Id, i: nat): Core
    requires a in c.table && c.table[a].kind.Aggregate? && i < |c.table[a].kind.inputs|
  {
    var kind := c.table[a].kind;
    Put(c, a, c.table[a].(kind := Aggregate(kind.inputs[i := None], OneLess(kind.remaining))))
  }

  /** The completion that a reaction gives its aggregate: the first exception, or the value after the last input. */
  function Outcome(a: Id, aggregate: Coroutine, input: Completion): Option<Completion>
    requires aggregate.kind.Aggregate?
  {
    if aggregate.completion.Some? then None
    else match input
      case Raised(e, _) => Some(Raised(e, false))
      case Returned(_) => if aggregate.kind.remaining == 0 then Some(Returned(a)) else None
  }

  predicate CanReact(c: Core, a: Id, i: nat) {
    && a in c.table && c.table[a].kind.Aggregate?
    && i < |c.table[a].kind.inputs| && c.table[a].kind.inputs[i].Some?
    && var h := c.table[a].kind.inputs[i].value;
       h != a && h in c.table && c.table[h].completion.Some?
  }

  /** The aggregate reads one completed input and takes its outcome. */
  function ReadInput(c: Core, a: Id, i: nat): (d: Core)
    requires CanReact(c, a, i)
    ensures d.table.Keys == c.table.Keys
  {
    var h := c.table[a].kind.inputs[i].value;
    var taken := Observe(TakeInput(c, a, i), h);
    var outcome := Outcome(a, taken.table[a], c.table[h].completion.value);
    if outcome.Some? then Settle(taken, a, outcome.value) else taken
  }

  /** The reaction: the input is read and given back, and an aggregate that nobody owns is dropped. */
  function Reaction(c: Core, a: Id, i: nat): Core
    requires CanReact(c, a, i)
  {
    DropUnowned(Drop(ReadInput(c, a, i), c.table[a].kind.inputs[i].value), a)
  }

  // ----- checkpoints

  function Resumes(frames: seq<Id>): seq<Job> {
    seq(|frames|, i requires 0 <= i < |frames| => Resume(frames[i]))
  }

  function Unpark(c: Core): Core {
    c.(ready := c.ready + Resumes(c.parked), parked := [])
  }
}
