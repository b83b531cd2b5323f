/**
What every operation of the scheduler keeps: each suspended frame and each
unread input is in exactly one place, a completed handle has no waiters, the
owner counts cover every registration, and a handle that somebody still owns
keeps its completion.
*/
module SchedulerInvariant {
  import opened StructViews
  import opened SchedulerSteps

  /** The aggregate `a` still has to read its input `i`, the handle `h`. */
  ghost predicate HasInput(t: map<Id, Coroutine>, a: Id, i: nat, h: Id) {
    && a in t && t[a].kind.Aggregate?
    && i < |t[a].kind.inputs| && t[a].kind.inputs[i] == Some(h)
  }

  /** A frame that has not returned. */
  ghost predicate Unfinished(t: map<Id, Coroutine>, f: Id) {
    f in t && t[f].kind.Invocation? && !t[f].completed
  }

  // ----- where each continuation is

  /** A ready job can run: its frame waits for nothing, or for a completed handle. */
  ghost predicate ReadyJob(c: Core, active: set<Id>, job: Job) {
    match job
    case Resume(f) =>
      && Unfinished(c.table, f) && f !in active && f !in c.parked
      && (c.table[f].awaiting.Some? ==>
            c.table[f].awaiting.value in c.table && c.table[c.table[f].awaiting.value].completed)
    case React(a, i) =>
      exists h :: HasInput(c.table, a, i, h) && h in c.table && c.table[h].completed
  }

  /** A waiter of `h` is the registration of a frame that awaits `h` or of an aggregate with the input `h`. */
  ghost predicate WaitingJob(c: Core, h: Id, job: Job) {
    match job
    case Resume(f) => f in c.table && c.table[f].awaiting == Some(h)
    case React(a, i) => HasInput(c.table, a, i, h)
  }

  ghost predicate ReadyJobs(c: Core, active: set<Id>) {
    Distinct(c.ready) && forall job | job in c.ready :: ReadyJob(c, active, job)
  }

  ghost predicate WaitingJobs(c: Core) {
    forall h | h in c.table ::
      && Distinct(c.table[h].waiters)
      && (c.table[h].completed ==> c.table[h].waiters == [])
      && forall job | job in c.table[h].waiters :: WaitingJob(c, h, job)
  }

  ghost predicate ParkedFrames(c: Core, active: set<Id>) {
    && Distinct(c.parked)
    && forall f | f in c.parked :: Unfinished(c.table, f) && c.table[f].awaiting.None? && f !in active
  }

  ghost predicate ActiveFrames(c: Core, active: set<Id>) {
    forall f | f in active :: Unfinished(c.table, f) && c.table[f].awaiting.None?
  }

  /** The job waits at `h` while `h` is unfinished, and is ready once `h` is completed. */
  ghost predicate At(c: Core, h: Id, job: Job) {
    h in c.table && if c.table[h].completed then job in c.ready else job in c.table[h].waiters
  }

  /** No await is lost. */
  ghost predicate AwaitsKept(c: Core, active: set<Id>) {
    forall f | f in c.table && c.table[f].awaiting.Some? ::
      Unfinished(c.table, f) && f !in active && At(c, c.table[f].awaiting.value, Resume(f))
  }

  /** No frame that waits for nothing is lost. */
  ghost predicate FramesKept(c: Core, active: set<Id>) {
    forall f | Unfinished(c.table, f) && c.table[f].awaiting.None? ::
      f in active || f in c.parked || Resume(f) in c.ready
  }

  /** No input of an aggregate is lost. */
  ghost predicate InputsKept(c: Core) {
    forall a, i, h | HasInput(c.table, a, i, h) :: h != a && At(c, h, React(a, i))
  }

  /** Every frame that can go on is in its one place. */
  ghost predicate Runs(c: Core, active: set<Id>) {
    ReadyJobs(c, active) && ParkedFrames(c, active) && ActiveFrames(c, active) && FramesKept(c, active)
  }

  /** Every registration is in its one place. */
  ghost predicate Waits(c: Core, active: set<Id>) {
    WaitingJobs(c) && AwaitsKept(c, active) && InputsKept(c)
  }

  ghost predicate Homes(c: Core, active: set<Id>) {
    Runs(c, active) && Waits(c, active)
  }

  // ----- completions

  /** A completion belongs to a completed handle, and stays while an aggregate has inputs to read. */
  ghost predicate Reads(c: Core) {
    forall h | h in c.table ::
      && (c.table[h].completion.Some? ==> c.table[h].completed)
      && (c.table[h].completed && Unread(c.table[h]) ==> c.table[h].completion.Some?)
  }

  /** A completion stays while the handle has an owner. */
  ghost predicate Kept(c: Core) {
    forall h | h in c.table && c.table[h].completed && c.table[h].owners > 0 :: c.table[h].completion.Some?
  }

  // ----- owner counts

  ghost function Awaiters(t: map<Id, Coroutine>, h: Id): set<Id> {
    set f | f in t && t[f].awaiting == Some(h)
  }

  ghost function Feeds(t: map<Id, Coroutine>, h: Id): set<(Id, nat)> {
    set a, i | a in t && t[a].kind.Aggregate? && 0 <= i < |t[a].kind.inputs| && t[a].kind.inputs[i] == Some(h) :: (a, i)
  }

  /** The frames that await `h` and the inputs of aggregates that are `h`. */
  ghost function Links(t: map<Id, Coroutine>, h: Id): nat {
    |Awaiters(t, h)| + |Feeds(t, h)|
  }

  ghost function Claims(t: map<Id, Coroutine>, held: map<Id, nat>, transit: set<Id>, h: Id): nat {
    (if h in held then held[h] else 0) + Links(t, h) + (if h in transit then 1 else 0)
  }

  /** The count of a handle is the number of its holders, awaits, unread inputs and calls in progress. */
  ghost predicate Owners(c: Core, held: map<Id, nat>, transit: set<Id>) {
    && held.Keys == c.table.Keys && transit <= c.table.Keys
    && forall h | h in c.table :: c.table[h].owners == Claims(c.table, held, transit, h)
  }

  // ----- aggregates

  function CountSome(inputs: seq<Option<Id>>): nat {
    if inputs == [] then 0
    else (if inputs[0].Some? then 1 else 0) + CountSome(inputs[1..])
  }

  /** An aggregate that is not being built is completed or has inputs to read. */
  ghost predicate Aggregates(c: Core, building: Option<Id>) {
    && (forall a | a in c.table && c.table[a].kind.Aggregate? ::
          && c.table[a].awaiting.None?
          && c.table[a].kind.remaining == CountSome(c.table[a].kind.inputs)
          && (building != Some(a) && !c.table[a].completed ==> c.table[a].kind.remaining > 0))
    && (building.Some? ==>
          && building.value in c.table && c.table[building.value].kind.Aggregate?
          && !c.table[building.value].completed
          && forall i | 0 <= i < |c.table[building.value].kind.inputs| :: c.table[building.value].kind.inputs[i].Some?)
  }

  // ----- homes: one lemma for each operation

  /** The two states differ in owner counts and completions only. */
  ghost predicate SamePlaces(c: Core, d: Core) {
    && c.table.Keys == d.table.Keys && c.ready == d.ready && c.parked == d.parked
    && forall h | h in c.table ::
      && c.table[h].kind == d.table[h].kind
      && c.table[h].completed == d.table[h].completed
      && c.table[h].waiters == d.table[h].waiters
      && c.table[h].awaiting == d.table[h].awaiting
  }

  lemma HomesSame(c: Core, d: Core, active: set<Id>)
    requires Homes(c, active) && SamePlaces(c, d)
    ensures Homes(d, active)
  {
    assert forall a, i, h :: HasInput(c.table, a, i, h) <==> HasInput(d.table, a, i, h);
    forall job | job in d.ready ensures ReadyJob(d, active, job) {
      assert ReadyJob(c, active, job);
      if job.React? {
        var h :| HasInput(c.table, job.aggregate, job.index, h) && h in c.table && c.table[h].completed;
        assert HasInput(d.table, job.aggregate, job.index, h);
      }
    }
    forall h, job | h in d.table && job in d.table[h].waiters ensures WaitingJob(d, h, job) {
      assert WaitingJob(c, h, job);
    }
    forall a, i, h | HasInput(d.table, a, i, h) ensures h != a && At(d, h, React(a, i)) {
      assert At(c, h, React(a, i));
    }
  }

  /** A job that waits at an unfinished handle is not ready. */
  lemma WaitingIsNotReady(c: Core, active: set<Id>, h: Id, job: Job)
    requires Homes(c, active) && h in c.table && job in c.table[h].waiters
    ensures job !in c.ready
  {
    assert WaitingJob(c, h, job);
    assert job in c.ready ==> ReadyJob(c, active, job);
  }

  lemma DistinctAppend<T(!new)>(s: seq<T>, r: seq<T>)
    requires Distinct(s) && Distinct(r) && forall x | x in r :: x !in s
    ensures Distinct(s + r)
  {
    forall i, j | 0 <= i < j < |s + r| ensures (s + r)[i] != (s + r)[j] {
      if i < |s| <= j {
        assert s[i] in s && r[j - |s|] in r;
      }
    }
  }

  lemma HomesSettle(c: Core, active: set<Id>, h: Id, x: Completion)
    requires Homes(c, active) && h in c.table && !c.table[h].completed
    requires c.table[h].kind.Invocation? ==> h in active
    ensures Homes(Settle(c, h, x), active - {h})
  {
    var d := Settle(c, h, x);
    assert forall a, i, g :: HasInput(c.table, a, i, g) <==> HasInput(d.table, a, i, g);
    forall job | job in c.table[h].waiters ensures job !in c.ready { WaitingIsNotReady(c, active, h, job); }
    DistinctAppend(c.ready, c.table[h].waiters);
    forall job | job in d.ready ensures ReadyJob(d, active - {h}, job) {
      if job in c.ready {
        assert ReadyJob(c, active, job);
        if job.React? {
          var g :| HasInput(c.table, job.aggregate, job.index, g) && g in c.table && c.table[g].completed;
          assert HasInput(d.table, job.aggregate, job.index, g);
        }
      } else {
        assert WaitingJob(c, h, job);
        if job.React? {
          assert HasInput(d.table, job.aggregate, job.index, h);
        }
      }
    }
    forall g, job | g in d.table && job in d.table[g].waiters ensures WaitingJob(d, g, job) {
      assert WaitingJob(c, g, job);
    }
    forall a, i, g | HasInput(d.table, a, i, g) ensures g != a && At(d, g, React(a, i)) {
      assert At(c, g, React(a, i));
    }
  }

  /** `d` is `c` with the new registration `job` at the handle `h`. */
  ghost predicate Linked(c: Core, d: Core, job: Job, h: Id) {
    && d.table.Keys == c.table.Keys && d.parked == c.parked && h in c.table && WaitingJob(d, h, job)
    && (forall g | g in c.table ::
          && d.table[g].kind.Invocation? == c.table[g].kind.Invocation?
          && d.table[g].completed == c.table[g].completed
          && (job != Resume(g) ==> d.table[g].awaiting == c.table[g].awaiting))
    && (forall a, i, g :: HasInput(d.table, a, i, g) <==> HasInput(c.table, a, i, g) || (job == React(a, i) && g == h))
    && (forall g | g in c.table ::
          d.table[g].waiters == if g == h && !c.table[h].completed then c.table[g].waiters + [job] else c.table[g].waiters)
    && d.ready == if c.table[h].completed then c.ready + [job] else c.ready
  }

  /** The registration is new: an active frame, or an input that the aggregate does not have yet. */
  ghost predicate NewJob(c: Core, active: set<Id>, job: Job, h: Id) {
    match job
    case Resume(f) => f in active
    case React(a, i) => h != a && a in c.table && c.table[a].kind.Aggregate? && forall g :: !HasInput(c.table, a, i, g)
  }

  ghost function AfterJob(active: set<Id>, job: Job): set<Id> {
    if job.Resume? then active - {job.frame} else active
  }

  lemma NewJobIsNowhere(c: Core, active: set<Id>, job: Job, h: Id)
    requires Homes(c, active) && NewJob(c, active, job, h)
    ensures job !in c.ready && forall g | g in c.table :: job !in c.table[g].waiters
  {
    assert job in c.ready ==> ReadyJob(c, active, job);
    forall g | g in c.table ensures job !in c.table[g].waiters {
      assert job in c.table[g].waiters ==> WaitingJob(c, g, job);
    }
  }

  lemma RunsLink(c: Core, d: Core, active: set<Id>, job: Job, h: Id)
    requires Homes(c, active) && NewJob(c, active, job, h) && Linked(c, d, job, h)
    ensures Runs(d, AfterJob(active, job))
  {
    NewJobIsNowhere(c, active, job, h);
    DistinctAppend(c.ready, [job]);
    forall x | x in d.ready ensures ReadyJob(d, AfterJob(active, job), x) {
      if x in c.ready {
        assert ReadyJob(c, active, x);
        if x.React? {
          var g :| HasInput(c.table, x.aggregate, x.index, g) && g in c.table && c.table[g].completed;
          assert HasInput(d.table, x.aggregate, x.index, g);
        }
      }
    }
  }

  lemma InputsLink(c: Core, d: Core, active: set<Id>, job: Job, h: Id)
    requires InputsKept(c) && NewJob(c, active, job, h) && Linked(c, d, job, h)
    ensures InputsKept(d)
  {
    forall a, i, g | HasInput(d.table, a, i, g) ensures g != a && At(d, g, React(a, i)) {
      assert HasInput(c.table, a, i, g) ==> At(c, g, React(a, i));
    }
  }

  lemma WaitsLink(c: Core, d: Core, active: set<Id>, job: Job, h: Id)
    requires Homes(c, active) && NewJob(c, active, job, h) && Linked(c, d, job, h)
    ensures WaitingJobs(d) && AwaitsKept(d, AfterJob(active, job))
  {
    hide InputsKept, Runs;
    assert ActiveFrames(c, active) by { ActiveAreKnown(c, active); }
    NewJobIsNowhere(c, active, job, h);
    DistinctAppend(c.table[h].waiters, [job]);
    forall g, x | g in d.table && x in d.table[g].waiters ensures WaitingJob(d, g, x) {
      assert x in c.table[g].waiters ==> WaitingJob(c, g, x);
    }
  }

  lemma ActiveAreKnown(c: Core, active: set<Id>)
    requires Homes(c, active)
    ensures ActiveFrames(c, active)
  {
  }

  lemma HomesLink(c: Core, d: Core, active: set<Id>, job: Job, h: Id)
    requires Homes(c, active) && NewJob(c, active, job, h) && Linked(c, d, job, h)
    ensures Homes(d, AfterJob(active, job))
  {
    hide Linked, NewJob, Runs, InputsKept, WaitingJobs, AwaitsKept;
    RunsLink(c, d, active, job, h);
    WaitsLink(c, d, active, job, h);
    InputsLink(c, d, active, job, h);
  }

  lemma RegisterLinks(c: Core, f: Id, h: Id, owned: bool)
    requires f in c.table && h in c.table && c.table[f].kind.Invocation?
    ensures Linked(c, Register(c, f, h, owned), Resume(f), h)
  {
    var d := Register(c, f, h, owned);
    assert forall a, i, g :: HasInput(d.table, a, i, g) <==> HasInput(c.table, a, i, g);
  }

  lemma HomesRegister(c: Core, active: set<Id>, f: Id, h: Id, owned: bool)
    requires Homes(c, active) && f in active && h in c.table
    ensures f in c.table && Homes(Register(c, f, h, owned), active - {f})
  {
    ActiveIsKnown(c, active, f);
    hide Homes, Linked, Register;
    RegisterLinks(c, f, h, owned);
    HomesLink(c, Register(c, f, h, owned), active, Resume(f), h);
  }

  lemma ActiveIsKnown(c: Core, active: set<Id>, f: Id)
    requires Homes(c, active) && f in active
    ensures Unfinished(c.table, f) && c.table[f].awaiting.None?
  {
  }

  lemma HomesPark(c: Core, active: set<Id>, f: Id)
    requires Homes(c, active) && f in active
    ensures Homes(c.(parked := c.parked + [f]), active - {f})
  {
    var d := c.(parked := c.parked + [f]);
    assert f !in c.parked;
    DistinctAppend(c.parked, [f]);
    forall job | job in d.ready ensures ReadyJob(d, active - {f}, job) {
      assert ReadyJob(c, active, job);
    }
    forall h, job | h in d.table && job in d.table[h].waiters ensures WaitingJob(d, h, job) {
      assert WaitingJob(c, h, job);
    }
    forall a, i, h | HasInput(d.table, a, i, h) ensures h != a && At(d, h, React(a, i)) {
      assert At(c, h, React(a, i));
    }
  }

  lemma HomesNew(c: Core, active: set<Id>, id: Id, hostRoot: bool)
    requires Homes(c, active) && id !in c.table
    ensures Homes(Put(c, id, NewCoroutine(Invocation, hostRoot)), active + {id})
    ensures Homes(Put(c, id, NewCoroutine(Aggregate([], 0), false)), active)
  {
    HomesAdd(c, active, id, NewCoroutine(Invocation, hostRoot), active + {id});
    HomesAdd(c, active, id, NewCoroutine(Aggregate([], 0), false), active);
  }

  lemma HomesAdd(c: Core, active: set<Id>, id: Id, co: Coroutine, after: set<Id>)
    requires Homes(c, active) && id !in c.table
    requires co.waiters == [] && co.awaiting.None? && !co.completed
    requires if co.kind.Invocation? then after == active + {id} else after == active && co.kind.inputs == []
    ensures Homes(Put(c, id, co), after)
  {
    var d := Put(c, id, co);
    assert forall a, i, h :: HasInput(c.table, a, i, h) <==> HasInput(d.table, a, i, h);
    forall job | job in d.ready ensures ReadyJob(d, after, job) {
      assert ReadyJob(c, active, job);
      if job.React? {
        var g :| HasInput(c.table, job.aggregate, job.index, g) && g in c.table && c.table[g].completed;
        assert HasInput(d.table, job.aggregate, job.index, g);
      }
    }
    forall h, job | h in d.table && job in d.table[h].waiters ensures WaitingJob(d, h, job) {
      assert WaitingJob(c, h, job);
    }
    forall a, i, h | HasInput(d.table, a, i, h) ensures h != a && At(d, h, React(a, i)) {
      assert At(c, h, React(a, i));
    }
  }

  lemma HomesUnpark(c: Core, active: set<Id>)
    requires Homes(c, active)
    ensures Homes(Unpark(c), active)
  {
    var d, moved := Unpark(c), Resumes(c.parked);
    forall job | job in moved ensures job !in c.ready && job.Resume? && job.frame in c.parked {
      assert job in c.ready ==> ReadyJob(c, active, job);
    }
    assert Distinct(moved);
    DistinctAppend(c.ready, moved);
    forall job | job in d.ready ensures ReadyJob(d, active, job) {
      assert job in c.ready ==> ReadyJob(c, active, job);
    }
    forall h, job | h in d.table && job in d.table[h].waiters ensures WaitingJob(d, h, job) {
      assert WaitingJob(c, h, job);
    }
    forall f | f in c.parked ensures Resume(f) in d.ready {
      var i :| 0 <= i < |c.parked| && c.parked[i] == f;
      assert moved[i] == Resume(f);
    }
    forall a, i, h | HasInput(d.table, a, i, h) ensures h != a && At(d, h, React(a, i)) {
      assert At(c, h, React(a, i));
    }
  }

  lemma HeadOnce<T(!new)>(q: seq<T>)
    requires q != [] && Distinct(q)
    ensures Distinct(q[1..]) && q[0] !in q[1..]
    ensures forall x | x in q && x != q[0] :: x in q[1..]
  {
    assert q == [q[0]] + q[1..];
  }

  /** The aggregate gets one more input. */
  function AddInput(c: Core, a: Id, h: Id): Core
    requires a in c.table && c.table[a].kind.Aggregate? && h in c.table
  {
    var kind := c.table[a].kind;
    var counted := Retain(c, h);
    Enqueue(Put(counted, a, counted.table[a].(kind := Aggregate(kind.inputs + [Some(h)], kind.remaining + 1))), h,
            React(a, |kind.inputs|))
  }

  lemma AddInputLinks(c: Core, a: Id, h: Id)
    requires a in c.table && c.table[a].kind.Aggregate? && h in c.table && h != a
    ensures Linked(c, AddInput(c, a, h), React(a, |c.table[a].kind.inputs|), h)
  {
    var d := AddInput(c, a, h);
    assert d.table[a].kind.inputs == c.table[a].kind.inputs + [Some(h)];
  }

  lemma HomesAddInput(c: Core, active: set<Id>, a: Id, h: Id)
    requires Homes(c, active) && a in c.table && c.table[a].kind.Aggregate? && h in c.table && h != a
    ensures Homes(AddInput(c, a, h), active)
  {
    hide Homes, Linked, AddInput;
    AddInputLinks(c, a, h);
    HomesLink(c, AddInput(c, a, h), active, React(a, |c.table[a].kind.inputs|), h);
  }

  // ----- the head of the ready queue runs

  /** `d` is `c` with the registration of the ready head taken away. */
  ghost predicate Unlinked(c: Core, d: Core, job: Job) {
    && c.ready != [] && c.ready[0] == job && d.ready == c.ready[1..]
    && d.table.Keys == c.table.Keys && d.parked == c.parked
    && (forall g | g in c.table ::
          && d.table[g].kind.Invocation? == c.table[g].kind.Invocation?
          && d.table[g].completed == c.table[g].completed
          && d.table[g].waiters == c.table[g].waiters
          && d.table[g].awaiting == if job == Resume(g) then None else c.table[g].awaiting)
    && (forall a, i, g :: HasInput(d.table, a, i, g) <==> HasInput(c.table, a, i, g) && job != React(a, i))
  }

  ghost function ActiveFor(active: set<Id>, job: Job): set<Id> {
    if job.Resume? then active + {job.frame} else active
  }

  lemma RunsUnlink(c: Core, d: Core, active: set<Id>, job: Job)
    requires Homes(c, active) && Unlinked(c, d, job)
    ensures Runs(d, ActiveFor(active, job))
  {
    HeadOnce(c.ready);
    assert ReadyJob(c, active, c.ready[0]);
    forall x | x in d.ready ensures ReadyJob(d, ActiveFor(active, job), x) {
      assert ReadyJob(c, active, x);
      if x.React? {
        var g :| HasInput(c.table, x.aggregate, x.index, g) && g in c.table && c.table[g].completed;
        assert HasInput(d.table, x.aggregate, x.index, g);
      }
    }
  }

  lemma WaitsUnlink(c: Core, d: Core, active: set<Id>, job: Job)
    requires Homes(c, active) && Unlinked(c, d, job)
    ensures WaitingJobs(d) && AwaitsKept(d, ActiveFor(active, job))
  {
    HeadOnce(c.ready);
    forall g, x | g in d.table && x in d.table[g].waiters ensures WaitingJob(d, g, x) {
      assert WaitingJob(c, g, x);
      WaitingIsNotReady(c, active, g, x);
    }
  }

  lemma InputsUnlink(c: Core, d: Core, active: set<Id>, job: Job)
    requires Homes(c, active) && Unlinked(c, d, job)
    ensures InputsKept(d)
  {
    HeadOnce(c.ready);
    forall a, i, g | HasInput(d.table, a, i, g) ensures g != a && At(d, g, React(a, i)) {
      assert At(c, g, React(a, i));
    }
  }

  lemma HomesUnlink(c: Core, d: Core, active: set<Id>, job: Job)
    requires Homes(c, active) && Unlinked(c, d, job)
    ensures Homes(d, ActiveFor(active, job))
  {
    hide Unlinked, Runs, InputsKept, WaitingJobs, AwaitsKept;
    RunsUnlink(c, d, active, job);
    WaitsUnlink(c, d, active, job);
    InputsUnlink(c, d, active, job);
  }
}
