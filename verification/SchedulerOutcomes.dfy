/**
What coroutines complete with: a frame with what it returned or raised, an
aggregate with the first exception among its inputs, or with its value once
every input has returned. An exception that somebody has read does not trap.
*/
module SchedulerOutcomes {
  import opened StructViews
  import opened SchedulerSteps
  import opened SchedulerInvariant
  import opened SchedulerCounts
  import opened SchedulerRuns
  import opened SchedulerPlaces
  import opened SchedulerTheorems

  // ----- frames

  /** A frame that returns or raises is completed with that, and keeps it while somebody owns the handle. */
  lemma FrameCompletes(s: Run, e: Event)
    requires Places(s) && Enabled(s, e) && (e.Return? || e.Raise?)
    ensures var f, t := Top(s).frame, After(s, e).core.table;
      && f in t && t[f].completed && t[f].owners == s.core.table[f].owners
      && (t[f].owners > 0 ==> t[f].completion == Some(if e.Return? then Returned(e.value) else Raised(e.exception, false)))
      && (t[f].owners == 0 ==> t[f].completion.None?)
  {
    hide Places;
    TopIsActive(s);
  }

  // ----- observed exceptions

  /** An exception that a resumed frame reads does not trap when its handle is released. */
  lemma ResumeObserves(c: Core, f: Id, h: Id)
    requires f in c.table && c.table[f].awaiting == Some(h) && h in c.table
    ensures h in TakeCompletion(c, f).table && !DropTraps(TakeCompletion(c, f), h)
  {
  }

  /** An exception that an aggregate reads does not trap when the input is released. */
  lemma ReactionObserves(c: Core, a: Id, i: nat)
    requires CanReact(c, a, i)
    ensures var h := c.table[a].kind.inputs[i].value;
      h in Reaction(c, a, i).table && !DropTraps(Reaction(c, a, i), h)
  {
    var h := c.table[a].kind.inputs[i].value;
    var taken := Observe(TakeInput(c, a, i), h);
    assert taken.table[h].completion.value.Raised? ==> taken.table[h].completion.value.observed;
    var read := ReadInput(c, a, i);
    assert read.table[h] == taken.table[h];
    var dropped := Drop(read, h);
    assert !DropTraps(dropped, h);
    assert DropUnowned(dropped, a).table[h] == dropped.table[h];
  }

  // ----- one reaction

  /** Some input other than `i` is unread. */
  ghost predicate OthersUnread(inputs: seq<Option<Id>>, i: nat) {
    exists j | 0 <= j < |inputs| :: j != i && inputs[j].Some?
  }

  ghost predicate AnyUnread(inputs: seq<Option<Id>>) {
    exists j :: 0 <= j < |inputs| && inputs[j].Some?
  }

  /**
  A reaction to an exception completes an open aggregate with it, a reaction to
  a value completes it once no other input is unread, and a completed aggregate
  keeps its completion. A completion that nobody can read any more is dropped.
  */
  lemma ReactionOutcome(c: Core, a: Id, i: nat)
    requires CanReact(c, a, i) && c.table[a].kind.remaining == CountSome(c.table[a].kind.inputs)
    requires c.table[a].completed <==> c.table[a].completion.Some?
    ensures var d, before, inputs := Reaction(c, a, i).table[a], c.table[a].completion, c.table[a].kind.inputs;
      var x, kept := c.table[inputs[i].value].completion.value, c.table[a].owners > 0 || OthersUnread(inputs, i);
      && d.kind == Aggregate(inputs[i := None], CountSome(inputs[i := None]))
      && (before.None? && x.Raised? ==> d.completed && d.completion == if kept then Some(Raised(x.exception, false)) else None)
      && (before.None? && x.Returned? ==> (d.completed <==> !OthersUnread(inputs, i)))
      && (before.None? && x.Returned? && d.completed ==> d.completion == if kept then Some(Returned(a)) else None)
      && (before.None? && x.Returned? && !d.completed ==> d.completion.None?)
      && (before.Some? ==> d.completed && d.completion == if kept then before else None)
  {
    var inputs, h := c.table[a].kind.inputs, c.table[a].kind.inputs[i].value;
    CountSomeTake(inputs, i);
    LeftUnread(inputs, i);
    ReadOutcome(c, a, i);
    var read := ReadInput(c, a, i);
    var dropped := Drop(read, h);
    assert dropped.table[a] == read.table[a];
    assert Unread(read.table[a]) <==> OthersUnread(inputs, i);
  }

  lemma LeftUnread(inputs: seq<Option<Id>>, i: nat)
    requires i < |inputs|
    ensures CountSome(inputs[i := None]) > 0 <==> OthersUnread(inputs, i)
    ensures OthersUnread(inputs, i) <==> AnyUnread(inputs[i := None])
  {
    var rest := inputs[i := None];
    CountSomeUnread(rest);
    if j :| 0 <= j < |rest| && rest[j].Some? {
      assert inputs[j].Some? && j != i;
    }
    if OthersUnread(inputs, i) {
      var j :| 0 <= j < |inputs| && j != i && inputs[j].Some?;
      assert rest[j].Some?;
    }
  }

  /** What the aggregate is once it has read the input. */
  lemma ReadOutcome(c: Core, a: Id, i: nat)
    requires CanReact(c, a, i) && c.table[a].kind.remaining == CountSome(c.table[a].kind.inputs)
    requires CountSome(c.table[a].kind.inputs) == CountSome(c.table[a].kind.inputs[i := None]) + 1
    ensures var d, before, inputs := ReadInput(c, a, i).table[a], c.table[a].completion, c.table[a].kind.inputs;
      var x, left := c.table[inputs[i].value].completion.value, CountSome(inputs[i := None]);
      && d.kind == Aggregate(inputs[i := None], left) && d.owners == c.table[a].owners
      && (before.Some? ==> d.completion == before && d.completed == c.table[a].completed)
      && (before.None? && x.Raised? ==> d.completed && d.completion == Some(Raised(x.exception, false)))
      && (before.None? && x.Returned? && left == 0 ==> d.completed && d.completion == Some(Returned(a)))
      && (before.None? && x.Returned? && left > 0 ==> d.completion.None? && d.completed == c.table[a].completed)
  {
    hide CountSome;
    var h := c.table[a].kind.inputs[i].value;
    assert Observe(TakeInput(c, a, i), h).table[a] == TakeInput(c, a, i).table[a];
  }

  // ----- the other events

  /** The event runs a reaction of the aggregate, or ends its construction. */
  ghost predicate Touches(s: Run, e: Event, a: Id) {
    || (e.EndAll? && s.building == Some(a))
    || (e.Dispatch? && s.core.ready != [] && s.core.ready[0].React? && s.core.ready[0].aggregate == a)
  }

  /** The coroutine is as it was, except for its counts, places and completion, or for a new input. */
  ghost predicate Same(s: Run, e: Event, t: Run, a: Id) {
    && a in s.core.table && a in t.core.table
    && t.core.table[a].completed == s.core.table[a].completed
    && (t.core.table[a].kind == s.core.table[a].kind ||
        (e.AddOne? && s.building == Some(a) && s.core.table[a].kind.Aggregate? && t.core.table[a].kind.Aggregate?))
  }

  /** No other event completes an aggregate or reads its inputs. */
  lemma OthersKeep(s: Run, e: Event, a: Id)
    requires Places(s) && Enabled(s, e) && !After(s, e).defect
    requires a in s.core.table && s.core.table[a].kind.Aggregate? && !Touches(s, e, a)
    ensures Same(s, e, After(s, e), a)
  {
    hide Places, Finish, Drop, Register, AddInput, DispatchHead;
    match e
    case Return(v) => FinishKeeps(s, Returned(v), a);
    case Raise(x) => FinishKeeps(s, Raised(x, false), a);
    case EndAll =>
    case Await(h, owned) => RegisterTable(s.core, Top(s).frame, h, owned);
    case ReleaseHandle(h) => DropPlaces(s.core, h);
    case AddOne(h) => AddInputTable(s.core, s.building.value, h);
    case Unwind =>
      if Top(s).purpose.Kicked? {
        DropPlaces(s.core, Top(s).frame);
      } else if Top(s).purpose.Called? {
        RegisterTable(s.core, Top(s).purpose.parent, Top(s).frame, true);
      }
    case Dispatch => DispatchKeeps(s, a);
    case _ =>
  }

  lemma FinishKeeps(s: Run, x: Completion, a: Id)
    requires Places(s) && Running(s) && a in s.core.table && s.core.table[a].kind.Aggregate?
    ensures a in Finish(s.core, Top(s).frame, x).table && Finish(s.core, Top(s).frame, x).table[a] == s.core.table[a]
  {
    hide Places;
    TopIsActive(s);
  }

  lemma DispatchKeeps(s: Run, a: Id)
    requires Places(s) && s.core.ready != [] && !DispatchHead(s).defect
    requires a in s.core.table && s.core.table[a].kind.Aggregate?
    requires !(s.core.ready[0].React? && s.core.ready[0].aggregate == a)
    ensures var t := DispatchHead(s).core.table;
      a in t && t[a].completed == s.core.table[a].completed && t[a].kind == s.core.table[a].kind
  {
    hide Places, Reaction, ReadInput, TakeCompletion;
    var c := s.core.(ready := s.core.ready[1..]);
    match s.core.ready[0]
    case Resume(f) =>
      ResumeIsKnown(s, f);
      TakeKeepsCompleted(c, f);
      TakeTable(c, f);
    case React(b, i) =>
      ReadInputTable(c, b, i);
      ReactionPlaces(c, b, i);
  }

  lemma TakeKeepsCompleted(c: Core, f: Id)
    requires f in c.table && (c.table[f].awaiting.Some? ==> c.table[f].awaiting.value in c.table)
    ensures TakeCompletion(c, f).table.Keys == c.table.Keys
    ensures forall g | g in c.table :: TakeCompletion(c, f).table[g].completed == c.table[g].completed
  {
  }

  /** A new aggregate is open, and no event changes what is an aggregate. */
  lemma NewIsOpen(s: Run, e: Event, a: Id)
    requires Places(s) && Enabled(s, e) && !After(s, e).defect && a in After(s, e).core.table
    ensures a !in s.core.table ==> !After(s, e).core.table[a].completed && After(s, e).core.table[a].completion.None?
    ensures a in s.core.table ==> After(s, e).core.table[a].kind.Aggregate? == s.core.table[a].kind.Aggregate?
  {
    hide Places, Drop, Register, AddInput, DispatchHead;
    match e
    case Return(v) => SettleKeys(s.core, Top(s).frame, Returned(v));
    case Raise(x) => SettleKeys(s.core, Top(s).frame, Raised(x, false));
    case Await(h, owned) => RegisterTable(s.core, Top(s).frame, h, owned);
    case ReleaseHandle(h) => DropPlaces(s.core, h);
    case AddOne(h) => AddInputTable(s.core, s.building.value, h);
    case Unwind =>
      if Top(s).purpose.Kicked? {
        DropPlaces(s.core, Top(s).frame);
      } else if Top(s).purpose.Called? {
        RegisterTable(s.core, Top(s).purpose.parent, Top(s).frame, true);
      }
    case Dispatch => DispatchKinds(s, a);
    case _ =>
  }

  lemma SettleKeys(c: Core, f: Id, x: Completion)
    requires f in c.table
    ensures Finish(c, f, x).table.Keys == c.table.Keys
    ensures forall g | g in c.table :: Finish(c, f, x).table[g].kind == c.table[g].kind
  {
  }

  lemma DispatchKinds(s: Run, a: Id)
    requires Places(s) && s.core.ready != [] && !DispatchHead(s).defect && a in DispatchHead(s).core.table
    ensures a in s.core.table && DispatchHead(s).core.table[a].kind.Aggregate? == s.core.table[a].kind.Aggregate?
  {
    hide Places, Reaction, ReadInput, TakeCompletion;
    var c := s.core.(ready := s.core.ready[1..]);
    match s.core.ready[0]
    case Resume(f) =>
      ResumeIsKnown(s, f);
      TakeTable(c, f);
    case React(b, i) =>
      ReadInputTable(c, b, i);
      ReactionPlaces(c, b, i);
  }

  // ----- runs

  /** Event `m` lets aggregate `a` read input `i`, which has completed with `x`. */
  ghost predicate ReadsAt(states: seq<Run>, events: seq<Event>, m: int, a: Id, i: nat, x: Completion) {
    && Dispatches(states, events, m, React(a, i)) && CanReact(states[m].core, a, i)
    && states[m].core.table[states[m].core.table[a].kind.inputs[i].value].completion == Some(x)
  }

  /** Before `k` the aggregate has read no exception. */
  ghost predicate NoRaise(states: seq<Run>, events: seq<Event>, k: int, a: Id) {
    forall m, i, x | m < k && ReadsAt(states, events, m, a, i, x) :: x.Returned?
  }

  /** Before `k` the aggregate has read the exception, and none before it. */
  ghost predicate FirstRaise(states: seq<Run>, events: seq<Event>, k: int, a: Id, e: int) {
    exists m, i, observed | m < k :: ReadsAt(states, events, m, a, i, Raised(e, observed)) && NoRaise(states, events, m, a)
  }

  lemma {:induction false} KeysGrow(states: seq<Run>, events: seq<Event>, i: nat, k: nat, a: Id)
    requires IsRun(states, events) && i <= k < |states| && !states[k].defect && a in states[i].core.table
    ensures a in states[k].core.table
    decreases k - i
  {
    hide Places, After, Enabled;
    if i < k {
      assert Steps(states[i], events[i], states[i + 1]);
      EarlierIsNotDefect(states, events, i, k);
      EarlierIsNotDefect(states, events, i + 1, k);
      RunKeepsPlaces(states, events, i);
      StepKeys(states[i], events[i], a);
      KeysGrow(states, events, i + 1, k, a);
    }
  }

  lemma StepKeys(s: Run, e: Event, a: Id)
    requires Places(s) && Enabled(s, e) && !After(s, e).defect && a in s.core.table
    ensures a in After(s, e).core.table
  {
    hide Places, Drop, Register, AddInput, DispatchHead;
    match e
    case Return(v) => SettleKeys(s.core, Top(s).frame, Returned(v));
    case Raise(x) => SettleKeys(s.core, Top(s).frame, Raised(x, false));
    case Await(h, owned) => RegisterTable(s.core, Top(s).frame, h, owned);
    case ReleaseHandle(h) => DropPlaces(s.core, h);
    case AddOne(h) => AddInputTable(s.core, s.building.value, h);
    case Unwind =>
      if Top(s).purpose.Kicked? {
        DropPlaces(s.core, Top(s).frame);
      } else if Top(s).purpose.Called? {
        RegisterTable(s.core, Top(s).purpose.parent, Top(s).frame, true);
      }
    case Dispatch => DispatchKeys(s, a);
    case _ =>
  }

  lemma DispatchKeys(s: Run, a: Id)
    requires Places(s) && s.core.ready != [] && !DispatchHead(s).defect && a in s.core.table
    ensures a in DispatchHead(s).core.table
  {
    hide Places, Reaction, ReadInput, TakeCompletion;
    var c := s.core.(ready := s.core.ready[1..]);
    match s.core.ready[0]
    case Resume(f) =>
      ResumeIsKnown(s, f);
      TakeTable(c, f);
    case React(b, i) =>
      ReadInputTable(c, b, i);
      ReactionPlaces(c, b, i);
  }

  /** What an aggregate has completed with, against what it has read before `k`. */
  ghost predicate Explained(states: seq<Run>, events: seq<Event>, k: int, a: Id, co: Coroutine)
    requires co.kind.Aggregate?
  {
    && (!co.completed ==> NoRaise(states, events, k, a))
    && match co.completion
       case None => true
       case Some(Returned(v)) => v == a && !AnyUnread(co.kind.inputs) && NoRaise(states, events, k, a)
       case Some(Raised(e, _)) => FirstRaise(states, events, k, a, e)
  }

  lemma NoRaiseNext(states: seq<Run>, events: seq<Event>, k: nat, a: Id)
    requires NoRaise(states, events, k, a)
    requires forall i, x | ReadsAt(states, events, k, a, i, x) :: x.Returned?
    ensures NoRaise(states, events, k + 1, a)
  {
    forall m, i, x | m < k + 1 && ReadsAt(states, events, m, a, i, x) ensures x.Returned? {
      if m == k {
      }
    }
  }

  lemma FirstRaiseNext(states: seq<Run>, events: seq<Event>, k: nat, a: Id, e: int)
    requires FirstRaise(states, events, k, a, e)
    ensures FirstRaise(states, events, k + 1, a, e)
  {
    hide ReadsAt, NoRaise;
    var m, i, observed :| m < k && ReadsAt(states, events, m, a, i, Raised(e, observed)) && NoRaise(states, events, m, a);
  }

  lemma QuietNext(states: seq<Run>, events: seq<Event>, k: nat, a: Id)
    requires k < |states| && k < |events| && !(events[k].Dispatch? && Touches(states[k], events[k], a))
    ensures NoRaise(states, events, k, a) ==> NoRaise(states, events, k + 1, a)
  {
    if NoRaise(states, events, k, a) {
      NoRaiseNext(states, events, k, a);
    }
  }

  /** An aggregate that has just been made has read nothing. */
  lemma NewHasRead(states: seq<Run>, events: seq<Event>, k: nat, a: Id)
    requires IsRun(states, events) && k < |events| && !states[k].defect && a !in states[k].core.table
    ensures NoRaise(states, events, k + 1, a)
  {
    assert k < |states|;
    hide IsRun;
    forall m, i, x | m < k + 1 ensures !ReadsAt(states, events, m, a, i, x) {
      if ReadsAt(states, events, m, a, i, x) {
        KeysGrow(states, events, m, k, a);
      }
    }
  }

  /** An event other than a reaction of the aggregate or the end of its construction. */
  lemma ExplainedOther(states: seq<Run>, events: seq<Event>, k: nat, a: Id)
    requires k < |states| && k < |events| && Places(states[k]) && Enabled(states[k], events[k])
    requires !After(states[k], events[k]).defect && !Touches(states[k], events[k], a)
    requires a in states[k].core.table && states[k].core.table[a].kind.Aggregate?
    requires Explained(states, events, k, a, states[k].core.table[a])
    ensures var t := After(states[k], events[k]).core.table;
      a in t && t[a].kind.Aggregate? && Explained(states, events, k + 1, a, t[a])
  {
    hide Homes, Stacked, Enabled, After, NoRaise, FirstRaise, CountSome;
    var s, e := states[k], events[k];
    OthersKeep(s, e, a);
    PlacesStep(s, e);
    StaysStep(s, e);
    QuietNext(states, events, k, a);
    var co := s.core.table[a];
    if co.completion.Some? && co.completion.value.Raised? {
      FirstRaiseNext(states, events, k, a, co.completion.value.exception);
    }
  }

  lemma ExplainedEnd(states: seq<Run>, events: seq<Event>, k: nat, a: Id)
    requires k < |states| && k < |events| && Places(states[k]) && Enabled(states[k], events[k])
    requires events[k].EndAll? && states[k].building == Some(a)
    requires a in states[k].core.table && states[k].core.table[a].kind.Aggregate?
    requires Explained(states, events, k, a, states[k].core.table[a])
    ensures var t := After(states[k], events[k]).core.table;
      a in t && t[a].kind.Aggregate? && Explained(states, events, k + 1, a, t[a])
  {
    hide Homes, Stacked, NoRaise, FirstRaise, CountSome;
    BuildingIsOpen(states[k].core, a);
    QuietNext(states, events, k, a);
  }

  /** A reaction of the aggregate. */
  lemma ExplainedReaction(states: seq<Run>, events: seq<Event>, k: nat, a: Id, i: nat)
    requires k < |states| && k < |events| && Places(states[k]) && Enabled(states[k], events[k])
    requires events[k].Dispatch? && states[k].core.ready[0] == React(a, i) && !After(states[k], events[k]).defect
    requires a in states[k].core.table && states[k].core.table[a].kind.Aggregate?
    requires Explained(states, events, k, a, states[k].core.table[a])
    ensures var t := After(states[k], events[k]).core.table;
      a in t && t[a].kind.Aggregate? && Explained(states, events, k + 1, a, t[a])
  {
    hide Homes, Stacked, Reaction, NoRaise, FirstRaise, CountSome;
    var s := states[k];
    var c, co := s.core.(ready := s.core.ready[1..]), s.core.table[a];
    var h := ReactionIsKnown(s, a, i);
    assert CanReact(c, a, i) && CanReact(s.core, a, i);
    ReactionOutcome(c, a, i);
    ReactionKeys(c, a, i);
    LeftUnread(co.kind.inputs, i);
    assert AnyUnread(co.kind.inputs);
    var x := c.table[h].completion.value;
    assert ReadsAt(states, events, k, a, i, x);
    if co.completion.Some? {
      FirstRaiseNext(states, events, k, a, co.completion.value.exception);
    } else if x.Raised? {
      FirstRaiseHere(states, events, k, a, i, x);
    } else {
      OneRead(states, events, k, a, i, x);
    }
  }

  lemma ReactionKeys(c: Core, a: Id, i: nat)
    requires CanReact(c, a, i)
    ensures a in Reaction(c, a, i).table
  {
    hide Reaction, ReadInput;
    ReactionPlaces(c, a, i);
  }

  lemma FirstRaiseHere(states: seq<Run>, events: seq<Event>, k: nat, a: Id, i: nat, x: Completion)
    requires ReadsAt(states, events, k, a, i, x) && x.Raised? && NoRaise(states, events, k, a)
    ensures FirstRaise(states, events, k + 1, a, x.exception)
  {
    hide ReadsAt, NoRaise;
    assert x == Raised(x.exception, x.observed);
  }

  lemma OneRead(states: seq<Run>, events: seq<Event>, k: nat, a: Id, i: nat, x: Completion)
    requires ReadsAt(states, events, k, a, i, x) && x.Returned? && NoRaise(states, events, k, a)
    ensures NoRaise(states, events, k + 1, a)
  {
    NoRaiseNext(states, events, k, a);
  }

  /**
  In every run: an aggregate that has its value has read every input, and none
  had raised; one that has an exception has that of the first input that it
  read and that had raised; an open one has read no exception.
  */
  lemma {:induction false} AggregateOutcome(states: seq<Run>, events: seq<Event>, k: nat, a: Id)
    requires IsRun(states, events) && k < |states| && !states[k].defect
    requires a in states[k].core.table && states[k].core.table[a].kind.Aggregate?
    ensures Explained(states, events, k, a, states[k].core.table[a])
  {
    hide Places, Enabled, After, Explained;
    if k > 0 {
      var s, e := states[k - 1], events[k - 1];
      assert Steps(s, e, states[k - 1 + 1]);
      NotDefect(s, e);
      RunKeepsPlaces(states, events, k - 1);
      NewIsOpen(s, e, a);
      if a !in s.core.table {
        NewHasRead(states, events, k - 1, a);
        NewIsExplained(states, events, k, a, states[k].core.table[a]);
      } else {
        AggregateOutcome(states, events, k - 1, a);
        ExplainedStep(states, events, k - 1, a);
      }
    }
  }

  lemma NewIsExplained(states: seq<Run>, events: seq<Event>, k: nat, a: Id, co: Coroutine)
    requires NoRaise(states, events, k, a) && co.kind.Aggregate? && !co.completed && co.completion.None?
    ensures Explained(states, events, k, a, co)
  {
  }

  lemma ExplainedStep(states: seq<Run>, events: seq<Event>, k: nat, a: Id)
    requires k < |states| && k < |events| && Places(states[k]) && Enabled(states[k], events[k])
    requires !After(states[k], events[k]).defect
    requires a in states[k].core.table && states[k].core.table[a].kind.Aggregate?
    requires Explained(states, events, k, a, states[k].core.table[a])
    ensures var t := After(states[k], events[k]).core.table;
      a in t && t[a].kind.Aggregate? && Explained(states, events, k + 1, a, t[a])
  {
    hide Places, Enabled, After, Explained;
    if !Touches(states[k], events[k], a) {
      ExplainedOther(states, events, k, a);
    } else if events[k].EndAll? {
      ExplainedEnd(states, events, k, a);
    } else {
      ExplainedReaction(states, events, k, a, states[k].core.ready[0].index);
    }
  }
}
