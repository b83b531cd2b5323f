/**
The owner counts of the scheduler: what each operation does to the holders,
the awaits and the unread inputs of a handle, and why a handle that somebody
owns keeps its completion.
*/
module SchedulerCounts {
  import opened StructViews
  import opened SchedulerSteps
  import opened SchedulerInvariant

  type Coroutines = map<Id, Coroutine>

  // ----- awaits and inputs, counted

  lemma AwaitersAdd(t: Coroutines, u: Coroutines, f: Id, h: Id)
    requires t.Keys == u.Keys && f in t && t[f].awaiting.None? && u[f].awaiting == Some(h)
    requires forall g | g in t && g != f :: u[g].awaiting == t[g].awaiting
    ensures |Awaiters(u, h)| == |Awaiters(t, h)| + 1
    ensures forall g | g != h :: Awaiters(u, g) == Awaiters(t, g)
  {
    assert Awaiters(u, h) == Awaiters(t, h) + {f};
  }

  lemma AwaitersSame(t: Coroutines, u: Coroutines)
    requires t.Keys <= u.Keys
    requires forall g | g in u :: u[g].awaiting == if g in t then t[g].awaiting else None
    ensures forall g :: Awaiters(u, g) == Awaiters(t, g)
  {
  }

  lemma FeedsAre(t: Coroutines, h: Id, a: Id, i: nat)
    ensures (a, i) in Feeds(t, h) <==> HasInput(t, a, i, h)
  {
  }

  lemma FeedsAdd(t: Coroutines, u: Coroutines, a: Id, i: nat, h: Id)
    requires !HasInput(t, a, i, h)
    requires forall b, j, g :: HasInput(u, b, j, g) <==> HasInput(t, b, j, g) || (b == a && j == i && g == h)
    ensures |Feeds(u, h)| == |Feeds(t, h)| + 1
    ensures forall g | g != h :: Feeds(u, g) == Feeds(t, g)
  {
    forall b: Id, j: nat, g ensures (b, j) in Feeds(u, g) <==> (b, j) in Feeds(t, g) || (b == a && j == i && g == h) {
      FeedsAre(t, g, b, j);
      FeedsAre(u, g, b, j);
    }
    assert Feeds(u, h) == Feeds(t, h) + {(a, i)};
  }

  lemma FeedsSame(t: Coroutines, u: Coroutines)
    requires forall a, i, h :: HasInput(u, a, i, h) <==> HasInput(t, a, i, h)
    ensures forall h :: Feeds(u, h) == Feeds(t, h)
  {
    forall h ensures Feeds(u, h) == Feeds(t, h) {
      forall a: Id, i: nat ensures (a, i) in Feeds(u, h) <==> (a, i) in Feeds(t, h) {
        FeedsAre(t, h, a, i);
        FeedsAre(u, h, a, i);
      }
    }
  }

  /** The two tables register the same awaits and inputs. */
  ghost predicate SameLinks(t: Coroutines, u: Coroutines) {
    t.Keys == u.Keys && forall g | g in t :: u[g].awaiting == t[g].awaiting && u[g].kind == t[g].kind
  }

  lemma LinksSame(t: Coroutines, u: Coroutines)
    requires SameLinks(t, u)
    ensures forall h :: Links(u, h) == Links(t, h)
  {
    AwaitersSame(t, u);
    FeedsSame(t, u);
  }

  /** `u` is `t` with one more link to `h`. */
  ghost predicate OneMoreLink(t: Coroutines, u: Coroutines, h: Id) {
    forall g :: Links(u, g) == Links(t, g) + if g == h then 1 else 0
  }

  lemma LinksAwait(t: Coroutines, u: Coroutines, f: Id, h: Id)
    requires t.Keys == u.Keys && f in t && t[f].awaiting.None? && u[f].awaiting == Some(h)
    requires forall g | g in t && g != f :: u[g].awaiting == t[g].awaiting
    requires forall g | g in t :: u[g].kind == t[g].kind
    ensures OneMoreLink(t, u, h)
  {
    AwaitersAdd(t, u, f, h);
    FeedsSame(t, u);
  }

  lemma LinksInput(t: Coroutines, u: Coroutines, a: Id, i: nat, h: Id)
    requires t.Keys == u.Keys && !HasInput(t, a, i, h)
    requires forall g | g in t :: u[g].awaiting == t[g].awaiting
    requires forall b, j, g :: HasInput(u, b, j, g) <==> HasInput(t, b, j, g) || (b == a && j == i && g == h)
    ensures OneMoreLink(t, u, h)
  {
    AwaitersSame(t, u);
    FeedsAdd(t, u, a, i, h);
  }

  lemma LinksNew(t: Coroutines, u: Coroutines, id: Id)
    requires id !in t && u.Keys == t.Keys + {id} && u[id].awaiting.None? && (u[id].kind.Aggregate? ==> u[id].kind.inputs == [])
    requires forall g | g in t :: u[g] == t[g]
    requires forall f | f in t && t[f].awaiting.Some? :: t[f].awaiting.value in t
    requires forall a, i, h | HasInput(t, a, i, h) :: h in t
    ensures Links(u, id) == 0
    ensures forall h :: Links(u, h) == Links(t, h)
  {
    AwaitersSame(t, u);
    FeedsSame(t, u);
    assert Awaiters(t, id) == {};
    assert Feeds(t, id) == {} by {
      forall a: Id, i: nat ensures (a, i) !in Feeds(t, id) { FeedsAre(t, id, a, i); }
    }
  }

  // ----- owners: one lemma for each operation

  lemma OwnersSame(c: Core, d: Core, held: map<Id, nat>, transit: set<Id>)
    requires Owners(c, held, transit) && SameLinks(c.table, d.table)
    requires forall g | g in c.table :: d.table[g].owners == c.table[g].owners
    ensures Owners(d, held, transit)
  {
    hide Links;
    LinksSame(c.table, d.table);
  }

  lemma OwnersRetain(c: Core, held: map<Id, nat>, transit: set<Id>, h: Id)
    requires Owners(c, held, transit) && h in c.table && c.table[h].owners < MAX_OWNERS
    ensures Owners(Retain(c, h), held[h := held[h] + 1], transit)
  {
    hide Links;
    LinksSame(c.table, Retain(c, h).table);
  }

  lemma OwnersRelease(c: Core, held: map<Id, nat>, transit: set<Id>, h: Id)
    requires Owners(c, held, transit) && h in c.table && held[h] > 0
    ensures Owners(Drop(c, h), held[h := held[h] - 1], transit)
  {
    hide Links;
    LinksSame(c.table, Drop(c, h).table);
  }

  lemma OwnersArrive(c: Core, held: map<Id, nat>, transit: set<Id>, h: Id)
    requires Owners(c, held, transit) && h in transit
    ensures Owners(Drop(c, h), held, transit - {h})
  {
    hide Links;
    LinksSame(c.table, Drop(c, h).table);
  }

  lemma OwnersFinish(c: Core, held: map<Id, nat>, transit: set<Id>, f: Id, x: Completion)
    requires Owners(c, held, transit) && f in c.table
    ensures Owners(Finish(c, f, x), held, transit)
  {
    hide Links, Owners;
    OwnersSame(c, Finish(c, f, x), held, transit);
  }

  lemma OwnersNew(c: Core, held: map<Id, nat>, transit: set<Id>, id: Id, kind: Kind, hostRoot: bool)
    requires Owners(c, held, transit) && id !in c.table && (kind.Aggregate? ==> kind.inputs == [])
    requires forall f | f in c.table && c.table[f].awaiting.Some? :: c.table[f].awaiting.value in c.table
    requires forall a, i, h | HasInput(c.table, a, i, h) :: h in c.table
    ensures Owners(Put(c, id, NewCoroutine(kind, hostRoot)), held[id := 1], transit)
    ensures Owners(Put(c, id, NewCoroutine(kind, hostRoot)), held[id := 0], transit + {id})
  {
    hide Links;
    LinksNew(c.table, Put(c, id, NewCoroutine(kind, hostRoot)).table, id);
  }

  /** A registration takes a count from the script, from a call in progress, or a new one. */
  lemma OwnersRegister(c: Core, held: map<Id, nat>, transit: set<Id>, f: Id, h: Id)
    requires Owners(c, held, transit) && f in c.table && h in c.table && c.table[f].awaiting.None?
    ensures held[h] > 0 ==> Owners(Register(c, f, h, true), held[h := held[h] - 1], transit)
    ensures h in transit ==> Owners(Register(c, f, h, true), held, transit - {h})
  {
    hide Links;
    var d := Register(c, f, h, true);
    LinksAwait(c.table, d.table, f, h);
    assert forall g | g in c.table :: d.table[g].owners == c.table[g].owners;
  }

  lemma OwnersRegisterNew(c: Core, held: map<Id, nat>, transit: set<Id>, f: Id, h: Id)
    requires Owners(c, held, transit) && f in c.table && h in c.table && c.table[f].awaiting.None?
    requires c.table[h].owners < MAX_OWNERS
    ensures Owners(Register(c, f, h, false), held, transit)
  {
    hide Links;
    var d := Register(c, f, h, false);
    LinksAwait(c.table, d.table, f, h);
    assert forall g | g in c.table :: d.table[g].owners == c.table[g].owners + if g == h then 1 else 0;
  }

  /** A resume clears the await of the frame and gives one count back. */
  lemma TakeTable(c: Core, f: Id)
    requires f in c.table && (c.table[f].awaiting.Some? ==> c.table[f].awaiting.value in c.table)
    ensures TakeCompletion(c, f).table.Keys == c.table.Keys
    ensures forall g | g in c.table :: var d := TakeCompletion(c, f).table[g];
      && d.kind == c.table[g].kind
      && d.awaiting == (if g == f then None else c.table[g].awaiting)
      && d.owners == if c.table[f].awaiting == Some(g) then OneLess(c.table[g].owners) else c.table[g].owners
  {
  }

  lemma OwnersTake(c: Core, held: map<Id, nat>, transit: set<Id>, f: Id)
    requires Owners(c, held, transit) && f in c.table
    requires c.table[f].awaiting.Some? ==> c.table[f].awaiting.value in c.table
    ensures Owners(TakeCompletion(c, f), held, transit)
  {
    hide Links, TakeCompletion;
    var d := TakeCompletion(c, f);
    TakeTable(c, f);
    if c.table[f].awaiting.None? {
      OwnersSame(c, d, held, transit);
    } else {
      LinksAwait(d.table, c.table, f, c.table[f].awaiting.value);
    }
  }

  /** A registration changes one await, one waiter list or the ready queue, and at most one count. */
  lemma RegisterTable(c: Core, f: Id, h: Id, owned: bool)
    requires f in c.table && h in c.table
    ensures Register(c, f, h, owned).table.Keys == c.table.Keys
    ensures forall g | g in c.table :: var d := Register(c, f, h, owned).table[g];
      && d.kind == c.table[g].kind && d.completed == c.table[g].completed && d.completion == c.table[g].completion
      && d.awaiting == (if g == f then Some(h) else c.table[g].awaiting)
      && d.owners == if g == h && !owned then OneMore(c.table[g].owners) else c.table[g].owners
  {
  }

  /** A new input changes the aggregate, the places of one job, and one count. */
  lemma AddInputTable(c: Core, a: Id, h: Id)
    requires a in c.table && c.table[a].kind.Aggregate? && h in c.table && h != a
    ensures AddInput(c, a, h).table.Keys == c.table.Keys
    ensures AddInput(c, a, h).table[a].kind ==
      Aggregate(c.table[a].kind.inputs + [Some(h)], c.table[a].kind.remaining + 1)
    ensures forall g | g in c.table :: var d := AddInput(c, a, h).table[g];
      && (g != a ==> d.kind == c.table[g].kind)
      && d.completed == c.table[g].completed && d.completion == c.table[g].completion
      && d.awaiting == c.table[g].awaiting
      && d.owners == if g == h then OneMore(c.table[g].owners) else c.table[g].owners
  {
  }

  lemma OwnersAddInput(c: Core, held: map<Id, nat>, transit: set<Id>, a: Id, h: Id)
    requires Owners(c, held, transit) && a in c.table && c.table[a].kind.Aggregate? && h in c.table && h != a
    requires c.table[h].owners < MAX_OWNERS
    ensures Owners(AddInput(c, a, h), held, transit)
  {
    hide Links;
    var d, n := AddInput(c, a, h), |c.table[a].kind.inputs|;
    AddInputLinks(c, a, h);
    LinksInput(c.table, d.table, a, n, h);
    assert forall g | g in c.table :: d.table[g].owners == c.table[g].owners + if g == h then 1 else 0;
  }

  lemma OwnersTakeInput(c: Core, held: map<Id, nat>, transit: set<Id>, a: Id, i: nat, h: Id)
    requires Owners(c, held, transit) && HasInput(c.table, a, i, h) && h in c.table && h != a
    ensures Owners(Drop(TakeInput(c, a, i), h), held, transit)
  {
    hide Links;
    var d := Drop(TakeInput(c, a, i), h);
    assert forall b, j, g :: HasInput(c.table, b, j, g) <==> HasInput(d.table, b, j, g) || (b == a && j == i && g == h);
    LinksInput(d.table, c.table, a, i, h);
    assert forall g | g in c.table :: d.table[g].owners == if g == h then OneLess(c.table[g].owners) else c.table[g].owners;
  }

  /** Somebody who awaits a handle or has it as an input owns it. */
  lemma LinkOwns(c: Core, held: map<Id, nat>, transit: set<Id>, h: Id)
    requires Owners(c, held, transit) && h in c.table
    ensures c.table[h].owners == 0 ==> forall f | f in c.table :: c.table[f].awaiting != Some(h)
    ensures c.table[h].owners == 0 ==> forall a, i :: !HasInput(c.table, a, i, h)
    ensures c.table[h].owners == 0 ==> held[h] == 0
  {
    if c.table[h].owners == 0 {
      forall f | f in c.table ensures c.table[f].awaiting != Some(h) {
        assert f !in Awaiters(c.table, h);
      }
      forall a: Id, i: nat ensures !HasInput(c.table, a, i, h) {
        FeedsAre(c.table, h, a, i);
      }
    }
  }

  // ----- aggregates

  lemma {:induction false} CountSomeTake(inputs: seq<Option<Id>>, i: nat)
    requires i < |inputs| && inputs[i].Some?
    ensures CountSome(inputs) == CountSome(inputs[i := None]) + 1
  {
    if i == 0 {
      assert inputs[0 := None][1..] == inputs[1..];
    } else {
      assert inputs[i := None][1..] == inputs[1..][i - 1 := None];
      CountSomeTake(inputs[1..], i - 1);
    }
  }

  lemma {:induction false} CountSomeAdd(inputs: seq<Option<Id>>, h: Id)
    ensures CountSome(inputs + [Some(h)]) == CountSome(inputs) + 1
  {
    if inputs == [] {
      assert [Some(h)][1..] == [];
    } else {
      assert (inputs + [Some(h)])[1..] == inputs[1..] + [Some(h)];
      CountSomeAdd(inputs[1..], h);
    }
  }

  /** Something is left to read exactly when the count is not zero. */
  lemma {:induction false} CountSomeUnread(inputs: seq<Option<Id>>)
    ensures CountSome(inputs) > 0 <==> exists i :: 0 <= i < |inputs| && inputs[i].Some?
  {
    if inputs != [] {
      CountSomeUnread(inputs[1..]);
      if i :| 0 <= i < |inputs| && inputs[i].Some? {
        assert i > 0 ==> inputs[1..][i - 1].Some?;
      }
      if i :| 0 <= i < |inputs[1..]| && inputs[1..][i].Some? {
        assert inputs[i + 1].Some?;
      }
    }
  }
}
