/**
The pass decision as it runs: the worklists, the shrinking vector and the walk
that keeps its current path. Each is proved to compute what `StructPasses`
defines, with or without the two results that a view may keep.
*/
module PassDecision {
  import opened Graphs
  import opened StructViews
  import opened StructPasses

  /** What a view keeps of its earlier decisions. */
  datatype Kept = Kept(copying: Option<seq<Struct>>, cycles: Option<seq<Struct>>)

  /** The structs of a view, in declaration order; a struct may be listed with no table entry. */
  datatype View = View(structs: seq<Struct>, table: Table, kept: Kept)

  ghost predicate ListsEveryStruct(v: View) {
    v.table.Keys <= Elems(v.structs)
  }

  /** What the view keeps is what `CopyingStructs` and `CycleStructs` return for it. */
  ghost predicate KeepsDecisions(v: View) {
    && (v.kept.copying.Some? ==> Elems(v.kept.copying.value) == Copying(v.table))
    && (v.kept.cycles.Some? ==>
          forall s :: s in v.kept.cycles.value <==> s in v.structs && Pass(v.table, s) == Cycle)
  }

  ghost predicate ValidView(v: View) {
    ListsEveryStruct(v) && KeepsDecisions(v)
  }

  // ----- worklists

  lemma {:induction false} DistinctSize<T(!new)>(s: seq<T>, u: set<T>)
    requires Distinct(s) && Elems(s) <= u
    ensures |s| <= |u|
  {
    if s != [] {
      var last := s[|s| - 1];
      PopStack(s);
      DistinctSize(s[..|s| - 1], u - {last});
    }
  }

  lemma PopStack<T(!new)>(stack: seq<T>)
    requires stack != []
    ensures Elems(stack[..|stack| - 1]) + {stack[|stack| - 1]} == Elems(stack)
  {
    assert stack == stack[..|stack| - 1] + [stack[|stack| - 1]];
  }

  method PushNested(fields: seq<FieldShape>, stack: seq<Struct>) returns (pushed: seq<Struct>)
    ensures Elems(pushed) == Elems(stack) + NestedOf(fields)
  {
    pushed := stack;
    for i := 0 to |fields|
      invariant Elems(pushed) == Elems(stack) + NestedOf(fields[..i])
    {
      NestedSnoc(fields, i);
      if fields[i].Nested().Some? {
        ElemsSnoc(pushed, fields[i].Nested().value);
        pushed := pushed + [fields[i].Nested().value];
      }
    }
    assert fields[..|fields|] == fields;
  }

  lemma NestedUniverse(t: Table, s: Struct) returns (u: set<Struct>)
    ensures s in u && t.Keys <= u && Closed(NestedGraph(t), u)
  {
    u := Universe(t, s);
  }

  lemma EmbedUniverse(t: Table, s: Struct) returns (u: set<Struct>)
    ensures s in u && Closed(EmbedGraph(t), u)
  {
    u := NestedUniverse(t, s);
    NestedClosedEmbed(t, u);
  }

  /** The state of the worklist of `ReachableStructs`: `seen` is expanded, `stack` waits. */
  ghost predicate Searching(g: Graph<Struct>, u: set<Struct>, s: Struct, seen: seq<Struct>, stack: seq<Struct>) {
    && Distinct(seen)
    && Elems(seen) + Elems(stack) <= u
    && Frontier(g, {s}, Elems(seen), Elems(stack))
    && |seen| <= |u|
  }

  lemma SearchStart(g: Graph<Struct>, u: set<Struct>, s: Struct)
    requires s in u
    ensures Searching(g, u, s, [], [s])
  {
    FrontierStart(g, {s});
    assert Elems([s]) == {s} && Elems<Struct>([]) == {};
  }

  lemma SearchSkip(g: Graph<Struct>, u: set<Struct>, s: Struct, seen: seq<Struct>, stack: seq<Struct>)
    requires Searching(g, u, s, seen, stack) && stack != [] && stack[|stack| - 1] in seen
    ensures Searching(g, u, s, seen, stack[..|stack| - 1])
  {
    hide ReachedFrom;
    PopStack(stack);
    assert Elems(seen) + Elems(stack) == Elems(seen) + Elems(stack[..|stack| - 1]);
  }

  lemma SearchVisit(g: Graph<Struct>, u: set<Struct>, s: Struct, seen: seq<Struct>, stack: seq<Struct>,
                    pushed: seq<Struct>)
    requires Searching(g, u, s, seen, stack) && Closed(g, u)
    requires stack != [] && stack[|stack| - 1] !in seen
    requires Elems(pushed) == Elems(stack[..|stack| - 1]) + Succ(g, stack[|stack| - 1])
    ensures Searching(g, u, s, seen + [stack[|stack| - 1]], pushed)
  {
    hide ReachedFrom;
    var next := stack[|stack| - 1];
    PopStack(stack);
    ElemsSnoc(seen, next);
    FrontierVisit(g, {s}, Elems(seen), Elems(stack), next, Elems(stack[..|stack| - 1]));
    DistinctSize(seen + [next], u);
  }

  /** The structs that the decision for `s` reads: a stack worklist. */
  method ReachableStructs(t: Table, s: Struct) returns (seen: seq<Struct>)
    ensures Distinct(seen)
    ensures forall x :: x in seen <==> Reaches(NestedGraph(t), s, x)
    ensures Closed(NestedGraph(t), Elems(seen))
  {
    ghost var g := NestedGraph(t);
    ghost var u := NestedUniverse(t, s);
    seen := [];
    var stack := [s];
    SearchStart(g, u, s);
    while stack != []
      invariant Searching(g, u, s, seen, stack)
      decreases |u| - |seen|, |stack|
    {
      ghost var waiting := stack;
      var next := stack[|stack| - 1];
      stack := stack[..|stack| - 1];
      if next in seen {
        SearchSkip(g, u, s, seen, waiting);
        continue;
      }
      if next in t {
        stack := PushNested(t[next], stack);
      }
      SearchVisit(g, u, s, seen, waiting, stack);
      seen := seen + [next];
    }
    FrontierDone(g, {s}, Elems(seen));
    forall x ensures x in seen <==> Reaches(g, s, x) { ReachedFromOne(g, s, x); }
  }

  /** Pushes each embedded struct that is not seen, unless one of them is `s`. */
  method PushEmbedded(fields: seq<FieldShape>, s: Struct, seen: seq<Struct>, stack: seq<Struct>)
    returns (hit: bool, marked: seq<Struct>, pushed: seq<Struct>)
    ensures hit == (s in EmbeddedOf(fields))
    ensures !hit ==>
      && Elems(marked) == Elems(seen) + EmbeddedOf(fields)
      && Elems(pushed) == Elems(stack) + (EmbeddedOf(fields) - Elems(seen))
      && (Distinct(seen) ==> Distinct(marked))
      && (|marked| == |seen| ==> pushed == stack)
      && |seen| <= |marked|
  {
    hit, marked, pushed := false, seen, stack;
    for i := 0 to |fields|
      invariant s !in EmbeddedOf(fields[..i])
      invariant Elems(marked) == Elems(seen) + EmbeddedOf(fields[..i])
      invariant Elems(pushed) == Elems(stack) + (EmbeddedOf(fields[..i]) - Elems(seen))
      invariant Distinct(seen) ==> Distinct(marked)
      invariant |marked| == |seen| ==> pushed == stack
      invariant |seen| <= |marked|
    {
      EmbeddedSnoc(fields, i);
      if fields[i].Embedded? {
        var nested := fields[i].nested;
        assert nested in EmbeddedOf(fields);
        if nested == s {
          hit := true;
          return;
        }
        if nested !in marked {
          ElemsSnoc(marked, nested);
          ElemsSnoc(pushed, nested);
          marked := marked + [nested];
          pushed := pushed + [nested];
          assert nested in Elems(marked);
        }
      }
    }
    assert fields[..|fields|] == fields;
  }

  /** The state of the worklist of `EmbedsItself`: `done` is expanded, `seen` is every push after `s`. */
  ghost predicate Embedding(g: Graph<Struct>, u: set<Struct>, s: Struct, done: set<Struct>,
                            seen: seq<Struct>, stack: seq<Struct>)
  {
    && Frontier(g, {s}, done, Elems(stack))
    && done + Elems(stack) <= u
    && Distinct(seen) && s !in seen
    && Elems(seen) <= u && |seen| <= |u|
    && (forall x | x in done :: Succ(g, x) <= Elems(seen))
    && Elems(seen) <= done + Elems(stack)
  }

  lemma EmbedStart(g: Graph<Struct>, u: set<Struct>, s: Struct)
    requires s in u
    ensures Embedding(g, u, s, {}, [], [s])
  {
    FrontierStart(g, {s});
    assert Elems([s]) == {s} && Elems<Struct>([]) == {};
  }

  lemma EmbedVisit(g: Graph<Struct>, u: set<Struct>, s: Struct, done: set<Struct>,
                   seen: seq<Struct>, stack: seq<Struct>, marked: seq<Struct>, pushed: seq<Struct>)
    requires Embedding(g, u, s, done, seen, stack) && Closed(g, u) && stack != []
    requires s !in Succ(g, stack[|stack| - 1]) && Distinct(marked)
    requires Elems(marked) == Elems(seen) + Succ(g, stack[|stack| - 1])
    requires Elems(pushed) == Elems(stack[..|stack| - 1]) + (Succ(g, stack[|stack| - 1]) - Elems(seen))
    ensures Embedding(g, u, s, done + {stack[|stack| - 1]}, marked, pushed)
  {
    hide ReachedFrom;
    var next := stack[|stack| - 1];
    PopStack(stack);
    FrontierVisit(g, {s}, done, Elems(stack), next, Elems(stack[..|stack| - 1]));
    assert done + {next} + Elems(pushed) == done + {next} + (Elems(stack[..|stack| - 1]) + Succ(g, next));
    DistinctSize(marked, u);
    assert Frontier(g, {s}, done + {next}, Elems(pushed));
    assert s !in Elems(marked);
    assert Elems(marked) <= u;
    assert done + {next} + Elems(pushed) <= u;
  }

  lemma EmbedDone(g: Graph<Struct>, u: set<Struct>, s: Struct, done: set<Struct>, seen: seq<Struct>)
    requires Embedding(g, u, s, done, seen, [])
    ensures !ReachesByEdge(g, s, s)
  {
    hide ReachedFrom, Reaches;
    FrontierDone(g, {s}, done);
    if ReachesByEdge(g, s, s) {
      var y := CyclePredecessor(g, s);
      ReachedFromOne(g, s, y);
    }
  }

  /** True when `s` is on its own embedding path: a stack worklist that stops at `s`. */
  method EmbedsItself(t: Table, s: Struct) returns (found: bool)
    ensures found == SelfEmbeds(t, s)
  {
    hide ReachedFrom, Reaches;
    ghost var g, done := EmbedGraph(t), {};
    ghost var u := EmbedUniverse(t, s);
    var seen: seq<Struct>, stack := [], [s];
    EmbedStart(g, u, s);
    while stack != []
      invariant Embedding(g, u, s, done, seen, stack)
      decreases |u| - |seen|, |stack|
    {
      ghost var seen0, stack0 := seen, stack;
      var next := stack[|stack| - 1];
      stack := stack[..|stack| - 1];
      if next in t {
        var hit;
        hit, seen, stack := PushEmbedded(t[next], s, seen, stack);
        if hit {
          ReachedFromOne(g, s, next);
          CycleEdge(g, s, next);
          return true;
        }
      }
      EmbedVisit(g, u, s, done, seen0, stack0, seen, stack);
      done := done + {next};
    }
    EmbedDone(g, u, s, done, seen);
    return false;
  }

  // ----- the shrinking vector

  /** The structs of `bytes` whose members all copy with respect to `before`. */
  function Retained(t: Table, bytes: seq<Struct>, before: set<Struct>): (kept: seq<Struct>)
    ensures forall s :: s in kept <==> s in bytes && s in t && forall f | f in t[s] :: MemberCopies(f, before)
    ensures |kept| <= |bytes|
    ensures |kept| == |bytes| ==> kept == bytes
  {
    if bytes == [] then []
    else
      var s := bytes[0];
      var rest := Retained(t, bytes[1..], before);
      assert bytes == [s] + bytes[1..];
      if s in t && forall f | f in t[s] :: MemberCopies(f, before) then [s] + rest else rest
  }

  ghost predicate OffEmbeddingPath(t: Table, s: Struct) {
    s in t && !SelfEmbeds(t, s)
  }

  /** The greatest set of the structs of `candidates`: retain until nothing goes. */
  method LargestCopyingSet(t: Table, candidates: seq<Struct>) returns (bytes: seq<Struct>)
    ensures Elems(bytes) == Copying(Restrict(t, Elems(candidates)))
  {
    var table := Restrict(t, Elems(candidates));
    CopyingIsGreatest(table);
    bytes := [];
    for i := 0 to |candidates|
      invariant forall s :: s in bytes <==> s in candidates[..i] && OffEmbeddingPath(table, s)
    {
      assert candidates[..i + 1] == candidates[..i] + [candidates[i]];
      if candidates[i] in table {
        var own := EmbedsItself(table, candidates[i]);
        if !own {
          bytes := bytes + [candidates[i]];
        }
      }
    }
    assert candidates[..|candidates|] == candidates;
    while true
      invariant Copying(table) <= Elems(bytes)
      invariant forall s | s in bytes :: OffEmbeddingPath(table, s)
      decreases |bytes|
    {
      var before := bytes;
      bytes := Retained(table, before, Elems(before));
      forall s | s in Copying(table) ensures s in bytes {
        forall f | f in table[s] ensures MemberCopies(f, Elems(before)) {
          MemberCopiesMonotone(f, Copying(table), Elems(before));
        }
      }
      if |bytes| == |before| {
        assert Consistent(table, Elems(bytes));
        return;
      }
    }
  }

  // ----- the walk that keeps its current path

  /**
  True when the build of `s` reaches a struct of `path` or a struct of its own
  path. The walk pushes `s` on the path, follows each member, and pops `s`.
  */
  method BuildsCycle(t: Table, s: Struct, bytes: seq<Struct>, path: seq<Struct>)
    returns (cycle: bool, active: seq<Struct>)
    requires Elems(path) <= t.Keys
    ensures active == path
    ensures cycle == Loops(BuildGraphWith(t, Elems(bytes)), s, Elems(path))
    decreases |t.Keys - Elems(path)|
  {
    ghost var g := BuildGraphWith(t, Elems(bytes));
    active := path;
    if s in active {
      LoopsStopped(g, s, Elems(path));
      return true, active;
    }
    LoopsStep(g, s, Elems(path));
    if s !in t {
      return false, active;
    }
    active := active + [s];
    ElemsSnoc(path, s);
    StrictSubsetSize(t.Keys - Elems(active), t.Keys - Elems(path));
    cycle := false;
    var fields := t[s];
    for i := 0 to |fields|
      invariant active == path + [s]
      invariant !cycle
      invariant forall n | n in NestedOf(fields[..i]) - Elems(bytes) :: !Loops(g, n, Elems(active))
    {
      NestedSnoc(fields, i);
      var nested := fields[i].Nested();
      if nested.Some? && nested.value !in bytes {
        cycle, active := BuildsCycle(t, nested.value, bytes, active);
        if cycle {
          assert fields[i] in t[s];
          assert nested.value in Succ(g, s);
          break;
        }
      }
    }
    assert fields[..|fields|] == fields;
    active := active[..|active| - 1];
  }

  // ----- the decision

  /** The copying structs that the decision for `s` needs: all of them when the view keeps them. */
  method BytesStructs(v: View, s: Struct) returns (bytes: seq<Struct>, ghost read: set<Struct>)
    requires ValidView(v)
    ensures s in read && Closed(NestedGraph(v.table), read)
    ensures Elems(bytes) == Copying(v.table) * read
  {
    if v.kept.copying.Some? {
      bytes := v.kept.copying.value;
      read := NestedUniverse(v.table, s);
    } else {
      var candidates := ReachableStructs(v.table, s);
      bytes := LargestCopyingSet(v.table, candidates);
      read := Elems(candidates);
      CopyingIsLocal(v.table, read);
      ReachesSelf(NestedGraph(v.table), s);
    }
  }

  /** How a call passes the bytes of `s`, from what the view keeps or from the structs that `s` reaches. */
  method StructPassOf(v: View, s: Struct) returns (pass: StructPass)
    requires ValidView(v)
    ensures pass == Pass(v.table, s)
  {
    var bytes;
    ghost var read;
    bytes, read := BytesStructs(v, s);
    assert s in bytes <==> s in Elems(bytes);
    if s in bytes {
      return StructPass.Bytes;
    }
    if v.kept.cycles.Some? {
      if s in v.kept.cycles.value {
        return Cycle;
      }
      if s !in v.table {
        UndefinedIsScratch(v.table, s);
      }
      return Scratch;
    }
    var cycle, _ := BuildsCycle(v.table, s, bytes, []);
    LoopsIsLocal(v.table, read, s);
    return if cycle then Cycle else Scratch;
  }

  /** Every struct of the view that copies its bytes, decided at once. */
  method CopyingStructs(v: View) returns (bytes: seq<Struct>)
    requires ListsEveryStruct(v)
    ensures Elems(bytes) == Copying(v.table)
    ensures ValidView(v) ==> ValidView(v.(kept := v.kept.(copying := Some(bytes))))
  {
    bytes := LargestCopyingSet(v.table, v.structs);
    RestrictAll(v.table, Elems(v.structs));
  }

  /** Every struct of the view that no call can build, in declaration order. */
  method CycleStructs(v: View) returns (cycles: seq<Struct>)
    requires ValidView(v)
    ensures ValidView(v.(kept := v.kept.(cycles := Some(cycles))))
  {
    cycles := [];
    for i := 0 to |v.structs|
      invariant forall s :: s in cycles <==> s in v.structs[..i] && Pass(v.table, s) == Cycle
    {
      assert v.structs[..i + 1] == v.structs[..i] + [v.structs[i]];
      var pass := StructPassOf(v, v.structs[i]);
      if pass == Cycle {
        cycles := cycles + [v.structs[i]];
      }
    }
    assert v.structs[..|v.structs|] == v.structs;
  }

  /** A view that keeps both results gives every struct the pass that a view that keeps nothing gives. */
  method KeepDecisions(structs: seq<Struct>, table: Table) returns (v: View)
    requires table.Keys <= Elems(structs)
    ensures v.structs == structs && v.table == table && ValidView(v)
    ensures v.kept.copying.Some? && v.kept.cycles.Some?
  {
    v := View(structs, table, Kept(None, None));
    var copying := CopyingStructs(v);
    v := v.(kept := v.kept.(copying := Some(copying)));
    var cycles := CycleStructs(v);
    v := v.(kept := v.kept.(cycles := Some(cycles)));
  }

  /** The members, by index, that make `s` a scratch struct. */
  method ScratchMembers(v: View, s: Struct) returns (found: seq<nat>)
    requires ValidView(v)
    ensures Ascending(found)
    ensures forall i: nat :: i in found <==>
              s in v.table && i < |v.table[s]| && !MemberCopies(v.table[s][i], Copying(v.table))
    ensures s in v.table ==> (found == [] <==> Pass(v.table, s) == StructPass.Bytes)
  {
    var bytes;
    ghost var read;
    bytes, read := BytesStructs(v, s);
    assert s in bytes <==> s in Elems(bytes);
    found := [];
    if s in v.table {
      BytesWhenEveryMemberCopies(v.table, s);
    }
    if s in bytes || s !in v.table {
      return;
    }
    var fields := v.table[s];
    for i := 0 to |fields|
      invariant Ascending(found)
      invariant forall k | 0 <= k < |found| :: found[k] < i
      invariant forall j: nat | j < i :: j in found <==> !MemberCopies(fields[j], Copying(v.table))
    {
      if fields[i].Nested().Some? {
        NestedInClosed(v.table, read, s, fields[i]);
      }
      if !MemberCopies(fields[i], Elems(bytes)) {
        found := found + [i];
      }
    }
    if f :| f in fields && !MemberCopies(f, Copying(v.table)) {
      var k :| 0 <= k < |fields| && fields[k] == f;
      assert k in found;
    }
  }
}
