/**
How a foreign call passes the bytes of a struct: the decision as a greatest
set and a cycle in the scratch build, and the facts about it that hold for
every finite table of structs, cyclic or not.
*/
module StructPasses {
  import opened Graphs
  import opened StructViews

  datatype StructPass = Bytes | Scratch | Cycle

  /** The member needs no conversion when the structs of `bytes` copy their bytes. */
  predicate MemberCopies(field: FieldShape, bytes: set<Struct>) {
    match field
    case Bytes => true
    case Userdata => true
    case Embedded(nested) => nested in bytes
    case Pointer(target, header, constant) => (header || constant) && target in bytes
    case _ => false
  }

  ghost predicate SelfEmbeds(t: Table, s: Struct) {
    ReachesByEdge(EmbedGraph(t), s, s)
  }

  /** Every struct of `bytes` is off its own embedding path and needs no conversion. */
  ghost predicate Consistent(t: Table, bytes: set<Struct>) {
    forall s | s in bytes ::
      && s in t
      && !SelfEmbeds(t, s)
      && forall f | f in t[s] :: MemberCopies(f, bytes)
  }

  /** The structs that belong to some consistent set. */
  ghost function Copying(t: Table): set<Struct> {
    set s | s in t && exists bytes :: s in bytes && Consistent(t, bytes)
  }

  /** An edge for each struct that a scratch build builds in turn. */
  ghost function BuildGraphWith(t: Table, bytes: set<Struct>): Graph<Struct> {
    map s | s in t :: NestedOf(t[s]) - bytes
  }

  ghost function BuildGraph(t: Table): Graph<Struct> {
    BuildGraphWith(t, Copying(t))
  }

  ghost function Pass(t: Table, s: Struct): StructPass {
    if s in Copying(t) then StructPass.Bytes
    else if Loops(BuildGraph(t), s, {}) then Cycle
    else Scratch
  }

  // ----- the greatest set

  lemma MemberCopiesMonotone(field: FieldShape, small: set<Struct>, large: set<Struct>)
    requires MemberCopies(field, small) && small <= large
    ensures MemberCopies(field, large)
  {
  }

  /** `Copying` is the greatest consistent set. */
  lemma CopyingIsGreatest(t: Table)
    ensures Consistent(t, Copying(t))
    ensures forall bytes | Consistent(t, bytes) :: bytes <= Copying(t)
  {
    forall s | s in Copying(t)
      ensures !SelfEmbeds(t, s) && forall f | f in t[s] :: MemberCopies(f, Copying(t))
    {
      var bytes :| s in bytes && Consistent(t, bytes);
      assert bytes <= Copying(t);
      forall f | f in t[s] ensures MemberCopies(f, Copying(t)) {
        MemberCopiesMonotone(f, bytes, Copying(t));
      }
    }
  }

  lemma NestedClosedEmbed(t: Table, c: set<Struct>)
    requires Closed(NestedGraph(t), c)
    ensures Closed(EmbedGraph(t), c)
  {
    forall x | x in c ensures Succ(EmbedGraph(t), x) <= c {
      assert Succ(EmbedGraph(t), x) <= Succ(NestedGraph(t), x) by {
        forall n | n in Succ(EmbedGraph(t), x) ensures n in Succ(NestedGraph(t), x) {
          var f :| f in t[x] && f.Embedded? && f.nested == n;
          assert f.Nested() == Some(n);
        }
      }
    }
  }

  lemma SelfEmbedsLocal(t: Table, c: set<Struct>, s: Struct)
    requires Closed(NestedGraph(t), c) && s in c
    ensures SelfEmbeds(t, s) <==> SelfEmbeds(Restrict(t, c), s)
  {
    NestedClosedEmbed(t, c);
    assert AgreeOn(EmbedGraph(t), EmbedGraph(Restrict(t, c)), c);
    ReachesByEdgeLocal(EmbedGraph(t), EmbedGraph(Restrict(t, c)), c, s, s);
  }

  /** Every struct that a member of a struct of a closed set nests is in the set. */
  lemma NestedInClosed(t: Table, c: set<Struct>, s: Struct, f: FieldShape)
    requires Closed(NestedGraph(t), c) && s in c && s in t && f in t[s] && f.Nested().Some?
    ensures f.Nested().value in c
  {
    assert f.Nested().value in Succ(NestedGraph(t), s);
  }

  /**
  The decision for a struct reads only the structs that it reaches: over any
  set of structs that is closed under nesting, the greatest set of the
  restricted table is the greatest set of the whole table, restricted.
  */
  lemma CopyingIsLocal(t: Table, c: set<Struct>)
    requires Closed(NestedGraph(t), c)
    ensures Copying(Restrict(t, c)) == Copying(t) * c
  {
    var r := Restrict(t, c);
    CopyingIsGreatest(t);
    CopyingIsGreatest(r);
    assert Consistent(t, Copying(r)) by {
      forall s | s in Copying(r) ensures !SelfEmbeds(t, s) { SelfEmbedsLocal(t, c, s); }
    }
    var inner := Copying(t) * c;
    assert Consistent(r, inner) by {
      forall s | s in inner
        ensures !SelfEmbeds(r, s) && forall f | f in r[s] :: MemberCopies(f, inner)
      {
        SelfEmbedsLocal(t, c, s);
        forall f | f in r[s] ensures MemberCopies(f, inner) {
          assert MemberCopies(f, Copying(t));
          if f.Nested().Some? {
            NestedInClosed(t, c, s, f);
          }
        }
      }
    }
  }

  lemma RestrictAll(t: Table, c: set<Struct>)
    requires t.Keys <= c
    ensures Restrict(t, c) == t
  {
  }

  /** The cycle check gives the same answer with the copying structs of any closed set. */
  lemma LoopsIsLocal(t: Table, c: set<Struct>, s: Struct)
    requires Closed(NestedGraph(t), c) && s in c
    ensures Loops(BuildGraphWith(t, Copying(t) * c), s, {}) <==> Loops(BuildGraph(t), s, {})
  {
    var g, h := BuildGraph(t), BuildGraphWith(t, Copying(t) * c);
    forall x | x in c ensures Succ(g, x) <= c && Succ(g, x) == Succ(h, x) {
      assert Succ(NestedGraph(t), x) <= c;
    }
    LoopsLocal(g, h, c, s);
  }

  // ----- what a pass says about the structs below

  /** A struct that copies its bytes nests only structs that copy their bytes. */
  lemma BytesNestsBytes(t: Table, s: Struct, f: FieldShape)
    requires s in t && f in t[s] && f.Nested().Some?
    requires Pass(t, s) == StructPass.Bytes
    ensures (f.Embedded? || f.Pointer?) && Pass(t, f.Nested().value) == StructPass.Bytes
  {
    CopyingIsGreatest(t);
    assert MemberCopies(f, Copying(t));
  }

  lemma BuildEdge(t: Table, s: Struct, f: FieldShape)
    requires s in t && f in t[s] && f.Nested().Some?
    requires Pass(t, f.Nested().value) != StructPass.Bytes
    ensures f.Nested().value in Succ(BuildGraph(t), s)
  {
    assert f.Nested().value in NestedOf(t[s]);
  }

  /** No build of a scratch struct meets a struct that no call can build. */
  lemma ScratchNestsNoCycle(t: Table, s: Struct, f: FieldShape)
    requires s in t && f in t[s] && f.Nested().Some?
    requires Pass(t, s) == Scratch
    ensures Pass(t, f.Nested().value) != Cycle
  {
    var n := f.Nested().value;
    if Pass(t, n) == Cycle {
      BuildEdge(t, s, f);
      ReachesEdge(BuildGraph(t), s, n);
      LoopsBack(BuildGraph(t), s, n);
      assert false;
    }
  }

  /** A struct that the table does not define builds a scratch struct. */
  lemma UndefinedIsScratch(t: Table, s: Struct)
    requires s !in t
    ensures Pass(t, s) == Scratch
  {
    LoopsStep(BuildGraph(t), s, {});
  }

  /** A struct that is not built as bytes is a cycle exactly when its build reaches one. */
  lemma CycleIsReachedCycle(t: Table, s: Struct)
    requires Pass(t, s) != StructPass.Bytes
    ensures Pass(t, s) == Cycle
       <==> exists c :: Reaches(BuildGraph(t), s, c) && ReachesByEdge(BuildGraph(t), c, c)
  {
    LoopsIsCycle(BuildGraph(t), s);
  }

  /** The structs of `u` that the build of `s` builds, `s` included. */
  ghost function Built(t: Table, u: set<Struct>, s: Struct): set<Struct> {
    ReachSet(BuildGraph(t), u, s)
  }

  /**
  The builds of scratch structs have a rank: the number of structs that a build
  builds falls along every edge, so no chain of builds is longer than it.
  */
  lemma ScratchBuildRank(t: Table, u: set<Struct>, s: Struct, n: Struct)
    requires Pass(t, s) == Scratch && n in Succ(BuildGraph(t), s) && s in u
    ensures Pass(t, n) == Scratch
    ensures |Built(t, u, n)| < |Built(t, u, s)|
  {
    RankFalls(BuildGraph(t), u, s, n);
  }

  // ----- the members that make a struct a scratch struct

  lemma SelfEmbedsNext(t: Table, s: Struct) returns (n: Struct)
    requires SelfEmbeds(t, s)
    ensures n in Succ(EmbedGraph(t), s) && SelfEmbeds(t, n)
  {
    var g := EmbedGraph(t);
    n :| n in Succ(g, s) && Reaches(g, n, s);
    ReachesEdge(g, s, n);
    ReachesTrans(g, n, s, n);
    ReachesStep(g, n, s);
    if n == s {
    } else {
      var z :| z in Succ(g, n) && Reaches(g, z, s);
      ReachesTrans(g, z, s, n);
    }
  }

  /**
  A struct copies its bytes exactly when every member does. The rule that
  takes a struct off its own embedding path adds nothing to this: the next
  struct on the path is off as well, so the member that embeds it does not copy.
  */
  lemma BytesWhenEveryMemberCopies(t: Table, s: Struct)
    requires s in t
    ensures Pass(t, s) == StructPass.Bytes <==> forall f | f in t[s] :: MemberCopies(f, Copying(t))
  {
    CopyingIsGreatest(t);
    var bytes := Copying(t);
    if s !in bytes {
      if SelfEmbeds(t, s) {
        var n := SelfEmbedsNext(t, s);
        var f :| f in t[s] && f.Embedded? && f.nested == n;
        assert !MemberCopies(f, bytes);
      } else if forall f | f in t[s] :: MemberCopies(f, bytes) {
        var more := bytes + {s};
        forall x, f | x in more && f in t[x] ensures MemberCopies(f, more) {
          MemberCopiesMonotone(f, bytes, more);
        }
        assert Consistent(t, more);
      }
    }
  }
}
