/**
The pass decision read off the members: which shapes let a struct be copied as
bytes, which members a scratch build goes on through, and which of them make it
write a target back or allocate one.
*/
module PassShapes {
  import opened Graphs
  import opened StructViews
  import opened StructPasses
  import opened PointerPasses

  // ----- edges

  /** A member of `x` holds `y` by value, points to it, or holds elements of it. */
  ghost predicate Holds(t: Table, x: Struct, y: Struct) {
    x in t && exists f | f in t[x] :: f == Embedded(y) || (f.Pointer? && f.target == y) || f == Pair(Some(y))
  }

  lemma NestedEdges(t: Table, x: Struct, y: Struct)
    ensures y in Succ(NestedGraph(t), x) <==> Holds(t, x, y)
    ensures y in Succ(EmbedGraph(t), x) <==> x in t && Embedded(y) in t[x]
    ensures y in Succ(BuildGraph(t), x) <==> Holds(t, x, y) && Pass(t, y) != StructPass.Bytes
  {
    if Holds(t, x, y) {
      var f :| f in t[x] && (f == Embedded(y) || (f.Pointer? && f.target == y) || f == Pair(Some(y)));
      assert f.Nested() == Some(y);
    }
    if x in t && y in NestedOf(t[x]) {
      var f :| f in t[x] && f.Nested() == Some(y);
      assert f == Embedded(y) || (f.Pointer? && f.target == y) || f == Pair(Some(y));
    }
    if x in t && Embedded(y) in t[x] {
      assert Embedded(y).nested in EmbeddedOf(t[x]);
    }
  }

  // ----- bytes

  /** The member is bytes, an opaque pointer, a value, or a pointer that C cannot write a script struct through. */
  predicate Copyable(f: FieldShape) {
    f.Bytes? || f.Userdata? || f.Embedded? || (f.Pointer? && (f.header || f.constant))
  }

  /** Every struct that `s` reaches is defined, off its own embedding path, and has copyable members only. */
  ghost predicate AllCopyable(t: Table, s: Struct) {
    forall x | Reaches(NestedGraph(t), s, x) :: x in t && !SelfEmbeds(t, x) && forall f | f in t[x] :: Copyable(f)
  }

  /** A call copies the bytes of a struct exactly when everything below it is copyable. */
  lemma BytesByShape(t: Table, s: Struct)
    ensures Pass(t, s) == StructPass.Bytes <==> AllCopyable(t, s)
  {
    var g := NestedGraph(t);
    CopyingIsGreatest(t);
    if Pass(t, s) == StructPass.Bytes {
      assert Closed(g, Copying(t)) by {
        forall x, y | x in Copying(t) && y in Succ(g, x) ensures y in Copying(t) {
          var f :| f in t[x] && f.Nested() == Some(y);
          BytesNestsBytes(t, x, f);
        }
      }
      forall x | Reaches(g, s, x) ensures x in t && !SelfEmbeds(t, x) && forall f | f in t[x] :: Copyable(f) {
        ClosedReaches(g, Copying(t), s, x);
        assert forall f | f in t[x] :: MemberCopies(f, Copying(t));
      }
    }
    if AllCopyable(t, s) {
      var reached := set x | x in t && Reaches(g, s, x);
      ReachesSelf(g, s);
      forall x, f | x in reached && f in t[x] ensures MemberCopies(f, reached) {
        assert Copyable(f);
        if f.Nested().Some? {
          assert f.Nested().value in Succ(g, x);
          ReachesEdge(g, x, f.Nested().value);
          ReachesTrans(g, s, x, f.Nested().value);
        }
      }
      assert Consistent(t, reached);
    }
  }

  // ----- written back

  /** A build of `x` fills the scratch struct `y` through a member that C cannot write through. */
  ghost predicate FillsReadOnly(t: Table, x: Struct, y: Struct) {
    && x in t && Pass(t, y) == Scratch
    && exists f | f in t[x] :: f == Embedded(y) || (f.Pointer? && f.constant && f.target == y) || f == Pair(Some(y))
  }

  /** A member of `x` is a pointer that is not `const`, to a scratch struct. */
  ghost predicate PointsWritable(t: Table, x: Struct) {
    x in t && exists f | f in t[x] :: f.Pointer? && !f.constant && Pass(t, f.target) == Scratch
  }

  ghost predicate IsFill(t: Table, p: seq<Struct>) {
    |p| > 0 && forall i | 0 <= i < |p| - 1 :: FillsReadOnly(t, p[i], p[i + 1])
  }

  /** A build writes back exactly when such fills lead from its struct to such a pointer. */
  lemma WritesBackByTrail(t: Table, s: Struct)
    ensures WritesBack(t, s) <==> exists p :: IsFill(t, p) && p[0] == s && PointsWritable(t, p[|p| - 1])
  {
    hide Pass;
    var g := WriteBackGraph(t);
    forall x, y ensures y in Succ(g, x) <==> FillsReadOnly(t, x, y) { FillEdge(t, x, y); }
    if WritesBack(t, s) {
      var owner :| owner in WriteBackOwners(t) && Reaches(g, s, owner);
      var p :| PathFrom(g, s, p) && p[|p| - 1] == owner;
      assert forall i | 0 <= i < |p| - 1 :: p[i + 1] in Succ(g, p[i]);
      assert IsFill(t, p) && PointsWritable(t, p[|p| - 1]);
    }
    if p :| IsFill(t, p) && p[0] == s && PointsWritable(t, p[|p| - 1]) {
      assert forall i, j | 0 <= i < j < |p| && j == i + 1 :: p[j] in Succ(g, p[i]);
      assert PathFrom(g, s, p);
      assert p[|p| - 1] in WriteBackOwners(t);
    }
  }

  lemma FillEdge(t: Table, x: Struct, y: Struct)
    ensures y in Succ(WriteBackGraph(t), x) <==> FillsReadOnly(t, x, y)
  {
    hide Pass;
    if FillsReadOnly(t, x, y) {
      var f :| f in t[x] && (f == Embedded(y) || (f.Pointer? && f.constant && f.target == y) || f == Pair(Some(y)));
      assert ReadOnlyStep(t, f) == Some(y);
    }
    if x in t && y in Succ(WriteBackGraph(t), x) {
      var f :| f in t[x] && ReadOnlyStep(t, f) == Some(y);
      assert f == Embedded(y) || (f.Pointer? && f.constant && f.target == y) || f == Pair(Some(y));
    }
  }

  // ----- allocated

  /** A member of `x` is a pointer to, or a pair of, a scratch struct. */
  ghost predicate PointsScratch(t: Table, x: Struct) {
    x in t && exists f, y | f in t[x] && ((f.Pointer? && f.target == y) || f == Pair(Some(y))) :: Pass(t, y) == Scratch
  }

  ghost predicate EmbedsScratch(t: Table, x: Struct, y: Struct) {
    x in t && Embedded(y) in t[x] && Pass(t, y) == Scratch
  }

  ghost predicate IsEmbedding(t: Table, p: seq<Struct>) {
    |p| > 0 && forall i | 0 <= i < |p| - 1 :: EmbedsScratch(t, p[i], p[i + 1])
  }

  /** A build allocates exactly when embedded scratch structs lead from its struct to such a member. */
  lemma BuildsScratchByTrail(t: Table, s: Struct)
    ensures BuildsScratch(t, s) <==> exists p :: IsEmbedding(t, p) && p[0] == s && PointsScratch(t, p[|p| - 1])
  {
    hide Pass;
    var g := ScratchEmbedGraph(t);
    forall x, y ensures y in Succ(g, x) <==> EmbedsScratch(t, x, y) { EmbeddingEdge(t, x, y); }
    forall x ensures x in AllocatingOwners(t) <==> PointsScratch(t, x) { AllocatingOwner(t, x); }
    if BuildsScratch(t, s) {
      var owner :| owner in AllocatingOwners(t) && Reaches(g, s, owner);
      var p :| PathFrom(g, s, p) && p[|p| - 1] == owner;
      assert forall i | 0 <= i < |p| - 1 :: p[i + 1] in Succ(g, p[i]);
      assert IsEmbedding(t, p) && PointsScratch(t, p[|p| - 1]);
    }
    if p :| IsEmbedding(t, p) && p[0] == s && PointsScratch(t, p[|p| - 1]) {
      assert forall i, j | 0 <= i < j < |p| && j == i + 1 :: p[j] in Succ(g, p[i]);
      assert PathFrom(g, s, p);
    }
  }

  lemma EmbeddingEdge(t: Table, x: Struct, y: Struct)
    ensures y in Succ(ScratchEmbedGraph(t), x) <==> EmbedsScratch(t, x, y)
  {
    hide Pass;
    if EmbedsScratch(t, x, y) {
      var f := Embedded(y);
      assert f in t[x] && f.Embedded? && f.nested == y;
    }
  }

  lemma AllocatingOwner(t: Table, x: Struct)
    ensures x in AllocatingOwners(t) <==> PointsScratch(t, x)
  {
    hide Pass;
    if x in AllocatingOwners(t) {
      var f :| f in t[x] && Allocates(t, f);
      var y := f.Nested().value;
      assert (f.Pointer? && f.target == y) || f == Pair(Some(y));
    }
    if PointsScratch(t, x) {
      var f, y :| f in t[x] && ((f.Pointer? && f.target == y) || f == Pair(Some(y))) && Pass(t, y) == Scratch;
      assert Allocates(t, f);
    }
  }
}
