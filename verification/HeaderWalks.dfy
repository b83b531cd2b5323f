/**
The recursive walks over the aggregates of a C header: the check that every
aggregate a scratch build reaches can be lowered, and the collection of the
aggregates that own strings. Both keep only their current path.
*/
module HeaderWalks {
  import opened Graphs
  import opened StructViews
  import opened EmbeddedPairs

  /** The declared structs of a header, its kinds, and the C scalars. */
  datatype Header = Header(decls: map<string, seq<CField>>, registry: Registry, scalars: Scalars)

  predicate IsBoundary(registry: Registry, base: string) {
    base in registry && registry[base] == Boundary
  }

  predicate IsDescriptor(registry: Registry, base: string) {
    base in registry && registry[base] == ArrayPair
  }

  predicate IsAggregate(registry: Registry, base: string) {
    base in registry && registry[base] in {Kind.Boundary, Kind.StringView, Kind.ArrayPair, Kind.FnPtr}
  }

  ghost predicate Paired(h: Header, a: string) {
    a in h.decls && WellPaired(h.decls[a], h.registry, h.scalars)
  }

  ghost predicate IsCount(h: Header, a: string, i: nat)
    requires a in h.decls
  {
    Collapses(h.decls[a], h.registry, h.scalars, i)
  }

  // ----- what the check promises

  /** The check goes on into the struct of the field. */
  ghost predicate Enters(h: Header, a: string, i: nat)
    requires a in h.decls && i < |h.decls[a]|
  {
    var f := h.decls[a][i];
    !f.isArray && !IsCount(h, a, i) && IsBoundary(h.registry, f.base)
  }

  ghost predicate IsArrayOfAggregates(h: Header, a: string, i: nat)
    requires a in h.decls && i < |h.decls[a]|
  {
    h.decls[a][i].isArray && IsAggregate(h.registry, h.decls[a][i].base)
  }

  ghost predicate IsValueDescriptor(h: Header, a: string, i: nat)
    requires a in h.decls && i < |h.decls[a]|
  {
    var f := h.decls[a][i];
    !f.isArray && !IsCount(h, a, i) && !f.pointer && IsDescriptor(h.registry, f.base)
  }

  /** From an aggregate to those that it embeds, pairs or points to. */
  ghost function LoweredGraph(h: Header): Graph<string> {
    map a | a in h.decls :: set i | 0 <= i < |h.decls[a]| && Paired(h, a) && Enters(h, a, i) :: h.decls[a][i].base
  }

  /** The aggregate itself has no lowering. */
  ghost predicate Unlowerable(h: Header, a: string) {
    || a !in h.decls
    || !Paired(h, a)
    || exists i | 0 <= i < |h.decls[a]| :: IsArrayOfAggregates(h, a, i) || IsValueDescriptor(h, a, i)
  }

  datatype Fault =
    | Undeclared(owner: string)
    | BadPairs(owner: string)
    | ArrayOfAggregates(owner: string, index: nat)
    | ValueDescriptor(owner: string, index: nat)

  ghost predicate Explains(h: Header, e: Fault) {
    match e
    case Undeclared(a) => a !in h.decls
    case BadPairs(a) => a in h.decls && !Paired(h, a)
    case ArrayOfAggregates(a, i) => a in h.decls && i < |h.decls[a]| && IsArrayOfAggregates(h, a, i)
    case ValueDescriptor(a, i) => a in h.decls && i < |h.decls[a]| && IsValueDescriptor(h, a, i)
  }

  // ----- one field

  datatype Step = Pass | Refuse(descriptor: bool) | Enter(base: string)

  /** What the check does with a field. */
  function CheckStep(registry: Registry, pairs: Pairs, f: CField, i: nat): Step {
    if f.isArray && IsAggregate(registry, f.base) then Refuse(false)
    else if f.isArray then Pass
    else if i in pairs.counts then Pass
    else if i in pairs.elements then (if IsBoundary(registry, f.base) then Enter(f.base) else Pass)
    else if f.pointer then (if IsBoundary(registry, f.base) then Enter(f.base) else Pass)
    else if IsDescriptor(registry, f.base) then Refuse(true)
    else if IsBoundary(registry, f.base) then Enter(f.base)
    else Pass
  }

  lemma CheckStepOf(h: Header, a: string, pairs: Pairs, i: nat)
    requires a in h.decls && PairsOf(h.decls[a], h.registry, h.scalars, |h.decls[a]|, pairs) && i < |h.decls[a]|
    ensures var f := h.decls[a][i];
      var step := CheckStep(h.registry, pairs, f, i);
      && (step.Enter? <==> Enters(h, a, i))
      && (step.Enter? ==> step.base == f.base)
      && (step == Refuse(false) <==> IsArrayOfAggregates(h, a, i))
      && (step == Refuse(true) <==> IsValueDescriptor(h, a, i))
  {
    hide WellPaired, Collapses;
    PairsAreDisjoint(h.decls[a], h.registry, h.scalars, pairs);
    if i in pairs.elements {
      assert IsCount(h, a, i - 1);
      assert i - 1 in pairs.counts && i - 1 + 1 == i;
    }
  }

  /** The set has the aggregate and everything the header names. */
  ghost predicate Spans(h: Header, u: set<string>) {
    && h.decls.Keys <= u
    && forall a, i | a in h.decls && 0 <= i < |h.decls[a]| :: h.decls[a][i].base in u
  }

  lemma Span(h: Header, root: string) returns (u: set<string>)
    ensures Spans(h, u) && root in u
  {
    u := {root} + h.decls.Keys + (set a, f | a in h.decls && f in h.decls[a] :: f.base);
  }

  ghost function UnlowerableIn(h: Header, u: set<string>): set<string> {
    set a | a in u && Unlowerable(h, a)
  }

  /** The field stops the check, or the check below it stops. */
  ghost predicate FieldStops(h: Header, a: string, i: nat, active: set<string>, u: set<string>)
    requires a in h.decls && i < |h.decls[a]|
  {
    || IsArrayOfAggregates(h, a, i)
    || IsValueDescriptor(h, a, i)
    || (Enters(h, a, i) && Finds(LoweredGraph(h), h.decls[a][i].base, active, UnlowerableIn(h, u)))
  }

  lemma CheckedStep(h: Header, a: string, active: set<string>, u: set<string>)
    requires Paired(h, a) && a !in active && a in u
    ensures Finds(LoweredGraph(h), a, active, UnlowerableIn(h, u))
       <==> exists i :: 0 <= i < |h.decls[a]| && FieldStops(h, a, i, active + {a}, u)
  {
    hide WellPaired, Enters, IsArrayOfAggregates, IsValueDescriptor, Finds;
    var g, goal := LoweredGraph(h), UnlowerableIn(h, u);
    FindsStep(g, a, active, goal);
    if a in goal {
      var i :| 0 <= i < |h.decls[a]| && (IsArrayOfAggregates(h, a, i) || IsValueDescriptor(h, a, i));
      assert FieldStops(h, a, i, active + {a}, u);
    }
    if n :| n in Succ(g, a) && Finds(g, n, active + {a}, goal) {
      var i :| 0 <= i < |h.decls[a]| && Enters(h, a, i) && h.decls[a][i].base == n;
      assert FieldStops(h, a, i, active + {a}, u);
    }
    if i :| 0 <= i < |h.decls[a]| && FieldStops(h, a, i, active + {a}, u) {
      if Enters(h, a, i) {
        assert h.decls[a][i].base in Succ(g, a);
      }
    }
  }

  lemma EdgeReaches(h: Header, a: string, i: nat, owner: string)
    requires Paired(h, a) && i < |h.decls[a]| && Enters(h, a, i)
    requires Reaches(LoweredGraph(h), h.decls[a][i].base, owner)
    ensures Reaches(LoweredGraph(h), a, owner)
  {
    var g := LoweredGraph(h);
    assert h.decls[a][i].base in Succ(g, a);
    ReachesEdge(g, a, h.decls[a][i].base);
    ReachesTrans(g, a, h.decls[a][i].base, owner);
  }

  // ----- the check

  method Check(h: Header, a: string, visiting: set<string>, ghost u: set<string>)
    returns (fault: Option<Fault>, path: set<string>)
    requires Spans(h, u) && a in u && visiting <= u
    ensures fault.None? ==> path == visiting
    ensures fault.Some? <==> Finds(LoweredGraph(h), a, visiting, UnlowerableIn(h, u))
    ensures fault.Some? ==> Explains(h, fault.value) && Reaches(LoweredGraph(h), a, fault.value.owner)
    decreases |u - visiting|
  {
    hide WellPaired, Enters, IsArrayOfAggregates, IsValueDescriptor, Finds, Reaches, LoweredGraph, PairsOf, CheckStep;
    ghost var g, goal := LoweredGraph(h), UnlowerableIn(h, u);
    path := visiting;
    ReachesSelf(g, a);
    if a in path {
      FindsStopped(g, a, visiting, goal);
      return None, path;
    }
    path := path + {a};
    if a !in h.decls {
      FindsStep(g, a, visiting, goal);
      return Some(Undeclared(a)), path;
    }
    var found := EmbeddedArrayPairs(h.decls[a], h.registry, h.scalars);
    if found.Refused? {
      FindsStep(g, a, visiting, goal);
      return Some(BadPairs(a)), path;
    }
    var fields, pairs := h.decls[a], found.pairs;
    CheckedStep(h, a, visiting, u);
    StrictSubsetSize(u - path, u - visiting);
    for i := 0 to |fields|
      invariant path == visiting + {a}
      invariant forall k | 0 <= k < i :: !FieldStops(h, a, k, path, u)
    {
      CheckStepOf(h, a, pairs, i);
      match CheckStep(h.registry, pairs, fields[i], i) {
        case Pass =>
        case Refuse(descriptor) =>
          assert FieldStops(h, a, i, path, u);
          return Some(if descriptor then ValueDescriptor(a, i) else ArrayOfAggregates(a, i)), path;
        case Enter(base) =>
          fault, path := Check(h, base, path, u);
          if fault.Some? {
            assert FieldStops(h, a, i, visiting + {a}, u);
            EdgeReaches(h, a, i, fault.value.owner);
            return;
          }
      }
    }
    fault := None;
    path := path - {a};
  }

  /**
  A scratch root is accepted exactly when no aggregate that it reaches is
  without a lowering; a refusal names such an aggregate.
  */
  method CheckRoot(h: Header, root: string) returns (fault: Option<Fault>)
    ensures fault.None? <==> forall a | Reaches(LoweredGraph(h), root, a) :: !Unlowerable(h, a)
    ensures fault.Some? ==> Explains(h, fault.value) && Reaches(LoweredGraph(h), root, fault.value.owner)
  {
    ghost var u := Span(h, root);
    var path;
    fault, path := Check(h, root, {}, u);
    FindsReaches(LoweredGraph(h), root, UnlowerableIn(h, u));
    forall a | Reaches(LoweredGraph(h), root, a) ensures a in u { ReachedInSpan(h, u, root, a); }
  }

  lemma ReachedInSpan(h: Header, u: set<string>, root: string, a: string)
    requires Spans(h, u) && root in u && Reaches(LoweredGraph(h), root, a)
    ensures a in u
  {
    assert Closed(LoweredGraph(h), u);
    ClosedReaches(LoweredGraph(h), u, root, a);
  }

  // ----- by kinds

  ghost predicate HasKind(h: Header, f: CField, kinds: set<Kind>) {
    f.base in h.registry && h.registry[f.base] in kinds
  }

  /** The edges and the defects by the kinds of the fields. */
  lemma LoweredByKind(h: Header, a: string, b: string)
    ensures b in Succ(LoweredGraph(h), a) <==>
      && a in h.decls && WellPaired(h.decls[a], h.registry, h.scalars)
      && exists i | 0 <= i < |h.decls[a]| :: EntersByKind(h, a, i, b)
    ensures Unlowerable(h, a) <==>
      || a !in h.decls || !WellPaired(h.decls[a], h.registry, h.scalars)
      || exists i | 0 <= i < |h.decls[a]| :: DefectByKind(h, a, i)
  {
    hide WellPaired, Collapses;
    if a in h.decls {
      assert forall i | 0 <= i < |h.decls[a]| :: EntersByKind(h, a, i, b) <==> Enters(h, a, i) && h.decls[a][i].base == b;
      assert forall i | 0 <= i < |h.decls[a]| ::
        DefectByKind(h, a, i) <==> IsArrayOfAggregates(h, a, i) || IsValueDescriptor(h, a, i);
    }
  }

  /** The field is no array and no count, and its type is the boundary struct `b`. */
  ghost predicate EntersByKind(h: Header, a: string, i: nat, b: string)
    requires a in h.decls && i < |h.decls[a]|
  {
    var f := h.decls[a][i];
    f.base == b && !f.isArray && HasKind(h, f, {Kind.Boundary}) && !Collapses(h.decls[a], h.registry, h.scalars, i)
  }

  /** The field is a fixed array of an aggregate, or a descriptor by value. */
  ghost predicate DefectByKind(h: Header, a: string, i: nat)
    requires a in h.decls && i < |h.decls[a]|
  {
    var f := h.decls[a][i];
    if f.isArray then HasKind(h, f, {Kind.Boundary, Kind.StringView, Kind.ArrayPair, Kind.FnPtr})
    else !f.pointer && HasKind(h, f, {Kind.ArrayPair}) && !Collapses(h.decls[a], h.registry, h.scalars, i)
  }
}
