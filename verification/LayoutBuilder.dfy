/**
The layout builder: layouts are kept once computed, classes in progress are
marked, and the arithmetic is checked at each step. It succeeds exactly where
the platform layout is finite and supported, and then gives that layout.
*/
module LayoutBuilder {
  import opened Graphs
  import opened StructViews
  import opened Layouts

  // ----- composite types

  function ArraySize(s: Size, n: U32): Result<Size>
    requires s.size <= 0xffff_ffff && s.align <= 0xffff_ffff
  {
    match RoundUp(s.size, s.align)
    case Err(f) => Err(f)
    case Ok(stride) =>
      match CheckedMul(stride, n)
      case Err(f) => Err(f)
      case Ok(bytes) => Ok(Size(bytes, s.align))
  }

  function IterResultSize(s: Size): Result<Size>
    requires s.size <= 0xffff_ffff && s.align <= 0xffff_ffff
  {
    var a := Max(s.align, 1);
    match RoundUp(1, a)
    case Err(f) => Err(f)
    case Ok(offset) =>
      match CheckedAdd(offset, s.size)
      case Err(f) => Err(f)
      case Ok(end) =>
        match RoundUp(end, a)
        case Err(f) => Err(f)
        case Ok(size) => Ok(Size(size, a))
  }

  lemma ArraySizeOf(classes: seq<ClassShape>, e: Type, n: U32)
    requires FiniteType(classes, e) && Sound(classes, e)
    ensures SizeOf(classes, e).size <= MAX_BYTES && SizeOf(classes, e).align <= 0xffff_ffff
    ensures FiniteType(classes, FixedArray(e, n))
    ensures ArraySize(SizeOf(classes, e), n).Ok? <==> Sound(classes, FixedArray(e, n))
    ensures Sound(classes, FixedArray(e, n)) ==>
      ArraySize(SizeOf(classes, e), n) == Ok(SizeOf(classes, FixedArray(e, n)))
  {
    hide LayoutOf, SoundClass, IsPowerOfTwo, Up, Finite, RoundUp;
    var s := SizeOf(classes, e);
    SoundSize(classes, e);
    StrideIsSize(classes, e);
    RoundUpOf(s.size, s.align);
  }

  lemma IterResultSizeOf(classes: seq<ClassShape>, v: Type)
    requires FiniteType(classes, v) && Sound(classes, v)
    ensures SizeOf(classes, v).size <= MAX_BYTES && SizeOf(classes, v).align <= 0xffff_ffff
    ensures FiniteType(classes, IterResult(v))
    ensures IterResultSize(SizeOf(classes, v)).Ok? <==> Sound(classes, IterResult(v))
    ensures Sound(classes, IterResult(v)) ==>
      IterResultSize(SizeOf(classes, v)) == Ok(SizeOf(classes, IterResult(v)))
  {
    hide LayoutOf, SoundClass, IsPowerOfTwo, Up, Finite, RoundUp;
    var s := SizeOf(classes, v);
    SoundSize(classes, v);
    RoundUpOf(1, s.align);
    var end := Up(1, s.align) + s.size;
    if end <= MAX_BYTES {
      RoundUpOf(end, s.align);
    }
  }

  // ----- classes

  /** A class whose fields are all finite holds no cycle. */
  lemma FiniteFromFields(classes: seq<ClassShape>, id: nat)
    requires id < |classes|
    requires forall f | f in classes[id].fields :: FiniteType(classes, f)
    ensures Finite(classes, id)
  {
    var g := Containment(classes);
    if Loops<nat>(g, id, {}) {
      LoopsIsCycle<nat>(g, id);
      var c :| Reaches<nat>(g, id, c) && ReachesByEdge<nat>(g, c, c);
      var y := FirstStep(g, id, c);
      LoopsIsCycle<nat>(g, y);
    }
  }

  /** A cycle that `x` reaches is reached from some successor of `x`. */
  lemma FirstStep(g: Graph<nat>, x: nat, c: nat) returns (y: nat)
    requires Reaches<nat>(g, x, c) && ReachesByEdge<nat>(g, c, c)
    ensures y in Succ<nat>(g, x)
    ensures exists z :: Reaches<nat>(g, y, z) && ReachesByEdge<nat>(g, z, z)
  {
    if x == c {
      y :| y in Succ<nat>(g, c) && Reaches<nat>(g, y, c);
    } else {
      var p :| PathFrom<nat>(g, x, p) && p[|p| - 1] == c;
      y := p[1];
      PathSuffix<nat>(g, p, 1);
      assert p[1..][|p[1..]| - 1] == c;
      assert Reaches<nat>(g, y, c);
    }
  }

  lemma {:induction false} SoundField(classes: seq<ClassShape>, id: nat, i: nat, n: nat)
    requires Finite(classes, id) && i < n <= |classes[id].fields| && SoundFields(classes, id, n)
    ensures FiniteType(classes, classes[id].fields[i]) && Sound(classes, classes[id].fields[i])
    decreases n
  {
    FieldIsFinite(classes, id, classes[id].fields[i]);
    if i < n - 1 {
      SoundField(classes, id, i, n - 1);
    }
  }

  lemma {:induction false} SoundFromFields(classes: seq<ClassShape>, id: nat, n: nat)
    requires Finite(classes, id) && n <= |classes[id].fields|
    requires forall j | 0 <= j < n :: FiniteType(classes, classes[id].fields[j]) && Sound(classes, classes[id].fields[j])
    ensures SoundFields(classes, id, n)
    decreases n
  {
    if n > 0 {
      SoundFromFields(classes, id, n - 1);
    }
  }

  /** The first fields of a supported class end at a supported offset. */
  lemma EndIsSupported(classes: seq<ClassShape>, id: nat, i: nat)
    requires Finite(classes, id) && SoundClass(classes, id) && i < |classes[id].fields|
    ensures FiniteType(classes, classes[id].fields[i]) && Sound(classes, classes[id].fields[i])
    ensures var s := SizeOf(classes, classes[id].fields[i]);
      Up(Placed(classes, id, i).end, s.align) + s.size <= MAX_BYTES
  {
    var n := |classes[id].fields|;
    SoundField(classes, id, i, n);
    OffsetsArePrefix(classes, id, i + 1, n);
  }

  /** What is known after the first fields are placed, whether or not the class is finite. */
  ghost predicate Placing(classes: seq<ClassShape>, id: nat, i: nat, p: Placement)
    requires id < |classes| && i <= |classes[id].fields|
  {
    && p.end <= MAX_BYTES && IsPowerOfTwo(p.align) && p.align <= 0xffff_ffff
    && (forall j | 0 <= j < i :: FiniteType(classes, classes[id].fields[j]) && Sound(classes, classes[id].fields[j]))
    && (Finite(classes, id) ==> p == Placed(classes, id, i))
  }

  ghost predicate Supports(classes: seq<ClassShape>, id: nat) {
    Finite(classes, id) && SoundClass(classes, id)
  }

  /** Checked placement of the next field. */
  function PlaceNext(p: Placement, s: Size): Result<Placement>
    requires p.end <= 0xffff_ffff && s.size <= 0xffff_ffff && s.align <= 0xffff_ffff
  {
    match RoundUp(p.end, s.align)
    case Err(f) => Err(f)
    case Ok(offset) =>
      match CheckedAdd(offset, s.size)
      case Err(f) => Err(f)
      case Ok(end) => Ok(Placement(p.offsets + [offset], end, Max(p.align, s.align)))
  }

  lemma PlaceNextOf(classes: seq<ClassShape>, id: nat, i: nat, p: Placement)
    requires id < |classes| && i < |classes[id].fields| && Placing(classes, id, i, p)
    requires FiniteType(classes, classes[id].fields[i]) && Sound(classes, classes[id].fields[i])
    ensures var s := SizeOf(classes, classes[id].fields[i]);
      && s.size <= MAX_BYTES
      && (PlaceNext(p, s).Err? ==> !Supports(classes, id))
      && (PlaceNext(p, s).Ok? ==> Placing(classes, id, i + 1, PlaceNext(p, s).value))
  {
    hide SoundClass, Sound, FiniteType;
    var s := SizeOf(classes, classes[id].fields[i]);
    SoundSize(classes, classes[id].fields[i]);
    RoundUpOf(p.end, s.align);
    PowerOfTwoMax(p.align, s.align);
    if Supports(classes, id) {
      EndIsSupported(classes, id, i);
    }
  }

  /** The checked end of a class layout. */
  function Close(shape: ClassShape, p: Placement): Result<ClassLayout>
    requires p.end <= 0xffff_ffff && p.align <= 0xffff_ffff
  {
    var align := Overridden(shape, p.align);
    match RoundUp(Max(p.end, 1), align)
    case Err(f) => Err(f)
    case Ok(size) => Ok(ClassLayout(size, align, p.offsets))
  }

  lemma CloseOf(classes: seq<ClassShape>, id: nat, p: Placement)
    requires id < |classes| && Placing(classes, id, |classes[id].fields|, p)
    ensures Finite(classes, id)
    ensures Close(classes[id], p).Ok? <==> SoundClass(classes, id)
    ensures SoundClass(classes, id) ==> Close(classes[id], p) == Ok(LayoutOf(classes, id))
  {
    hide Sound, FiniteType;
    FiniteFromFields(classes, id);
    SoundFromFields(classes, id, |classes[id].fields|);
    var align := Overridden(classes[id], p.align);
    if IsPowerOfTwo(align) {
      RoundUpOf(Max(p.end, 1), align);
    }
  }

  lemma PlacingStarts(classes: seq<ClassShape>, id: nat)
    requires id < |classes|
    ensures Placing(classes, id, 0, Placement([], 0, 1))
  {
  }

  lemma FieldFails(classes: seq<ClassShape>, id: nat, i: nat)
    requires id < |classes| && i < |classes[id].fields|
    requires !(FiniteType(classes, classes[id].fields[i]) && Sound(classes, classes[id].fields[i]))
    ensures !Supports(classes, id)
    ensures !FiniteType(classes, classes[id].fields[i]) ==> !Finite(classes, id)
  {
    if Finite(classes, id) {
      FieldIsFinite(classes, id, classes[id].fields[i]);
    }
    if Supports(classes, id) {
      SoundField(classes, id, i, |classes[id].fields|);
    }
  }

  lemma OwnContainer(classes: seq<ClassShape>, id: nat)
    requires ReachesByEdge<nat>(Containment(classes), id, id)
    ensures !Finite(classes, id)
  {
    ReachesSelf<nat>(Containment(classes), id);
    LoopsIsCycle<nat>(Containment(classes), id);
  }

  lemma HoldsThrough(classes: seq<ClassShape>, a: nat, id: nat, d: nat)
    requires a == id || ReachesByEdge<nat>(Containment(classes), a, id)
    requires d in Succ<nat>(Containment(classes), id)
    ensures ReachesByEdge<nat>(Containment(classes), a, d)
  {
    var g := Containment(classes);
    if a == id {
      ReachesSelf<nat>(g, d);
    } else {
      var z :| z in Succ<nat>(g, a) && Reaches<nat>(g, z, id);
      ReachesEdge<nat>(g, id, d);
      ReachesTrans<nat>(g, z, id, d);
    }
  }

  class Builder {
    const classes: seq<ClassShape>
    var slots: seq<Option<ClassLayout>>
    var visiting: seq<bool>

    constructor (classes: seq<ClassShape>)
      ensures this.classes == classes
      ensures Memo() && |visiting| == |classes|
      ensures forall i | 0 <= i < |classes| :: slots[i].None? && !visiting[i]
    {
      this.classes := classes;
      slots := seq(|classes|, i => None);
      visiting := seq(|classes|, i => false);
    }

    /** Each kept layout is the layout that the platform rules give, and it is supported. */
    ghost predicate Memo()
      reads this
    {
      && |slots| == |classes|
      && forall i | 0 <= i < |slots| && slots[i].Some? ::
           Supports(classes, i) && slots[i].value == LayoutOf(classes, i)
    }

    /** Each class in progress holds the class `d`. */
    ghost predicate Leads(d: nat)
      reads this
    {
      && |visiting| == |classes|
      && forall a | 0 <= a < |visiting| && visiting[a] :: ReachesByEdge<nat>(Containment(classes), a, d)
    }

    ghost predicate LeadsTo(ty: Type)
      reads this
    {
      && |visiting| == |classes|
      && forall d | d in ClassIds(ty) && d < |classes| && classes[d].isValue :: Leads(d)
    }

    /** The classes that are not in progress. */
    ghost function Idle(): set<nat>
      reads this
    {
      set i | 0 <= i < |visiting| && !visiting[i]
    }

    ghost predicate Keeps(was: seq<Option<ClassLayout>>)
      reads this
    {
      && |slots| == |was|
      && forall i | 0 <= i < |was| && was[i].Some? :: slots[i].Some?
    }

    /** Inside a class in progress, its container classes hold what its fields hold. */
    lemma FieldLeads(was: seq<bool>, id: nat, f: Type)
      requires |was| == |classes| && id < |was| && visiting == was[id := true]
      requires forall a | 0 <= a < |was| && was[a] :: ReachesByEdge<nat>(Containment(classes), a, id)
      requires f in classes[id].fields
      ensures LeadsTo(f)
    {
      forall d | d in ClassIds(f) && d < |classes| && classes[d].isValue ensures Leads(d) {
        forall a | 0 <= a < |visiting| && visiting[a]
          ensures ReachesByEdge<nat>(Containment(classes), a, d)
        {
          HoldsThrough(classes, a, id, d);
        }
      }
    }

    method Layout(id: nat) returns (r: Result<ClassLayout>)
      requires Memo() && Leads(id)
      modifies this
      ensures Memo() && Keeps(old(slots))
      ensures r.Ok? <==> Supports(classes, id)
      ensures r.Ok? ==> r.value == LayoutOf(classes, id) && slots[id].Some? && visiting == old(visiting)
      ensures r == Err(ContainmentCycle) ==> !Finite(classes, id)
      decreases Idle(), 0
    {
      hide Sound, SoundClass, Loops, FiniteType, Containment;
      if id < |slots| && slots[id].Some? {
        return Ok(slots[id].value);
      }
      if id >= |classes| {
        return Err(OutOfRange);
      }
      if visiting[id] {
        OwnContainer(classes, id);
        return Err(ContainmentCycle);
      }
      ghost var before := Idle();
      visiting := visiting[id := true];
      assert id in before && Idle() == before - {id};
      var p := Placement([], 0, 1);
      PlacingStarts(classes, id);
      var i := 0;
      while i < |classes[id].fields|
        invariant i <= |classes[id].fields|
        invariant Memo() && Keeps(old(slots)) && visiting == old(visiting)[id := true]
        invariant Placing(classes, id, i, p)
      {
        var f := classes[id].fields[i];
        FieldLeads(old(visiting), id, f);
        var s := SizeAlign(f);
        if s.Err? {
          FieldFails(classes, id, i);
          return Err(s.fault);
        }
        PlaceNextOf(classes, id, i, p);
        var next := PlaceNext(p, s.value);
        if next.Err? {
          return Err(next.fault);
        }
        p := next.value;
        i := i + 1;
      }
      CloseOf(classes, id, p);
      r := Close(classes[id], p);
      if r.Ok? {
        visiting := visiting[id := false];
        slots := slots[id := Some(r.value)];
      }
    }

    method SizeAlign(ty: Type) returns (r: Result<Size>)
      requires Memo() && LeadsTo(ty)
      modifies this
      ensures Memo() && Keeps(old(slots))
      ensures r.Ok? <==> FiniteType(classes, ty) && Sound(classes, ty)
      ensures r.Ok? ==> r.value == SizeOf(classes, ty) && visiting == old(visiting)
      ensures r == Err(ContainmentCycle) ==> !FiniteType(classes, ty)
      decreases Idle(), 1, ty
    {
      match ty {
        case Bool => r := Ok(Size(1, 1));
        case Leaf(s) => r := Ok(Size(s.size, s.align));
        case Unknown => r := Err(Unsized);
        case Class(id) =>
          if id >= |classes| {
            r := Err(OutOfRange);
          } else if classes[id].isValue {
            var l := Layout(id);
            r := if l.Ok? then Ok(Size(l.value.size, l.value.align)) else Err(l.fault);
          } else {
            r := Ok(Size(8, 8));
          }
        case FixedArray(e, n) =>
          r := SizeAlign(e);
          if r.Ok? {
            ArraySizeOf(classes, e, n);
            r := ArraySize(r.value, n);
          }
        case IterResult(v) =>
          r := SizeAlign(v);
          if r.Ok? {
            IterResultSizeOf(classes, v);
            r := IterResultSize(r.value);
          }
      }
    }
  }

  /** The layouts of all classes: exactly when every class is finite and supported. */
  method BuildShapes(classes: seq<ClassShape>) returns (r: Result<seq<ClassLayout>>)
    ensures r.Ok? <==> forall id | 0 <= id < |classes| :: Supports(classes, id)
    ensures r.Ok? ==> Built(classes, r.value)
  {
    hide SoundClass, LayoutOf, Loops, ReachesByEdge;
    var b := new Builder(classes);
    var i := 0;
    while i < |classes|
      invariant i <= |classes| && b.Memo() && b.classes == classes
      invariant |b.visiting| == |classes| && forall j | 0 <= j < |classes| :: !b.visiting[j]
      invariant forall j | 0 <= j < i :: b.slots[j].Some?
    {
      var l := b.Layout(i);
      if l.Err? {
        return Err(l.fault);
      }
      i := i + 1;
    }
    var layouts: seq<ClassLayout> := [];
    i := 0;
    while i < |b.slots|
      invariant i == |layouts| <= |b.slots|
      invariant forall j | 0 <= j < i :: Supports(classes, j) && layouts[j] == LayoutOf(classes, j)
    {
      layouts := layouts + [b.slots[i].value];
      i := i + 1;
    }
    r := Ok(layouts);
  }

  // ----- the built table

  /** A table of the layouts of all classes. */
  ghost predicate Built(classes: seq<ClassShape>, layouts: seq<ClassLayout>) {
    && |layouts| == |classes|
    && forall id | 0 <= id < |classes| :: Supports(classes, id) && layouts[id] == LayoutOf(classes, id)
  }

  /** Size and alignment of a type, from the table. */
  function SizeAlignIn(classes: seq<ClassShape>, layouts: seq<ClassLayout>, ty: Type): (r: Result<Size>)
    requires |layouts| == |classes|
    requires forall l | l in layouts :: l.size <= 0xffff_ffff && l.align <= 0xffff_ffff
    ensures r.Ok? ==> r.value.size <= 0xffff_ffff && r.value.align <= 0xffff_ffff
  {
    match ty
    case Bool => Ok(Size(1, 1))
    case Leaf(s) => Ok(Size(s.size, s.align))
    case Unknown => Err(Unsized)
    case Class(id) =>
      if id >= |layouts| then Err(OutOfRange)
      else if classes[id].isValue then Ok(Size(layouts[id].size, layouts[id].align))
      else Ok(Size(8, 8))
    case FixedArray(e, n) =>
      var s := SizeAlignIn(classes, layouts, e);
      if s.Ok? then ArraySize(s.value, n) else s
    case IterResult(v) =>
      var s := SizeAlignIn(classes, layouts, v);
      if s.Ok? then IterResultSize(s.value) else s
  }

  lemma BuiltBounds(classes: seq<ClassShape>, layouts: seq<ClassLayout>)
    requires Built(classes, layouts)
    ensures forall l | l in layouts :: l.size <= 0xffff_ffff && l.align <= 0xffff_ffff
  {
  }

  /** The table answers every type as the platform rules do, those that no class names included. */
  lemma {:induction false} TableIsExact(classes: seq<ClassShape>, layouts: seq<ClassLayout>, ty: Type)
    requires Built(classes, layouts)
    ensures FiniteType(classes, ty)
    ensures forall l | l in layouts :: l.size <= 0xffff_ffff && l.align <= 0xffff_ffff
    ensures SizeAlignIn(classes, layouts, ty).Ok? <==> Sound(classes, ty)
    ensures Sound(classes, ty) ==> SizeAlignIn(classes, layouts, ty) == Ok(SizeOf(classes, ty))
  {
    hide LayoutOf, SoundClass, Loops;
    BuiltBounds(classes, layouts);
    forall d | d in ClassIds(ty) && d < |classes| ensures Finite(classes, d) { assert Supports(classes, d); }
    match ty {
      case FixedArray(e, n) =>
        TableIsExact(classes, layouts, e);
        if Sound(classes, e) { ArraySizeOf(classes, e, n); }
      case IterResult(v) =>
        TableIsExact(classes, layouts, v);
        if Sound(classes, v) { IterResultSizeOf(classes, v); }
      case _ =>
    }
  }
}
