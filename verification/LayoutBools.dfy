/**
The bool bytes of a stored value: the collecting walk reports each of them
once, in address order, and none of them is padding.
*/
module LayoutBools {
  import opened StructViews
  import opened Layouts
  import opened LayoutBuilder
  import opened LayoutPieces

  /** The offsets rise and lie in `[lo, hi)`. */
  ghost predicate AscendingIn(xs: seq<U32>, lo: int, hi: int) {
    Ascending(xs) && forall i | 0 <= i < |xs| :: lo <= xs[i] < hi
  }

  /** The offsets are exactly the bools among the first bytes of the type. */
  ghost predicate Bools(classes: seq<ClassShape>, ty: Type, base: nat, xs: seq<U32>, upto: nat)
    requires FiniteType(classes, ty)
  {
    && AscendingIn(xs, base, base + upto)
    && forall b: U32 | base <= b < base + upto :: b in xs <==> BoolAt(classes, ty, b - base)
  }

  lemma AscendingJoin(a: seq<U32>, b: seq<U32>, lo: int, mid: int, hi: int)
    requires lo <= mid <= hi && AscendingIn(a, lo, mid) && AscendingIn(b, mid, hi)
    ensures AscendingIn(a + b, lo, hi)
  {
  }

  /** The next part adds its own bools. */
  lemma BoolsStep(classes: seq<ClassShape>, ty: Type, base: nat, i: nat, xs: seq<U32>, part: seq<U32>)
    requires Opens(classes, ty) && i < PartCount(classes, ty) && FiniteType(classes, ty)
    requires Bools(classes, ty, base, xs, PartsEnd(classes, ty, i))
    requires FiniteType(classes, PartType(classes, ty, i))
    requires var offset := PartOffset(classes, ty, i);
      Bools(classes, PartType(classes, ty, i), base + offset, part, SizeOf(classes, PartType(classes, ty, i)).size)
    ensures Bools(classes, ty, base, xs + part, PartsEnd(classes, ty, i + 1))
  {
    hide Covers, BoolAt, PartsEnd, PartOffset, PartType, Opens, SizeOf, FiniteType;
    PartPlace(classes, ty, i);
    var from, offset, end := PartsEnd(classes, ty, i), PartOffset(classes, ty, i), PartsEnd(classes, ty, i + 1);
    assert AscendingIn(xs, base, base + offset);
    AscendingJoin(xs, part, base, base + offset, base + end);
    forall b: U32 | base <= b < base + end ensures b in xs + part <==> BoolAt(classes, ty, b - base) {
      if base + from <= b {
        OnlyPart(classes, ty, i, b - base);
        if b < base + offset {
          NoBoolBefore(classes, PartType(classes, ty, i), b - base - offset);
        }
      }
    }
  }

  lemma NoBoolBefore(classes: seq<ClassShape>, ty: Type, k: int)
    requires FiniteType(classes, ty) && k < 0
    ensures !BoolAt(classes, ty, k)
  {
    if BoolAt(classes, ty, k) {
      BoolIsCovered(classes, ty, k);
      CoversInside(classes, ty, k);
    }
  }

  lemma BoolsEnd(classes: seq<ClassShape>, ty: Type, base: nat, xs: seq<U32>)
    requires Opens(classes, ty) && FiniteType(classes, ty)
    requires Bools(classes, ty, base, xs, PartsEnd(classes, ty, PartCount(classes, ty)))
    ensures Bools(classes, ty, base, xs, SizeOf(classes, ty).size)
  {
    hide Covers, BoolAt, PartsEnd, Opens, SizeOf, FiniteType;
    PartsFit(classes, ty);
    var end, size := PartsEnd(classes, ty, PartCount(classes, ty)), SizeOf(classes, ty).size;
    forall b: U32 | base + end <= b < base + size ensures b in xs <==> BoolAt(classes, ty, b - base) {
      NoPart(classes, ty, b - base);
    }
  }

  /** What the walk over the parts has listed. */
  ghost predicate BoolsSoFar(classes: seq<ClassShape>, ty: Type, base: nat, was: seq<U32>, xs: seq<U32>, i: nat)
    requires Opens(classes, ty) && i <= PartCount(classes, ty)
  {
    Fits(classes, ty, base) ==>
      was <= xs && Bools(classes, ty, base, xs[|was|..], PartsEnd(classes, ty, i))
  }

  lemma BoolsStart(classes: seq<ClassShape>, ty: Type, base: nat, xs: seq<U32>)
    requires Opens(classes, ty)
    ensures BoolsSoFar(classes, ty, base, xs, xs, 0)
  {
    if Fits(classes, ty, base) {
      PartsFit(classes, ty);
    }
  }

  lemma BoolsGoOn(classes: seq<ClassShape>, ty: Type, base: nat, was: seq<U32>, xs: seq<U32>, i: nat, next: seq<U32>)
    requires Opens(classes, ty) && i < PartCount(classes, ty) && Fits(classes, ty, base)
    requires BoolsSoFar(classes, ty, base, was, xs, i)
    requires FiniteType(classes, PartType(classes, ty, i))
    requires xs <= next &&
      Bools(classes, PartType(classes, ty, i), base + PartOffset(classes, ty, i), next[|xs|..],
            SizeOf(classes, PartType(classes, ty, i)).size)
    ensures BoolsSoFar(classes, ty, base, was, next, i + 1)
  {
    hide Bools, PartsEnd, PartOffset, PartType, Opens, SizeOf, FiniteType;
    var part := next[|xs|..];
    BoolsStep(classes, ty, base, i, xs[|was|..], part);
    assert next == xs + part;
    assert next[|was|..] == xs[|was|..] + part;
  }

  method CollectBoolOffsets(classes: seq<ClassShape>, layouts: seq<ClassLayout>, ty: Type, base: U32, offsets: seq<U32>)
    returns (r: Result<seq<U32>>)
    requires Built(classes, layouts)
    ensures Fits(classes, ty, base) ==>
      && r.Ok? && offsets <= r.value
      && Bools(classes, ty, base, r.value[|offsets|..], SizeOf(classes, ty).size)
    decreases TypeRank(classes, ty), ty, 2
  {
    BuiltBounds(classes, layouts);
    TableIsExact(classes, layouts, ty);
    assert offsets[|offsets|..] == [];
    match ty {
      case Bool =>
        r := Ok(offsets + [base]);
        assert r.value[|offsets|..] == [base];
      case Class(id) =>
        if id >= |layouts| {
          return Err(OutOfRange);
        }
        if !classes[id].isValue {
          return Ok(offsets);
        }
        r := CollectClassBools(classes, layouts, ty, base, offsets);
      case FixedArray(e, n) =>
        r := CollectArrayBools(classes, layouts, ty, base, offsets);
      case _ =>
        r := Ok(offsets);
    }
  }

  method CollectClassBools(classes: seq<ClassShape>, layouts: seq<ClassLayout>, ty: Type, base: U32, offsets: seq<U32>)
    returns (r: Result<seq<U32>>)
    requires Built(classes, layouts) && ty.Class? && Opens(classes, ty)
    ensures Fits(classes, ty, base) ==>
      && r.Ok? && offsets <= r.value
      && Bools(classes, ty, base, r.value[|offsets|..], SizeOf(classes, ty).size)
    decreases TypeRank(classes, ty), ty, 1
  {
    hide Bools, Sound, SoundClass, Finite, Placed, SizeOf, LayoutOf, PartsEnd, PartOffset;
    BuiltBounds(classes, layouts);
    ghost var fits := Fits(classes, ty, base);
    var xs, i := offsets, 0;
    BoolsStart(classes, ty, base, offsets);
    while i < |classes[ty.id].fields|
      invariant i <= |classes[ty.id].fields|
      invariant BoolsSoFar(classes, ty, base, offsets, xs, i)
    {
      TableOffset(classes, layouts, ty.id, i);
      if fits {
        PartSums(classes, ty, base, i);
        PartIsTableOffset(classes, layouts, ty, i);
      }
      var at := CheckedAdd(base, layouts[ty.id].offsets[i]);
      if at.Err? {
        return Err(TooLarge);
      }
      assert Supports(classes, ty.id);
      FieldIsFinite(classes, ty.id, classes[ty.id].fields[i]);
      var inner := CollectBoolOffsets(classes, layouts, classes[ty.id].fields[i], at.value, xs);
      if inner.Err? {
        return inner;
      }
      if fits {
        BoolsGoOn(classes, ty, base, offsets, xs, i, inner.value);
      }
      xs, i := inner.value, i + 1;
    }
    if fits {
      BoolsEnd(classes, ty, base, xs[|offsets|..]);
    }
    r := Ok(xs);
  }

  method CollectArrayBools(classes: seq<ClassShape>, layouts: seq<ClassLayout>, ty: Type, base: U32, offsets: seq<U32>)
    returns (r: Result<seq<U32>>)
    requires Built(classes, layouts) && ty.FixedArray?
    ensures Fits(classes, ty, base) ==>
      && r.Ok? && offsets <= r.value
      && Bools(classes, ty, base, r.value[|offsets|..], SizeOf(classes, ty).size)
    decreases TypeRank(classes, ty), ty, 1
  {
    hide Bools, Sound, SoundClass, Finite, Placed, SizeOf, LayoutOf, PartsEnd, PartOffset;
    BuiltBounds(classes, layouts);
    TableIsExact(classes, layouts, ty);
    ghost var fits := Fits(classes, ty, base);
    var s := Stride(classes, layouts, ty.element);
    if s.Err? {
      return Err(s.fault);
    }
    var xs, index := offsets, 0;
    BoolsStart(classes, ty, base, offsets);
    while index < ty.count
      invariant index <= ty.count
      invariant BoolsSoFar(classes, ty, base, offsets, xs, index)
    {
      if fits {
        PartSums(classes, ty, base, index);
        ElementOffset(classes, layouts, ty, index);
      }
      var offset := CheckedMul(index, s.value);
      if offset.Err? {
        return Err(TooLarge);
      }
      var at := CheckedAdd(base, offset.value);
      if at.Err? {
        return Err(TooLarge);
      }
      var inner := CollectBoolOffsets(classes, layouts, ty.element, at.value, xs);
      if inner.Err? {
        return inner;
      }
      if fits {
        BoolsGoOn(classes, ty, base, offsets, xs, index, inner.value);
      }
      xs, index := inner.value, index + 1;
    }
    if fits {
      BoolsEnd(classes, ty, base, xs[|offsets|..]);
    }
    r := Ok(xs);
  }

  method BoolOffsets(classes: seq<ClassShape>, layouts: seq<ClassLayout>, ty: Type) returns (r: Result<seq<U32>>)
    requires Built(classes, layouts)
    ensures FiniteType(classes, ty)
    ensures Sound(classes, ty) ==>
      && r.Ok?
      && AscendingIn(r.value, 0, SizeOf(classes, ty).size)
      && forall b: U32 :: b in r.value <==> BoolAt(classes, ty, b)
  {
    hide BoolAt, Sound;
    TableIsExact(classes, layouts, ty);
    if Sound(classes, ty) {
      SoundSize(classes, ty);
    }
    r := CollectBoolOffsets(classes, layouts, ty, 0, []);
    if Sound(classes, ty) {
      assert r.value[0..] == r.value;
      forall b: U32 ensures b in r.value <==> BoolAt(classes, ty, b) {
        assert b - 0 == b;
        if BoolAt(classes, ty, b) {
          BoolIsCovered(classes, ty, b);
          CoversInside(classes, ty, b);
        }
      }
    }
  }

  /** No reported bool is in a reported padding range. */
  lemma BoolsAreNotPadding(classes: seq<ClassShape>, ty: Type, base: nat, rs: seq<Range>, xs: seq<U32>, x: U32)
    requires FiniteType(classes, ty)
    requires Padding(classes, ty, base, rs, SizeOf(classes, ty).size)
    requires Bools(classes, ty, base, xs, SizeOf(classes, ty).size)
    requires x in xs
    ensures !InRanges(rs, x)
  {
    BoolIsCovered(classes, ty, x - base);
  }
}
