/**
The bytes of a stored value: which hold data, which are padding, and where
the bools are. The two collecting walks over a built layout table report
exactly these bytes, in address order.
*/
module LayoutPieces {
  import opened Graphs
  import opened StructViews
  import opened Layouts
  import opened LayoutBuilder

  // ----- the parts of a type

  /** A value class or a fixed array: its bytes are those of its parts, and padding. */
  ghost predicate Opens(classes: seq<ClassShape>, ty: Type) {
    ty.FixedArray? || (ty.Class? && ty.id < |classes| && classes[ty.id].isValue)
  }

  ghost function PartCount(classes: seq<ClassShape>, ty: Type): nat
    requires Opens(classes, ty)
  {
    if ty.FixedArray? then ty.count else |classes[ty.id].fields|
  }

  ghost function PartType(classes: seq<ClassShape>, ty: Type, i: nat): Type
    requires Opens(classes, ty) && i < PartCount(classes, ty)
  {
    if ty.FixedArray? then ty.element else classes[ty.id].fields[i]
  }

  ghost function PartOffset(classes: seq<ClassShape>, ty: Type, i: nat): nat
    requires Opens(classes, ty) && i < PartCount(classes, ty) && FiniteType(classes, ty)
  {
    if ty.FixedArray? then i * SizeOf(classes, ty.element).size else LayoutOf(classes, ty.id).offsets[i]
  }

  /** Where the first parts end. */
  ghost function PartsEnd(classes: seq<ClassShape>, ty: Type, i: nat): nat
    requires Opens(classes, ty) && i <= PartCount(classes, ty) && FiniteType(classes, ty)
  {
    if ty.FixedArray? then i * SizeOf(classes, ty.element).size else Placed(classes, ty.id, i).end
  }

  lemma PartIsFinite(classes: seq<ClassShape>, ty: Type, i: nat)
    requires Opens(classes, ty) && i < PartCount(classes, ty) && FiniteType(classes, ty)
    ensures FiniteType(classes, PartType(classes, ty, i))
    ensures ty.FixedArray? ==> TypeRank(classes, PartType(classes, ty, i)) == TypeRank(classes, ty)
    ensures !ty.FixedArray? ==> TypeRank(classes, PartType(classes, ty, i)) < TypeRank(classes, ty)
  {
    if ty.Class? {
      FieldIsFinite(classes, ty.id, classes[ty.id].fields[i]);
    }
  }

  /** A part starts at or after the end of the parts before it. */
  lemma PartPlace(classes: seq<ClassShape>, ty: Type, i: nat)
    requires Opens(classes, ty) && i < PartCount(classes, ty) && FiniteType(classes, ty)
    ensures FiniteType(classes, PartType(classes, ty, i))
    ensures PartsEnd(classes, ty, i) <= PartOffset(classes, ty, i)
    ensures PartOffset(classes, ty, i) + SizeOf(classes, PartType(classes, ty, i)).size == PartsEnd(classes, ty, i + 1)
  {
    PartIsFinite(classes, ty, i);
    if ty.Class? {
      FieldOffsets(classes, ty.id, i);
    }
  }

  lemma {:induction false} PartsEndGrows(classes: seq<ClassShape>, ty: Type, i: nat, j: nat)
    requires Opens(classes, ty) && i <= j <= PartCount(classes, ty) && FiniteType(classes, ty)
    ensures PartsEnd(classes, ty, i) <= PartsEnd(classes, ty, j)
  {
    if ty.Class? {
      OffsetsArePrefix(classes, ty.id, i, j);
    } else {
      TimesMonotone(i, j, SizeOf(classes, ty.element).size);
    }
  }

  lemma PartsFit(classes: seq<ClassShape>, ty: Type)
    requires Opens(classes, ty) && FiniteType(classes, ty)
    ensures PartsEnd(classes, ty, 0) == 0
    ensures PartsEnd(classes, ty, PartCount(classes, ty)) <= SizeOf(classes, ty).size
    ensures ty.FixedArray? ==> PartsEnd(classes, ty, PartCount(classes, ty)) == SizeOf(classes, ty).size
  {
    hide Up, Finite, IsPowerOfTwo;
    if ty.FixedArray? {
      StrideIsSize(classes, ty.element);
    } else {
      var p := Placed(classes, ty.id, |classes[ty.id].fields|);
      assert p.end <= Up(Max(p.end, 1), Overridden(classes[ty.id], p.align));
    }
  }

  // ----- data bytes and bools

  /** Byte `k` of a value of the type holds data: it is in a leaf, at any depth. */
  ghost predicate Covers(classes: seq<ClassShape>, ty: Type, k: int)
    requires FiniteType(classes, ty)
    decreases TypeRank(classes, ty), ty
  {
    if Opens(classes, ty) then
      exists i | 0 <= i < PartCount(classes, ty) ::
        PartIsFinite(classes, ty, i);
        Covers(classes, PartType(classes, ty, i), k - PartOffset(classes, ty, i))
    else
      0 <= k < SizeOf(classes, ty).size
  }

  /** Byte `k` of a value of the type is a bool, at any depth. */
  ghost predicate BoolAt(classes: seq<ClassShape>, ty: Type, k: int)
    requires FiniteType(classes, ty)
    decreases TypeRank(classes, ty), ty
  {
    if Opens(classes, ty) then
      exists i | 0 <= i < PartCount(classes, ty) ::
        PartIsFinite(classes, ty, i);
        BoolAt(classes, PartType(classes, ty, i), k - PartOffset(classes, ty, i))
    else
      ty.Bool? && k == 0
  }

  lemma {:induction false} CoversInside(classes: seq<ClassShape>, ty: Type, k: int)
    requires FiniteType(classes, ty) && Covers(classes, ty, k)
    ensures 0 <= k < SizeOf(classes, ty).size
    decreases TypeRank(classes, ty), ty
  {
    if Opens(classes, ty) {
      var i :| 0 <= i < PartCount(classes, ty) &&
        (PartIsFinite(classes, ty, i); Covers(classes, PartType(classes, ty, i), k - PartOffset(classes, ty, i)));
      PartIsFinite(classes, ty, i);
      CoversInside(classes, PartType(classes, ty, i), k - PartOffset(classes, ty, i));
      PartPlace(classes, ty, i);
      PartsEndGrows(classes, ty, i + 1, PartCount(classes, ty));
      PartsFit(classes, ty);
    }
  }

  /** A bool is never padding. */
  lemma {:induction false} BoolIsCovered(classes: seq<ClassShape>, ty: Type, k: int)
    requires FiniteType(classes, ty) && BoolAt(classes, ty, k)
    ensures Covers(classes, ty, k)
    decreases TypeRank(classes, ty), ty
  {
    if Opens(classes, ty) {
      var i :| 0 <= i < PartCount(classes, ty) &&
        (PartIsFinite(classes, ty, i); BoolAt(classes, PartType(classes, ty, i), k - PartOffset(classes, ty, i)));
      PartIsFinite(classes, ty, i);
      BoolIsCovered(classes, PartType(classes, ty, i), k - PartOffset(classes, ty, i));
    }
  }

  /** Between the ends of two successive parts, only the second of them can hold the byte. */
  lemma OnlyPart(classes: seq<ClassShape>, ty: Type, i: nat, k: int)
    requires Opens(classes, ty) && i < PartCount(classes, ty) && FiniteType(classes, ty)
    requires PartsEnd(classes, ty, i) <= k < PartsEnd(classes, ty, i + 1)
    ensures FiniteType(classes, PartType(classes, ty, i))
    ensures Covers(classes, ty, k) <==> Covers(classes, PartType(classes, ty, i), k - PartOffset(classes, ty, i))
    ensures BoolAt(classes, ty, k) <==> BoolAt(classes, PartType(classes, ty, i), k - PartOffset(classes, ty, i))
  {
    hide PartsEnd, PartOffset, PartType, SizeOf, FiniteType, Opens;
    PartIsFinite(classes, ty, i);
    forall j | 0 <= j < PartCount(classes, ty)
      ensures FiniteType(classes, PartType(classes, ty, j))
      ensures j != i ==> !Covers(classes, PartType(classes, ty, j), k - PartOffset(classes, ty, j))
      ensures j != i ==> !BoolAt(classes, PartType(classes, ty, j), k - PartOffset(classes, ty, j))
    {
      PartElsewhere(classes, ty, i, j, k);
    }
  }

  lemma PartElsewhere(classes: seq<ClassShape>, ty: Type, i: nat, j: nat, k: int)
    requires Opens(classes, ty) && i < PartCount(classes, ty) && FiniteType(classes, ty)
    requires PartsEnd(classes, ty, i) <= k < PartsEnd(classes, ty, i + 1)
    requires j < PartCount(classes, ty)
    ensures FiniteType(classes, PartType(classes, ty, j))
    ensures j != i ==> !Covers(classes, PartType(classes, ty, j), k - PartOffset(classes, ty, j))
    ensures j != i ==> !BoolAt(classes, PartType(classes, ty, j), k - PartOffset(classes, ty, j))
  {
    hide Covers, BoolAt, PartsEnd, PartOffset, PartType;
    PartPlace(classes, ty, j);
    if j < i {
      PartsEndGrows(classes, ty, j + 1, i);
    } else if i < j {
      PartsEndGrows(classes, ty, i + 1, j);
    }
    var part, at := PartType(classes, ty, j), k - PartOffset(classes, ty, j);
    if j != i && BoolAt(classes, part, at) {
      BoolIsCovered(classes, part, at);
    }
    if j != i && Covers(classes, part, at) {
      CoversInside(classes, part, at);
    }
  }

  /** After the last part there is only padding. */
  lemma NoPart(classes: seq<ClassShape>, ty: Type, k: int)
    requires Opens(classes, ty) && FiniteType(classes, ty)
    requires PartsEnd(classes, ty, PartCount(classes, ty)) <= k
    ensures !Covers(classes, ty, k) && !BoolAt(classes, ty, k)
  {
    forall j | 0 <= j < PartCount(classes, ty)
      ensures FiniteType(classes, PartType(classes, ty, j))
      ensures !Covers(classes, PartType(classes, ty, j), k - PartOffset(classes, ty, j))
    {
      PartPlace(classes, ty, j);
      PartsEndGrows(classes, ty, j + 1, PartCount(classes, ty));
      if Covers(classes, PartType(classes, ty, j), k - PartOffset(classes, ty, j)) {
        CoversInside(classes, PartType(classes, ty, j), k - PartOffset(classes, ty, j));
      }
    }
    if BoolAt(classes, ty, k) {
      BoolIsCovered(classes, ty, k);
    }
  }

  // ----- ranges

  datatype Range = Range(lo: nat, hi: nat)

  ghost predicate InRanges(rs: seq<Range>, b: int) {
    exists r | r in rs :: r.lo <= b < r.hi
  }

  /** Ranges that are not empty, in order, do not overlap, and lie in `[lo, hi)`. */
  ghost predicate Ordered(rs: seq<Range>, lo: int, hi: int) {
    && (forall i | 0 <= i < |rs| :: lo <= rs[i].lo < rs[i].hi <= hi)
    && (forall i, j | 0 <= i < j < |rs| :: rs[i].hi <= rs[j].lo)
  }

  /** The ranges are exactly the padding among the first bytes of the type. */
  ghost predicate Padding(classes: seq<ClassShape>, ty: Type, base: nat, rs: seq<Range>, upto: nat)
    requires FiniteType(classes, ty)
  {
    && Ordered(rs, base, base + upto)
    && forall b | base <= b < base + upto :: InRanges(rs, b) <==> !Covers(classes, ty, b - base)
  }

  lemma InBoth(a: seq<Range>, b: seq<Range>, x: int)
    ensures InRanges(a + b, x) <==> InRanges(a, x) || InRanges(b, x)
  {
    if InRanges(a, x) {
      var r :| r in a && r.lo <= x < r.hi;
      assert r in a + b;
    }
    if InRanges(b, x) {
      var r :| r in b && r.lo <= x < r.hi;
      assert r in a + b;
    }
  }

  lemma OrderedJoin(a: seq<Range>, b: seq<Range>, lo: int, mid: int, hi: int)
    requires lo <= mid <= hi && Ordered(a, lo, mid) && Ordered(b, mid, hi)
    ensures Ordered(a + b, lo, hi)
    ensures forall x | lo <= x < mid :: InRanges(a + b, x) <==> InRanges(a, x)
    ensures forall x | mid <= x < hi :: InRanges(a + b, x) <==> InRanges(b, x)
  {
    forall x ensures InRanges(a + b, x) <==> InRanges(a, x) || InRanges(b, x) { InBoth(a, b, x); }
  }

  // ----- listing the padding part by part

  function Gap(from: nat, to: nat): seq<Range> {
    if from < to then [Range(from, to)] else []
  }

  /** The next part adds the gap before it and its own padding. */
  lemma PaddingStep(classes: seq<ClassShape>, ty: Type, base: nat, i: nat, rs: seq<Range>, part: seq<Range>)
    requires Opens(classes, ty) && i < PartCount(classes, ty) && FiniteType(classes, ty)
    requires Padding(classes, ty, base, rs, PartsEnd(classes, ty, i))
    requires FiniteType(classes, PartType(classes, ty, i))
    requires var offset := PartOffset(classes, ty, i);
      Padding(classes, PartType(classes, ty, i), base + offset, part, SizeOf(classes, PartType(classes, ty, i)).size)
    ensures var gap := Gap(base + PartsEnd(classes, ty, i), base + PartOffset(classes, ty, i));
      Padding(classes, ty, base, rs + gap + part, PartsEnd(classes, ty, i + 1))
  {
    hide Padding, Gap, PartsEnd, PartOffset, PartType, Opens, SizeOf, FiniteType;
    PaddingGap(classes, ty, base, i, rs);
    PaddingPart(classes, ty, base, i, rs + Gap(base + PartsEnd(classes, ty, i), base + PartOffset(classes, ty, i)), part);
  }

  lemma PaddingGap(classes: seq<ClassShape>, ty: Type, base: nat, i: nat, rs: seq<Range>)
    requires Opens(classes, ty) && i < PartCount(classes, ty) && FiniteType(classes, ty)
    requires Padding(classes, ty, base, rs, PartsEnd(classes, ty, i))
    ensures var gap := Gap(base + PartsEnd(classes, ty, i), base + PartOffset(classes, ty, i));
      Padding(classes, ty, base, rs + gap, PartOffset(classes, ty, i))
  {
    hide Covers, PartsEnd, PartOffset, PartType, Opens, SizeOf, FiniteType, InRanges, Gap;
    PartPlace(classes, ty, i);
    var from, offset := PartsEnd(classes, ty, i), PartOffset(classes, ty, i);
    var gap := Gap(base + from, base + offset);
    GapHolds(base + from, base + offset);
    OrderedJoin(rs, gap, base, base + from, base + offset);
    forall b | base + from <= b < base + offset
      ensures InRanges(rs + gap, b) <==> !Covers(classes, ty, b - base)
    {
      OnlyPart(classes, ty, i, b - base);
      if Covers(classes, PartType(classes, ty, i), b - base - offset) {
        CoversInside(classes, PartType(classes, ty, i), b - base - offset);
      }
    }
  }

  lemma PaddingPart(classes: seq<ClassShape>, ty: Type, base: nat, i: nat, rs: seq<Range>, part: seq<Range>)
    requires Opens(classes, ty) && i < PartCount(classes, ty) && FiniteType(classes, ty)
    requires Padding(classes, ty, base, rs, PartOffset(classes, ty, i))
    requires FiniteType(classes, PartType(classes, ty, i))
    requires var offset := PartOffset(classes, ty, i);
      Padding(classes, PartType(classes, ty, i), base + offset, part, SizeOf(classes, PartType(classes, ty, i)).size)
    ensures Padding(classes, ty, base, rs + part, PartsEnd(classes, ty, i + 1))
  {
    hide Covers, PartsEnd, PartOffset, PartType, Opens, SizeOf, FiniteType, InRanges;
    PartPlace(classes, ty, i);
    var offset, end := PartOffset(classes, ty, i), PartsEnd(classes, ty, i + 1);
    OrderedJoin(rs, part, base, base + offset, base + end);
    forall b | base + offset <= b < base + end
      ensures InRanges(rs + part, b) <==> !Covers(classes, ty, b - base)
    {
      OnlyPart(classes, ty, i, b - base);
    }
  }

  lemma GapHolds(from: nat, to: nat)
    requires from <= to
    ensures Ordered(Gap(from, to), from, to)
    ensures forall b | from <= b < to :: InRanges(Gap(from, to), b)
  {
    if from < to {
      assert Range(from, to) in Gap(from, to);
    }
  }

  lemma PaddingEnds(classes: seq<ClassShape>, ty: Type, base: nat, rs: seq<Range>)
    requires Opens(classes, ty) && FiniteType(classes, ty)
    requires Padding(classes, ty, base, rs, PartsEnd(classes, ty, PartCount(classes, ty)))
    ensures var end := PartsEnd(classes, ty, PartCount(classes, ty));
      var size := SizeOf(classes, ty).size;
      Padding(classes, ty, base, rs + Gap(base + end, base + size), size)
  {
    hide Covers, PartsEnd, Opens, SizeOf, FiniteType, InRanges;
    PartsFit(classes, ty);
    var end, size := PartsEnd(classes, ty, PartCount(classes, ty)), SizeOf(classes, ty).size;
    var gap := Gap(base + end, base + size);
    GapHolds(base + end, base + size);
    OrderedJoin(rs, gap, base, base + end, base + size);
    forall b | base + end <= b < base + size
      ensures InRanges(rs + gap, b) <==> !Covers(classes, ty, b - base)
    {
      NoPart(classes, ty, b - base);
    }
  }

  /** A leaf has no padding. */
  lemma PaddingOfLeaf(classes: seq<ClassShape>, ty: Type, base: nat)
    requires !Opens(classes, ty) && FiniteType(classes, ty)
    ensures Padding(classes, ty, base, [], SizeOf(classes, ty).size)
  {
  }

  /** The type is known and a value at `base` ends at a supported offset. */
  ghost predicate Fits(classes: seq<ClassShape>, ty: Type, base: nat) {
    FiniteType(classes, ty) && Sound(classes, ty) && base + SizeOf(classes, ty).size <= MAX_BYTES
  }

  lemma PartFits(classes: seq<ClassShape>, ty: Type, base: nat, i: nat)
    requires Fits(classes, ty, base) && Opens(classes, ty) && i < PartCount(classes, ty)
    ensures Fits(classes, PartType(classes, ty, i), base + PartOffset(classes, ty, i))
    ensures PartsEnd(classes, ty, i + 1) <= SizeOf(classes, ty).size
  {
    hide PartsEnd, PartOffset, LayoutOf;
    PartPlace(classes, ty, i);
    PartsEndGrows(classes, ty, i + 1, PartCount(classes, ty));
    PartsFit(classes, ty);
    if ty.Class? {
      assert SoundClass(classes, ty.id);
      SoundField(classes, ty.id, i, |classes[ty.id].fields|);
    }
  }

  /** The offset of a field in the table. */
  lemma TableOffset(classes: seq<ClassShape>, layouts: seq<ClassLayout>, id: nat, i: nat)
    requires Built(classes, layouts) && id < |classes| && i < |classes[id].fields|
    ensures |layouts[id].offsets| == |classes[id].fields|
    ensures layouts[id].offsets[i] <= MAX_BYTES && layouts[id].size <= MAX_BYTES
    ensures FiniteType(classes, classes[id].fields[i]) && Sound(classes, classes[id].fields[i])
  {
    assert Supports(classes, id);
    FieldOffsets(classes, id, i);
    EndIsSupported(classes, id, i);
  }

  /** What the walk over the parts has listed. */
  ghost predicate PaddingSoFar(classes: seq<ClassShape>, ty: Type, base: nat, was: seq<Range>, rs: seq<Range>, i: nat)
    requires Opens(classes, ty) && i <= PartCount(classes, ty)
  {
    Fits(classes, ty, base) ==>
      was <= rs && Padding(classes, ty, base, rs[|was|..], PartsEnd(classes, ty, i))
  }

  lemma PaddingStarts(classes: seq<ClassShape>, ty: Type, base: nat, rs: seq<Range>)
    requires Opens(classes, ty)
    ensures PaddingSoFar(classes, ty, base, rs, rs, 0)
  {
    if Fits(classes, ty, base) {
      PartsFit(classes, ty);
    }
  }

  /** The walk takes the next part. */
  lemma PaddingGoesOn(classes: seq<ClassShape>, ty: Type, base: nat, was: seq<Range>, rs: seq<Range>, i: nat, next: seq<Range>)
    requires Opens(classes, ty) && i < PartCount(classes, ty) && Fits(classes, ty, base)
    requires PaddingSoFar(classes, ty, base, was, rs, i)
    requires FiniteType(classes, PartType(classes, ty, i))
    requires var gapped := rs + Gap(base + PartsEnd(classes, ty, i), base + PartOffset(classes, ty, i));
      gapped <= next &&
      Padding(classes, PartType(classes, ty, i), base + PartOffset(classes, ty, i), next[|gapped|..],
              SizeOf(classes, PartType(classes, ty, i)).size)
    ensures PaddingSoFar(classes, ty, base, was, next, i + 1)
  {
    hide Padding, PartsEnd, PartOffset, PartType, Opens, SizeOf, FiniteType, Gap;
    var gap := Gap(base + PartsEnd(classes, ty, i), base + PartOffset(classes, ty, i));
    var part := next[|rs + gap|..];
    PaddingStep(classes, ty, base, i, rs[|was|..], part);
    assert next == rs + gap + part;
    assert next[|was|..] == rs[|was|..] + gap + part;
  }

  method CollectPaddingRanges(classes: seq<ClassShape>, layouts: seq<ClassLayout>, ty: Type, base: U32, ranges: seq<Range>)
    returns (r: Result<seq<Range>>)
    requires Built(classes, layouts)
    ensures Fits(classes, ty, base) ==>
      && r.Ok? && ranges <= r.value
      && Padding(classes, ty, base, r.value[|ranges|..], SizeOf(classes, ty).size)
    decreases TypeRank(classes, ty), ty, 2
  {
    BuiltBounds(classes, layouts);
    TableIsExact(classes, layouts, ty);
    if !Opens(classes, ty) {
      PaddingOfLeaf(classes, ty, base);
      assert ranges[|ranges|..] == [];
    }
    match ty {
      case Class(id) =>
        if id >= |layouts| {
          return Err(OutOfRange);
        }
        if !classes[id].isValue {
          return Ok(ranges);
        }
        r := CollectClassPadding(classes, layouts, ty, base, ranges);
      case FixedArray(e, n) =>
        r := CollectArrayPadding(classes, layouts, ty, base, ranges);
      case _ =>
        r := Ok(ranges);
    }
  }

  /** On a value that fits, no checked addition of the walk fails. */
  lemma PartSums(classes: seq<ClassShape>, ty: Type, base: U32, i: nat)
    requires Fits(classes, ty, base) && Opens(classes, ty) && i < PartCount(classes, ty)
    ensures FiniteType(classes, PartType(classes, ty, i))
    ensures var offset, size := PartOffset(classes, ty, i), SizeOf(classes, PartType(classes, ty, i)).size;
      && PartsEnd(classes, ty, i) <= offset
      && base + offset + size <= MAX_BYTES
      && PartsEnd(classes, ty, i + 1) == offset + size
      && Fits(classes, PartType(classes, ty, i), base + offset)
  {
    PartFits(classes, ty, base, i);
    PartPlace(classes, ty, i);
  }

  method CollectClassPadding(classes: seq<ClassShape>, layouts: seq<ClassLayout>, ty: Type, base: U32, ranges: seq<Range>)
    returns (r: Result<seq<Range>>)
    requires Built(classes, layouts) && ty.Class? && Opens(classes, ty)
    ensures Fits(classes, ty, base) ==>
      && r.Ok? && ranges <= r.value
      && Padding(classes, ty, base, r.value[|ranges|..], SizeOf(classes, ty).size)
    decreases TypeRank(classes, ty), ty, 1
  {
    BuiltBounds(classes, layouts);
    var rs, i := ranges, 0;
    var cursor: U32 := 0;
    PaddingStarts(classes, ty, base, ranges);
    while i < |classes[ty.id].fields|
      invariant i <= |classes[ty.id].fields|
      invariant Fits(classes, ty, base) ==> cursor == PartsEnd(classes, ty, i)
      invariant PaddingSoFar(classes, ty, base, ranges, rs, i)
    {
      TableOffset(classes, layouts, ty.id, i);
      var step := CollectFieldPadding(classes, layouts, ty, base, i, cursor, rs, ranges);
      if step.Err? {
        return Err(step.fault);
      }
      cursor, rs := step.value.0, step.value.1;
      i := i + 1;
    }
    ghost var fits := Fits(classes, ty, base);
    if fits {
      PartsFit(classes, ty);
      PaddingEnds(classes, ty, base, rs[|ranges|..]);
    }
    ghost var listed := rs;
    if cursor < layouts[ty.id].size {
      var lo, hi := CheckedAdd(base, cursor), CheckedAdd(base, layouts[ty.id].size);
      if lo.Err? || hi.Err? {
        return Err(TooLarge);
      }
      rs := rs + [Range(lo.value, hi.value)];
    }
    if fits {
      assert rs[|ranges|..] == listed[|ranges|..] + Gap(base + cursor, base + SizeOf(classes, ty).size);
    }
    r := Ok(rs);
  }

  method CollectFieldPadding(classes: seq<ClassShape>, layouts: seq<ClassLayout>, ty: Type, base: U32, i: nat,
                             cursor: U32, ranges: seq<Range>, ghost was: seq<Range>)
    returns (r: Result<(U32, seq<Range>)>)
    requires Built(classes, layouts) && ty.Class? && Opens(classes, ty) && i < PartCount(classes, ty)
    requires Fits(classes, ty, base) ==> cursor == PartsEnd(classes, ty, i)
    requires PaddingSoFar(classes, ty, base, was, ranges, i)
    ensures Fits(classes, ty, base) ==>
      && r.Ok?
      && r.value.0 == PartsEnd(classes, ty, i + 1)
      && PaddingSoFar(classes, ty, base, was, r.value.1, i + 1)
    decreases TypeRank(classes, ty), ty, 0
  {
    hide Padding, Sound, SoundClass, Finite, Placed, PaddingSoFar, SizeOf, LayoutOf, PartsEnd, PartOffset;
    var field := classes[ty.id].fields[i];
    BuiltBounds(classes, layouts);
    TableOffset(classes, layouts, ty.id, i);
    TableIsExact(classes, layouts, field);
    var offset := layouts[ty.id].offsets[i];
    ghost var fits := Fits(classes, ty, base);
    if fits {
      PartSums(classes, ty, base, i);
      assert offset == PartOffset(classes, ty, i) by { PartIsTableOffset(classes, layouts, ty, i); }
    }
    var rs := ranges;
    if cursor < offset {
      var lo, hi := CheckedAdd(base, cursor), CheckedAdd(base, offset);
      if lo.Err? || hi.Err? {
        return Err(TooLarge);
      }
      rs := rs + [Range(lo.value, hi.value)];
    }
    assert fits ==> rs == ranges + Gap(base + cursor, base + offset);
    var at := CheckedAdd(base, offset);
    if at.Err? {
      return Err(TooLarge);
    }
    FieldIsFinite(classes, ty.id, field);
    var inner := CollectPaddingRanges(classes, layouts, field, at.value, rs);
    var size := SizeAlignIn(classes, layouts, field);
    if inner.Err? || size.Err? {
      return Err(TooLarge);
    }
    var end := CheckedAdd(offset, size.value.size);
    if end.Err? {
      return Err(TooLarge);
    }
    if fits {
      PaddingGoesOn(classes, ty, base, was, ranges, i, inner.value);
    }
    r := Ok((end.value, inner.value));
  }

  lemma PartIsTableOffset(classes: seq<ClassShape>, layouts: seq<ClassLayout>, ty: Type, i: nat)
    requires Built(classes, layouts) && ty.Class? && Opens(classes, ty) && i < PartCount(classes, ty)
    requires FiniteType(classes, ty)
    ensures |layouts[ty.id].offsets| == |classes[ty.id].fields|
    ensures layouts[ty.id].offsets[i] == PartOffset(classes, ty, i)
  {
  }

  /** The distance between two elements of an array. */
  function Stride(classes: seq<ClassShape>, layouts: seq<ClassLayout>, element: Type): Result<U32>
    requires |layouts| == |classes|
    requires forall l | l in layouts :: l.size <= 0xffff_ffff && l.align <= 0xffff_ffff
  {
    var s := SizeAlignIn(classes, layouts, element);
    if s.Ok? then RoundUp(s.value.size, s.value.align) else Err(s.fault)
  }

  lemma ElementOffset(classes: seq<ClassShape>, layouts: seq<ClassLayout>, ty: Type, i: nat)
    requires Built(classes, layouts) && ty.FixedArray? && i < ty.count
    requires FiniteType(classes, ty) && Sound(classes, ty)
    ensures forall l | l in layouts :: l.size <= 0xffff_ffff && l.align <= 0xffff_ffff
    ensures Stride(classes, layouts, ty.element).Ok?
    ensures PartOffset(classes, ty, i) == i * Stride(classes, layouts, ty.element).value == PartsEnd(classes, ty, i)
  {
    hide LayoutOf, SoundClass, IsPowerOfTwo, Up, Finite;
    TableIsExact(classes, layouts, ty.element);
    StrideIsSize(classes, ty.element);
    SoundSize(classes, ty.element);
    RoundUpOf(SizeOf(classes, ty.element).size, SizeOf(classes, ty.element).align);
  }

  method CollectArrayPadding(classes: seq<ClassShape>, layouts: seq<ClassLayout>, ty: Type, base: U32, ranges: seq<Range>)
    returns (r: Result<seq<Range>>)
    requires Built(classes, layouts) && ty.FixedArray?
    ensures Fits(classes, ty, base) ==>
      && r.Ok? && ranges <= r.value
      && Padding(classes, ty, base, r.value[|ranges|..], SizeOf(classes, ty).size)
    decreases TypeRank(classes, ty), ty, 1
  {
    hide Padding, Sound, SoundClass, Finite, Placed, SizeOf, LayoutOf, PartsEnd, PartOffset;
    BuiltBounds(classes, layouts);
    TableIsExact(classes, layouts, ty);
    var s := Stride(classes, layouts, ty.element);
    if s.Err? {
      return Err(s.fault);
    }
    var rs, index := ranges, 0;
    PaddingStarts(classes, ty, base, ranges);
    while index < ty.count
      invariant index <= ty.count
      invariant PaddingSoFar(classes, ty, base, ranges, rs, index)
    {
      ghost var fits := Fits(classes, ty, base);
      if fits {
        PartSums(classes, ty, base, index);
        ElementOffset(classes, layouts, ty, index);
      }
      var offset := CheckedMul(index, s.value);
      if offset.Err? {
        return Err(TooLarge);
      }
      var at := CheckedAdd(base, offset.value);
      if at.Err? {
        return Err(TooLarge);
      }
      var inner := CollectPaddingRanges(classes, layouts, ty.element, at.value, rs);
      if inner.Err? {
        return inner;
      }
      if fits {
        PaddingGoesOn(classes, ty, base, ranges, rs, index, inner.value);
      }
      rs, index := inner.value, index + 1;
    }
    if Fits(classes, ty, base) {
      PartsFit(classes, ty);
    }
    r := Ok(rs);
  }

  method PaddingRanges(classes: seq<ClassShape>, layouts: seq<ClassLayout>, ty: Type) returns (r: Result<seq<Range>>)
    requires Built(classes, layouts)
    ensures FiniteType(classes, ty)
    ensures Sound(classes, ty) ==>
      && r.Ok?
      && Ordered(r.value, 0, SizeOf(classes, ty).size)
      && forall b | 0 <= b < SizeOf(classes, ty).size :: InRanges(r.value, b) <==> !Covers(classes, ty, b)
  {
    hide Covers, InRanges, Ordered, Sound;
    TableIsExact(classes, layouts, ty);
    if Sound(classes, ty) {
      SoundSize(classes, ty);
    }
    r := CollectPaddingRanges(classes, layouts, ty, 0, []);
    if Sound(classes, ty) {
      assert r.value[0..] == r.value;
      forall b | 0 <= b < SizeOf(classes, ty).size ensures InRanges(r.value, b) <==> !Covers(classes, ty, b) {
        assert b - 0 == b;
      }
    }
  }
}
