/**
The C-ABI layout of classes: the layout that the platform rules give, over
unbounded numbers, and the checked 32-bit arithmetic of the layout builder.
*/
module Layouts {
  import opened Graphs
  import opened StructViews

  type U32 = n: nat | n <= 0xffff_ffff

  /** The largest supported aggregate. */
  const MAX_BYTES: nat := 0x7fff_ffff

  datatype Fault = TooLarge | BadAlignment | ContainmentCycle | OutOfRange | Unsized

  datatype Result<+T> = Ok(value: T) | Err(fault: Fault)

  // ----- arithmetic

  predicate IsPowerOfTwo(n: nat)
    decreases n
  {
    n == 1 || (n > 1 && n % 2 == 0 && IsPowerOfTwo(n / 2))
  }

  function Max(a: nat, b: nat): nat {
    if a < b then b else a
  }

  /** The least multiple of `align` at or after `value`. */
  function Up(value: nat, align: nat): (r: nat)
    requires align > 0
    ensures value <= r < value + align
  {
    (value + align - 1) / align * align
  }

  lemma UpIsLeast(value: nat, align: nat)
    requires align > 0
    ensures Up(value, align) % align == 0
    ensures forall k: nat | value <= k * align :: Up(value, align) <= k * align
  {
    var q := (value + align - 1) / align;
    MultipleMod(q, align);
    forall k: nat | value <= k * align ensures q * align <= k * align {
      MultipleLess(q, k, align);
    }
  }

  lemma {:induction false} TimesMonotone(x: nat, y: nat, a: nat)
    requires x <= y
    ensures x * a <= y * a
  {
    if x < y {
      TimesMonotone(x, y - 1, a);
      assert y * a == (y - 1) * a + a;
    }
  }

  lemma MultipleLess(q: nat, k: nat, a: nat)
    requires q * a < k * a + a
    ensures q * a <= k * a
  {
    if k < q {
      TimesMonotone(k + 1, q, a);
    } else {
      TimesMonotone(q, k, a);
    }
  }

  lemma MultipleMod(q: nat, a: nat)
    requires a > 0
    ensures q * a % a == 0 && q * a / a == q
  {
    var p := q * a;
    var k, r := p / a, p % a;
    assert p == k * a + r;
    if k < q {
      TimesMonotone(k + 1, q, a);
    } else if q < k {
      TimesMonotone(q + 1, k, a);
    }
  }

  /** A multiple of the alignment needs no rounding. */
  lemma UpOfMultiple(value: nat, align: nat)
    requires align > 0 && value % align == 0
    ensures Up(value, align) == value
  {
    UpIsLeast(value, align);
    var k := value / align;
    assert value == k * align;
  }

  // ----- the checked 32-bit operations

  function Supported(size: U32): Result<U32> {
    if size <= MAX_BYTES then Ok(size) else Err(TooLarge)
  }

  function CheckedAdd(left: U32, right: U32): (r: Result<U32>)
    ensures r == if left + right <= MAX_BYTES then Ok(left + right) else Err(TooLarge)
  {
    if left + right > 0xffff_ffff then Err(TooLarge) else Supported(left + right)
  }

  function CheckedMul(left: U32, right: U32): (r: Result<U32>)
    ensures r == if left * right <= MAX_BYTES then Ok(left * right) else Err(TooLarge)
  {
    if left * right > 0xffff_ffff then Err(TooLarge) else Supported(left * right)
  }

  /** The bits of `x` that are not set in `mask`. */
  function AndNot(x: nat, mask: nat): (r: nat)
    ensures r <= x
  {
    if x == 0 then 0 else 2 * AndNot(x / 2, mask / 2) + if x % 2 == 1 && mask % 2 == 0 then 1 else 0
  }

  /** Adds the mask of the alignment, a power of two, and clears the bits of the mask. */
  function RoundUp(value: U32, align: U32): Result<U32> {
    if !IsPowerOfTwo(align) then Err(BadAlignment)
    else
      var mask := align - 1;
      if value + mask > 0xffff_ffff then Err(TooLarge) else Supported(AndNot(value + mask, mask))
  }

  lemma {:induction false} AndNotNothing(x: nat)
    ensures AndNot(x, 0) == x
  {
    if x > 0 {
      AndNotNothing(x / 2);
    }
  }

  lemma HalfOfDivision(x: nat, b: nat)
    requires b > 0
    ensures 2 * (x / 2 / b * b) == x / (2 * b) * (2 * b)
  {
    var q, r := x / (2 * b), x % (2 * b);
    assert x == q * (2 * b) + r;
    assert q * (2 * b) == 2 * (q * b);
    assert x / 2 == q * b + r / 2;
    var p := x / 2;
    assert p == q * b + r / 2 && r / 2 < b;
    DivisionIs(p, b, q, r / 2);
  }

  lemma DivisionIs(p: nat, b: nat, q: nat, r: nat)
    requires p == q * b + r && r < b
    ensures p / b == q
  {
    var k, t := p / b, p % b;
    assert p == k * b + t;
    if k < q {
      TimesMonotone(k + 1, q, b);
    } else if q < k {
      TimesMonotone(q + 1, k, b);
    }
  }

  /** Clearing the bits below a power of two rounds down to its multiples. */
  lemma {:induction false} MaskRoundsDown(x: nat, align: nat)
    requires IsPowerOfTwo(align)
    ensures AndNot(x, align - 1) == x / align * align
    decreases align
  {
    if align == 1 {
      AndNotNothing(x);
    } else {
      var b := align / 2;
      assert (align - 1) / 2 == b - 1 && (align - 1) % 2 == 1;
      MaskRoundsDown(x / 2, b);
      HalfOfDivision(x, b);
      assert AndNot(x, align - 1) == 2 * AndNot(x / 2, b - 1);
    }
  }

  lemma {:induction false} PowerOfTwoGap(a: nat, b: nat)
    requires IsPowerOfTwo(a) && IsPowerOfTwo(b) && a < 2 * b
    ensures a <= b
    decreases b
  {
    if a > 1 && b > 1 {
      PowerOfTwoGap(a / 2, b / 2);
    }
  }

  lemma {:induction false} PowerOfTwoTimes(a: nat, b: nat)
    requires IsPowerOfTwo(a) && IsPowerOfTwo(b)
    ensures IsPowerOfTwo(a * b)
    decreases a
  {
    if a > 1 {
      PowerOfTwoTimes(a / 2, b);
      assert a * b == 2 * (a / 2 * b);
    }
  }

  lemma PowerOfTwoIsPositive(a: nat)
    requires IsPowerOfTwo(a)
    ensures a > 0
  {
  }

  lemma LargestPowerOfTwo()
    ensures IsPowerOfTwo(0x8000_0000)
  {
    assert IsPowerOfTwo(8) && IsPowerOfTwo(16);
    PowerOfTwoTimes(16, 8);
    PowerOfTwoTimes(16, 16);
    PowerOfTwoTimes(0x100, 0x80);
    PowerOfTwoTimes(0x100, 0x100);
    PowerOfTwoTimes(0x1_0000, 0x8000);
  }

  /** On supported values the mask never overflows: rounding fails only when the result is too large. */
  lemma RoundUpOf(value: U32, align: U32)
    requires IsPowerOfTwo(align) && value <= MAX_BYTES
    ensures RoundUp(value, align) == if Up(value, align) <= MAX_BYTES then Ok(Up(value, align)) else Err(TooLarge)
  {
    hide IsPowerOfTwo, AndNot;
    PowerOfTwoIsPositive(align);
    LargestPowerOfTwo();
    PowerOfTwoGap(align, 0x8000_0000);
    var sum := value + (align - 1);
    assert Up(value, align) == sum / align * align;
    MaskRoundsDown(value + (align - 1), align);
  }

  // ----- classes and types

  /** A scalar of a size that is a multiple of its power-of-two alignment. */
  datatype ScalarShape = ScalarShape(size: nat, align: nat)

  type Scalar = s: ScalarShape | IsPowerOfTwo(s.align) && s.align <= 16 && s.size <= 16 && s.size % s.align == 0
    witness ScalarShape(1, 1)

  datatype Type =
    | Bool
    | Leaf(scalar: Scalar)
    | Unknown
    | Class(id: nat)
    | FixedArray(element: Type, count: U32)
    | IterResult(item: Type)

  datatype ClassShape = ClassShape(isValue: bool, alignment: Option<U32>, fields: seq<Type>)

  datatype Size = Size(size: nat, align: nat)

  datatype ClassLayout = ClassLayout(size: nat, align: nat, offsets: seq<nat>)

  /** The class ids in a type. */
  function ClassIds(ty: Type): set<nat> {
    match ty
    case Class(id) => {id}
    case FixedArray(e, _) => ClassIds(e)
    case IterResult(v) => ClassIds(v)
    case _ => {}
  }

  /** The value classes that a field holds in place. */
  ghost function FieldClasses(classes: seq<ClassShape>, fields: seq<Type>): set<nat> {
    set f, d | f in fields && d in ClassIds(f) && d < |classes| && classes[d].isValue :: d
  }

  /** An edge from a class to each value class that its fields hold. */
  ghost function Containment(classes: seq<ClassShape>): Graph<nat> {
    map id | 0 <= id < |classes| :: FieldClasses(classes, classes[id].fields)
  }

  ghost predicate Finite(classes: seq<ClassShape>, id: nat) {
    id < |classes| && !Loops<nat>(Containment(classes), id, {})
  }

  /** The number of classes that a class holds, itself included. */
  ghost function Rank(classes: seq<ClassShape>, id: nat): nat {
    |ReachSet<nat>(Containment(classes), Containment(classes).Keys, id)|
  }

  // ----- the layout that the platform rules give

  /** Every value class in the type has a finite layout. */
  ghost predicate FiniteType(classes: seq<ClassShape>, ty: Type) {
    forall d | d in ClassIds(ty) && d < |classes| && classes[d].isValue :: Finite(classes, d)
  }

  ghost function TypeRank(classes: seq<ClassShape>, ty: Type): nat {
    match ty
    case Class(id) => if id < |classes| && classes[id].isValue then Rank(classes, id) + 1 else 0
    case FixedArray(e, _) => TypeRank(classes, e)
    case IterResult(v) => TypeRank(classes, v)
    case _ => 0
  }

  lemma {:induction false} TypeRankBelow(classes: seq<ClassShape>, ty: Type, k: nat)
    requires forall d | d in ClassIds(ty) && d < |classes| && classes[d].isValue :: Rank(classes, d) < k
    ensures TypeRank(classes, ty) <= k
  {
    match ty
    case FixedArray(e, _) => TypeRankBelow(classes, e, k);
    case IterResult(v) => TypeRankBelow(classes, v, k);
    case _ =>
  }

  lemma FieldIsFinite(classes: seq<ClassShape>, id: nat, f: Type)
    requires Finite(classes, id) && f in classes[id].fields
    ensures FiniteType(classes, f) && TypeRank(classes, f) <= Rank(classes, id)
  {
    forall d | d in ClassIds(f) && d < |classes| && classes[d].isValue
      ensures Finite(classes, d) && Rank(classes, d) < Rank(classes, id)
    {
      assert d in Succ<nat>(Containment(classes), id);
      RankFalls<nat>(Containment(classes), Containment(classes).Keys, id, d);
    }
    TypeRankBelow(classes, f, Rank(classes, id));
  }

  /** Size and alignment of a type as stored. */
  ghost function SizeOf(classes: seq<ClassShape>, ty: Type): (r: Size)
    requires FiniteType(classes, ty)
    ensures 0 < r.align <= 0xffff_ffff
    decreases TypeRank(classes, ty), 1, ty
  {
    match ty
    case Bool => Size(1, 1)
    case Leaf(s) => Size(s.size, s.align)
    case Unknown => Size(0, 1)
    case Class(id) =>
      if id < |classes| && classes[id].isValue
      then var l := LayoutOf(classes, id); Size(l.size, l.align)
      else Size(8, 8)
    case FixedArray(e, n) =>
      ArrayOf(SizeOf(classes, e), n)
    case IterResult(v) =>
      ResultOf(SizeOf(classes, v))
  }

  /** The elements at their stride. */
  function ArrayOf(s: Size, n: nat): (r: Size)
    requires s.align > 0
    ensures r.align == s.align
  {
    Size(Up(s.size, s.align) * n, s.align)
  }

  /** The flag, the value at its alignment, and the tail. */
  function ResultOf(s: Size): (r: Size)
    requires s.align > 0
    ensures r.align == s.align
  {
    Size(Up(Up(1, s.align) + s.size, s.align), s.align)
  }

  /** The layout of a class: each field at the next multiple of its alignment, the size rounded up. */
  ghost function LayoutOf(classes: seq<ClassShape>, id: nat): (r: ClassLayout)
    requires Finite(classes, id)
    ensures 0 < r.align <= 0xffff_ffff
    decreases Rank(classes, id), 3
  {
    var p := Placed(classes, id, |classes[id].fields|);
    var align := Overridden(classes[id], p.align);
    ClassLayout(Up(Max(p.end, 1), align), align, p.offsets)
  }

  function Overridden(shape: ClassShape, align: nat): nat {
    if shape.alignment.Some? then Max(align, shape.alignment.value) else align
  }

  /** The first fields of a class, placed: their offsets, where they end, and their largest alignment. */
  datatype Placement = Placement(offsets: seq<nat>, end: nat, align: nat)

  ghost function Placed(classes: seq<ClassShape>, id: nat, n: nat): (p: Placement)
    requires Finite(classes, id) && n <= |classes[id].fields|
    ensures 0 < p.align <= 0xffff_ffff && |p.offsets| == n
    decreases Rank(classes, id), 2, n
  {
    if n == 0 then Placement([], 0, 1)
    else
      var p := Placed(classes, id, n - 1);
      var f := classes[id].fields[n - 1];
      FieldIsFinite(classes, id, f);
      var s := SizeOf(classes, f);
      var offset := Up(p.end, s.align);
      Placement(p.offsets + [offset], offset + s.size, Max(p.align, s.align))
  }

  // ----- what the builder supports

  /** Every part of the type is known and every size in it is supported. */
  ghost predicate Sound(classes: seq<ClassShape>, ty: Type)
    requires FiniteType(classes, ty)
    decreases TypeRank(classes, ty), 1, ty
  {
    match ty
    case Unknown => false
    case Class(id) => id < |classes| && (classes[id].isValue ==> SoundClass(classes, id))
    case FixedArray(e, _) => Sound(classes, e) && SizeOf(classes, ty).size <= MAX_BYTES
    case IterResult(v) => Sound(classes, v) && SizeOf(classes, ty).size <= MAX_BYTES
    case _ => true
  }

  ghost predicate SoundClass(classes: seq<ClassShape>, id: nat)
    requires Finite(classes, id)
    decreases Rank(classes, id), 3
  {
    && IsPowerOfTwo(LayoutOf(classes, id).align)
    && LayoutOf(classes, id).size <= MAX_BYTES
    && SoundFields(classes, id, |classes[id].fields|)
  }

  ghost predicate SoundFields(classes: seq<ClassShape>, id: nat, n: nat)
    requires Finite(classes, id) && n <= |classes[id].fields|
    decreases Rank(classes, id), 2, n
  {
    n == 0 ||
    (SoundFields(classes, id, n - 1) &&
     (FieldIsFinite(classes, id, classes[id].fields[n - 1]); Sound(classes, classes[id].fields[n - 1])))
  }

  // ----- sizes are multiples of alignments

  lemma {:induction false} MultipleTimes(x: nat, a: nat, n: nat)
    requires a > 0 && x % a == 0
    ensures x * n % a == 0
  {
    var q := x / a;
    assert x == q * a;
    TimesSwap(q, a, n);
    MultipleMod(q * n, a);
  }

  lemma {:induction false} TimesSwap(q: nat, a: nat, n: nat)
    ensures q * a * n == q * n * a
  {
  }

  lemma {:induction false} SizeIsAligned(classes: seq<ClassShape>, ty: Type)
    requires FiniteType(classes, ty)
    ensures SizeOf(classes, ty).size % SizeOf(classes, ty).align == 0
  {
    match ty
    case Bool =>
    case Leaf(s) =>
    case Unknown =>
    case Class(id) =>
      if id < |classes| && classes[id].isValue {
        var p := Placed(classes, id, |classes[id].fields|);
        UpIsLeast(Max(p.end, 1), Overridden(classes[id], p.align));
      }
    case FixedArray(e, n) =>
      var s := SizeOf(classes, e);
      SizeIsAligned(classes, e);
      UpOfMultiple(s.size, s.align);
      MultipleTimes(s.size, s.align, n);
    case IterResult(v) =>
      var s := SizeOf(classes, v);
      UpIsLeast(Up(1, s.align) + s.size, s.align);
  }

  /** The elements of a fixed array touch: the stride is the element size. */
  lemma StrideIsSize(classes: seq<ClassShape>, e: Type)
    requires FiniteType(classes, e)
    ensures Up(SizeOf(classes, e).size, SizeOf(classes, e).align) == SizeOf(classes, e).size
  {
    SizeIsAligned(classes, e);
    UpOfMultiple(SizeOf(classes, e).size, SizeOf(classes, e).align);
  }

  lemma PowerOfTwoMax(a: nat, b: nat)
    requires IsPowerOfTwo(a) && IsPowerOfTwo(b)
    ensures IsPowerOfTwo(Max(a, b))
  {
  }

  /** The alignment of a sound type is a power of two, and its size is supported. */
  lemma {:induction false} SoundSize(classes: seq<ClassShape>, ty: Type)
    requires FiniteType(classes, ty) && Sound(classes, ty)
    ensures IsPowerOfTwo(SizeOf(classes, ty).align)
    ensures SizeOf(classes, ty).size <= 0x7fff_ffff
  {
    match ty
    case Bool =>
    case Leaf(s) =>
    case Class(id) => assert IsPowerOfTwo(8) by { assert IsPowerOfTwo(4); }
    case FixedArray(e, n) => SoundSize(classes, e);
    case IterResult(v) => SoundSize(classes, v);
  }

  /** Each field is at the least aligned offset at or after the end of the field before it. */
  lemma FieldOffsets(classes: seq<ClassShape>, id: nat, i: nat)
    requires Finite(classes, id) && i < |classes[id].fields|
    ensures LayoutOf(classes, id).offsets[i] == Placed(classes, id, i + 1).offsets[i]
    ensures FiniteType(classes, classes[id].fields[i])
    ensures var s, p := SizeOf(classes, classes[id].fields[i]), Placed(classes, id, i);
      && LayoutOf(classes, id).offsets[i] == Up(p.end, s.align)
      && Placed(classes, id, i + 1).end == LayoutOf(classes, id).offsets[i] + s.size
  {
    FieldIsFinite(classes, id, classes[id].fields[i]);
    OffsetsArePrefix(classes, id, i + 1, |classes[id].fields|);
  }

  lemma {:induction false} OffsetsArePrefix(classes: seq<ClassShape>, id: nat, m: nat, n: nat)
    requires Finite(classes, id) && m <= n <= |classes[id].fields|
    ensures Placed(classes, id, m).offsets <= Placed(classes, id, n).offsets
    ensures Placed(classes, id, m).end <= Placed(classes, id, n).end
    ensures Placed(classes, id, m).align <= Placed(classes, id, n).align
    decreases n
  {
    if m < n {
      OffsetsArePrefix(classes, id, m, n - 1);
    }
  }
}
