/**
What alignment is for: a class is aligned as its fields and its override need
and no more, its size is the least that holds its fields, and every leaf of a
value, at any depth, is stored at a multiple of its own alignment.
*/
module LayoutAlignment {
  import opened Graphs
  import opened StructViews
  import opened Layouts
  import opened LayoutBuilder
  import opened LayoutPieces

  // ----- arithmetic

  lemma MultipleIs(x: nat, a: nat) returns (q: nat)
    requires a > 0 && x % a == 0
    ensures x == q * a
  {
    q := x / a;
  }

  lemma MultipleSum(x: nat, y: nat, a: nat)
    requires a > 0 && x % a == 0 && y % a == 0
    ensures (x + y) % a == 0
  {
    var p := MultipleIs(x, a);
    var q := MultipleIs(y, a);
    Distributes(p, q, a);
    MultipleMod(p + q, a);
  }

  lemma Distributes(p: nat, q: nat, a: nat)
    ensures p * a + q * a == (p + q) * a
  {
  }

  lemma MultipleOfMultiple(x: nat, b: nat, a: nat)
    requires a > 0 && b > 0 && x % b == 0 && b % a == 0
    ensures x % a == 0
  {
    var p := MultipleIs(x, b);
    MultipleTimes(b, a, p);
    assert x == b * p;
  }

  /** The smaller of two powers of two divides the larger. */
  lemma {:induction false} PowerOfTwoDivides(a: nat, b: nat)
    requires IsPowerOfTwo(a) && IsPowerOfTwo(b) && a <= b
    ensures a > 0 && b % a == 0
    decreases a
  {
    if a > 1 {
      PowerOfTwoDivides(a / 2, b / 2);
      var q := MultipleIs(b / 2, a / 2);
      assert b == 2 * (q * (a / 2)) == q * a;
      MultipleMod(q, a);
    }
  }

  // ----- the alignment of a class

  ghost predicate IsFieldAlign(classes: seq<ClassShape>, id: nat, n: nat, a: nat)
    requires Finite(classes, id) && n <= |classes[id].fields|
  {
    exists j | 0 <= j < n :: FieldAlign(classes, id, j) == a
  }

  ghost function FieldAlign(classes: seq<ClassShape>, id: nat, j: nat): nat
    requires Finite(classes, id) && j < |classes[id].fields|
  {
    FieldIsFinite(classes, id, classes[id].fields[j]);
    SizeOf(classes, classes[id].fields[j]).align
  }

  lemma {:induction false} PlacedAlign(classes: seq<ClassShape>, id: nat, n: nat)
    requires Finite(classes, id) && n <= |classes[id].fields|
    ensures forall j | 0 <= j < n :: FieldAlign(classes, id, j) <= Placed(classes, id, n).align
    ensures Placed(classes, id, n).align == 1 || IsFieldAlign(classes, id, n, Placed(classes, id, n).align)
    decreases n
  {
    if n > 0 {
      PlacedAlign(classes, id, n - 1);
      var a := Placed(classes, id, n - 1).align;
      if IsFieldAlign(classes, id, n - 1, a) {
        var j :| 0 <= j < n - 1 && FieldAlign(classes, id, j) == a;
        assert IsFieldAlign(classes, id, n, a);
      }
      FieldIsFinite(classes, id, classes[id].fields[n - 1]);
      assert FieldAlign(classes, id, n - 1) == SizeOf(classes, classes[id].fields[n - 1]).align;
      assert IsFieldAlign(classes, id, n, FieldAlign(classes, id, n - 1));
    }
  }

  /** The alignment of a class is the least that its fields and its override need. */
  lemma ClassAlignment(classes: seq<ClassShape>, id: nat)
    requires Finite(classes, id)
    ensures var a, override := LayoutOf(classes, id).align, classes[id].alignment;
      && (forall j | 0 <= j < |classes[id].fields| :: FieldAlign(classes, id, j) <= a)
      && (override.Some? ==> override.value <= a)
      && (a == 1 || override == Some(a) || IsFieldAlign(classes, id, |classes[id].fields|, a))
  {
    PlacedAlign(classes, id, |classes[id].fields|);
  }

  // ----- the size of a class

  ghost function FieldEnd(classes: seq<ClassShape>, id: nat, j: nat): nat
    requires Finite(classes, id) && j < |classes[id].fields|
  {
    FieldIsFinite(classes, id, classes[id].fields[j]);
    LayoutOf(classes, id).offsets[j] + SizeOf(classes, classes[id].fields[j]).size
  }

  /** Where the last field ends, every field has ended. */
  lemma LastEnd(classes: seq<ClassShape>, id: nat)
    requires Finite(classes, id)
    ensures var n := |classes[id].fields|; var end := Placed(classes, id, n).end;
      && (forall j | 0 <= j < n :: FieldEnd(classes, id, j) <= end)
      && if n == 0 then end == 0 else FieldEnd(classes, id, n - 1) == end
  {
    hide Loops, Up, SizeOf, LayoutOf;
    var n := |classes[id].fields|;
    forall j | 0 <= j < n ensures FieldEnd(classes, id, j) <= Placed(classes, id, n).end {
      FieldOffsets(classes, id, j);
      OffsetsArePrefix(classes, id, j + 1, n);
    }
    if n > 0 {
      FieldOffsets(classes, id, n - 1);
    }
  }

  /** Every field ends by `z`. */
  ghost predicate HoldsFields(classes: seq<ClassShape>, id: nat, z: nat)
    requires Finite(classes, id)
  {
    forall j | 0 <= j < |classes[id].fields| :: FieldEnd(classes, id, j) <= z
  }

  /** The size of a class is the least positive multiple of its alignment that holds every field. */
  lemma ClassSize(classes: seq<ClassShape>, id: nat, z: nat)
    requires Finite(classes, id)
    ensures var l := LayoutOf(classes, id);
      && 0 < l.size && l.size % l.align == 0 && HoldsFields(classes, id, l.size)
      && (0 < z && z % l.align == 0 && HoldsFields(classes, id, z) ==> l.size <= z)
  {
    hide Loops, Up, SizeOf, FieldEnd, Placed;
    var l, p := LayoutOf(classes, id), Placed(classes, id, |classes[id].fields|);
    LastEnd(classes, id);
    assert l.size == Up(Max(p.end, 1), l.align);
    UpIsLeast(Max(p.end, 1), l.align);
    if 0 < z && z % l.align == 0 && HoldsFields(classes, id, z) {
      var k := MultipleIs(z, l.align);
    }
  }

  /** An iterator result stores its flag in the first unit of alignment, and its value behind it. */
  lemma ResultSize(classes: seq<ClassShape>, v: Type)
    requires FiniteType(classes, v)
    ensures FiniteType(classes, IterResult(v))
    ensures var s := SizeOf(classes, v); SizeOf(classes, IterResult(v)) == Size(s.align + s.size, s.align)
  {
    hide LayoutOf, Loops;
    var s := SizeOf(classes, v);
    MultipleMod(1, s.align);
    SizeIsAligned(classes, v);
    MultipleSum(s.align, s.size, s.align);
    UpOfMultiple(s.align + s.size, s.align);
  }

  /** A bool is a byte, a reference is a pointer of eight bytes, and array elements touch. */
  lemma KnownSizes(classes: seq<ClassShape>, id: nat, e: Type, n: U32)
    requires FiniteType(classes, e)
    ensures SizeOf(classes, Bool) == Size(1, 1)
    ensures id < |classes| && !classes[id].isValue ==> SizeOf(classes, Class(id)) == Size(8, 8)
    ensures FiniteType(classes, FixedArray(e, n))
    ensures SizeOf(classes, FixedArray(e, n)).size == SizeOf(classes, e).size * n
  {
    hide Loops, Up;
    StrideIsSize(classes, e);
  }

  // ----- leaves

  /** At `k` a value of the type stores the leaf; an iterator result stores its flag and its value. */
  ghost predicate LeafAt(classes: seq<ClassShape>, ty: Type, k: int, leaf: Type)
    requires FiniteType(classes, ty)
    decreases TypeRank(classes, ty), ty
  {
    if Opens(classes, ty) then
      exists i | 0 <= i < PartCount(classes, ty) ::
        PartIsFinite(classes, ty, i);
        LeafAt(classes, PartType(classes, ty, i), k - PartOffset(classes, ty, i), leaf)
    else if ty.IterResult? then
      (k == 0 && leaf == Bool) || LeafAt(classes, ty.item, k - Up(1, SizeOf(classes, ty.item).align), leaf)
    else
      k == 0 && leaf == ty
  }

  /** The leaf is inside the value and, from an aligned base, aligned. */
  ghost predicate Stored(classes: seq<ClassShape>, ty: Type, base: nat, k: int, leaf: Type)
    requires FiniteType(classes, ty)
  {
    && FiniteType(classes, leaf)
    && 0 <= k && k + SizeOf(classes, leaf).size <= SizeOf(classes, ty).size
    && (base + k) % SizeOf(classes, leaf).align == 0
  }

  lemma PartIsSound(classes: seq<ClassShape>, ty: Type, i: nat)
    requires FiniteType(classes, ty) && Sound(classes, ty) && Opens(classes, ty) && i < PartCount(classes, ty)
    ensures FiniteType(classes, PartType(classes, ty, i)) && Sound(classes, PartType(classes, ty, i))
  {
    PartIsFinite(classes, ty, i);
    if ty.Class? {
      SoundField(classes, ty.id, i, |classes[ty.id].fields|);
    }
  }

  /** From an aligned base, each part is at an aligned place. */
  lemma PartIsAligned(classes: seq<ClassShape>, ty: Type, base: nat, i: nat)
    requires FiniteType(classes, ty) && Sound(classes, ty) && Opens(classes, ty) && i < PartCount(classes, ty)
    requires base % SizeOf(classes, ty).align == 0
    ensures FiniteType(classes, PartType(classes, ty, i))
    ensures (base + PartOffset(classes, ty, i)) % SizeOf(classes, PartType(classes, ty, i)).align == 0
  {
    hide LayoutOf, SoundClass, Up, Finite, IsPowerOfTwo;
    PartIsSound(classes, ty, i);
    var part := PartType(classes, ty, i);
    var a := SizeOf(classes, part).align;
    if ty.FixedArray? {
      SizeIsAligned(classes, part);
      MultipleTimes(SizeOf(classes, part).size, a, i);
      assert i * SizeOf(classes, part).size == SizeOf(classes, part).size * i;
      MultipleSum(base, PartOffset(classes, ty, i), a);
    } else {
      ClassPartIsAligned(classes, ty, base, i);
    }
  }

  lemma ClassPartIsAligned(classes: seq<ClassShape>, ty: Type, base: nat, i: nat)
    requires FiniteType(classes, ty) && Sound(classes, ty) && Opens(classes, ty) && ty.Class? && i < PartCount(classes, ty)
    requires base % SizeOf(classes, ty).align == 0
    requires FiniteType(classes, PartType(classes, ty, i)) && Sound(classes, PartType(classes, ty, i))
    ensures (base + PartOffset(classes, ty, i)) % SizeOf(classes, PartType(classes, ty, i)).align == 0
  {
    hide Up, IsPowerOfTwo, Sound, Loops;
    var part := PartType(classes, ty, i);
    var a, b := SizeOf(classes, part).align, SizeOf(classes, ty).align;
    ClassAlignment(classes, ty.id);
    assert FieldAlign(classes, ty.id, i) == a <= b;
    SoundSize(classes, part);
    SoundSize(classes, ty);
    PowerOfTwoDivides(a, b);
    MultipleOfMultiple(base, b, a);
    FieldOffsets(classes, ty.id, i);
    UpIsLeast(Placed(classes, ty.id, i).end, a);
    MultipleSum(base, PartOffset(classes, ty, i), a);
  }

  /** Every leaf of a supported type, at any depth, is inside the value and aligned. */
  lemma {:induction false} LeafIsAligned(classes: seq<ClassShape>, ty: Type, base: nat, k: int, leaf: Type)
    requires FiniteType(classes, ty) && Sound(classes, ty) && LeafAt(classes, ty, k, leaf)
    requires base % SizeOf(classes, ty).align == 0
    ensures Stored(classes, ty, base, k, leaf)
    decreases TypeRank(classes, ty), ty
  {
    hide SizeOf, Sound, Stored, PartOffset, Up;
    if Opens(classes, ty) {
      var i :| 0 <= i < PartCount(classes, ty) &&
        (PartIsFinite(classes, ty, i); LeafAt(classes, PartType(classes, ty, i), k - PartOffset(classes, ty, i), leaf));
      PartIsFinite(classes, ty, i);
      LeafInPart(classes, ty, base, k, leaf, i);
    } else if ty.IterResult? {
      LeafInResult(classes, ty, base, k, leaf);
    } else {
      LeafItself(classes, ty, base);
    }
  }

  lemma LeafItself(classes: seq<ClassShape>, ty: Type, base: nat)
    requires FiniteType(classes, ty) && base % SizeOf(classes, ty).align == 0
    ensures Stored(classes, ty, base, 0, ty)
  {
    hide SizeOf;
  }

  lemma {:induction false} LeafInPart(classes: seq<ClassShape>, ty: Type, base: nat, k: int, leaf: Type, i: nat)
    requires FiniteType(classes, ty) && Sound(classes, ty) && Opens(classes, ty) && i < PartCount(classes, ty)
    requires FiniteType(classes, PartType(classes, ty, i))
    requires LeafAt(classes, PartType(classes, ty, i), k - PartOffset(classes, ty, i), leaf)
    requires base % SizeOf(classes, ty).align == 0
    ensures Stored(classes, ty, base, k, leaf)
    decreases TypeRank(classes, ty), ty, 0
  {
    hide PartsEnd, PartOffset, PartType, SizeOf, LeafAt, Opens, Sound, FiniteType;
    PartIsFinite(classes, ty, i);
    PartIsSound(classes, ty, i);
    PartIsAligned(classes, ty, base, i);
    var offset := PartOffset(classes, ty, i);
    PartSmaller(classes, ty, i);
    LeafIsAligned(classes, PartType(classes, ty, i), base + offset, k - offset, leaf);
    PartPlace(classes, ty, i);
    PartsEndGrows(classes, ty, i + 1, PartCount(classes, ty));
    PartsFit(classes, ty);
  }

  lemma PartSmaller(classes: seq<ClassShape>, ty: Type, i: nat)
    requires Opens(classes, ty) && i < PartCount(classes, ty)
    ensures ty.FixedArray? ==> PartType(classes, ty, i) == ty.element
  {
  }

  lemma {:induction false} LeafInResult(classes: seq<ClassShape>, ty: Type, base: nat, k: int, leaf: Type)
    requires FiniteType(classes, ty) && Sound(classes, ty) && ty.IterResult? && LeafAt(classes, ty, k, leaf)
    requires base % SizeOf(classes, ty).align == 0
    ensures Stored(classes, ty, base, k, leaf)
    decreases TypeRank(classes, ty), ty, 0
  {
    hide LayoutOf, SoundClass, Up, Finite, IsPowerOfTwo;
    var s := SizeOf(classes, ty.item);
    var offset := Up(1, s.align);
    UpIsLeast(1, s.align);
    assert offset + s.size <= SizeOf(classes, ty).size;
    if !(k == 0 && leaf == Bool) {
      MultipleSum(base, offset, s.align);
      LeafIsAligned(classes, ty.item, base + offset, k - offset, leaf);
    }
  }
}
