/**
The padding that the collecting walk does not report: the walk takes an
iterator result for one leaf, although it holds a flag and a value with
padding of their own. What is reported is the whole padding exactly when no
iterator result in the type has a gap.
*/
module LayoutGaps {
  import opened StructViews
  import opened Layouts
  import opened LayoutBuilder
  import opened LayoutPieces

  /** Byte `k` of a value of the type holds data, inside iterator results too. */
  ghost predicate FineCovers(classes: seq<ClassShape>, ty: Type, k: int)
    requires FiniteType(classes, ty)
    decreases TypeRank(classes, ty), ty
  {
    if Opens(classes, ty) then
      exists i | 0 <= i < PartCount(classes, ty) ::
        PartIsFinite(classes, ty, i);
        FineCovers(classes, PartType(classes, ty, i), k - PartOffset(classes, ty, i))
    else if ty.IterResult? then
      k == 0 || FineCovers(classes, ty.item, k - Up(1, SizeOf(classes, ty.item).align))
    else
      0 <= k < SizeOf(classes, ty).size
  }

  lemma {:induction false} FineIsCovered(classes: seq<ClassShape>, ty: Type, k: int)
    requires FiniteType(classes, ty) && FineCovers(classes, ty, k)
    ensures Covers(classes, ty, k)
    decreases TypeRank(classes, ty), ty
  {
    if Opens(classes, ty) {
      var i :| 0 <= i < PartCount(classes, ty) &&
        (PartIsFinite(classes, ty, i); FineCovers(classes, PartType(classes, ty, i), k - PartOffset(classes, ty, i)));
      PartIsFinite(classes, ty, i);
      FineIsCovered(classes, PartType(classes, ty, i), k - PartOffset(classes, ty, i));
    } else if ty.IterResult? {
      if k != 0 {
        var at := k - Up(1, SizeOf(classes, ty.item).align);
        FineIsCovered(classes, ty.item, at);
        CoversInside(classes, ty.item, at);
      }
    }
  }

  /** Between the ends of two successive parts, only the second of them can hold the byte. */
  lemma OnlyPartFine(classes: seq<ClassShape>, ty: Type, i: nat, k: int)
    requires Opens(classes, ty) && i < PartCount(classes, ty) && FiniteType(classes, ty)
    requires PartsEnd(classes, ty, i) <= k < PartsEnd(classes, ty, i + 1)
    ensures FiniteType(classes, PartType(classes, ty, i))
    ensures FineCovers(classes, ty, k) <==> FineCovers(classes, PartType(classes, ty, i), k - PartOffset(classes, ty, i))
  {
    hide PartsEnd, PartOffset, PartType, SizeOf, FiniteType, Opens;
    PartIsFinite(classes, ty, i);
    forall j | 0 <= j < PartCount(classes, ty)
      ensures FiniteType(classes, PartType(classes, ty, j))
      ensures j != i ==> !FineCovers(classes, PartType(classes, ty, j), k - PartOffset(classes, ty, j))
    {
      PartElsewhere(classes, ty, i, j, k);
      if j != i && FineCovers(classes, PartType(classes, ty, j), k - PartOffset(classes, ty, j)) {
        FineIsCovered(classes, PartType(classes, ty, j), k - PartOffset(classes, ty, j));
      }
    }
  }

  // ----- types without a gap

  /** No byte of a value of the type is padding. */
  ghost predicate Gapless(classes: seq<ClassShape>, ty: Type)
    requires FiniteType(classes, ty)
    decreases TypeRank(classes, ty), ty
  {
    if Opens(classes, ty) then
      && PartsEnd(classes, ty, PartCount(classes, ty)) == SizeOf(classes, ty).size
      && forall i | 0 <= i < PartCount(classes, ty) ::
           PartIsFinite(classes, ty, i);
           PartOffset(classes, ty, i) == PartsEnd(classes, ty, i) && Gapless(classes, PartType(classes, ty, i))
    else
      ty.IterResult? ==> SizeOf(classes, ty.item).align == 1 && Gapless(classes, ty.item)
  }

  ghost predicate Whole(classes: seq<ClassShape>, ty: Type)
    requires FiniteType(classes, ty)
  {
    forall k | 0 <= k < SizeOf(classes, ty).size :: FineCovers(classes, ty, k)
  }

  /** Every byte before the end of the parts is between the ends of two successive ones. */
  lemma {:induction false} FindPart(classes: seq<ClassShape>, ty: Type, n: nat, k: nat) returns (i: nat)
    requires Opens(classes, ty) && n <= PartCount(classes, ty) && FiniteType(classes, ty)
    requires k < PartsEnd(classes, ty, n)
    ensures i < n && PartsEnd(classes, ty, i) <= k < PartsEnd(classes, ty, i + 1)
    decreases n
  {
    hide SizeOf, FiniteType;
    PartsFit(classes, ty);
    if PartsEnd(classes, ty, n - 1) <= k {
      i := n - 1;
    } else {
      i := FindPart(classes, ty, n - 1, k);
    }
  }

  /** A part is whole where the type is. */
  lemma WholeInPart(classes: seq<ClassShape>, ty: Type, i: nat)
    requires Opens(classes, ty) && i < PartCount(classes, ty) && FiniteType(classes, ty) && Whole(classes, ty)
    ensures FiniteType(classes, PartType(classes, ty, i))
    ensures Whole(classes, PartType(classes, ty, i)) && PartOffset(classes, ty, i) == PartsEnd(classes, ty, i)
  {
    hide PartsEnd, PartOffset, PartType, SizeOf, FiniteType, Opens, FineCovers;
    PartPlace(classes, ty, i);
    PartsEndGrows(classes, ty, i + 1, PartCount(classes, ty));
    PartsFit(classes, ty);
    var part, offset := PartType(classes, ty, i), PartOffset(classes, ty, i);
    if PartsEnd(classes, ty, i) < offset {
      var k := PartsEnd(classes, ty, i);
      OnlyPartFine(classes, ty, i, k);
      assert FineCovers(classes, ty, k);
      FineIsCovered(classes, part, k - offset);
      CoversInside(classes, part, k - offset);
    }
    forall j | 0 <= j < SizeOf(classes, part).size ensures FineCovers(classes, part, j) {
      OnlyPartFine(classes, ty, i, offset + j);
      assert FineCovers(classes, ty, offset + j);
      assert offset + j - offset == j;
    }
  }

  lemma WholeEnds(classes: seq<ClassShape>, ty: Type)
    requires Opens(classes, ty) && FiniteType(classes, ty) && Whole(classes, ty)
    ensures PartsEnd(classes, ty, PartCount(classes, ty)) == SizeOf(classes, ty).size
  {
    hide PartsEnd, SizeOf, FiniteType, Opens, FineCovers;
    PartsFit(classes, ty);
    var end := PartsEnd(classes, ty, PartCount(classes, ty));
    if end < SizeOf(classes, ty).size {
      NoPart(classes, ty, end);
      assert FineCovers(classes, ty, end);
      FineIsCovered(classes, ty, end);
    }
  }

  lemma UpOne(a: nat)
    requires a > 0
    ensures Up(1, a) == a
  {
    MultipleMod(1, a);
  }

  lemma ResultSpan(classes: seq<ClassShape>, v: Type)
    requires FiniteType(classes, v)
    ensures FiniteType(classes, IterResult(v))
    ensures var s, r := SizeOf(classes, v), SizeOf(classes, IterResult(v));
      if s.align == 1 then r.size == 1 + s.size else 1 < r.size
  {
    hide LayoutOf, Finite, IsPowerOfTwo;
    var s := SizeOf(classes, v);
    UpOne(s.align);
    if s.align == 1 {
      UpOfMultiple(1 + s.size, 1);
    }
  }

  lemma IterResultWhole(classes: seq<ClassShape>, v: Type)
    requires FiniteType(classes, v)
    ensures FiniteType(classes, IterResult(v))
    ensures Whole(classes, IterResult(v)) <==> SizeOf(classes, v).align == 1 && Whole(classes, v)
  {
    hide LayoutOf, Finite, IsPowerOfTwo, SizeOf;
    var ty, s := IterResult(v), SizeOf(classes, v);
    ResultSpan(classes, v);
    UpOne(s.align);
    if s.align == 1 {
      if Whole(classes, ty) {
        forall k | 0 <= k < s.size ensures FineCovers(classes, v, k) {
          assert FineCovers(classes, ty, k + 1);
        }
      }
      if Whole(classes, v) {
        forall k | 0 <= k < 1 + s.size ensures FineCovers(classes, ty, k) {
          assert k > 0 ==> FineCovers(classes, v, k - 1);
        }
      }
    } else {
      if FineCovers(classes, ty, 1) {
        FineIsCovered(classes, v, 1 - s.align);
        CoversInside(classes, v, 1 - s.align);
      }
    }
  }

  lemma {:induction false} GaplessIsWhole(classes: seq<ClassShape>, ty: Type)
    requires FiniteType(classes, ty)
    ensures Gapless(classes, ty) <==> Whole(classes, ty)
    decreases TypeRank(classes, ty), ty
  {
    if Opens(classes, ty) {
      forall i | 0 <= i < PartCount(classes, ty)
        ensures FiniteType(classes, PartType(classes, ty, i))
        ensures Gapless(classes, PartType(classes, ty, i)) <==> Whole(classes, PartType(classes, ty, i))
      {
        PartIsFinite(classes, ty, i);
        GaplessIsWhole(classes, PartType(classes, ty, i));
      }
      if Whole(classes, ty) {
        WholeEnds(classes, ty);
        forall i | 0 <= i < PartCount(classes, ty)
          ensures FiniteType(classes, PartType(classes, ty, i))
          ensures PartOffset(classes, ty, i) == PartsEnd(classes, ty, i) && Whole(classes, PartType(classes, ty, i))
        {
          WholeInPart(classes, ty, i);
        }
      }
      if Gapless(classes, ty) {
        GaplessParts(classes, ty);
      }
    } else if ty.IterResult? {
      GaplessIsWhole(classes, ty.item);
      IterResultWhole(classes, ty.item);
    }
  }

  lemma GaplessParts(classes: seq<ClassShape>, ty: Type)
    requires FiniteType(classes, ty) && Opens(classes, ty)
    requires PartsEnd(classes, ty, PartCount(classes, ty)) == SizeOf(classes, ty).size
    requires forall i | 0 <= i < PartCount(classes, ty) ::
      && FiniteType(classes, PartType(classes, ty, i))
      && PartOffset(classes, ty, i) == PartsEnd(classes, ty, i) && Whole(classes, PartType(classes, ty, i))
    ensures Whole(classes, ty)
  {
    hide PartsEnd, PartOffset, PartType, SizeOf, FiniteType, Opens, FineCovers;
    forall k | 0 <= k < SizeOf(classes, ty).size ensures FineCovers(classes, ty, k) {
      var i := FindPart(classes, ty, PartCount(classes, ty), k);
      PartPlace(classes, ty, i);
      OnlyPartFine(classes, ty, i, k);
      assert Whole(classes, PartType(classes, ty, i));
    }
  }

  // ----- what is reported

  /** No iterator result in the type, at any depth that the walk opens, has a gap. */
  ghost predicate Reported(classes: seq<ClassShape>, ty: Type)
    requires FiniteType(classes, ty)
    decreases TypeRank(classes, ty), ty
  {
    if Opens(classes, ty) then
      forall i | 0 <= i < PartCount(classes, ty) ::
        PartIsFinite(classes, ty, i); Reported(classes, PartType(classes, ty, i))
    else
      ty.IterResult? ==> Gapless(classes, ty)
  }

  ghost predicate SameCover(classes: seq<ClassShape>, ty: Type)
    requires FiniteType(classes, ty)
  {
    forall k | 0 <= k < SizeOf(classes, ty).size :: Covers(classes, ty, k) <==> FineCovers(classes, ty, k)
  }

  lemma SameCoverInPart(classes: seq<ClassShape>, ty: Type, i: nat)
    requires Opens(classes, ty) && i < PartCount(classes, ty) && FiniteType(classes, ty) && SameCover(classes, ty)
    ensures FiniteType(classes, PartType(classes, ty, i)) && SameCover(classes, PartType(classes, ty, i))
  {
    hide PartsEnd, PartOffset, PartType, SizeOf, FiniteType, Opens, FineCovers, Covers;
    PartPlace(classes, ty, i);
    PartsEndGrows(classes, ty, i + 1, PartCount(classes, ty));
    PartsFit(classes, ty);
    var part, offset := PartType(classes, ty, i), PartOffset(classes, ty, i);
    forall j | 0 <= j < SizeOf(classes, part).size ensures Covers(classes, part, j) <==> FineCovers(classes, part, j) {
      OnlyPart(classes, ty, i, offset + j);
      OnlyPartFine(classes, ty, i, offset + j);
      assert Covers(classes, ty, offset + j) <==> FineCovers(classes, ty, offset + j);
      assert offset + j - offset == j;
    }
  }

  lemma SameCoverOfParts(classes: seq<ClassShape>, ty: Type)
    requires FiniteType(classes, ty) && Opens(classes, ty)
    requires forall i | 0 <= i < PartCount(classes, ty) ::
      FiniteType(classes, PartType(classes, ty, i)) && SameCover(classes, PartType(classes, ty, i))
    ensures SameCover(classes, ty)
  {
    hide PartsEnd, PartOffset, PartType, SizeOf, FiniteType, Opens, FineCovers, Covers;
    forall k | 0 <= k < SizeOf(classes, ty).size ensures Covers(classes, ty, k) <==> FineCovers(classes, ty, k) {
      if k < PartsEnd(classes, ty, PartCount(classes, ty)) {
        var i := FindPart(classes, ty, PartCount(classes, ty), k);
        PartPlace(classes, ty, i);
        OnlyPart(classes, ty, i, k);
        OnlyPartFine(classes, ty, i, k);
        var part, at := PartType(classes, ty, i), k - PartOffset(classes, ty, i);
        assert SameCover(classes, part);
        if at < 0 && Covers(classes, part, at) {
          CoversInside(classes, part, at);
        }
        if FineCovers(classes, part, at) {
          FineIsCovered(classes, part, at);
        }
      } else {
        NoPart(classes, ty, k);
        if FineCovers(classes, ty, k) {
          FineIsCovered(classes, ty, k);
        }
      }
    }
  }

  lemma {:induction false} SameCoverWhenReported(classes: seq<ClassShape>, ty: Type)
    requires FiniteType(classes, ty)
    ensures SameCover(classes, ty) <==> Reported(classes, ty)
    decreases TypeRank(classes, ty), ty
  {
    if Opens(classes, ty) {
      forall i | 0 <= i < PartCount(classes, ty)
        ensures FiniteType(classes, PartType(classes, ty, i))
        ensures SameCover(classes, PartType(classes, ty, i)) <==> Reported(classes, PartType(classes, ty, i))
        ensures SameCover(classes, ty) ==> SameCover(classes, PartType(classes, ty, i))
      {
        PartIsFinite(classes, ty, i);
        SameCoverWhenReported(classes, PartType(classes, ty, i));
        if SameCover(classes, ty) {
          SameCoverInPart(classes, ty, i);
        }
      }
      if Reported(classes, ty) {
        SameCoverOfParts(classes, ty);
      }
    } else if ty.IterResult? {
      GaplessIsWhole(classes, ty);
    }
  }

  /** The reported ranges are the true padding exactly when no iterator result in the type has a gap. */
  lemma ReportedIsTrue(classes: seq<ClassShape>, ty: Type, rs: seq<Range>)
    requires FiniteType(classes, ty) && Padding(classes, ty, 0, rs, SizeOf(classes, ty).size)
    ensures (forall b | 0 <= b < SizeOf(classes, ty).size :: InRanges(rs, b) <==> !FineCovers(classes, ty, b))
       <==> Reported(classes, ty)
  {
    hide Covers, FineCovers, InRanges, Reported, Ordered;
    SameCoverWhenReported(classes, ty);
    forall b | 0 <= b < SizeOf(classes, ty).size ensures InRanges(rs, b) <==> !Covers(classes, ty, b) {
      assert b - 0 == b;
    }
  }

  /** An iterator result of an eight-byte value: its bytes 1 to 7 are padding, and none is reported. */
  lemma UnreportedPadding(classes: seq<ClassShape>, ty: Type)
    requires ty == IterResult(Leaf(EightBytes()))
    ensures FiniteType(classes, ty) && SizeOf(classes, ty).size == 16
    ensures Padding(classes, ty, 0, [], 16)
    ensures forall k | 1 <= k < 8 :: !FineCovers(classes, ty, k)
    ensures !Reported(classes, ty)
  {
    UpOne(8);
    assert SizeOf(classes, Leaf(EightBytes())) == Size(8, 8);
    UpOfMultiple(16, 8);
    PaddingOfLeaf(classes, ty, 0);
  }

  function EightBytes(): Scalar {
    assert IsPowerOfTwo(4);
    ScalarShape(8, 8)
  }
}
