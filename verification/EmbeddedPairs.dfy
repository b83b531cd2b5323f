/**
Embedded count/pointer pairs of a C struct: which two fields collapse into one
array member, and which field lists are refused.
*/
module EmbeddedPairs {
  import opened StructViews

  datatype Kind =
    | EnumKind | ArrayPair | StringView | Handle | FnPtr | Boundary | Alias | External | CEnum(alias: string)

  datatype CField = CField(name: string, base: string, pointer: bool, isConst: bool, isArray: bool)

  type Registry = map<string, Kind>

  /** The language spelling of each C scalar. */
  type Scalars = map<string, string>

  datatype Pairs = Pairs(counts: set<nat>, elements: map<nat, string>)

  datatype Refusal = NamesDiffer | CountNotSize | NotAdjacent | BadElement

  datatype PairResult = Collapsed(pairs: Pairs) | Refused(refusal: Refusal)

  // ----- count names

  predicate EndsWith(s: string, suffix: string) {
    |suffix| <= |s| && s[|s| - |suffix|..] == suffix
  }

  /** The pointer name that a count name implies. */
  function ElementName(count: string): Option<string> {
    if EndsWith(count, "Count") && |count| > 5 then Some(count[..|count| - 5])
    else if EndsWith(count, "_count") && |count| > 6 then Some(count[..|count| - 6])
    else None
  }

  lemma EndsWithSuffix(n: string, suffix: string)
    ensures EndsWith(n + suffix, suffix) && (n + suffix)[..|n|] == n
  {
    assert (n + suffix)[|n + suffix| - |suffix|..] == suffix;
  }

  /** A count name implies a pointer name exactly when it is that name with one of the two suffixes. */
  lemma ElementNameInverts(count: string, n: string)
    ensures ElementName(count) == Some(n) <==> n != "" && (count == n + "Count" || count == n + "_count")
  {
    EndsWithSuffix(n, "Count");
    EndsWithSuffix(n, "_count");
    if ElementName(count) == Some(n) {
      assert count == count[..|n|] + count[|n|..];
    }
    if n != "" && count == n + "_count" {
      assert count[|n| + 1] == 'c';
      assert count[|count| - 5..][0] == 'c';
    }
  }

  // ----- what the recognizer promises

  /** The field is a plain scalar whose name is that of a count. */
  predicate LooksLikeCount(f: CField) {
    !f.pointer && !f.isArray && ElementName(f.name).Some?
  }

  predicate Matches(count: CField, f: CField) {
    f.pointer && ElementName(count.name) == Some(f.name)
  }

  /** `p` is the first pointer field that field `c` names. */
  ghost predicate Partners(fields: seq<CField>, c: nat, p: nat) {
    && c < |fields| && p < |fields|
    && LooksLikeCount(fields[c]) && Matches(fields[c], fields[p])
    && forall k | 0 <= k < p :: !Matches(fields[c], fields[k])
  }

  ghost predicate HasPartner(fields: seq<CField>, c: nat) {
    exists p :: Partners(fields, c, p)
  }

  function Element(registry: Registry, scalars: Scalars, f: CField): Option<string> {
    if f.base in scalars then Some(scalars[f.base])
    else if f.base !in registry then None
    else
      match registry[f.base]
      case EnumKind => Some(f.base)
      case Boundary => Some(f.base)
      case CEnum(alias) => Some(alias)
      case Handle => if f.isConst then Some(f.base) else None
      case External => if f.isConst then Some(f.base) else None
      case _ => None
  }

  /** The two fields have the one shape that both lowerings rebuild. */
  ghost predicate Collapses(fields: seq<CField>, registry: Registry, scalars: Scalars, c: nat) {
    && c + 1 < |fields|
    && fields[c].base == "size_t"
    && Partners(fields, c, c + 1)
    && !fields[c + 1].isArray
    && Element(registry, scalars, fields[c + 1]).Some?
  }

  /** No half of a pair is left over: each count collapses, or it stands beside no pointer and names none. */
  ghost predicate Harmless(fields: seq<CField>, registry: Registry, scalars: Scalars, c: nat)
    requires c < |fields|
  {
    LooksLikeCount(fields[c]) ==>
      || Collapses(fields, registry, scalars, c)
      || (!HasPartner(fields, c) && (c + 1 < |fields| ==> !fields[c + 1].pointer))
  }

  ghost predicate WellPaired(fields: seq<CField>, registry: Registry, scalars: Scalars) {
    forall c | 0 <= c < |fields| :: Harmless(fields, registry, scalars, c)
  }

  /** The pairs among the first fields. */
  ghost predicate PairsOf(fields: seq<CField>, registry: Registry, scalars: Scalars, n: nat, pairs: Pairs) {
    && n <= |fields|
    && (forall c: nat :: c in pairs.counts <==> c < n && Collapses(fields, registry, scalars, c))
    && (forall p: nat :: p in pairs.elements <==> 0 < p <= n && Collapses(fields, registry, scalars, p - 1))
    && (forall p | p in pairs.elements ::
          p < |fields| && Element(registry, scalars, fields[p]) == Some(pairs.elements[p]))
  }

  /** A count field with the pointer field right after it. */
  ghost predicate AdjacentHalves(fields: seq<CField>, c: nat) {
    && c + 1 < |fields|
    && fields[c].base == "size_t" && !fields[c].pointer && !fields[c].isArray
    && fields[c + 1].pointer && !fields[c + 1].isArray
    && ElementName(fields[c].name) == Some(fields[c + 1].name)
  }

  lemma CollapsesHalves(fields: seq<CField>, registry: Registry, scalars: Scalars, c: nat)
    requires Collapses(fields, registry, scalars, c)
    ensures AdjacentHalves(fields, c)
  {
  }

  /** Pairs never share a field: a count is never a pointer half, and each half has one partner. */
  lemma PairsAreDisjoint(fields: seq<CField>, registry: Registry, scalars: Scalars, pairs: Pairs)
    requires PairsOf(fields, registry, scalars, |fields|, pairs)
    ensures pairs.counts !! pairs.elements.Keys
    ensures forall c | c in pairs.counts :: c + 1 in pairs.elements && AdjacentHalves(fields, c)
  {
    hide Collapses, Element;
    forall c | c in pairs.counts
      ensures c + 1 in pairs.elements && c !in pairs.elements && AdjacentHalves(fields, c)
    {
      CollapsesHalves(fields, registry, scalars, c);
      assert Collapses(fields, registry, scalars, c + 1 - 1);
      if c in pairs.elements {
        CollapsesHalves(fields, registry, scalars, c - 1);
      }
    }
  }

  /** The elements that have a lowering, and the spelling of each. */
  lemma ElementSpelling(registry: Registry, scalars: Scalars, f: CField, spelling: string)
    ensures Element(registry, scalars, f) == Some(spelling) <==>
      if f.base in scalars then scalars[f.base] == spelling
      else
        && f.base in registry
        && (|| (registry[f.base] in {Kind.EnumKind, Kind.Boundary} && f.base == spelling)
            || (registry[f.base] in {Kind.Handle, Kind.External} && f.isConst && f.base == spelling)
            || registry[f.base] == CEnum(spelling))
  {
  }

  lemma {:induction false} FirstPartner(fields: seq<CField>, c: nat, p: nat) returns (q: nat)
    requires c < |fields| && p < |fields| && LooksLikeCount(fields[c]) && Matches(fields[c], fields[p])
    ensures Partners(fields, c, q)
    decreases p
  {
    hide Matches, LooksLikeCount;
    if k :| 0 <= k < p && Matches(fields[c], fields[k]) {
      q := FirstPartner(fields, c, k);
    } else {
      q := p;
    }
  }

  /**
  No half of a pair is left over: where a count names a pointer, or stands just
  before one, the two are a pair.
  */
  lemma NothingLeftOver(fields: seq<CField>, registry: Registry, scalars: Scalars, pairs: Pairs, c: nat)
    requires WellPaired(fields, registry, scalars) && PairsOf(fields, registry, scalars, |fields|, pairs)
    requires c < |fields| && !fields[c].pointer && !fields[c].isArray
    ensures forall p | 0 <= p < |fields| && fields[p].pointer && fields[p].name != "" &&
              (fields[c].name == fields[p].name + "Count" || fields[c].name == fields[p].name + "_count") ::
      c in pairs.counts && c + 1 in pairs.elements
    ensures ElementName(fields[c].name).Some? && c + 1 < |fields| && fields[c + 1].pointer ==>
      c in pairs.counts && c + 1 in pairs.elements
  {
    hide ElementName, Element, Collapses;
    assert Harmless(fields, registry, scalars, c);
    if c in pairs.counts {
      PairsAreDisjoint(fields, registry, scalars, pairs);
    }
    forall p | 0 <= p < |fields| && fields[p].pointer && fields[p].name != "" &&
        (fields[c].name == fields[p].name + "Count" || fields[c].name == fields[p].name + "_count")
      ensures Collapses(fields, registry, scalars, c)
    {
      ElementNameInverts(fields[c].name, fields[p].name);
      var q := FirstPartner(fields, c, p);
    }
  }

  // ----- the recognizer

  method FindPointer(fields: seq<CField>, count: CField) returns (p: Option<nat>)
    ensures p.Some? ==>
      && p.value < |fields| && Matches(count, fields[p.value])
      && forall k | 0 <= k < p.value :: !Matches(count, fields[k])
    ensures p.None? ==> forall k | 0 <= k < |fields| :: !Matches(count, fields[k])
  {
    for i := 0 to |fields|
      invariant forall k | 0 <= k < i :: !Matches(count, fields[k])
    {
      if Matches(count, fields[i]) {
        return Some(i);
      }
    }
    p := None;
  }

  method EmbeddedArrayPairs(fields: seq<CField>, registry: Registry, scalars: Scalars) returns (r: PairResult)
    ensures r.Collapsed? <==> WellPaired(fields, registry, scalars)
    ensures r.Collapsed? ==> PairsOf(fields, registry, scalars, |fields|, r.pairs)
  {
    hide ElementName, Element, PairsOf, Harmless;
    var pairs := Pairs({}, map[]);
    PairsStart(fields, registry, scalars);
    for c := 0 to |fields|
      invariant forall k | 0 <= k < c :: Harmless(fields, registry, scalars, k)
      invariant PairsOf(fields, registry, scalars, c, pairs)
    {
      var count := fields[c];
      if count.pointer || count.isArray {
        NoPairAt(fields, registry, scalars, c, pairs);
        continue;
      }
      if ElementName(count.name).None? {
        NoPairAt(fields, registry, scalars, c, pairs);
        continue;
      }
      var found := FindPointer(fields, count);
      if found.None? {
        if c + 1 < |fields| && fields[c + 1].pointer {
          LeftOver(fields, registry, scalars, c);
          return Refused(NamesDiffer);
        }
        NoPairAt(fields, registry, scalars, c, pairs);
        continue;
      }
      var p := found.value;
      assert Partners(fields, c, p);
      if count.base != "size_t" {
        LeftOver(fields, registry, scalars, c);
        return Refused(CountNotSize);
      }
      if p != c + 1 || fields[p].isArray {
        LeftOver(fields, registry, scalars, c);
        return Refused(NotAdjacent);
      }
      var element := Element(registry, scalars, fields[p]);
      if element.None? {
        LeftOver(fields, registry, scalars, c);
        return Refused(BadElement);
      }
      PairAt(fields, registry, scalars, c, pairs);
      pairs := Pairs(pairs.counts + {c}, pairs.elements[p := element.value]);
    }
    r := Collapsed(pairs);
  }

  lemma PairsStart(fields: seq<CField>, registry: Registry, scalars: Scalars)
    ensures PairsOf(fields, registry, scalars, 0, Pairs({}, map[]))
  {
  }

  lemma NoPairAt(fields: seq<CField>, registry: Registry, scalars: Scalars, c: nat, pairs: Pairs)
    requires PairsOf(fields, registry, scalars, c, pairs) && c < |fields|
    requires !LooksLikeCount(fields[c]) ||
      ((forall k | 0 <= k < |fields| :: !Matches(fields[c], fields[k])) && (c + 1 < |fields| ==> !fields[c + 1].pointer))
    ensures Harmless(fields, registry, scalars, c)
    ensures PairsOf(fields, registry, scalars, c + 1, pairs)
  {
    hide Collapses, Harmless, Matches, LooksLikeCount;
    NeverCollapses(fields, registry, scalars, c);
  }

  lemma NeverCollapses(fields: seq<CField>, registry: Registry, scalars: Scalars, c: nat)
    requires c < |fields|
    requires !LooksLikeCount(fields[c]) ||
      ((forall k | 0 <= k < |fields| :: !Matches(fields[c], fields[k])) && (c + 1 < |fields| ==> !fields[c + 1].pointer))
    ensures Harmless(fields, registry, scalars, c)
    ensures !Collapses(fields, registry, scalars, c)
  {
    hide ElementName, Element, Matches;
  }

  lemma PairAt(fields: seq<CField>, registry: Registry, scalars: Scalars, c: nat, pairs: Pairs)
    requires PairsOf(fields, registry, scalars, c, pairs) && Collapses(fields, registry, scalars, c)
    ensures Harmless(fields, registry, scalars, c)
    ensures var element := Element(registry, scalars, fields[c + 1]).value;
      PairsOf(fields, registry, scalars, c + 1, Pairs(pairs.counts + {c}, pairs.elements[c + 1 := element]))
  {
    hide Collapses, Element;
    CollapsesInside(fields, registry, scalars, c);
    assert Harmless(fields, registry, scalars, c);
    var element := Element(registry, scalars, fields[c + 1]).value;
    var next := Pairs(pairs.counts + {c}, pairs.elements[c + 1 := element]);
    forall p: nat ensures p in next.elements <==> 0 < p <= c + 1 && Collapses(fields, registry, scalars, p - 1) {
      if p == c + 1 {
        assert p - 1 == c;
      }
    }
  }

  lemma CollapsesInside(fields: seq<CField>, registry: Registry, scalars: Scalars, c: nat)
    requires Collapses(fields, registry, scalars, c)
    ensures c + 1 < |fields| && Element(registry, scalars, fields[c + 1]).Some?
  {
  }

  lemma LeftOver(fields: seq<CField>, registry: Registry, scalars: Scalars, c: nat)
    requires c < |fields| && LooksLikeCount(fields[c]) && !Collapses(fields, registry, scalars, c)
    requires HasPartner(fields, c) || (c + 1 < |fields| && fields[c + 1].pointer)
    ensures !WellPaired(fields, registry, scalars)
  {
    assert !Harmless(fields, registry, scalars, c);
  }
}
