/** The boundary structs as one consumer of the pass decision sees them. */
module StructViews {
  import opened Graphs

  datatype Option<+T> = None | Some(value: T)

  /** The identity of a struct in a view. */
  type Struct = nat

  /** The lowering of one script-visible member of a boundary struct. */
  datatype FieldShape =
    | Bytes
    | Userdata
    | StringView
    | Pair(elements: Option<Struct>)
    | ValidatedPair
    | Callback
    | DescriptorAggregate
    | Embedded(nested: Struct)
    | Pointer(target: Struct, header: bool, constant: bool)
    | Unlowered
  {
    /** The struct on the far side of the member, if there is one. */
    function Nested(): Option<Struct> {
      match this
      case Pair(elements) => elements
      case Embedded(nested) => Some(nested)
      case Pointer(target, _, _) => Some(target)
      case _ => None
    }
  }

  /** The members of each struct that a view defines, in declaration order. */
  type Table = map<Struct, seq<FieldShape>>

  ghost predicate Distinct<T(!new)>(s: seq<T>) {
    forall i, j | 0 <= i < j < |s| :: s[i] != s[j]
  }

  ghost predicate Ascending(s: seq<nat>) {
    forall i, j | 0 <= i < j < |s| :: s[i] < s[j]
  }

  function Elems<T>(s: seq<T>): set<T> {
    set x | x in s
  }

  function NestedOf(fields: seq<FieldShape>): set<Struct> {
    set f | f in fields && f.Nested().Some? :: f.Nested().value
  }

  function EmbeddedOf(fields: seq<FieldShape>): set<Struct> {
    set f | f in fields && f.Embedded? :: f.nested
  }

  /** An edge for each member that holds, points to or holds elements of a struct. */
  function NestedGraph(t: Table): Graph<Struct> {
    map s | s in t :: NestedOf(t[s])
  }

  /** An edge for each by-value embedding. */
  function EmbedGraph(t: Table): Graph<Struct> {
    map s | s in t :: EmbeddedOf(t[s])
  }

  function Restrict(t: Table, c: set<Struct>): Table {
    map s | s in t && s in c :: t[s]
  }

  /** Every struct that the walks over `t` can meet from `s`. */
  function Universe(t: Table, s: Struct): set<Struct> {
    {s} + t.Keys + set x, n | x in t && n in NestedOf(t[x]) :: n
  }

  // ----- growing a vector by one element

  lemma ElemsSnoc<T>(s: seq<T>, x: T)
    ensures Elems(s + [x]) == Elems(s) + {x}
  {
  }

  lemma NestedSnoc(fields: seq<FieldShape>, i: nat)
    requires i < |fields|
    ensures NestedOf(fields[..i + 1]) == NestedOf(fields[..i]) +
              if fields[i].Nested().Some? then {fields[i].Nested().value} else {}
  {
    assert fields[..i + 1] == fields[..i] + [fields[i]];
  }

  lemma EmbeddedSnoc(fields: seq<FieldShape>, i: nat)
    requires i < |fields|
    ensures EmbeddedOf(fields[..i + 1]) == EmbeddedOf(fields[..i]) +
              if fields[i].Embedded? then {fields[i].nested} else {}
  {
    assert fields[..i + 1] == fields[..i] + [fields[i]];
  }
}
