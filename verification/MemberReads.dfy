/**
The read of one struct member: its class, the root and the reach at which C
meets the struct that holds it, and what the read of the member needs.
*/
module MemberReads {
  import opened StructViews
  import opened StructPasses
  import opened PassDecision
  import opened PointerPasses

  /** One member of a struct, as a read view gives it. */
  datatype Member = Member(shape: FieldShape, mutable: bool)

  /** The class of a member, with the pass of the struct that it holds or points to. */
  datatype MemberKind =
    | Bytes
    | Userdata
    | Pair(mutable: bool, elements: Option<PointerPass>)
    | ValidatedPair(mutable: bool)
    | StringView
    | Callback
    | DescriptorAggregate
    | Embedded(embedded: StructPass)
    | StructPointer(pass: PointerPass, mutable: bool)
    | Unlowered

  ghost function MemberKindOf(t: Table, parent: StructPass, field: FieldShape, mutable: bool): MemberKind {
    match field
    case Bytes => MemberKind.Bytes
    case Unlowered => MemberKind.Unlowered
    case Userdata => MemberKind.Userdata
    case StringView => MemberKind.StringView
    case Callback => MemberKind.Callback
    case DescriptorAggregate => MemberKind.DescriptorAggregate
    case ValidatedPair => MemberKind.ValidatedPair(mutable)
    case Pair(None) => MemberKind.Pair(mutable, None)
    case Pair(Some(element)) => MemberKind.Pair(mutable, Some(ElementPass(t, element, mutable)))
    case Embedded(nested) => MemberKind.Embedded(EmbeddedPass(t, parent, nested))
    case Pointer(target, _, _) => StructPointer(MemberPass(t, parent, target, mutable), mutable)
  }

  /** How C reaches the struct that a walk reads. */
  datatype ReadRoot = Value | Fill(fill: StructPass) | Input(input: StructPass)
  {
    function Pass(): StructPass {
      match this
      case Value => StructPass.Bytes
      case Fill(pass) => pass
      case Input(pass) => pass
    }
  }

  function RootOfTarget(pointer: PointerPass, mutable: bool): ReadRoot {
    if mutable then Fill(TargetPass(pointer)) else Input(TargetPass(pointer))
  }

  /** The way from the root of a read to one of its members. */
  datatype Reach = Root | Embedded | Indirect
  {
    function Embed(): Reach {
      if this == Indirect then Indirect else Reach.Embedded
    }
  }

  datatype UnreadableKind =
    | Pair
    | DescriptorAggregate
    | StringView
    | Callback
    | Userdata
    | ValidatedPair
    | WrittenBackPair
    | Unlowered

  /** What the read of one member needs. */
  datatype MemberRead =
    | Readable
    | Nested(root: ReadRoot, reach: Reach, otherwise: Option<UnreadableKind>)
    | Unreadable(kind: UnreadableKind)

  function ReadMember(kind: MemberKind, root: ReadRoot, reach: Reach): MemberRead {
    match root
    case Value => ValueRead(kind, reach)
    case Fill(pass) => FillRead(kind, pass, reach)
    case Input(_) => InputRead(kind, reach)
  }

  /** A value has a read lowering only for bytes and the structs that it embeds or points to. */
  function ValueRead(kind: MemberKind, reach: Reach): MemberRead {
    match kind
    case Bytes => Readable
    case Userdata => Unreadable(UnreadableKind.Userdata)
    case ValidatedPair(_) => Unreadable(UnreadableKind.Pair)
    case Pair(_, Some(_)) => Nested(Value, Indirect, Some(UnreadableKind.Pair))
    case Pair(_, None) => Unreadable(UnreadableKind.Pair)
    case StringView => Unreadable(UnreadableKind.StringView)
    case Callback => Unreadable(UnreadableKind.Callback)
    case DescriptorAggregate => Unreadable(UnreadableKind.DescriptorAggregate)
    case Unlowered => Unreadable(UnreadableKind.Unlowered)
    case Embedded(_) => Nested(Value, reach.Embed(), None)
    case StructPointer(_, _) => Nested(Value, Indirect, None)
  }

  /** A fill writes back every scratch copy, and keeps the script's own pairs, callbacks and links. */
  function FillRead(kind: MemberKind, pass: StructPass, reach: Reach): MemberRead {
    match kind
    case Bytes => Readable
    case Userdata => if pass == Scratch then Readable else Unreadable(UnreadableKind.Userdata)
    case Callback => if pass == Scratch then Readable else Unreadable(UnreadableKind.Callback)
    case Pair(_, Some(ScratchWrittenBack)) => Unreadable(UnreadableKind.WrittenBackPair)
    case Pair(mutable, Some(pointer)) => Nested(RootOfTarget(pointer, mutable), Indirect, None)
    case Pair(_, None) => Readable
    case ValidatedPair(mutable) => if mutable then Unreadable(UnreadableKind.ValidatedPair) else Readable
    case StringView =>
      if pass == Scratch && reach != Indirect then Readable else Unreadable(UnreadableKind.StringView)
    case DescriptorAggregate => Unreadable(UnreadableKind.DescriptorAggregate)
    case Unlowered => Unreadable(UnreadableKind.Unlowered)
    case Embedded(nested) => Nested(Fill(nested), reach.Embed(), None)
    case StructPointer(pointer, mutable) => Nested(RootOfTarget(pointer, mutable), Indirect, None)
  }

  /** An input is read only through its non-`const` pointers and pairs. */
  function InputRead(kind: MemberKind, reach: Reach): MemberRead {
    match kind
    case ValidatedPair(true) => Unreadable(UnreadableKind.ValidatedPair)
    case Pair(_, Some(ScratchWrittenBack)) => Unreadable(UnreadableKind.WrittenBackPair)
    case Pair(mutable, Some(pointer)) => Nested(RootOfTarget(pointer, mutable), Indirect, None)
    case Embedded(pass) => Nested(Input(pass), reach.Embed(), None)
    case StructPointer(pointer, mutable) => Nested(RootOfTarget(pointer, mutable), Indirect, None)
    case _ => Readable
  }

  // ----- the class of a member, from the pass decision

  method ClassPassOf(v: View, s: Struct, writable: bool) returns (pass: PointerPass)
    requires ValidView(v)
    ensures pass == ClassPass(v.table, s, writable)
    ensures pass == ScratchWrittenBack <==> Pass(v.table, s) == Scratch && writable
    ensures TargetPass(pass) == Pass(v.table, s)
  {
    var p := StructPassOf(v, s);
    return match p
           case Bytes => ScriptMemory
           case Scratch => if writable then ScratchWrittenBack else ScratchReadOnly
           case Cycle => PointerPass.Cycle;
  }

  method ElementPassOf(v: View, element: Struct, writable: bool) returns (pass: PointerPass)
    requires ValidView(v)
    ensures pass == ElementPass(v.table, element, writable)
    ensures pass == ScratchWrittenBack <==> Pass(v.table, element) == Scratch && (writable || WritesBack(v.table, element))
    ensures TargetPass(pass) == Pass(v.table, element)
  {
    var p := StructPassOf(v, element);
    match p
    case Bytes => return ScriptMemory;
    case Cycle => return PointerPass.Cycle;
    case Scratch =>
      if writable {
        return ScratchWrittenBack;
      }
      var back := BuildWritesBack(v, element);
      return if back then ScratchWrittenBack else ScratchReadOnly;
  }

  method ClassifyMember(v: View, parent: StructPass, field: FieldShape, mutable: bool)
    returns (kind: MemberKind)
    requires ValidView(v)
    ensures kind == MemberKindOf(v.table, parent, field, mutable)
    ensures parent != Scratch && kind.StructPointer? ==> TargetPass(kind.pass) == parent
    ensures parent != Scratch && kind.Embedded? ==> kind.embedded == parent
  {
    match field
    case Bytes => return MemberKind.Bytes;
    case Unlowered => return MemberKind.Unlowered;
    case Userdata => return MemberKind.Userdata;
    case StringView => return MemberKind.StringView;
    case Callback => return MemberKind.Callback;
    case DescriptorAggregate => return MemberKind.DescriptorAggregate;
    case ValidatedPair => return MemberKind.ValidatedPair(mutable);
    case Pair(None) => return MemberKind.Pair(mutable, None);
    case Pair(Some(element)) =>
      var pass := ElementPassOf(v, element, mutable);
      return MemberKind.Pair(mutable, Some(pass));
    case Embedded(nested) =>
      if parent != Scratch {
        return MemberKind.Embedded(parent);
      }
      var pass := StructPassOf(v, nested);
      return MemberKind.Embedded(pass);
    case Pointer(target, _, _) =>
      if parent != Scratch {
        return StructPointer(if parent == StructPass.Bytes then ScriptMemory else PointerPass.Cycle, mutable);
      }
      var pass := ClassPassOf(v, target, mutable);
      return StructPointer(pass, mutable);
  }
}
