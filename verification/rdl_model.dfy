/** The elaborated register model the exporter walks: a top-level address
    map holding address maps, register files and registers, registers
    holding fields. Everything the exporter asks of the register compiler
    (properties, address offsets, unrolled array instances) is stored here
    as a plain value of the node. */
module RdlModel {
  import opened Wrappers

  /** The compiler's software access-mode enumeration, property `sw`. */
  datatype AccessType = NA | RW | RW1 | R | W | W1

  /** The enumeration member's name, which is what the exporter emits. */
  function AccessName(a: AccessType): string
  {
    match a
    case NA => "na"
    case RW => "rw"
    case RW1 => "rw1"
    case R => "r"
    case W => "w"
    case W1 => "w1"
  }

  /** The member whose name is s, if any: every emitted name reads back
      as the mode it names, and nothing else is recognised. */
  function AccessFromName(s: string): (a: Option<AccessType>)
    ensures a.Some? ==> AccessName(a.value) == s
    ensures forall m :: AccessName(m) == s ==> a == Some(m)
  {
    if s == "na" then Some(NA)
    else if s == "rw" then Some(RW)
    else if s == "rw1" then Some(RW1)
    else if s == "r" then Some(R)
    else if s == "w" then Some(W)
    else if s == "w1" then Some(W1)
    else None
  }

  datatype ContainerKind = Addrmap | Regfile

  /** A field: its bit range, `reset` (None when the property is not set),
      `sw` and `desc`. */
  datatype Field = Field(instName: string, lsb: nat, msb: nat, reset: Option<int>,
                         sw: AccessType, desc: Option<string>)

  /** The nodes that can stand where the exporter dispatches: address maps
      and register files (containers), and registers. Fields are children of
      registers only.
      A register carries what the compiler answers about it: `addrOffset`,
      the offset of the instance (of element 0 when it is an array);
      `stride`, the distance between array elements; `unrolled`, the
      instances the compiler's unrolling yields, each given by its flattened
      element index; and the properties `desc`, `indexdesc` and `regwidth`. */
  datatype Node =
    | Container(kind: ContainerKind, instName: string, isArray: bool, addrOffset: nat,
                desc: Option<string>, children: seq<Node>)
    | Reg(instName: string, isArray: bool, addrOffset: nat, stride: nat,
          desc: Option<string>, indexdesc: Option<string>, regwidth: nat,
          unrolled: seq<nat>, fields: seq<Field>)

  /** The compiler's address-offset query on a register, with the element
      index it needs passed as an argument (None: no index known). An arrayed
      register's address cannot be resolved without an index. */
  function AddressOffset(r: Node, currentIdx: Option<nat>): (a: Option<nat>)
    requires r.Reg?
    ensures a.None? <==> r.isArray && currentIdx.None?
    ensures !r.isArray ==> a == Some(r.addrOffset)
  {
    if !r.isArray then Some(r.addrOffset)
    else match currentIdx
      case None => None
      case Some(idx) => Some(r.addrOffset + idx * r.stride)
  }

  /** The type tag a container carries in the register language. */
  function KindName(k: ContainerKind): string
  {
    match k
    case Addrmap => "addrmap"
    case Regfile => "regfile"
  }

  /** The (kind, inst_name) pair of every container, register and field of
      the tree rooted at n, in pre-order (declaration order among
      siblings). */
  function NodeOutline(n: Node): seq<(string, string)>
    decreases n
  {
    match n
    case Container(_, _, _, _, _, children) => [(KindName(n.kind), n.instName)] + ChildrenOutline(children)
    case Reg(_, _, _, _, _, _, _, _, fields) => [("reg", n.instName)] + FieldsOutline(fields)
  }

  function ChildrenOutline(cs: seq<Node>): seq<(string, string)>
    decreases cs
  {
    if |cs| == 0 then [] else ChildrenOutline(cs[..|cs| - 1]) + NodeOutline(cs[|cs| - 1])
  }

  function FieldsOutline(fs: seq<Field>): seq<(string, string)>
  {
    if |fs| == 0 then [] else FieldsOutline(fs[..|fs| - 1]) + [("field", fs[|fs| - 1].instName)]
  }

  /** Every container and register of the tree rooted at n, in pre-order. */
  function Preorder(n: Node): seq<Node>
    decreases n
  {
    match n
    case Container(_, _, _, _, _, children) => [n] + PreorderAll(children)
    case Reg(_, _, _, _, _, _, _, _, _) => [n]
  }

  function PreorderAll(cs: seq<Node>): seq<Node>
    decreases cs
  {
    if |cs| == 0 then [] else PreorderAll(cs[..|cs| - 1]) + Preorder(cs[|cs| - 1])
  }

  predicate ArrayedContainer(n: Node)
  {
    n.Container? && n.isArray
  }

  /** The first arrayed container of ns, in order. */
  function FirstArrayedContainer(ns: seq<Node>): (r: Option<Node>)
    ensures r.None? <==> forall i :: 0 <= i < |ns| ==> !ArrayedContainer(ns[i])
    ensures r.Some? ==> exists k :: 0 <= k < |ns| && ns[k] == r.value && ArrayedContainer(ns[k])
                          && forall i :: 0 <= i < k ==> !ArrayedContainer(ns[i])
  {
    if |ns| == 0 then None
    else if ArrayedContainer(ns[0]) then Some(ns[0])
    else
      var r := FirstArrayedContainer(ns[1..]);
      assert forall i :: 1 <= i < |ns| ==> ns[i] == ns[1..][i - 1];
      r
  }
}
