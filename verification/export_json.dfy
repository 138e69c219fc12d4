/** The exporter's converters. Each kind of node has a specification
    function giving the record it becomes, and the converters that build
    records key by key and fill their `children` lists with append loops are
    methods proved equal to those functions. */
module ExportJson {
  import opened Wrappers
  import opened RdlModel
  import opened JsonValue

  const ArrayMessage: string := "JSON export does not support arrays"

  /** The fatal diagnostic raised through the compiler's message system; it
      names the offending node. */
  datatype Error = Fatal(message: string, instName: string)

  const FieldKeys: seq<string> := ["type", "inst_name", "lsb", "msb", "reset", "sw_access", "desc"]

  /** A value that may be absent, the absent one written as null. */
  function OptInt(o: Option<int>): Json
  {
    match o
    case None => Null
    case Some(v) => Int(v)
  }

  function OptStr(o: Option<string>): Json
  {
    match o
    case None => Null
    case Some(s) => Str(s)
  }

  /** A field's record. `reset` and `desc` are always present, null when the
      property is not set. */
  function ConvertField(f: Field): (j: Json)
    ensures Keys(j) == FieldKeys
  {
    Obj([Member("type", Str("field")),
         Member("inst_name", Str(f.instName)),
         Member("lsb", Int(f.lsb)),
         Member("msb", Int(f.msb)),
         Member("reset", OptInt(f.reset)),
         Member("sw_access", Str(AccessName(f.sw))),
         Member("desc", OptStr(f.desc))])
  }

  /** The field records of a register, one per field, in order. */
  function FieldRecords(fs: seq<Field>): (rs: seq<Json>)
    ensures |rs| == |fs|
    ensures forall k :: 0 <= k < |fs| ==> rs[k] == ConvertField(fs[k])
  {
    if |fs| == 0 then [] else FieldRecords(fs[..|fs| - 1]) + [ConvertField(fs[|fs| - 1])]
  }

  /** The element index the exporter sets before asking an arrayed register
      for its address: the first element. */
  function RepresentativeIndex(r: Node): Option<nat>
    requires r.Reg?
  {
    if r.isArray then Some(0) else None
  }

  /** The optional member `key`, present exactly when the property is set. */
  function OptionalMember(key: string, o: Option<string>): seq<Member>
  {
    if o.Some? then [Member(key, Str(o.value))] else []
  }

  /** The members every register record starts with. */
  function RegBase(r: Node): seq<Member>
    requires r.Reg?
  {
    var addr := AddressOffset(r, RepresentativeIndex(r));
    [Member("type", Str("reg")), Member("inst_name", Str(r.instName)), Member("addr_offset", Int(addr.value))]
  }

  /** The members only an arrayed register's record has. */
  function ArrayMembers(r: Node): seq<Member>
    requires r.Reg?
  {
    if r.isArray then [Member("entries", Int(|r.unrolled|)), Member("entry_size", Int(r.regwidth))] else []
  }

  /** The members of a register's record that precede `children`. */
  function RegHead(r: Node): seq<Member>
    requires r.Reg?
  {
    RegBase(r) + OptionalMember("desc", r.desc) + OptionalMember("index", r.indexdesc) + ArrayMembers(r)
  }

  /** A register's record. */
  function RegRecord(r: Node): Json
    requires r.Reg?
  {
    Obj(RegHead(r) + [Member("children", Arr(FieldRecords(r.fields)))])
  }

  /** The members of a container's record that precede `children`. */
  function ContainerHead(n: Node): seq<Member>
    requires n.Container?
  {
    [Member("type", Str(KindName(n.kind))), Member("inst_name", Str(n.instName)), Member("addr_offset", Int(n.addrOffset))]
      + OptionalMember("desc", n.desc)
  }

  /** A container's record, given its converted children. */
  function ContainerRecord(n: Node, children: seq<Json>): Json
    requires n.Container?
  {
    Obj(ContainerHead(n) + [Member("children", Arr(children))])
  }

  /** Converting an address map or register file: an arrayed one is fatal,
      and so is the first failure among its children. */
  function ContainerResult(n: Node): Result<Json, Error>
    requires n.Container?
    decreases n, 0
  {
    if n.isArray then Err(Fatal(ArrayMessage, n.instName))
    else match ChildrenResult(n.children)
      case Err(e) => Err(e)
      case Ok(cs) => Ok(ContainerRecord(n, cs))
  }

  /** Converting a child of a container, dispatched on its kind. */
  function ChildResult(n: Node): Result<Json, Error>
    decreases n, 1
  {
    match n
    case Container(_, _, _, _, _, _) => ContainerResult(n)
    case Reg(_, _, _, _, _, _, _, _, _) => Ok(RegRecord(n))
  }

  /** Converting a container's children in declaration order, stopping at
      the first failure. */
  function ChildrenResult(cs: seq<Node>): Result<seq<Json>, Error>
    decreases cs
  {
    if |cs| == 0 then Ok([])
    else match ChildrenResult(cs[..|cs| - 1])
      case Err(e) => Err(e)
      case Ok(done) =>
        match ChildResult(cs[|cs| - 1])
        case Err(e) => Err(e)
        case Ok(j) => Ok(done + [j])
  }

  /** Once a prefix of the children has failed, the whole list fails with
      the same error. */
  lemma {:induction false} ChildrenErrorPropagates(cs: seq<Node>, k: nat)
    requires k <= |cs|
    requires ChildrenResult(cs[..k]).Err?
    ensures ChildrenResult(cs) == ChildrenResult(cs[..k])
    decreases |cs|
  {
    if k < |cs| {
      var init := cs[..|cs| - 1];
      assert init[..k] == cs[..k];
      ChildrenErrorPropagates(init, k);
    } else {
      assert cs[..k] == cs;
    }
  }

  /** A register's conversion: the record is built key by key, the unrolled
      instances are counted one by one, and the field records are appended
      in order. */
  method ConvertReg(r: Node) returns (j: Json)
    requires r.Reg?
    ensures j == RegRecord(r)
  {
    var members := [Member("type", Str("reg")), Member("inst_name", Str(r.instName))];
    var currentIdx: Option<nat> := None;
    if r.isArray {
      currentIdx := Some(0);
    }
    var addr := AddressOffset(r, currentIdx);
    members := members + [Member("addr_offset", Int(addr.value))];
    ghost var head := members;
    if r.desc.Some? {
      members := members + [Member("desc", Str(r.desc.value))];
    }
    assert members == head + OptionalMember("desc", r.desc);
    head := members;
    if r.indexdesc.Some? {
      members := members + [Member("index", Str(r.indexdesc.value))];
    }
    assert members == head + OptionalMember("index", r.indexdesc);
    head := members;
    if r.isArray {
      var entries := 0;
      for i := 0 to |r.unrolled|
        invariant entries == i
      {
        entries := entries + 1;
      }
      members := members + [Member("entries", Int(entries)), Member("entry_size", Int(r.regwidth))];
    }
    assert members == RegHead(r);
    var children: seq<Json> := [];
    for i := 0 to |r.fields|
      invariant children == FieldRecords(r.fields[..i])
    {
      assert r.fields[..i + 1][..i] == r.fields[..i];
      children := children + [ConvertField(r.fields[i])];
    }
    assert r.fields[..|r.fields|] == r.fields;
    j := Obj(members + [Member("children", Arr(children))]);
  }

  /** An address map's or register file's conversion: arrays are rejected
      before anything is built, then the record is built key by key and each
      child is converted by the converter of its kind and appended. */
  method ConvertAddrmapOrRegfile(n: Node) returns (res: Result<Json, Error>)
    requires n.Container?
    ensures res == ContainerResult(n)
    decreases n
  {
    if n.isArray {
      return Err(Fatal(ArrayMessage, n.instName));
    }
    var members: seq<Member>;
    match n.kind {
      case Addrmap => members := [Member("type", Str("addrmap"))];
      case Regfile => members := [Member("type", Str("regfile"))];
    }
    members := members + [Member("inst_name", Str(n.instName)), Member("addr_offset", Int(n.addrOffset))];
    ghost var head := members;
    if n.desc.Some? {
      members := members + [Member("desc", Str(n.desc.value))];
    }
    assert members == head + OptionalMember("desc", n.desc);
    assert members == ContainerHead(n);
    var children: seq<Json> := [];
    for i := 0 to |n.children|
      invariant ChildrenResult(n.children[..i]) == Ok(children)
    {
      var child := n.children[i];
      var converted: Result<Json, Error>;
      match child {
        case Container(_, _, _, _, _, _) =>
          converted := ConvertAddrmapOrRegfile(child);
        case Reg(_, _, _, _, _, _, _, _, _) =>
          var record := ConvertReg(child);
          converted := Ok(record);
      }
      assert n.children[..i + 1][..i] == n.children[..i];
      if converted.Err? {
        ChildrenErrorPropagates(n.children, i + 1);
        return Err(converted.error);
      }
      children := children + [converted.value];
    }
    assert n.children[..|n.children|] == n.children;
    res := Ok(Obj(members + [Member("children", Arr(children))]));
  }
}
