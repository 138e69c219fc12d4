/** What the exporter's records promise: their keys and key order, which
    keys are optional, what each value is, the one-record-per-child rule,
    the rejection of arrayed containers, and that the output tree has the
    input tree's shape. */
module ExportJsonProofs {
  import opened Wrappers
  import opened RdlModel
  import opened JsonValue
  import opened ExportJson

  // ---------------------------------------------------------------- fields

  function AsString(o: Option<Json>): Option<string>
  {
    if o.Some? && o.value.Str? then Some(o.value.s) else None
  }

  function AsInt(o: Option<Json>): Option<int>
  {
    if o.Some? && o.value.Int? then Some(o.value.i) else None
  }

  /** A string or null: Some(None) for null. */
  function AsOptString(o: Option<Json>): Option<Option<string>>
  {
    if o == Some(Null) then Some(None)
    else if o.Some? && o.value.Str? then Some(Some(o.value.s))
    else None
  }

  /** An integer or null: Some(None) for null. */
  function AsOptInt(o: Option<Json>): Option<Option<int>>
  {
    if o == Some(Null) then Some(None)
    else if o.Some? && o.value.Int? then Some(Some(o.value.i))
    else None
  }

  /** Reads a field back from a field record. */
  function FieldFromRecord(j: Json): Option<Field>
  {
    var name := AsString(Lookup(j, "inst_name"));
    var lsb := AsInt(Lookup(j, "lsb"));
    var msb := AsInt(Lookup(j, "msb"));
    var reset := AsOptInt(Lookup(j, "reset"));
    var sw := AsString(Lookup(j, "sw_access"));
    var access := if sw.Some? then AccessFromName(sw.value) else None;
    var desc := AsOptString(Lookup(j, "desc"));
    if Lookup(j, "type") == Some(Str("field")) && name.Some? && lsb.Some? && lsb.value >= 0
       && msb.Some? && msb.value >= 0 && reset.Some? && access.Some? && desc.Some?
    then Some(Field(name.value, lsb.value, msb.value, reset.value, access.value, desc.value))
    else None
  }

  /** Every key of a field record holds the field's own value: `lsb` and
      `msb` unchanged, `reset` as is or null when unset, the access mode's
      name, and `desc` even when unset (as null). */
  lemma FieldRecordValues(f: Field)
    ensures Lookup(ConvertField(f), "type") == Some(Str("field"))
    ensures Lookup(ConvertField(f), "inst_name") == Some(Str(f.instName))
    ensures Lookup(ConvertField(f), "lsb") == Some(Int(f.lsb))
    ensures Lookup(ConvertField(f), "msb") == Some(Int(f.msb))
    ensures Lookup(ConvertField(f), "reset") == Some(if f.reset.Some? then Int(f.reset.value) else Null)
    ensures Lookup(ConvertField(f), "sw_access") == Some(Str(AccessName(f.sw)))
    ensures Lookup(ConvertField(f), "desc") == Some(if f.desc.Some? then Str(f.desc.value) else Null)
  {
    var ms := ConvertField(f).members;
    assert DistinctKeys(FieldKeys);
    LookupMember(ms, 0);
    LookupMember(ms, 1);
    LookupMember(ms, 2);
    LookupMember(ms, 3);
    LookupMember(ms, 4);
    LookupMember(ms, 5);
    LookupMember(ms, 6);
  }

  /** A field record determines the field: nothing is lost in conversion. */
  lemma FieldRecordRoundTrip(f: Field)
    ensures FieldFromRecord(ConvertField(f)) == Some(f)
  {
    FieldRecordValues(f);
    assert AccessFromName(AccessName(f.sw)) == Some(f.sw);
  }

  /** A field with no reset and one with reset 0 give different records. */
  lemma ResetKeptDistinct(f: Field)
    requires f.reset.None?
    ensures ConvertField(f) != ConvertField(f.(reset := Some(0)))
  {
  }

  // ------------------------------------------------------------- registers

  function OptionalKey(key: string, present: bool): seq<string>
  {
    if present then [key] else []
  }

  /** The keys of a register record, in order. */
  function RegKeys(r: Node): seq<string>
    requires r.Reg?
  {
    ["type", "inst_name", "addr_offset"]
      + OptionalKey("desc", r.desc.Some?)
      + OptionalKey("index", r.indexdesc.Some?)
      + (if r.isArray then ["entries", "entry_size"] else [])
      + ["children"]
  }

  lemma RegKeysOf(r: Node)
    requires r.Reg?
    ensures Keys(RegRecord(r)) == RegKeys(r)
  {
    var a, d, x, e := RegBase(r), OptionalMember("desc", r.desc), OptionalMember("index", r.indexdesc), ArrayMembers(r);
    var c := [Member("children", Arr(FieldRecords(r.fields)))];
    MemberKeysConcat(a, d);
    MemberKeysConcat(a + d, x);
    MemberKeysConcat(a + d + x, e);
    MemberKeysConcat(a + d + x + e, c);
    assert MemberKeys(a) == ["type", "inst_name", "addr_offset"];
    assert MemberKeys(d) == OptionalKey("desc", r.desc.Some?);
    assert MemberKeys(x) == OptionalKey("index", r.indexdesc.Some?);
    assert MemberKeys(e) == if r.isArray then ["entries", "entry_size"] else [];
    assert MemberKeys(c) == ["children"];
  }

  lemma RegKeysDistinct(r: Node)
    requires r.Reg?
    ensures DistinctKeys(RegKeys(r))
  {
  }

  /** A register record holds its type "reg", its name, its base offset
      (for an array, the base address of its first element) and its field
      records, one per field in order; it holds `desc` and `index` exactly
      when the properties are set, and `entries` (the number of unrolled
      instances) and `entry_size` (`regwidth`) exactly when the register is
      an array. */
  lemma {:induction false} RegRecordValues(r: Node)
    requires r.Reg?
    ensures Lookup(RegRecord(r), "type") == Some(Str("reg"))
    ensures Lookup(RegRecord(r), "inst_name") == Some(Str(r.instName))
    ensures Lookup(RegRecord(r), "addr_offset") == Some(Int(r.addrOffset))
    ensures Lookup(RegRecord(r), "desc") == if r.desc.Some? then Some(Str(r.desc.value)) else None
    ensures Lookup(RegRecord(r), "index") == if r.indexdesc.Some? then Some(Str(r.indexdesc.value)) else None
    ensures Lookup(RegRecord(r), "entries") == if r.isArray then Some(Int(|r.unrolled|)) else None
    ensures Lookup(RegRecord(r), "entry_size") == if r.isArray then Some(Int(r.regwidth)) else None
    ensures Lookup(RegRecord(r), "children") == Some(Arr(FieldRecords(r.fields)))
  {
    RegBaseValues(r);
    RegTailValues(r);
  }

  /** The three members every register record starts with. */
  lemma RegBaseValues(r: Node)
    requires r.Reg?
    ensures Lookup(RegRecord(r), "type") == Some(Str("reg"))
    ensures Lookup(RegRecord(r), "inst_name") == Some(Str(r.instName))
    ensures Lookup(RegRecord(r), "addr_offset") == Some(Int(r.addrOffset))
  {
    var ms := RegRecord(r).members;
    assert AddressOffset(r, RepresentativeIndex(r)) == Some(r.addrOffset);
    assert ms[..3] == RegBase(r);
    assert ms[0].key == "type" && ms[1..][0] == ms[1] && ms[1..][1..] == ms[2..];
    assert LookupIn(ms, "inst_name") == LookupIn(ms[1..], "inst_name");
    assert LookupIn(ms, "addr_offset") == LookupIn(ms[1..], "addr_offset") == LookupIn(ms[2..], "addr_offset");
  }

  /** Past the three leading members, each remaining key is found in the
      piece that holds it, or nowhere. */
  lemma {:induction false} RegTailValues(r: Node)
    requires r.Reg?
    ensures Lookup(RegRecord(r), "desc") == if r.desc.Some? then Some(Str(r.desc.value)) else None
    ensures Lookup(RegRecord(r), "index") == if r.indexdesc.Some? then Some(Str(r.indexdesc.value)) else None
    ensures Lookup(RegRecord(r), "entries") == if r.isArray then Some(Int(|r.unrolled|)) else None
    ensures Lookup(RegRecord(r), "entry_size") == if r.isArray then Some(Int(r.regwidth)) else None
    ensures Lookup(RegRecord(r), "children") == Some(Arr(FieldRecords(r.fields)))
  {
    var a, e := RegBase(r), ArrayMembers(r);
    var c := [Member("children", Arr(FieldRecords(r.fields)))];
    var tail := OptionalMember("desc", r.desc) + (OptionalMember("index", r.indexdesc) + (e + c));
    assert RegRecord(r).members == a + tail;
    assert MemberKeys(a) == ["type", "inst_name", "addr_offset"];
    TailLookup(r, a, tail, "desc");
    TailLookup(r, a, tail, "index");
    TailLookup(r, a, tail, "entries");
    TailLookup(r, a, tail, "entry_size");
    TailLookup(r, a, tail, "children");
  }

  lemma {:induction false} TailLookup(r: Node, a: seq<Member>, tail: seq<Member>, k: string)
    requires r.Reg?
    requires k in ["desc", "index", "entries", "entry_size", "children"]
    requires MemberKeys(a) == ["type", "inst_name", "addr_offset"]
    requires tail == OptionalMember("desc", r.desc) + (OptionalMember("index", r.indexdesc)
                       + (ArrayMembers(r) + [Member("children", Arr(FieldRecords(r.fields)))]))
    ensures LookupIn(a + tail, k) == LookupIn(tail, k)
    ensures LookupIn(tail, k)
            == if k == "desc" then (if r.desc.Some? then Some(Str(r.desc.value)) else None)
               else if k == "index" then (if r.indexdesc.Some? then Some(Str(r.indexdesc.value)) else None)
               else if k == "entries" then (if r.isArray then Some(Int(|r.unrolled|)) else None)
               else if k == "entry_size" then (if r.isArray then Some(Int(r.regwidth)) else None)
               else Some(Arr(FieldRecords(r.fields)))
  {
    LookupSkip(a, tail, k);
    var c := [Member("children", Arr(FieldRecords(r.fields)))];
    var ec := ArrayMembers(r) + c;
    LookupAfterOptional("desc", r.desc, OptionalMember("index", r.indexdesc) + ec, k);
    LookupAfterOptional("index", r.indexdesc, ec, k);
    assert LookupIn(c, k) == if k == "children" then Some(Arr(FieldRecords(r.fields))) else None by {
      assert c[1..] == [];
    }
    if r.isArray {
      assert ec[0].key == "entries" && ec[1..][0].key == "entry_size";
      assert ec[1..][1..] == c;
    } else {
      assert ec == c;
    }
  }

  /** An optional member is found under its own key when it is present and
      leaves every other key to the members after it. */
  lemma LookupAfterOptional(key: string, o: Option<string>, post: seq<Member>, k: string)
    ensures LookupIn(OptionalMember(key, o) + post, k)
            == if k == key && o.Some? then Some(Str(o.value)) else LookupIn(post, k)
  {
    if o.Some? {
      assert (OptionalMember(key, o) + post)[1..] == post;
    } else {
      assert OptionalMember(key, o) + post == post;
    }
  }

  /** An arrayed register's address cannot be resolved without an element
      index; the index the exporter supplies resolves it to the array's base
      address, the lowest address of any element. */
  lemma RepresentativeAddressIsBase(r: Node)
    requires r.Reg? && r.isArray
    ensures AddressOffset(r, None).None?
    ensures AddressOffset(r, RepresentativeIndex(r)) == Some(r.addrOffset)
    ensures forall i: nat :: AddressOffset(r, Some(i)).value >= AddressOffset(r, RepresentativeIndex(r)).value
  {
  }

  // ------------------------------------------------------------ containers

  /** The keys of an address map or register file record, in order. */
  function ContainerKeys(n: Node): seq<string>
    requires n.Container?
  {
    ["type", "inst_name", "addr_offset"] + OptionalKey("desc", n.desc.Some?) + ["children"]
  }

  /** No key occurs twice in an address map or register file record. */
  lemma ContainerKeysDistinct(n: Node)
    requires n.Container?
    ensures DistinctKeys(ContainerKeys(n))
  {
  }

  /** The children convert, in order and one record each, exactly when every
      child converts; otherwise the list fails. */
  lemma {:induction false} ChildrenResultPointwise(cs: seq<Node>)
    ensures ChildrenResult(cs).Ok? <==> forall k :: 0 <= k < |cs| ==> ChildResult(cs[k]).Ok?
    ensures ChildrenResult(cs).Ok? ==>
              |ChildrenResult(cs).value| == |cs|
              && forall k :: 0 <= k < |cs| ==> ChildResult(cs[k]) == Ok(ChildrenResult(cs).value[k])
  {
    ChildrenOkExactly(cs);
    if ChildrenResult(cs).Ok? {
      ChildrenValues(cs);
    }
  }

  lemma {:induction false} ChildrenOkExactly(cs: seq<Node>)
    ensures ChildrenResult(cs).Ok? <==> forall k :: 0 <= k < |cs| ==> ChildResult(cs[k]).Ok?
    decreases |cs|
  {
    if |cs| > 0 {
      var init := cs[..|cs| - 1];
      ChildrenOkExactly(init);
      assert forall k :: 0 <= k < |init| ==> init[k] == cs[k];
      if ChildrenResult(init).Err? {
        var k :| 0 <= k < |init| && !ChildResult(init[k]).Ok?;
        assert !ChildResult(cs[k]).Ok?;
      }
    }
  }

  lemma {:induction false} ChildrenValues(cs: seq<Node>)
    requires ChildrenResult(cs).Ok?
    ensures |ChildrenResult(cs).value| == |cs|
    ensures forall k :: 0 <= k < |cs| ==> ChildResult(cs[k]) == Ok(ChildrenResult(cs).value[k])
    decreases |cs|
  {
    if |cs| > 0 {
      var init := cs[..|cs| - 1];
      ChildrenValues(init);
      var done := ChildrenResult(init).value;
      var all := ChildrenResult(cs).value;
      assert all == done + [ChildResult(cs[|cs| - 1]).value];
      forall k | 0 <= k < |cs| ensures ChildResult(cs[k]) == Ok(all[k]) {
        if k < |init| {
          assert cs[k] == init[k] && all[k] == done[k];
        }
      }
    }
  }

  /** A converted address map or register file: type "addrmap" or
      "regfile" after its kind, its name and offset, `desc` present exactly
      when set, and `children` holding one record per child, in declaration
      order, each the conversion of that child by the converter of its
      kind. */
  lemma {:induction false} ContainerRecordValues(n: Node, j: Json)
    requires n.Container? && ContainerResult(n) == Ok(j)
    ensures Keys(j) == ContainerKeys(n)
    ensures Lookup(j, "type") == Some(Str(if n.kind == Addrmap then "addrmap" else "regfile"))
    ensures Lookup(j, "inst_name") == Some(Str(n.instName))
    ensures Lookup(j, "addr_offset") == Some(Int(n.addrOffset))
    ensures Lookup(j, "desc") == if n.desc.Some? then Some(Str(n.desc.value)) else None
    ensures Lookup(j, "children").Some? && Lookup(j, "children").value.Arr?
    ensures var cs := Lookup(j, "children").value.items;
              |cs| == |n.children|
              && forall k :: 0 <= k < |n.children| ==> ChildResult(n.children[k]) == Ok(cs[k])
  {
    var cs := ChildrenResult(n.children).value;
    ChildrenResultPointwise(n.children);
    assert j == ContainerRecord(n, cs);
    ContainerRecordKeys(n, cs);
    ContainerRecordLookups(n, cs);
  }

  lemma {:induction false} ContainerRecordKeys(n: Node, cs: seq<Json>)
    requires n.Container?
    ensures Keys(ContainerRecord(n, cs)) == ContainerKeys(n)
  {
    var a := [Member("type", Str(KindName(n.kind))), Member("inst_name", Str(n.instName)),
              Member("addr_offset", Int(n.addrOffset))];
    var d := OptionalMember("desc", n.desc);
    var c := [Member("children", Arr(cs))];
    MemberKeysConcat(a, d);
    MemberKeysConcat(a + d, c);
    assert MemberKeys(a) == ["type", "inst_name", "addr_offset"];
    assert MemberKeys(d) == OptionalKey("desc", n.desc.Some?);
    assert ContainerRecord(n, cs).members == a + d + c;
  }

  lemma {:induction false} ContainerRecordLookups(n: Node, cs: seq<Json>)
    requires n.Container?
    ensures Lookup(ContainerRecord(n, cs), "type") == Some(Str(KindName(n.kind)))
    ensures Lookup(ContainerRecord(n, cs), "inst_name") == Some(Str(n.instName))
    ensures Lookup(ContainerRecord(n, cs), "addr_offset") == Some(Int(n.addrOffset))
    ensures Lookup(ContainerRecord(n, cs), "desc") == if n.desc.Some? then Some(Str(n.desc.value)) else None
    ensures Lookup(ContainerRecord(n, cs), "children") == Some(Arr(cs))
  {
    var a := [Member("type", Str(KindName(n.kind))), Member("inst_name", Str(n.instName)),
              Member("addr_offset", Int(n.addrOffset))];
    var c := [Member("children", Arr(cs))];
    var tail := OptionalMember("desc", n.desc) + c;
    var ms := ContainerRecord(n, cs).members;
    assert ms == a + tail;
    assert ms[0].key == "type" && ms[1..][0] == ms[1] && ms[1..][1..] == ms[2..];
    assert LookupIn(ms, "inst_name") == LookupIn(ms[1..], "inst_name");
    assert LookupIn(ms, "addr_offset") == LookupIn(ms[1..], "addr_offset") == LookupIn(ms[2..], "addr_offset");
    assert MemberKeys(a) == ["type", "inst_name", "addr_offset"];
    assert c[1..] == [];
    LookupSkip(a, tail, "desc");
    LookupAfterOptional("desc", n.desc, c, "desc");
    LookupSkip(a, tail, "children");
    LookupAfterOptional("desc", n.desc, c, "children");
  }

  // ------------------------------------------------- the fatal error path

  lemma {:induction false} FirstArrayedConcat(a: seq<Node>, b: seq<Node>)
    ensures FirstArrayedContainer(a + b)
            == if FirstArrayedContainer(a).Some? then FirstArrayedContainer(a) else FirstArrayedContainer(b)
    decreases |a|
  {
    if |a| > 0 {
      assert (a + b)[1..] == a[1..] + b;
      FirstArrayedConcat(a[1..], b);
    } else {
      assert a + b == b;
    }
  }

  /** An address map or register file converts exactly when no container
      in its tree, itself included, is an array; otherwise the conversion
      fails with the fatal error naming the first arrayed container in
      pre-order, which is the first one the walk meets. Arrayed registers
      do not fail. */
  lemma {:induction false} ContainerFailsAtFirstArrayed(n: Node)
    requires n.Container?
    ensures match FirstArrayedContainer(Preorder(n))
            case None => ContainerResult(n).Ok?
            case Some(m) => ContainerResult(n) == Err(Fatal(ArrayMessage, m.instName))
    decreases n, 0
  {
    FirstArrayedConcat([n], PreorderAll(n.children));
    if !n.isArray {
      ChildrenFailAtFirstArrayed(n.children);
    }
  }

  lemma {:induction false} ChildFailsAtFirstArrayed(n: Node)
    ensures match FirstArrayedContainer(Preorder(n))
            case None => ChildResult(n).Ok?
            case Some(m) => ChildResult(n) == Err(Fatal(ArrayMessage, m.instName))
    decreases n, 1
  {
    if n.Container? {
      ContainerFailsAtFirstArrayed(n);
    }
  }

  lemma {:induction false} ChildrenFailAtFirstArrayed(cs: seq<Node>)
    ensures match FirstArrayedContainer(PreorderAll(cs))
            case None => ChildrenResult(cs).Ok?
            case Some(m) => ChildrenResult(cs) == Err(Fatal(ArrayMessage, m.instName))
    decreases cs
  {
    if |cs| > 0 {
      var init := cs[..|cs| - 1];
      FirstArrayedConcat(PreorderAll(init), Preorder(cs[|cs| - 1]));
      ChildrenFailAtFirstArrayed(init);
      ChildFailsAtFirstArrayed(cs[|cs| - 1]);
    }
  }

  // ------------------------------------------- the output mirrors the input

  lemma {:induction false} FieldRecordOutline(f: Field)
    ensures RecordOutline(ConvertField(f)) == [("field", f.instName)]
  {
    FieldRecordValues(f);
    ScalarMembersOutline(ConvertField(f).members);
  }

  lemma {:induction false} FieldRecordsOutline(fs: seq<Field>)
    ensures ItemsOutline(FieldRecords(fs)) == FieldsOutline(fs)
    decreases |fs|
  {
    if |fs| > 0 {
      var init := fs[..|fs| - 1];
      var rs := FieldRecords(fs);
      assert rs[..|rs| - 1] == FieldRecords(init);
      FieldRecordsOutline(init);
      FieldRecordOutline(fs[|fs| - 1]);
    }
  }

  /** A record whose head members are scalars, led by `type` and then
      `inst_name`, and whose last member holds the list items, outlines as
      its own pair followed by the items' outline. */
  lemma {:induction false} RecordWithItemsOutline(head: seq<Member>, tag: string, name: string, items: seq<Json>)
    requires |head| >= 2 && head[0] == Member("type", Str(tag)) && head[1] == Member("inst_name", Str(name))
    requires forall i :: 0 <= i < |head| ==> Scalar(head[i].value)
    ensures RecordOutline(Obj(head + [Member("children", Arr(items))])) == [(tag, name)] + ItemsOutline(items)
  {
    var ms := head + [Member("children", Arr(items))];
    assert ms[0] == head[0] && ms[1] == head[1];
    assert LookupIn(ms, "type") == Some(Str(tag));
    assert ms[1..][0] == head[1];
    assert LookupIn(ms, "inst_name") == Some(Str(name));
    ScalarMembersOutline(head);
    MembersOutlineConcat(head, [Member("children", Arr(items))]);
    assert MembersOutline([Member("children", Arr(items))]) == RecordOutline(Arr(items));
  }

  lemma {:induction false} RegRecordOutline(r: Node)
    requires r.Reg?
    ensures RecordOutline(RegRecord(r)) == NodeOutline(r)
  {
    var head := RegHead(r);
    assert forall i :: 0 <= i < |head| ==> Scalar(head[i].value);
    RecordWithItemsOutline(head, "reg", r.instName, FieldRecords(r.fields));
    FieldRecordsOutline(r.fields);
  }

  /** The output tree has the input's shape: listing the (type, inst_name)
      of every record of the converted tree in pre-order gives exactly the
      (kind, name) of every container, register and field of the input in
      pre-order, so no node is dropped, duplicated or reordered, and an
      arrayed register appears once. */
  lemma {:induction false} OutputMirrorsInput(n: Node)
    requires n.Container?
    ensures ContainerResult(n).Ok? ==> RecordOutline(ContainerResult(n).value) == NodeOutline(n)
    decreases n, 0
  {
    if ContainerResult(n).Ok? {
      var head := ContainerHead(n);
      assert forall i :: 0 <= i < |head| ==> Scalar(head[i].value);
      RecordWithItemsOutline(head, KindName(n.kind), n.instName, ChildrenResult(n.children).value);
      ChildrenMirrorInput(n.children);
    }
  }

  lemma {:induction false} ChildMirrorsInput(n: Node)
    ensures ChildResult(n).Ok? ==> RecordOutline(ChildResult(n).value) == NodeOutline(n)
    decreases n, 1
  {
    if n.Container? {
      OutputMirrorsInput(n);
    } else {
      RegRecordOutline(n);
    }
  }

  lemma {:induction false} ChildrenMirrorInput(cs: seq<Node>)
    ensures ChildrenResult(cs).Ok? ==> ItemsOutline(ChildrenResult(cs).value) == ChildrenOutline(cs)
    decreases cs
  {
    if |cs| > 0 && ChildrenResult(cs).Ok? {
      var init := cs[..|cs| - 1];
      var js := ChildrenResult(cs).value;
      assert js[..|js| - 1] == ChildrenResult(init).value;
      ChildrenMirrorInput(init);
      ChildMirrorsInput(cs[|cs| - 1]);
    }
  }

  // --------------------------------------------------------------- example

  /** An address map "chip" at offset 0 holding a register "ctrl" at offset
      4 with one read-write field "enable" (bit 0, reset 0, described as
      "Enable bit") converts to exactly this record. */
  lemma ChipExample()
    ensures ContainerResult(
              Container(Addrmap, "chip", false, 0, None,
                [Reg("ctrl", false, 4, 0, None, None, 32, [],
                  [Field("enable", 0, 0, Some(0), RW, Some("Enable bit"))])]))
         == Ok(Obj([Member("type", Str("addrmap")), Member("inst_name", Str("chip")),
                    Member("addr_offset", Int(0)),
                    Member("children", Arr([
                      Obj([Member("type", Str("reg")), Member("inst_name", Str("ctrl")),
                           Member("addr_offset", Int(4)),
                           Member("children", Arr([
                             Obj([Member("type", Str("field")), Member("inst_name", Str("enable")),
                                  Member("lsb", Int(0)), Member("msb", Int(0)), Member("reset", Int(0)),
                                  Member("sw_access", Str("rw")), Member("desc", Str("Enable bit"))])]))])]))]))
  {
    var f := Field("enable", 0, 0, Some(0), RW, Some("Enable bit"));
    var r := Reg("ctrl", false, 4, 0, None, None, 32, [], [f]);
    assert [f][..0] == [];
    assert FieldRecords([f]) == [ConvertField(f)];
    assert RegHead(r) == [Member("type", Str("reg")), Member("inst_name", Str("ctrl")), Member("addr_offset", Int(4))];
    assert [r][..0] == [];
    assert ChildrenResult([]) == Ok([]);
    assert ChildResult(r) == Ok(RegRecord(r));
    assert [] + [RegRecord(r)] == [RegRecord(r)];
    assert ChildrenResult([r][..0]) == Ok([]);
    assert ChildrenResult([r]) == Ok([RegRecord(r)]);
    var chip := Container(Addrmap, "chip", false, 0, None, [r]);
    assert ContainerHead(chip) == [Member("type", Str("addrmap")), Member("inst_name", Str("chip")), Member("addr_offset", Int(0))];
    assert ContainerResult(chip) == Ok(ContainerRecord(chip, [RegRecord(r)]));
    var fieldRecord := Obj([Member("type", Str("field")), Member("inst_name", Str("enable")),
                            Member("lsb", Int(0)), Member("msb", Int(0)), Member("reset", Int(0)),
                            Member("sw_access", Str("rw")), Member("desc", Str("Enable bit"))]);
    assert ConvertField(f) == fieldRecord;
    var regRecord := Obj([Member("type", Str("reg")), Member("inst_name", Str("ctrl")),
                          Member("addr_offset", Int(4)), Member("children", Arr([fieldRecord]))]);
    assert RegRecord(r) == regRecord;
    assert ContainerRecord(chip, [regRecord])
        == Obj([Member("type", Str("addrmap")), Member("inst_name", Str("chip")),
                Member("addr_offset", Int(0)), Member("children", Arr([regRecord]))]);
  }

  /** An arrayed register "data" at base offset 16 with four elements of
      32 bits, stride 4, reports four entries of size 32 at offset 16. */
  lemma RegArrayExample()
    ensures var data := Reg("data", true, 16, 4, None, None, 32, [0, 1, 2, 3], []);
            && Lookup(RegRecord(data), "addr_offset") == Some(Int(16))
            && Lookup(RegRecord(data), "entries") == Some(Int(4))
            && Lookup(RegRecord(data), "entry_size") == Some(Int(32))
  {
    RegRecordValues(Reg("data", true, 16, 4, None, None, 32, [0, 1, 2, 3], []));
  }
}
