/** The JSON-like value the exporter builds: nested dicts, lists, strings,
    integers and None, exactly what the JSON serialiser consumes. A dict keeps
    its members in insertion order, and the serialiser emits them in that
    order, so an object is a sequence of members. */
module JsonValue {
  import opened Wrappers

  datatype Json =
    | Null
    | Int(i: int)
    | Str(s: string)
    | Arr(items: seq<Json>)
    | Obj(members: seq<Member>)

  /** One key-value pair of an object. */
  datatype Member = Member(key: string, value: Json)

  /** The keys of an object, in insertion order; a non-object has none. */
  function Keys(j: Json): seq<string>
  {
    if j.Obj? then MemberKeys(j.members) else []
  }

  function MemberKeys(ms: seq<Member>): (ks: seq<string>)
    ensures |ks| == |ms|
    ensures forall i :: 0 <= i < |ms| ==> ks[i] == ms[i].key
  {
    if |ms| == 0 then [] else MemberKeys(ms[..|ms| - 1]) + [ms[|ms| - 1].key]
  }

  /** The value stored under key k, as a dict subscript finds it. */
  function Lookup(j: Json, k: string): Option<Json>
  {
    if j.Obj? then LookupIn(j.members, k) else None
  }

  function LookupIn(ms: seq<Member>, k: string): Option<Json>
  {
    if |ms| == 0 then None
    else if ms[0].key == k then Some(ms[0].value)
    else LookupIn(ms[1..], k)
  }

  /** No key occurs twice. */
  predicate DistinctKeys(ks: seq<string>)
  {
    forall i, j :: 0 <= i < j < |ks| ==> ks[i] != ks[j]
  }

  /** In an object whose keys are distinct, each member is found under its
      own key. */
  lemma {:induction false} LookupMember(ms: seq<Member>, i: nat)
    requires i < |ms|
    requires DistinctKeys(MemberKeys(ms))
    ensures LookupIn(ms, ms[i].key) == Some(ms[i].value)
    decreases i
  {
    if i > 0 {
      assert ms[0].key != ms[i].key by {
        assert MemberKeys(ms)[0] != MemberKeys(ms)[i];
      }
      var tail := ms[1..];
      assert MemberKeys(tail) == MemberKeys(ms)[1..];
      LookupMember(tail, i - 1);
    }
  }

  /** Members whose keys differ from k do not change what k finds. */
  lemma {:induction false} LookupSkip(pre: seq<Member>, post: seq<Member>, k: string)
    requires k !in MemberKeys(pre)
    ensures LookupIn(pre + post, k) == LookupIn(post, k)
    decreases |pre|
  {
    if |pre| > 0 {
      assert MemberKeys(pre)[0] == pre[0].key;
      assert MemberKeys(pre[1..]) == MemberKeys(pre)[1..];
      assert (pre + post)[1..] == pre[1..] + post;
      LookupSkip(pre[1..], post, k);
    } else {
      assert pre + post == post;
    }
  }

  /** The (type, inst_name) pairs of every record in a JSON tree, in
      pre-order: an object that has a string "type" and a string "inst_name"
      contributes one pair, followed by those of the values it holds. */
  function RecordOutline(j: Json): seq<(string, string)>
    decreases j
  {
    match j
    case Obj(ms) => RecordHead(ms) + MembersOutline(ms)
    case Arr(items) => ItemsOutline(items)
    case _ => []
  }

  function RecordHead(ms: seq<Member>): seq<(string, string)>
  {
    match (LookupIn(ms, "type"), LookupIn(ms, "inst_name"))
    case (Some(Str(t)), Some(Str(name))) => [(t, name)]
    case _ => []
  }

  function MembersOutline(ms: seq<Member>): seq<(string, string)>
    decreases ms
  {
    if |ms| == 0 then [] else MembersOutline(ms[..|ms| - 1]) + RecordOutline(ms[|ms| - 1].value)
  }

  function ItemsOutline(items: seq<Json>): seq<(string, string)>
    decreases items
  {
    if |items| == 0 then [] else ItemsOutline(items[..|items| - 1]) + RecordOutline(items[|items| - 1])
  }

  /** A value that holds no other value. */
  predicate Scalar(j: Json)
  {
    !j.Arr? && !j.Obj?
  }

  lemma {:induction false} MemberKeysConcat(a: seq<Member>, b: seq<Member>)
    ensures MemberKeys(a + b) == MemberKeys(a) + MemberKeys(b)
  {
    var l, r := MemberKeys(a + b), MemberKeys(a) + MemberKeys(b);
    assert |l| == |r|;
    forall i | 0 <= i < |l| ensures l[i] == r[i] {
      if i < |a| {
        assert (a + b)[i] == a[i];
      } else {
        assert (a + b)[i] == b[i - |a|];
      }
    }
  }

  lemma {:induction false} MembersOutlineConcat(a: seq<Member>, b: seq<Member>)
    ensures MembersOutline(a + b) == MembersOutline(a) + MembersOutline(b)
    decreases |b|
  {
    if |b| == 0 {
      assert a + b == a;
    } else {
      var b' := b[..|b| - 1];
      assert (a + b)[..|a + b| - 1] == a + b';
      assert (a + b)[|a + b| - 1] == b[|b| - 1];
      MembersOutlineConcat(a, b');
    }
  }

  /** Members whose values are all scalars hold no record. */
  lemma {:induction false} ScalarMembersOutline(ms: seq<Member>)
    requires forall i :: 0 <= i < |ms| ==> Scalar(ms[i].value)
    ensures MembersOutline(ms) == []
    decreases |ms|
  {
    if |ms| > 0 {
      var init := ms[..|ms| - 1];
      assert forall i :: 0 <= i < |init| ==> init[i] == ms[i];
      ScalarMembersOutline(init);
      assert Scalar(ms[|ms| - 1].value);
    }
  }
}
