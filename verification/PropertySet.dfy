/**
  Property-set: eng/dev_model/dm_message.c flattens a JSON object into string-keyed writes.
  The writes are proved to amount to one structural merge of the JSON into the tree.
*/
module PropertySet {
  import opened Text
  import opened ShadowTree
  import opened ShadowLaws
  import opened Paths

  /** A JSON value as the flattener sees it; a number carries its integer and its floating reading. */
  datatype Json =
    | JObject(members: seq<Member>)
    | JArray(items: seq<Json>)
    | JNumber(i: int, r: real)
    | JString(s: string)
    | JOther

  datatype Member = Member(name: string, value: Json)

  predicate Scalar(v: Json) { !v.JObject? && !v.JArray? }

  // ---------------------------------------------------------------- the flattener

  /** dm_shw_get_data_type: arrays answer with the type of their elements. */
  function CellType(n: Node): Option<ScalarType> {
    match n
    case Leaf(_, ty, _) => Some(ty)
    case Array(_, ty, _) => Some(ty)
    case _ => None
  }

  /** The argument a scalar passes to the setter of a cell type; None when the switch falls through. */
  function Argument(v: Json, ty: ScalarType): Option<Value> {
    match v
    case JNumber(i, r) => if IntLike(ty) then Some(IntV(i)) else if RealLike(ty) then Some(RealV(r)) else None
    case JString(s) => if TextLike(ty) then Some(TextV(Some(s))) else None
    case _ => None
  }

  function CellArgument(v: Json, n: Node): Option<Value> {
    var ty := CellType(n);
    if ty.Some? then Argument(v, ty.value) else None
  }

  /** _dm_msg_set_number and _dm_msg_set_string. */
  function SetScalar(t: seq<Node>, key: string, v: Json): (seq<Node>, Status) {
    match PropertySearch(t, key)
    case Missing => (t, Failed)
    case Outside => (t, Undefined)
    case Found(loc, _) =>
      var arg := CellArgument(v, NodeAt(t, loc));
      if arg.Some? then SetProperty(t, key, arg) else (t, Ok)
  }

  function FlattenValue(t: seq<Node>, key: string, v: Json): (seq<Node>, Status)
    decreases v, 0
  {
    match v
    case JObject(members) => FlattenMembers(t, Some(key), members, 0)
    case JArray(items) => FlattenItems(t, key, items, 0)
    case JOther => (t, Ok)
    case _ => SetScalar(t, key, v)
  }

  /** _dm_msg_set_object from member `from` on; the first failure ends it. */
  function FlattenMembers(t: seq<Node>, key: Option<string>, members: seq<Member>, from: nat): (seq<Node>, Status)
    requires from <= |members|
    decreases members, |members| - from
  {
    if from == |members| then (t, Ok)
    else
      var (t', status) := FlattenValue(t, MemberKey(key, members[from].name), members[from].value);
      if status != Ok then (t', status) else FlattenMembers(t', key, members, from + 1)
  }

  /** _dm_msg_set_array from element `from` on. */
  function FlattenItems(t: seq<Node>, key: string, items: seq<Json>, from: nat): (seq<Node>, Status)
    requires from <= |items|
    decreases items, |items| - from
  {
    if from == |items| then (t, Ok)
    else
      var (t', status) := FlattenValue(t, ElementKey(key, from), items[from]);
      if status != Ok then (t', status) else FlattenItems(t', key, items, from + 1)
  }

  // ---------------------------------------------------------------- the structural merge

  function MergeNode(n: Node, v: Json): (r: Node)
    ensures r.id == n.id
    decreases v, 0
  {
    match n
    case Leaf(id, ty, value) =>
      var arg := Argument(v, ty);
      if arg.Some? then Leaf(id, ty, Stored(ty, false, arg)) else n
    case Array(id, ty, slots) =>
      if v.JArray? then Array(id, ty, seq(|slots|, k requires 0 <= k < |slots| => MergeSlot(ty, slots[k], v.items, k))) else n
    case Struct(id, ms) =>
      if v.JObject? then Struct(id, MergeMembers(ms, v.members, 0)) else n
    case StructArray(id, es) =>
      if v.JArray? then
        StructArray(id, seq(|es|, k requires 0 <= k < |es| => if k < |v.items| then MergeNode(es[k], v.items[k]) else es[k]))
      else n
  }

  function MergeSlot(ty: ScalarType, slot: Value, items: seq<Json>, k: nat): Value {
    if k < |items| && Argument(items[k], ty).Some? then Stored(ty, true, Argument(items[k], ty)) else slot
  }

  function MergeMembers(ms: seq<Node>, members: seq<Member>, from: nat): (r: seq<Node>)
    requires from <= |members|
    ensures |r| == |ms|
    decreases members, |members| - from
  {
    if from == |members| then ms
    else
      var i := FirstNamed(ms, members[from].name, 0);
      MergeMembers(if i.Some? then ms[i.value := MergeNode(ms[i.value], members[from].value)] else ms, members, from + 1)
  }

  /** The JSON follows the schema: objects for structures, arrays no longer than the schema's, scalars for cells. */
  predicate Conforms(n: Node, v: Json)
    decreases v, 0
  {
    v.JOther? ||
    match n
    case Leaf(_, _, _) => Scalar(v)
    case Array(_, _, slots) => v.JArray? && |v.items| <= |slots| && forall k :: 0 <= k < |v.items| ==> Scalar(v.items[k])
    case Struct(_, ms) => v.JObject? && MembersConform(ms, v.members)
    case StructArray(_, es) =>
      v.JArray? && |v.items| <= |es| && forall k :: 0 <= k < |v.items| ==> Conforms(es[k], v.items[k])
  }

  predicate MembersConform(ms: seq<Node>, members: seq<Member>)
    decreases members, 0
  {
    forall j :: 0 <= j < |members| ==>
      var i := FirstNamed(ms, members[j].name, 0);
      i.Some? && Conforms(ms[i.value], members[j].value)
  }

  // ---------------------------------------------------------------- merging keeps the shape

  lemma {:induction false} MergeKeepsShape(n: Node, v: Json)
    ensures Blank(MergeNode(n, v)) == Blank(n)
    decreases v, 0
  {
    var r := MergeNode(n, v);
    match n
    case Leaf(_, _, _) =>
    case Array(_, ty, slots) =>
      if v.JArray? {
        assert |r.slots| == |slots|;
      }
    case Struct(_, ms) =>
      if v.JObject? {
        MergeMembersKeepsShape(ms, v.members, 0);
      }
    case StructArray(_, es) =>
      if v.JArray? {
        forall k | 0 <= k < |es| ensures Blank(r.elements[k]) == Blank(es[k]) {
          if k < |v.items| {
            MergeKeepsShape(es[k], v.items[k]);
          }
        }
        assert BlankAll(r.elements) == BlankAll(es);
      }
  }

  lemma {:induction false} MergeMembersKeepsShape(ms: seq<Node>, members: seq<Member>, from: nat)
    requires from <= |members|
    ensures BlankAll(MergeMembers(ms, members, from)) == BlankAll(ms)
    decreases members, |members| - from
  {
    if from < |members| {
      var i := FirstNamed(ms, members[from].name, 0);
      if i.Some? {
        MergeKeepsShape(ms[i.value], members[from].value);
        var next := ms[i.value := MergeNode(ms[i.value], members[from].value)];
        assert BlankAll(next) == BlankAll(ms);
        MergeMembersKeepsShape(next, members, from + 1);
      } else {
        MergeMembersKeepsShape(ms, members, from + 1);
      }
    }
  }

  lemma {:induction false} MergeWellFormed(n: Node, v: Json)
    requires WellFormedNode(n)
    ensures WellFormedNode(MergeNode(n, v))
    decreases v, 0
  {
    match n
    case Leaf(_, _, _) =>
    case Array(_, _, _) =>
    case Struct(_, ms) =>
      if v.JObject? {
        MergeMembersWellFormed(ms, v.members, 0);
      }
    case StructArray(_, es) =>
      if v.JArray? {
        forall k | 0 <= k < |es| && k < |v.items| ensures WellFormedNode(MergeNode(es[k], v.items[k])) {
          MergeWellFormed(es[k], v.items[k]);
        }
      }
  }

  lemma {:induction false} MergeMembersWellFormed(ms: seq<Node>, members: seq<Member>, from: nat)
    requires from <= |members| && WellFormed(ms)
    ensures WellFormed(MergeMembers(ms, members, from))
    decreases members, |members| - from
  {
    if from < |members| {
      var i := FirstNamed(ms, members[from].name, 0);
      if i.Some? {
        MergeWellFormed(ms[i.value], members[from].value);
      }
      MergeMembersWellFormed(if i.Some? then ms[i.value := MergeNode(ms[i.value], members[from].value)] else ms, members, from + 1);
    }
  }

  /** Conformance looks at shape and names only. */
  lemma {:induction false} ConformsBlank(n: Node, v: Json)
    ensures Conforms(Blank(n), v) == Conforms(n, v)
    decreases v, 0
  {
    match n
    case Leaf(_, _, _) =>
    case Array(_, _, slots) =>
      assert |Blank(n).slots| == |slots|;
    case Struct(_, ms) =>
      if v.JObject? {
        MembersConformBlank(ms, v.members);
      }
    case StructArray(_, es) =>
      if v.JArray? && |v.items| <= |es| {
        forall k | 0 <= k < |v.items| ensures Conforms(Blank(es[k]), v.items[k]) == Conforms(es[k], v.items[k]) {
          ConformsBlank(es[k], v.items[k]);
        }
      }
  }

  lemma {:induction false} MembersConformBlank(ms: seq<Node>, members: seq<Member>)
    ensures MembersConform(BlankAll(ms), members) == MembersConform(ms, members)
    decreases members, 0
  {
    forall j | 0 <= j < |members|
      ensures FirstNamed(BlankAll(ms), members[j].name, 0) == FirstNamed(ms, members[j].name, 0)
      ensures var i := FirstNamed(ms, members[j].name, 0);
              i.Some? ==> Conforms(BlankAll(ms)[i.value], members[j].value) == Conforms(ms[i.value], members[j].value)
    {
      FirstNamedBlank(ms, members[j].name, 0);
      var i := FirstNamed(ms, members[j].name, 0);
      if i.Some? {
        ConformsBlank(ms[i.value], members[j].value);
      }
    }
  }
}
