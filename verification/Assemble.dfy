/**
  The reverse direction: dm_shw_assemble_property builds JSON from the tree.  After a conforming
  property-set, the assembled JSON shows the input where the input says something, the old state elsewhere.
*/
module Assemble {
  import opened Text
  import opened ShadowTree
  import opened ShadowLaws
  import opened Paths
  import opened PropertySet
  import opened FlattenRefines

  // ---------------------------------------------------------------- assembling

  function Truncate(r: real): int {
    if r >= 0.0 then r.Floor else -(-r).Floor
  }

  /** A cell as JSON; a text that was never set shows as the empty string. */
  function CellJson(v: Value): (j: Json)
    ensures Scalar(j)
  {
    match v
    case IntV(i) => JNumber(i, i as real)
    case RealV(r) => JNumber(Truncate(r), r)
    case TextV(None) => JString("")
    case TextV(Some(s)) => JString(s)
  }

  function AssembleNode(n: Node): Json
    decreases n, 1
  {
    match n
    case Leaf(_, _, v) => CellJson(v)
    case Array(_, _, slots) => JArray(seq(|slots|, k requires 0 <= k < |slots| => CellJson(slots[k])))
    case Struct(_, ms) => JObject(AssembleAll(ms))
    case StructArray(_, es) => JArray(seq(|es|, k requires 0 <= k < |es| => AssembleNode(es[k])))
  }

  /** One object member for each property. */
  function AssembleAll(ms: seq<Node>): (r: seq<Member>)
    ensures |r| == |ms|
    ensures forall i :: 0 <= i < |ms| ==> r[i] == Member(NameOf(ms[i]), AssembleNode(ms[i]))
    decreases ms, 0
  {
    seq(|ms|, i requires 0 <= i < |ms| => Member(NameOf(ms[i]), AssembleNode(ms[i])))
  }

  // ---------------------------------------------------------------- reading JSON along a path

  function FirstMember(members: seq<Member>, name: string, from: nat): (r: Option<nat>)
    requires from <= |members|
    ensures r.Some? ==> from <= r.value < |members| && members[r.value].name == name
    ensures r.None? ==> forall j :: from <= j < |members| ==> members[j].name != name
    decreases |members| - from
  {
    if from == |members| then None
    else if members[from].name == name then Some(from)
    else FirstMember(members, name, from + 1)
  }

  function JsonIn(members: seq<Member>, p: Path): Option<Json>
    decreases |p|, 0
  {
    if p == [] then None
    else
      match FirstMember(members, p[0].name, 0)
      case None => None
      case Some(i) => JsonAfter(members[i].value, p[0].indices, p[1..])
  }

  function JsonAfter(v: Json, indices: seq<nat>, rest: Path): Option<Json>
    decreases |rest|, |indices| + 1
  {
    if indices != [] then
      if v.JArray? && indices[0] < |v.items| then JsonAfter(v.items[indices[0]], indices[1..], rest) else None
    else if rest == [] then Some(v)
    else if v.JObject? then JsonIn(v.members, rest)
    else None
  }

  lemma {:induction false} FirstMemberIs(ms: seq<Node>, i: nat, from: nat)
    requires DistinctIds(ms) && from <= i < |ms|
    ensures FirstMember(AssembleAll(ms), NameOf(ms[i]), from) == Some(i)
    decreases i - from
  {
    if from < i {
      assert ms[from].id != ms[i].id;
      FirstMemberIs(ms, i, from + 1);
    }
  }

  /** One level of reading along a path. */
  lemma {:induction false} JsonStep(members: seq<Member>, i: nat, s: Segment, rest: Path)
    requires FirstMember(members, s.name, 0) == Some(i) && |s.indices| <= 1
    ensures JsonIn(members, [s] + rest)
         == if s.indices == [] then JsonAfter(members[i].value, [], rest)
            else if members[i].value.JArray? && s.indices[0] < |members[i].value.items| then
              JsonAfter(members[i].value.items[s.indices[0]], [], rest)
            else None
  {
    assert ([s] + rest)[1..] == rest;
    if s.indices != [] {
      assert s.indices[1..] == [];
    }
  }

  lemma {:induction false} PlacePathHere(ms: seq<Node>, loc: seq<nat>, index: nat)
    requires IsPlace(ms, loc, index) && |loc| == 1
    ensures PlacePath(ms, loc, index) == [Segment(NameOf(ms[loc[0]]), if ms[loc[0]].Array? then [index] else [])] + []
  {
    var n := ms[loc[0]];
    assert NodeAt(ms, loc) == n && LocPath(ms, loc) == [Segment(NameOf(n), [])];
    assert [] + [index] == [index];
  }

  /** The assembled JSON holds every cell at the cell's own path, deep places included. */
  lemma {:induction false} AssembledAt(ms: seq<Node>, loc: seq<nat>, index: nat)
    requires WellFormed(ms) && IsPlace(ms, loc, index)
    ensures JsonIn(AssembleAll(ms), PlacePath(ms, loc, index)) == Some(CellJson(CellAt(ms, loc, index)))
    decreases |loc|
  {
    if |loc| == 1 {
      AssembledHere(ms, loc, index);
    } else {
      var n := ms[loc[0]];
      PlacePathStep(ms, loc, index);
      if n.StructArray? {
        var e := n.elements[loc[1]];
        AssembledAt(e.members, loc[2..], index);
        AssembledInElement(ms, loc[0], loc[1], PlacePath(e.members, loc[2..], index));
        CellInElement(ms, loc, index);
      } else {
        AssembledAt(n.members, loc[1..], index);
        AssembledInStruct(ms, loc[0], PlacePath(n.members, loc[1..], index));
      }
    }
  }

  lemma {:induction false} AssembledHere(ms: seq<Node>, loc: seq<nat>, index: nat)
    requires WellFormed(ms) && IsPlace(ms, loc, index) && |loc| == 1
    ensures JsonIn(AssembleAll(ms), PlacePath(ms, loc, index)) == Some(CellJson(CellAt(ms, loc, index)))
  {
    var n := ms[loc[0]];
    PlacePathHere(ms, loc, index);
    FirstMemberIs(ms, loc[0], 0);
    JsonStep(AssembleAll(ms), loc[0], Segment(NameOf(n), if n.Array? then [index] else []), []);
  }

  lemma {:induction false} AssembledInStruct(ms: seq<Node>, i: nat, rest: Path)
    requires DistinctIds(ms) && i < |ms| && ms[i].Struct? && rest != []
    ensures JsonIn(AssembleAll(ms), [Segment(NameOf(ms[i]), [])] + rest) == JsonIn(AssembleAll(ms[i].members), rest)
  {
    FirstMemberIs(ms, i, 0);
    JsonStep(AssembleAll(ms), i, Segment(NameOf(ms[i]), []), rest);
  }

  lemma {:induction false} AssembledInElement(ms: seq<Node>, i: nat, k: nat, rest: Path)
    requires DistinctIds(ms) && i < |ms| && ms[i].StructArray? && k < |ms[i].elements| && rest != []
    requires ms[i].elements[k].Struct?
    ensures JsonIn(AssembleAll(ms), [Segment(NameOf(ms[i]), [k])] + rest)
         == JsonIn(AssembleAll(ms[i].elements[k].members), rest)
  {
    FirstMemberIs(ms, i, 0);
    JsonStep(AssembleAll(ms), i, Segment(NameOf(ms[i]), [k]), rest);
    assert AssembleNode(ms[i]).items[k] == AssembleNode(ms[i].elements[k]);
  }

  lemma {:induction false} CellInElement(ms: seq<Node>, loc: seq<nat>, index: nat)
    requires WellFormed(ms) && IsPlace(ms, loc, index) && |loc| > 2 && ms[loc[0]].StructArray?
    requires loc[1] < |ms[loc[0]].elements| && ms[loc[0]].elements[loc[1]].Struct?
    requires IsPlace(ms[loc[0]].elements[loc[1]].members, loc[2..], index)
    ensures NodeAt(ms, loc) == NodeAt(ms[loc[0]].elements[loc[1]].members, loc[2..])
  {
    assert loc[1..][1..] == loc[2..];
    assert NodeAt(ms, loc) == NodeAt(ms[loc[0]].elements, loc[1..]);
  }

  // ---------------------------------------------------------------- what an input supplies for a place

  /** A place below a node, or the node itself. */
  predicate IsCell(n: Node, loc: seq<nat>, index: nat) {
    if loc == [] then Settable(n, index) && (n.Leaf? ==> index == 0) else IsPlace(Children(n), loc, index)
  }

  function CellOf(n: Node, loc: seq<nat>, index: nat): Value
    requires IsCell(n, loc, index)
  {
    if loc != [] then CellAt(Children(n), loc, index) else if n.Leaf? then n.value else n.slots[index]
  }

  /** The value that members[from..] hold for the place; of several, the last. */
  function SuppliedIn(ms: seq<Node>, members: seq<Member>, from: nat, loc: seq<nat>, index: nat): Option<Value>
    requires InTree(ms, loc) && from <= |members|
    decreases |loc|, |members| - from + 1
  {
    if from == |members| then None
    else
      var later, m := SuppliedIn(ms, members, from + 1, loc, index), members[from];
      if later.Some? then later
      else if FirstNamed(ms, m.name, 0) == Some(loc[0]) then SuppliedAt(ms[loc[0]], m.value, loc[1..], index)
      else None
  }

  function SuppliedAt(n: Node, v: Json, loc: seq<nat>, index: nat): Option<Value>
    requires loc != [] ==> InTree(Children(n), loc)
    decreases |loc| + 1, 0
  {
    if loc == [] then
      if n.Leaf? && Argument(v, n.ty).Some? then Some(Stored(n.ty, false, Argument(v, n.ty)))
      else if n.Array? && v.JArray? && index < |v.items| && Argument(v.items[index], n.ty).Some? then
        Some(Stored(n.ty, true, Argument(v.items[index], n.ty)))
      else None
    else if n.Struct? && v.JObject? then SuppliedIn(n.members, v.members, 0, loc, index)
    else if n.StructArray? && v.JArray? && loc[0] < |v.items| then
      SuppliedAt(n.elements[loc[0]], v.items[loc[0]], loc[1..], index)
    else None
  }

  function OrOld(v: Option<Value>, was: Value): Value {
    if v.Some? then v.value else was
  }

  lemma {:induction false} SuppliedAtBlank(n: Node, v: Json, loc: seq<nat>, index: nat)
    requires loc != [] ==> InTree(Children(n), loc)
    ensures loc != [] ==> InTree(Children(Blank(n)), loc)
    ensures SuppliedAt(Blank(n), v, loc, index) == SuppliedAt(n, v, loc, index)
    decreases |loc| + 1, 0
  {
    if loc != [] {
      NodeAtBlank(Children(n), loc);
      assert Children(Blank(n)) == BlankAll(Children(n));
      if n.Struct? && v.JObject? {
        SuppliedInBlank(n.members, v.members, 0, loc, index);
      } else if n.StructArray? && v.JArray? && loc[0] < |v.items| {
        SuppliedAtBlank(n.elements[loc[0]], v.items[loc[0]], loc[1..], index);
      }
    }
  }

  lemma {:induction false} SuppliedInBlank(ms: seq<Node>, members: seq<Member>, from: nat, loc: seq<nat>, index: nat)
    requires InTree(ms, loc) && from <= |members|
    ensures InTree(BlankAll(ms), loc)
    ensures SuppliedIn(BlankAll(ms), members, from, loc, index) == SuppliedIn(ms, members, from, loc, index)
    decreases |loc|, |members| - from + 1
  {
    NodeAtBlank(ms, loc);
    if from < |members| {
      SuppliedInBlank(ms, members, from + 1, loc, index);
      FirstNamedBlank(ms, members[from].name, 0);
      SuppliedAtBlank(ms[loc[0]], members[from].value, loc[1..], index);
    }
  }

  // ---------------------------------------------------------------- the merge at a place

  lemma {:induction false} MergeCell(n: Node, v: Json, loc: seq<nat>, index: nat)
    requires IsCell(n, loc, index)
    ensures IsCell(MergeNode(n, v), loc, index)
    ensures CellOf(MergeNode(n, v), loc, index) == OrOld(SuppliedAt(n, v, loc, index), CellOf(n, loc, index))
    decreases |loc| + 1, 0
  {
    if loc != [] {
      if n.Struct? && v.JObject? {
        MergeMembersCell(n.members, v.members, 0, loc, index);
      } else if n.StructArray? && v.JArray? {
        var e, es := n.elements[loc[0]], MergeNode(n, v).elements;
        if loc[0] < |v.items| {
          MergeCell(e, v.items[loc[0]], loc[1..], index);
          assert es[loc[0]] == MergeNode(e, v.items[loc[0]]);
        } else {
          assert es[loc[0]] == e;
        }
      }
    }
  }

  /** One member merged into its node. */
  lemma {:induction false} MergeOneCell(ms: seq<Node>, i: nat, v: Json, loc: seq<nat>, index: nat)
    requires i < |ms| && IsPlace(ms, loc, index)
    ensures var next := ms[i := MergeNode(ms[i], v)];
            && IsPlace(next, loc, index)
            && CellAt(next, loc, index)
               == OrOld(if i == loc[0] then SuppliedAt(ms[i], v, loc[1..], index) else None, CellAt(ms, loc, index))
    decreases |loc|, 1
  {
    if i == loc[0] {
      MergeCell(ms[i], v, loc[1..], index);
    }
  }

  lemma {:induction false} MergeMembersCell(ms: seq<Node>, members: seq<Member>, from: nat, loc: seq<nat>, index: nat)
    requires from <= |members| && IsPlace(ms, loc, index)
    ensures IsPlace(MergeMembers(ms, members, from), loc, index)
    ensures CellAt(MergeMembers(ms, members, from), loc, index)
         == OrOld(SuppliedIn(ms, members, from, loc, index), CellAt(ms, loc, index))
    decreases |loc|, |members| - from + 2
  {
    if from < |members| {
      var i, v := FirstNamed(ms, members[from].name, 0), members[from].value;
      if i.None? {
        MergeMembersCell(ms, members, from + 1, loc, index);
      } else {
        var next := ms[i.value := MergeNode(ms[i.value], v)];
        MergeOneCell(ms, i.value, v, loc, index);
        MergeMembersCell(next, members, from + 1, loc, index);
        SuppliedInNext(ms, i.value, v, members, from + 1, loc, index);
      }
    }
  }

  lemma {:induction false} SuppliedInNext(ms: seq<Node>, i: nat, v: Json, members: seq<Member>, from: nat, loc: seq<nat>, index: nat)
    requires i < |ms| && InTree(ms, loc) && from <= |members|
    ensures var next := ms[i := MergeNode(ms[i], v)];
            InTree(next, loc) && SuppliedIn(next, members, from, loc, index) == SuppliedIn(ms, members, from, loc, index)
  {
    var next := ms[i := MergeNode(ms[i], v)];
    MergeKeepsShape(ms[i], v);
    assert BlankAll(next) == BlankAll(ms);
    NodeAtBlank(ms, loc);
    NodeAtBlank(next, loc);
    SuppliedInBlank(ms, members, from, loc, index);
    SuppliedInBlank(next, members, from, loc, index);
  }

  // ---------------------------------------------------------------- set, then assemble

  /** After a conforming property-set the assembled JSON shows, at every place, the last value supplied or the old one. */
  lemma {:induction false} SetThenAssemble(t: seq<Node>, members: seq<Member>, loc: seq<nat>, index: nat)
    requires Ready(t) && MembersConform(t, members) && IsPlace(t, loc, index)
    ensures var (u, status) := FlattenMembers(t, None, members, 0);
            && status == Ok
            && JsonIn(AssembleAll(u), PlacePath(t, loc, index))
               == Some(CellJson(OrOld(SuppliedIn(t, members, 0, loc, index), CellAt(t, loc, index))))
  {
    FlattenIsMerge(t, members, 0);
    var u := MergeMembers(t, members, 0);
    MergeMembersCell(t, members, 0, loc, index);
    MergeMembersWellFormed(t, members, 0);
    AssembledAt(u, loc, index);
    MergeMembersKeepsShape(t, members, 0);
    LocPathBlank(t, loc);
    LocPathBlank(u, loc);
    NodeAtBlank(t, loc);
    NodeAtBlank(u, loc);
  }

  // ---------------------------------------------------------------- inputs without duplicate names

  predicate NoDuplicates(v: Json)
    decreases v, 0
  {
    match v
    case JObject(members) => MembersDistinct(members)
    case JArray(items) => forall k :: 0 <= k < |items| ==> NoDuplicates(items[k])
    case _ => true
  }

  predicate MembersDistinct(members: seq<Member>)
    decreases members, 0
  {
    && (forall i, j :: 0 <= i < j < |members| ==> members[i].name != members[j].name)
    && (forall i :: 0 <= i < |members| ==> NoDuplicates(members[i].value))
  }

  /** What the input's own JSON says at a path, once a setter has taken it. */
  function Taken(j: Option<Json>, n: Node): Option<Value> {
    if j.Some? && CellArgument(j.value, n).Some? then Some(Stored(n.ty, n.Array?, CellArgument(j.value, n))) else None
  }

  lemma {:induction false} SuppliedWhere(ms: seq<Node>, members: seq<Member>, from: nat, loc: seq<nat>, index: nat)
    requires WellFormed(ms) && InTree(ms, loc) && from <= |members|
    requires forall i, j :: 0 <= i < j < |members| ==> members[i].name != members[j].name
    ensures SuppliedIn(ms, members, from, loc, index)
         == match FirstMember(members, NameOf(ms[loc[0]]), from)
            case None => None
            case Some(k) => SuppliedAt(ms[loc[0]], members[k].value, loc[1..], index)
    decreases |members| - from
  {
    if from < |members| {
      SuppliedWhere(ms, members, from + 1, loc, index);
      FirstNamedIs(ms, loc[0], 0);
      var i := FirstNamed(ms, members[from].name, 0);
      if members[from].name == NameOf(ms[loc[0]]) {
        assert FirstMember(members, members[from].name, from + 1).None?;
      }
    }
  }

  /** For an input without duplicate names, what it supplies for a place is what it says at the place's path. */
  lemma {:induction false} SuppliedIsInput(ms: seq<Node>, members: seq<Member>, loc: seq<nat>, index: nat)
    requires WellFormed(ms) && IsPlace(ms, loc, index) && MembersDistinct(members) && MembersConform(ms, members)
    ensures SuppliedIn(ms, members, 0, loc, index) == Taken(JsonIn(members, PlacePath(ms, loc, index)), NodeAt(ms, loc))
    decreases |loc|
  {
    hide FirstMember;
    var n, i := ms[loc[0]], FirstMember(members, NameOf(ms[loc[0]]), 0);
    SuppliedWhere(ms, members, 0, loc, index);
    if i.Some? {
      var v := members[i.value].value;
      FirstNamedIs(ms, loc[0], 0);
      assert Conforms(n, v) && NoDuplicates(v);
      if |loc| == 1 {
        PlacePathHere(ms, loc, index);
        JsonStep(members, i.value, Segment(NameOf(n), if n.Array? then [index] else []), []);
      } else {
        PlacePathStep(ms, loc, index);
        if n.StructArray? {
          var e := n.elements[loc[1]];
          JsonStep(members, i.value, Segment(NameOf(n), [loc[1]]), PlacePath(e.members, loc[2..], index));
          CellInElement(ms, loc, index);
          SuppliedInElement(n, v, loc, index);
          if v.JArray? && loc[1] < |v.items| && v.items[loc[1]].JObject? {
            assert Conforms(e, v.items[loc[1]]) && NoDuplicates(v.items[loc[1]]);
            SuppliedIsInput(e.members, v.items[loc[1]].members, loc[2..], index);
          }
        } else {
          JsonStep(members, i.value, Segment(NameOf(n), []), PlacePath(n.members, loc[1..], index));
          if v.JObject? {
            SuppliedIsInput(n.members, v.members, loc[1..], index);
          }
        }
      }
    }
  }

  lemma {:induction false} SuppliedInElement(n: Node, v: Json, loc: seq<nat>, index: nat)
    requires n.StructArray? && |loc| > 2 && InTree(n.elements, loc[1..]) && n.elements[loc[1]].Struct?
    ensures InTree(n.elements[loc[1]].members, loc[2..])
    ensures SuppliedAt(n, v, loc[1..], index)
         == if v.JArray? && loc[1] < |v.items| && v.items[loc[1]].JObject? then
              SuppliedIn(n.elements[loc[1]].members, v.items[loc[1]].members, 0, loc[2..], index)
            else None
  {
    assert loc[1..][1..] == loc[2..];
  }

  /** The round trip in terms of JSON alone: the output agrees with the input where it was taken, with the old output
      elsewhere. */
  lemma {:induction false} RoundTrip(t: seq<Node>, members: seq<Member>, loc: seq<nat>, index: nat)
    requires Ready(t) && MembersConform(t, members) && MembersDistinct(members) && IsPlace(t, loc, index)
    ensures var p := PlacePath(t, loc, index);
            var u := FlattenMembers(t, None, members, 0).0;
            var taken := Taken(JsonIn(members, p), NodeAt(t, loc));
            JsonIn(AssembleAll(u), p) == if taken.Some? then Some(CellJson(taken.value)) else JsonIn(AssembleAll(t), p)
  {
    SetThenAssemble(t, members, loc, index);
    SuppliedIsInput(t, members, loc, index);
    AssembledAt(t, loc, index);
  }

  /** What a setter takes, type by type: a number for a cell that holds one, a text for a cell that holds one; only a scalar
      enum or bool is normalised.  Everything else is let pass. */
  lemma {:induction false} TakenComesBack(v: Json, n: Node)
    ensures (n.Leaf? || n.Array?) && v.JNumber? ==>
              match n.ty
              case IntT => Taken(Some(v), n) == Some(IntV(v.i))
              case EnumT => Taken(Some(v), n) == Some(IntV(if n.Leaf? && v.i < 0 then 0 else v.i))
              case BoolT => Taken(Some(v), n) == Some(IntV(if n.Leaf? && v.i != 1 then 0 else v.i))
              case FloatT => Taken(Some(v), n) == Some(RealV(v.r))
              case DoubleT => Taken(Some(v), n) == Some(RealV(v.r))
              case TextT => Taken(Some(v), n) == None
              case DateT => Taken(Some(v), n) == None
    ensures (n.Leaf? || n.Array?) && v.JString? ==>
              Taken(Some(v), n) == if n.ty == TextT || n.ty == DateT then Some(TextV(Some(v.s))) else None
    ensures v.JObject? || v.JArray? || v.JOther? || n.Struct? || n.StructArray? ==> Taken(Some(v), n) == None
    ensures Taken(None, n) == None
  {
  }

  /** What the program makes of one value of the input, in terms of JSON alone: `given` for the place of a cell whose old
      value shows as `was`.  A real shows its own number. */
  ghost predicate Shows(n: Node, given: Option<Json>, was: Json, now: Json)
    requires n.Leaf? || n.Array?
  {
    match given
    case Some(JNumber(i, r)) =>
      (match n.ty
       case IntT => now == JNumber(i, i as real)
       case EnumT => now == if n.Leaf? && i < 0 then JNumber(0, 0.0) else JNumber(i, i as real)
       case BoolT => now == if n.Leaf? && i != 1 then JNumber(0, 0.0) else JNumber(i, i as real)
       case FloatT => now.JNumber? && now.r == r
       case DoubleT => now.JNumber? && now.r == r
       case TextT => now == was
       case DateT => now == was)
    case Some(JString(text)) => now == if n.ty == TextT || n.ty == DateT then JString(text) else was
    case _ => now == was
  }

  /** The input comes back, type by type. */
  lemma {:induction false} InputComesBack(t: seq<Node>, members: seq<Member>, loc: seq<nat>, index: nat)
    requires Ready(t) && MembersConform(t, members) && MembersDistinct(members) && IsPlace(t, loc, index)
    ensures var p, (u, status) := PlacePath(t, loc, index), FlattenMembers(t, None, members, 0);
            && status == Ok && JsonIn(AssembleAll(t), p).Some? && JsonIn(AssembleAll(u), p).Some?
            && Shows(NodeAt(t, loc), JsonIn(members, p), JsonIn(AssembleAll(t), p).value, JsonIn(AssembleAll(u), p).value)
  {
    hide JsonIn, AssembleAll, FlattenMembers, PlacePath, MembersConform, MembersDistinct, WellFormed, Documented, Taken;
    RoundTrip(t, members, loc, index);
    SetThenAssemble(t, members, loc, index);
    AssembledAt(t, loc, index);
    var given := JsonIn(members, PlacePath(t, loc, index));
    TakenComesBack(if given.Some? then given.value else JOther, NodeAt(t, loc));
  }

  /** Cells as JSON: integers and reals as numbers, texts as strings, and a text that was never set as the empty one. */
  lemma {:induction false} CellsShow(i: int, r: real, s: string)
    ensures CellJson(IntV(i)) == JNumber(i, i as real)
    ensures var j := CellJson(RealV(r));
            j.JNumber? && j.r == r && if r >= 0.0 then j.i as real <= r < (j.i + 1) as real else (j.i - 1) as real < r <= j.i as real
    ensures CellJson(TextV(Some(s))) == JString(s) && CellJson(TextV(None)) == JString("")
  {
  }

  // ---------------------------------------------------------------- an input of every kind

  const POINT := [Leaf(Some("x"), IntT, IntV(0)), Array(Some("y"), FloatT, [RealV(0.0), RealV(0.0)])]
  const EVERY_KIND :=
    [Leaf(Some("b"), BoolT, IntV(0)), Leaf(Some("t"), TextT, TextV(None)), Array(Some("d"), DateT, [TextV(None)]),
     Struct(Some("s"), POINT), StructArray(Some("a"), [Struct(None, POINT)])]
  const POINT_INPUT := [Member("x", JNumber(5, 5.0)), Member("y", JArray([JNumber(1, 1.5), JOther]))]
  const INPUT :=
    [Member("t", JString("hi")), Member("b", JNumber(1, 1.0)), Member("d", JOther),
     Member("s", JObject(POINT_INPUT)), Member("a", JArray([JObject(POINT_INPUT)]))]

  lemma {:induction false} PointOk()
    ensures WellFormed(POINT) && MembersConform(POINT, POINT_INPUT) && MembersDistinct(POINT_INPUT)
  {
    assert WellFormedNode(POINT[0]) && WellFormedNode(POINT[1]);
    assert FirstNamed(POINT, "x", 0) == Some(0);
    assert FirstNamed(POINT, "y", 0) == Some(1);
    assert Conforms(POINT[0], POINT_INPUT[0].value) && Conforms(POINT[1], POINT_INPUT[1].value);
    assert NoDuplicates(POINT_INPUT[0].value) && NoDuplicates(POINT_INPUT[1].value);
  }

  lemma {:induction false} EveryKindDistinct()
    ensures DistinctIds(EVERY_KIND)
  {
    hide WellFormed, WellFormedNode;
  }

  lemma {:induction false} EveryKindWellFormed()
    ensures WellFormed(EVERY_KIND)
  {
    PointOk();
    var t, e := EVERY_KIND, Struct(None, POINT);
    hide MembersConform, MembersDistinct, Documented;
    assert WellFormedNode(e);
    assert WellFormedNode(t[0]) && WellFormedNode(t[1]) && WellFormedNode(t[2]);
    assert WellFormedNode(t[3]) && WellFormedNode(t[4]);
    assert forall i :: 0 <= i < |t| ==> WellFormedNode(t[i]);
    EveryKindDistinct();
    hide WellFormedNode, DistinctIds;
  }

  lemma {:induction false} EveryKindDocumented()
    ensures Documented(EVERY_KIND)
  {
    var t := EVERY_KIND;
    hide WellFormed, WellFormedNode, MembersConform;
    assert Children(POINT[0]) == [] && Children(POINT[1]) == [];
    assert DocumentedNode(POINT[0]) && DocumentedNode(POINT[1]);
    assert DocumentedNode(t[0]) && DocumentedNode(t[1]) && DocumentedNode(t[2]) && DocumentedNode(t[3]);
    assert forall j :: 0 <= j < |POINT| ==> Children(POINT[j]) == [];
    assert DocumentedNode(t[4]);
    hide DocumentedNode;
  }

  lemma {:induction false} EveryKindTree()
    ensures Ready(EVERY_KIND)
  {
    EveryKindWellFormed();
    EveryKindDocumented();
    hide WellFormed, Documented;
  }

  lemma {:induction false} EveryKindNames()
    ensures var t := EVERY_KIND;
            && FirstNamed(t, "b", 0) == Some(0) && FirstNamed(t, "t", 0) == Some(1) && FirstNamed(t, "d", 0) == Some(2)
            && FirstNamed(t, "s", 0) == Some(3) && FirstNamed(t, "a", 0) == Some(4)
  {
    EveryKindTree();
    hide WellFormed, Documented, FirstNamed;
    FirstNamedIs(EVERY_KIND, 0, 0);
    FirstNamedIs(EVERY_KIND, 1, 0);
    FirstNamedIs(EVERY_KIND, 2, 0);
    FirstNamedIs(EVERY_KIND, 3, 0);
    FirstNamedIs(EVERY_KIND, 4, 0);
    TopDistinct(EVERY_KIND);
  }

  lemma {:induction false} TopDistinct(ms: seq<Node>)
    ensures WellFormed(ms) ==> DistinctIds(ms)
  {
  }

  lemma {:induction false} EveryKindInput()
    ensures MembersConform(EVERY_KIND, INPUT) && MembersDistinct(INPUT)
  {
    PointOk();
    EveryKindNames();
    hide WellFormed, Documented, FirstNamed;
    var t, e := EVERY_KIND, Struct(None, POINT);
    assert Conforms(e, JObject(POINT_INPUT));
    assert Conforms(t[0], INPUT[1].value) && Conforms(t[1], INPUT[0].value) && Conforms(t[2], INPUT[2].value);
    assert Conforms(t[3], INPUT[3].value) && Conforms(t[4], INPUT[4].value);
    assert NoDuplicates(JObject(POINT_INPUT));
    assert forall j :: 0 <= j < |INPUT| ==> NoDuplicates(INPUT[j].value);
  }

  /** The laws above apply to a tree and an input with every kind of property and value. */
  lemma {:induction false} EveryKindOk()
    ensures Ready(EVERY_KIND) && MembersConform(EVERY_KIND, INPUT) && MembersDistinct(INPUT)
  {
    EveryKindTree();
    EveryKindInput();
    hide Ready, MembersConform, MembersDistinct;
  }
}
