/**
  The refinement: on a well-formed tree, and JSON that follows its schema and supplies scalars for shallow places only, the
  string-keyed writes succeed and leave exactly the structural merge.  Under the documented schema all places are shallow.
*/
module FlattenRefines {
  import opened Text
  import opened ShadowTree
  import opened ShadowLaws
  import opened Paths
  import opened PropertySet

  // ---------------------------------------------------------------- locations and replacement

  lemma {:induction false} LocExtend(t: seq<Node>, loc: seq<nat>, i: nat, x: Node)
    requires InTree(t, loc) && i < |Children(NodeAt(t, loc))|
    ensures InTree(t, loc + [i]) && NodeAt(t, loc + [i]) == Children(NodeAt(t, loc))[i]
    ensures ReplaceAt(t, loc + [i], x)
         == ReplaceAt(t, loc, WithChildren(NodeAt(t, loc), Children(NodeAt(t, loc))[i := x]))
    decreases |loc|
  {
    var l := loc + [i];
    if |loc| == 1 {
      assert l[1..] == [i];
    } else {
      assert l[1..] == loc[1..] + [i];
      LocExtend(Children(t[loc[0]]), loc[1..], i, x);
    }
  }

  lemma {:induction false} ReplaceTwice(t: seq<Node>, loc: seq<nat>, a: Node, b: Node)
    requires InTree(t, loc)
    ensures InTree(ReplaceAt(t, loc, a), loc)
    ensures ReplaceAt(ReplaceAt(t, loc, a), loc, b) == ReplaceAt(t, loc, b)
    decreases |loc|
  {
    if |loc| > 1 {
      var cs := Children(t[loc[0]]);
      ReplaceTwice(cs, loc[1..], a, b);
      assert Children(WithChildren(t[loc[0]], ReplaceAt(cs, loc[1..], a))) == ReplaceAt(cs, loc[1..], a);
    }
  }

  lemma {:induction false} ReplaceSame(t: seq<Node>, loc: seq<nat>)
    requires InTree(t, loc)
    ensures ReplaceAt(t, loc, NodeAt(t, loc)) == t
    decreases |loc|
  {
    if |loc| > 1 {
      ReplaceSame(Children(t[loc[0]]), loc[1..]);
      assert WithChildren(t[loc[0]], Children(t[loc[0]])) == t[loc[0]];
    }
  }

  lemma {:induction false} NodeAtWellFormed(t: seq<Node>, loc: seq<nat>)
    requires WellFormed(t) && InTree(t, loc)
    ensures WellFormedNode(NodeAt(t, loc))
    decreases |loc|
  {
    if |loc| > 1 {
      ChildrenWellFormed(t[loc[0]], loc);
      if t[loc[0]].Struct? {
        NodeAtWellFormed(t[loc[0]].members, loc[1..]);
      } else {
        var tail := loc[1..];
        if |tail| > 1 {
          NodeAtWellFormed(t[loc[0]].elements[tail[0]].members, tail[1..]);
        }
      }
    }
  }

  lemma {:induction false} ChildrenWellFormed(n: Node, loc: seq<nat>)
    requires WellFormedNode(n) && |loc| > 1 && InTree(Children(n), loc[1..])
    ensures n.Struct? || n.StructArray?
    ensures n.StructArray? ==> forall k :: 0 <= k < |n.elements| ==> n.elements[k].Struct? && WellFormedNode(n.elements[k])
  {
  }

  lemma {:induction false} ReplaceWellFormed(t: seq<Node>, loc: seq<nat>, n: Node)
    requires WellFormed(t) && InTree(t, loc) && WellFormedNode(n) && Blank(n) == Blank(NodeAt(t, loc))
    ensures WellFormed(ReplaceAt(t, loc, n))
    decreases |loc|
  {
    if |loc| > 1 {
      var m := t[loc[0]];
      ChildrenWellFormed(m, loc);
      if m.Struct? {
        ReplaceWellFormed(m.members, loc[1..], n);
      } else if |loc| > 2 {
        var tail := loc[1..];
        ReplaceWellFormed(m.elements[tail[0]].members, tail[1..], n);
      }
    }
  }

  lemma {:induction false} DocumentedBlank(ms: seq<Node>)
    ensures Documented(BlankAll(ms)) == Documented(ms)
    decreases ms, 0
  {
    forall i | 0 <= i < |ms| ensures DocumentedNode(Blank(ms[i])) == DocumentedNode(ms[i]) {
      DocumentedNodeBlank(ms[i]);
    }
  }

  lemma {:induction false} DocumentedNodeBlank(n: Node)
    ensures DocumentedNode(Blank(n)) == DocumentedNode(n)
    decreases n, 1
  {
    if n.Struct? {
      DocumentedBlank(n.members);
    } else if n.StructArray? {
      forall k, j | 0 <= k < |n.elements| && 0 <= j < |Children(n.elements[k])|
        ensures |Children(Blank(n.elements[k]))| == |Children(n.elements[k])|
        ensures Children(Children(Blank(n.elements[k]))[j]) == [] <==> Children(Children(n.elements[k])[j]) == []
      {
        assert Children(Blank(n.elements[k])) == BlankAll(Children(n.elements[k]));
        var c := Children(n.elements[k])[j];
        assert Children(Blank(c)) == BlankAll(Children(c));
      }
      assert forall k :: 0 <= k < |n.elements| ==> Children(Blank(n.elements[k])) == BlankAll(Children(n.elements[k]));
    }
  }

  lemma {:induction false} LocPathBlank(t: seq<Node>, loc: seq<nat>)
    requires InTree(t, loc)
    ensures InTree(BlankAll(t), loc) && LocPath(BlankAll(t), loc) == LocPath(t, loc)
    decreases |loc|
  {
    NodeAtBlank(t, loc);
    var n := t[loc[0]];
    if |loc| > 1 {
      assert Children(Blank(n)) == BlankAll(Children(n));
      if n.StructArray? {
        assert InTree(Children(n), loc[1..]) && loc[1..][1..] == loc[2..];
        if |loc| > 2 {
          var e := n.elements[loc[1]];
          assert Children(Blank(e)) == BlankAll(Children(e));
          LocPathBlank(Children(e), loc[2..]);
        }
      } else {
        LocPathBlank(Children(n), loc[1..]);
      }
    }
  }

  /** How the path of a location grows by one child. */
  lemma {:induction false} LocPathExtend(t: seq<Node>, loc: seq<nat>, i: nat)
    requires WellFormed(t) && InTree(t, loc) && i < |Children(NodeAt(t, loc))|
    ensures InTree(t, loc + [i])
    ensures LocPath(t, loc + [i]) == Extended(LocPath(t, loc), NodeAt(t, loc), i)
    decreases |loc|
  {
    var l, n := loc + [i], t[loc[0]];
    LocExtend(t, loc, i, n);
    if |loc| == 1 {
      assert l[1..] == [i] && [] + [i] == [i];
    } else {
      ChildrenWellFormed(n, loc);
      hide LocPath, Extended;
      if n.Struct? {
        assert l[1..] == loc[1..] + [i];
        LocPathInStruct(t, loc);
        LocPathInStruct(t, l);
        LocPathExtend(n.members, loc[1..], i);
        ExtendedMore(Segment(NameOf(n), []), LocPath(n.members, loc[1..]), NodeAt(t, loc), i);
      } else if |loc| == 2 {
        ElementPathExtend(t, loc, i);
      } else {
        assert l[2..] == loc[2..] + [i] && l[1] == loc[1];
        LocPathInElement(t, loc);
        LocPathInElement(t, l);
        var es := n.elements[loc[1]].members;
        LocPathExtend(es, loc[2..], i);
        ExtendedMore(Segment(NameOf(n), [loc[1]]), LocPath(es, loc[2..]), NodeAt(t, loc), i);
      }
    }
  }

  lemma {:induction false} LocPathInStruct(t: seq<Node>, loc: seq<nat>)
    requires InTree(t, loc) && |loc| > 1 && t[loc[0]].Struct?
    ensures var n := t[loc[0]];
            && InTree(n.members, loc[1..]) && NodeAt(t, loc) == NodeAt(n.members, loc[1..])
            && LocPath(t, loc) == [Segment(NameOf(n), [])] + LocPath(n.members, loc[1..])
  {
  }

  lemma {:induction false} LocPathInElement(t: seq<Node>, loc: seq<nat>)
    requires InTree(t, loc) && |loc| > 2 && t[loc[0]].StructArray?
    requires loc[1] < |t[loc[0]].elements| && t[loc[0]].elements[loc[1]].Struct?
    ensures var n := t[loc[0]];
            var es := n.elements[loc[1]].members;
            && InTree(es, loc[2..]) && NodeAt(t, loc) == NodeAt(es, loc[2..])
            && LocPath(t, loc) == [Segment(NameOf(n), [loc[1]])] + LocPath(es, loc[2..])
  {
    assert loc[1..][1..] == loc[2..] && InTree(t[loc[0]].elements, loc[1..]);
  }

  lemma {:induction false} ExtendedMore(s: Segment, p: Path, n: Node, i: nat)
    requires p != [] && i < |Children(n)|
    ensures Extended([s] + p, n, i) == [s] + Extended(p, n, i)
  {
    assert [s] + p + [Segment(NameOf(Children(n)[i]), [])] == [s] + (p + [Segment(NameOf(Children(n)[i]), [])]);
  }

  function Extended(p: Path, n: Node, i: nat): Path
    requires p != [] && i < |Children(n)|
  {
    if n.StructArray? then AddIndex(p, i) else p + [Segment(NameOf(Children(n)[i]), [])]
  }

  lemma {:induction false} ElementPathExtend(t: seq<Node>, loc: seq<nat>, i: nat)
    requires WellFormed(t) && InTree(t, loc) && |loc| == 2 && t[loc[0]].StructArray?
    requires i < |Children(NodeAt(t, loc))| && InTree(t, loc + [i])
    requires NodeAt(t, loc).Struct?
    ensures LocPath(t, loc + [i]) == Extended(LocPath(t, loc), NodeAt(t, loc), i)
  {
    var l, n := loc + [i], t[loc[0]];
    assert loc[1..] == [loc[1]] && l[2..] == [i] && l[1] == loc[1];
    assert NodeAt(t, loc) == n.elements[loc[1]];
    assert LocPath(t, loc) == [Segment(NameOf(n), [loc[1]])];
    assert LocPath(n.elements[loc[1]].members, [i]) == [Segment(NameOf(n.elements[loc[1]].members[i]), [])];
  }

  // ---------------------------------------------------------------- one scalar

  ghost predicate Ready(t: seq<Node>) { WellFormed(t) && Documented(t) }

  lemma {:induction false} ReplaceKeeps(t: seq<Node>, loc: seq<nat>, n: Node)
    requires WellFormed(t) && InTree(t, loc) && WellFormedNode(n) && Blank(n) == Blank(NodeAt(t, loc))
    ensures var u := ReplaceAt(t, loc, n);
            && WellFormed(u) && BlankAll(u) == BlankAll(t)
            && InTree(u, loc) && NodeAt(u, loc) == n && LocPath(u, loc) == LocPath(t, loc)
  {
    var u := ReplaceAt(t, loc, n);
    ReplaceWellFormed(t, loc, n);
    ReplacedKeepsShape(t, loc, n);
    NodeAtReplaced(t, loc, n);
    LocPathBlank(t, loc);
    LocPathBlank(u, loc);
  }

  // ---------------------------------------------------------------- inputs whose scalars have working keys

  /** What the value supplies at the location goes to shallow places only; `b` is the shape of the tree. */
  ghost predicate Reaches(b: seq<Node>, loc: seq<nat>, v: Json)
    decreases v, 0
  {
    InTree(b, loc) &&
    match NodeAt(b, loc)
    case Leaf(_, _, _) => v.JOther? || Shallow(b, loc)
    case Array(_, _, _) => v.JArray? ==> ItemsReach(b, loc, v.items)
    case Struct(_, ms) => v.JObject? ==> MembersReach(b, ms, loc, v.members)
    case StructArray(_, es) => v.JArray? ==> forall k :: 0 <= k < |v.items| && k < |es| ==> Reaches(b, loc + [k], v.items[k])
  }

  ghost predicate ItemsReach(b: seq<Node>, loc: seq<nat>, items: seq<Json>)
    requires InTree(b, loc)
  {
    forall k :: 0 <= k < |items| ==> items[k].JOther? || Shallow(b, loc)
  }

  ghost predicate MembersReach(b: seq<Node>, ms: seq<Node>, loc: seq<nat>, members: seq<Member>)
    decreases members, 0
  {
    forall j :: 0 <= j < |members| ==>
      var i := FirstNamed(ms, members[j].name, 0);
      i.Some? ==> Reaches(b, loc + [i.value], members[j].value)
  }

  lemma {:induction false} ShallowBlank(t: seq<Node>, loc: seq<nat>)
    requires InTree(t, loc)
    ensures InTree(BlankAll(t), loc) && Shallow(BlankAll(t), loc) == Shallow(t, loc)
    decreases |loc|
  {
    NodeAtBlank(t, loc);
    if |loc| > 1 && !t[loc[0]].StructArray? {
      assert Children(Blank(t[loc[0]])) == BlankAll(Children(t[loc[0]]));
      ShallowBlank(Children(t[loc[0]]), loc[1..]);
    }
  }

  /** Under the documented schema every conforming input is like that. */
  lemma {:induction false} DocumentedReaches(b: seq<Node>, loc: seq<nat>, v: Json)
    requires Ready(b) && InTree(b, loc) && Conforms(NodeAt(b, loc), v)
    ensures Reaches(b, loc, v)
    decreases v, 0
  {
    hide WellFormed, Documented, Shallow;
    var n := NodeAt(b, loc);
    match n
    case Leaf(_, _, _) => DocumentedIsShallow(b, loc, 0);
    case Array(_, _, slots) =>
      if v.JArray? && v.items != [] {
        DocumentedIsShallow(b, loc, 0);
      }
    case Struct(_, ms) =>
      if v.JObject? {
        DocumentedMembersReach(b, ms, loc, v.members);
      }
    case StructArray(_, es) =>
      if v.JArray? {
        forall k | 0 <= k < |v.items| && k < |es|
          ensures Reaches(b, loc + [k], v.items[k])
        {
          LocExtend(b, loc, k, es[k]);
          DocumentedReaches(b, loc + [k], v.items[k]);
        }
      }
  }

  lemma {:induction false} DocumentedMembersReach(b: seq<Node>, ms: seq<Node>, loc: seq<nat>, members: seq<Member>)
    requires Ready(b) && MembersConform(ms, members)
    requires if loc == [] then ms == b else InTree(b, loc) && Children(NodeAt(b, loc)) == ms
    ensures MembersReach(b, ms, loc, members)
    decreases members, 0
  {
    hide WellFormed, Documented, Reaches;
    forall j | 0 <= j < |members|
      ensures Reaches(b, loc + [FirstNamed(ms, members[j].name, 0).value], members[j].value)
    {
      var i := FirstNamed(ms, members[j].name, 0).value;
      if loc == [] {
        assert loc + [i] == [i];
      } else {
        LocExtend(b, loc, i, ms[i]);
      }
      DocumentedReaches(b, loc + [i], members[j].value);
    }
  }

  // ---------------------------------------------------------------- one scalar

  /** What a scalar does to the cell its key leads to. */
  function Put(n: Node, index: nat, v: Json): Node
    requires Settable(n, index)
  {
    if CellArgument(v, n).Some? then Write(n, index, CellArgument(v, n)) else n
  }

  lemma {:induction false} FlattenScalar(t: seq<Node>, loc: seq<nat>, index: nat, v: Json)
    requires WellFormed(t) && IsPlace(t, loc, index) && Scalar(v) && (v.JOther? || Shallow(t, loc))
    ensures FlattenValue(t, Print(PlacePath(t, loc, index)), v) == (ReplaceAt(t, loc, Put(NodeAt(t, loc), index, v)), Ok)
  {
    hide WellFormed, Shallow, ReplaceAt, PropertySearch, Print, PlacePath, Write;
    PlaceKeyResolves(t, loc, index);
    ReplaceSame(t, loc);
  }

  /** A scalar for a place that is not shallow is dropped or refused; it never gets anywhere. */
  lemma {:induction false} FlattenDeep(t: seq<Node>, loc: seq<nat>, index: nat, v: Json)
    requires WellFormed(t) && IsPlace(t, loc, index) && Scalar(v) && !Shallow(t, loc)
    ensures FlattenValue(t, Print(PlacePath(t, loc, index)), v) in [(t, Ok), (t, Failed)]
  {
    hide WellFormed, Shallow, PropertySearch, Print, PlacePath;
    PlacePathPlain(t, loc, index);
    PropertySearchPrinted(t, PlacePath(t, loc, index));
    DeepStops(t, loc, index);
  }

  // ---------------------------------------------------------------- any conforming value

  /** The flattener at a location merges the value into the node there. */
  lemma {:induction false} FlattenNode(t: seq<Node>, loc: seq<nat>, v: Json)
    requires WellFormed(t) && InTree(t, loc) && Conforms(NodeAt(t, loc), v) && Reaches(BlankAll(t), loc, v)
    ensures FlattenValue(t, Print(LocPath(t, loc)), v) == (ReplaceAt(t, loc, MergeNode(NodeAt(t, loc), v)), Ok)
    decreases v, 0
  {
    var n := NodeAt(t, loc);
    NodeAtWellFormed(t, loc);
    NodeAtBlank(t, loc);
    ShallowBlank(t, loc);
    hide WellFormed, Shallow, ReplaceAt, Print, LocPath, SlotsFrom, ElementsFrom;
    if v.JOther? {
      ReplaceSame(t, loc);
      MergeNothing(n);
    } else {
      match n
      case Leaf(_, _, _) =>
        FlattenScalar(t, loc, 0, v);
        LeafPlace(t, loc, v);
      case Array(_, _, _) =>
        FlattenSlots(t, loc, v.items, 0);
        SlotsAreMerge(n, v);
      case Struct(_, _) => FlattenStruct(t, loc, v.members, 0);
      case StructArray(_, _) =>
        FlattenElements(t, loc, v.items, 0);
        ElementsAreMerge(n, v);
    }
  }

  function SlotsFrom(n: Node, items: seq<Json>, from: nat): Node
    requires n.Array?
  {
    Array(n.id, n.ty, seq(|n.slots|, k requires 0 <= k < |n.slots| =>
      if k < from then n.slots[k] else MergeSlot(n.ty, n.slots[k], items, k)))
  }

  lemma {:induction false} MergeNothing(n: Node)
    ensures MergeNode(n, JOther) == n
  {
  }

  lemma {:induction false} LeafPlace(t: seq<Node>, loc: seq<nat>, v: Json)
    requires InTree(t, loc) && NodeAt(t, loc).Leaf?
    ensures PlacePath(t, loc, 0) == LocPath(t, loc) && Put(NodeAt(t, loc), 0, v) == MergeNode(NodeAt(t, loc), v)
  {
  }

  lemma {:induction false} SlotsAreMerge(n: Node, v: Json)
    requires n.Array? && v.JArray?
    ensures SlotsFrom(n, v.items, 0) == MergeNode(n, v)
  {
    assert SlotsFrom(n, v.items, 0).slots == MergeNode(n, v).slots;
  }

  lemma {:induction false} SlotsStep(n: Node, items: seq<Json>, from: nat)
    requires n.Array? && from < |items| <= |n.slots|
    ensures SlotsFrom(Put(n, from, items[from]), items, from + 1) == SlotsFrom(n, items, from)
  {
    var m := Put(n, from, items[from]);
    assert SlotsFrom(m, items, from + 1).slots == SlotsFrom(n, items, from).slots;
  }

  /** One slot of a scalar array, given the write of that slot alone. */
  lemma {:induction false} SlotMerged(t: seq<Node>, loc: seq<nat>, k: nat, v: Json)
    requires WellFormed(t) && InTree(t, loc) && NodeAt(t, loc).Array? && k < |NodeAt(t, loc).slots| && Scalar(v)
    requires v.JOther? || Shallow(t, loc)
    ensures var m := Put(NodeAt(t, loc), k, v);
            && FlattenValue(t, ElementKey(Print(LocPath(t, loc)), k), v) == (ReplaceAt(t, loc, m), Ok)
            && WellFormed(ReplaceAt(t, loc, m)) && BlankAll(ReplaceAt(t, loc, m)) == BlankAll(t)
            && InTree(ReplaceAt(t, loc, m), loc) && NodeAt(ReplaceAt(t, loc, m), loc) == m
            && LocPath(ReplaceAt(t, loc, m), loc) == LocPath(t, loc)
  {
    hide WellFormed, Shallow, ReplaceAt, PropertySearch, Print, LocPath, FlattenValue;
    var n, m := NodeAt(t, loc), Put(NodeAt(t, loc), k, v);
    PrintElement(LocPath(t, loc), k);
    FlattenScalar(t, loc, k, v);
    NodeAtWellFormed(t, loc);
    assert Blank(m).slots == Blank(n).slots;
    ReplaceKeeps(t, loc, m);
  }

  lemma {:induction false} FlattenSlots(t: seq<Node>, loc: seq<nat>, items: seq<Json>, from: nat)
    requires WellFormed(t) && InTree(t, loc) && NodeAt(t, loc).Array? && from <= |items| <= |NodeAt(t, loc).slots|
    requires InTree(BlankAll(t), loc) && ItemsReach(BlankAll(t), loc, items)
    requires forall k :: 0 <= k < |items| ==> Scalar(items[k])
    ensures FlattenItems(t, Print(LocPath(t, loc)), items, from)
         == (ReplaceAt(t, loc, SlotsFrom(NodeAt(t, loc), items, from)), Ok)
    decreases |items| - from
  {
    var n := NodeAt(t, loc);
    if from == |items| {
      assert SlotsFrom(n, items, from).slots == n.slots;
      ReplaceSame(t, loc);
    } else {
      hide WellFormed, Shallow, ReplaceAt, Print, LocPath, FlattenValue, NodeAt, InTree, SlotsFrom;
      var m := Put(n, from, items[from]);
      ShallowBlank(t, loc);
      SlotMerged(t, loc, from, items[from]);
      FlattenSlots(ReplaceAt(t, loc, m), loc, items, from + 1);
      SlotsStep(n, items, from);
      ReplaceTwice(t, loc, m, SlotsFrom(m, items, from + 1));
    }
  }

  /** One member of a structure, given the merge of that member alone. */
  lemma {:induction false} MemberMerged(t: seq<Node>, loc: seq<nat>, i: nat, v: Json)
    requires WellFormed(t) && InTree(t, loc) && NodeAt(t, loc).Struct? && i < |NodeAt(t, loc).members|
    ensures var n := NodeAt(t, loc);
            var m := Struct(n.id, n.members[i := MergeNode(n.members[i], v)]);
            && InTree(t, loc + [i]) && NodeAt(t, loc + [i]) == n.members[i]
            && ReplaceAt(t, loc + [i], MergeNode(n.members[i], v)) == ReplaceAt(t, loc, m)
            && Print(LocPath(t, loc + [i])) == MemberKey(Some(Print(LocPath(t, loc))), NameOf(n.members[i]))
            && BlankAll(m.members) == BlankAll(n.members)
            && WellFormed(ReplaceAt(t, loc, m)) && BlankAll(ReplaceAt(t, loc, m)) == BlankAll(t)
            && InTree(ReplaceAt(t, loc, m), loc) && NodeAt(ReplaceAt(t, loc, m), loc) == m
            && LocPath(ReplaceAt(t, loc, m), loc) == LocPath(t, loc)
  {
    hide ReplaceAt, Print, LocPath, MergeNode, InTree, NodeAt;
    var n := NodeAt(t, loc);
    var x := MergeNode(n.members[i], v);
    var m := Struct(n.id, n.members[i := x]);
    LocExtend(t, loc, i, x);
    LocPathExtend(t, loc, i);
    PrintMember(LocPath(t, loc), NameOf(n.members[i]));
    MergeKeepsShape(n.members[i], v);
    assert BlankAll(m.members) == BlankAll(n.members);
    NodeAtWellFormed(t, loc);
    MergeWellFormed(n.members[i], v);
    ReplaceKeeps(t, loc, m);
  }

  lemma {:induction false} SameConformance(a: seq<Node>, b: seq<Node>, members: seq<Member>)
    requires BlankAll(a) == BlankAll(b)
    ensures MembersConform(a, members) == MembersConform(b, members)
  {
    MembersConformBlank(a, members);
    MembersConformBlank(b, members);
  }

  /** What is known of one member of the input. */
  lemma {:induction false} NextMember(t: seq<Node>, ms: seq<Node>, loc: seq<nat>, members: seq<Member>, j: nat)
    requires j < |members| && MembersConform(ms, members) && MembersReach(BlankAll(t), BlankAll(ms), loc, members)
    ensures var i := FirstNamed(ms, members[j].name, 0);
            i.Some? && Conforms(ms[i.value], members[j].value) && Reaches(BlankAll(t), loc + [i.value], members[j].value)
  {
    hide Conforms, Reaches;
    FirstNamedBlank(ms, members[j].name, 0);
  }

  lemma {:induction false} FlattenFold(t: seq<Node>, key: Option<string>, members: seq<Member>, from: nat, u: seq<Node>)
    requires from < |members| && FlattenValue(t, MemberKey(key, members[from].name), members[from].value) == (u, Ok)
    ensures FlattenMembers(t, key, members, from) == FlattenMembers(u, key, members, from + 1)
  {
    hide FlattenValue;
  }

  lemma {:induction false} MergeFold(ms: seq<Node>, members: seq<Member>, from: nat)
    requires from < |members| && FirstNamed(ms, members[from].name, 0).Some?
    ensures var i := FirstNamed(ms, members[from].name, 0).value;
            MergeMembers(ms, members, from) == MergeMembers(ms[i := MergeNode(ms[i], members[from].value)], members, from + 1)
  {
    hide MergeNode;
  }

  lemma {:induction false} FlattenStruct(t: seq<Node>, loc: seq<nat>, members: seq<Member>, from: nat)
    requires WellFormed(t) && InTree(t, loc) && NodeAt(t, loc).Struct? && from <= |members|
    requires MembersConform(NodeAt(t, loc).members, members)
    requires MembersReach(BlankAll(t), BlankAll(NodeAt(t, loc).members), loc, members)
    ensures FlattenMembers(t, Some(Print(LocPath(t, loc))), members, from)
         == (ReplaceAt(t, loc, Struct(NodeAt(t, loc).id, MergeMembers(NodeAt(t, loc).members, members, from))), Ok)
    decreases members, |members| - from
  {
    var n := NodeAt(t, loc);
    if from == |members| {
      ReplaceSame(t, loc);
      assert Struct(n.id, n.members) == n;
    } else {
      NextMember(t, n.members, loc, members, from);
      var i, v := FirstNamed(n.members, members[from].name, 0).value, members[from].value;
      hide WellFormed, ReplaceAt, Print, LocPath, FlattenValue, NodeAt, InTree, Reaches, Conforms, MergeNode,
           MembersConform, MembersReach, FlattenMembers, MergeMembers;
      MemberMerged(t, loc, i, v);
      FlattenNode(t, loc + [i], v);
      MergeFold(n.members, members, from);
      FlattenFold(t, Some(Print(LocPath(t, loc))), members, from, ReplaceAt(t, loc + [i], MergeNode(n.members[i], v)));
      var m := Struct(n.id, n.members[i := MergeNode(n.members[i], v)]);
      SameConformance(m.members, n.members, members);
      FlattenStruct(ReplaceAt(t, loc, m), loc, members, from + 1);
      ReplaceTwice(t, loc, m, Struct(n.id, MergeMembers(m.members, members, from + 1)));
    }
  }

  function ElementsFrom(n: Node, items: seq<Json>, from: nat): Node
    requires n.StructArray?
  {
    StructArray(n.id, seq(|n.elements|, k requires 0 <= k < |n.elements| =>
      if from <= k < |items| then MergeNode(n.elements[k], items[k]) else n.elements[k]))
  }

  /** One element of a struct array, given the merge of that element alone. */
  lemma {:induction false} ElementMerged(t: seq<Node>, loc: seq<nat>, k: nat, v: Json)
    requires WellFormed(t) && InTree(t, loc) && NodeAt(t, loc).StructArray? && k < |NodeAt(t, loc).elements|
    ensures var n := NodeAt(t, loc);
            var m := StructArray(n.id, n.elements[k := MergeNode(n.elements[k], v)]);
            && InTree(t, loc + [k]) && NodeAt(t, loc + [k]) == n.elements[k]
            && ReplaceAt(t, loc + [k], MergeNode(n.elements[k], v)) == ReplaceAt(t, loc, m)
            && Print(LocPath(t, loc + [k])) == ElementKey(Print(LocPath(t, loc)), k)
            && WellFormed(ReplaceAt(t, loc, m)) && BlankAll(ReplaceAt(t, loc, m)) == BlankAll(t)
            && InTree(ReplaceAt(t, loc, m), loc) && NodeAt(ReplaceAt(t, loc, m), loc) == m
            && LocPath(ReplaceAt(t, loc, m), loc) == LocPath(t, loc)
  {
    hide WellFormed, ReplaceAt, Print, LocPath, MergeNode, InTree, NodeAt;
    var n := NodeAt(t, loc);
    var e := MergeNode(n.elements[k], v);
    var m := StructArray(n.id, n.elements[k := e]);
    LocExtend(t, loc, k, e);
    LocPathExtend(t, loc, k);
    PrintElement(LocPath(t, loc), k);
    MergeKeepsShape(n.elements[k], v);
    assert BlankAll(m.elements) == BlankAll(n.elements);
    NodeAtWellFormed(t, loc);
    MergeWellFormed(n.elements[k], v);
    ReplaceKeeps(t, loc, m);
  }

  lemma {:induction false} ElementsAreMerge(n: Node, v: Json)
    requires n.StructArray? && v.JArray?
    ensures ElementsFrom(n, v.items, 0) == MergeNode(n, v)
  {
    assert ElementsFrom(n, v.items, 0).elements == MergeNode(n, v).elements;
  }

  lemma {:induction false} ElementsStep(n: Node, items: seq<Json>, from: nat)
    requires n.StructArray? && from < |items| <= |n.elements|
    ensures ElementsFrom(StructArray(n.id, n.elements[from := MergeNode(n.elements[from], items[from])]), items, from + 1)
         == ElementsFrom(n, items, from)
  {
    var m := StructArray(n.id, n.elements[from := MergeNode(n.elements[from], items[from])]);
    assert ElementsFrom(m, items, from + 1).elements == ElementsFrom(n, items, from).elements;
  }

  lemma {:induction false} FlattenElements(t: seq<Node>, loc: seq<nat>, items: seq<Json>, from: nat)
    requires WellFormed(t) && InTree(t, loc) && NodeAt(t, loc).StructArray? && from <= |items| <= |NodeAt(t, loc).elements|
    requires forall k :: from <= k < |items| ==> Reaches(BlankAll(t), loc + [k], items[k])
    requires forall k :: from <= k < |items| ==> Conforms(NodeAt(t, loc).elements[k], items[k])
    ensures FlattenItems(t, Print(LocPath(t, loc)), items, from)
         == (ReplaceAt(t, loc, ElementsFrom(NodeAt(t, loc), items, from)), Ok)
    decreases items, |items| - from
  {
    var n := NodeAt(t, loc);
    if from == |items| {
      assert ElementsFrom(n, items, from).elements == n.elements;
      ReplaceSame(t, loc);
    } else {
      hide WellFormed, ReplaceAt, Print, LocPath, FlattenValue, NodeAt, InTree, MergeNode, Conforms, ElementsFrom, Reaches;
      ElementMerged(t, loc, from, items[from]);
      FlattenNode(t, loc + [from], items[from]);
      var m := StructArray(n.id, n.elements[from := MergeNode(n.elements[from], items[from])]);
      ElementsStep(n, items, from);
      FlattenElements(ReplaceAt(t, loc, m), loc, items, from + 1);
      ReplaceTwice(t, loc, m, ElementsFrom(m, items, from + 1));
    }
  }

  // ---------------------------------------------------------------- the whole property-set

  /** One property. */
  lemma {:induction false} PropertyMerged(t: seq<Node>, i: nat, v: Json)
    requires WellFormed(t) && i < |t| && Conforms(t[i], v) && Reaches(BlankAll(t), [i], v)
    ensures var u := t[i := MergeNode(t[i], v)];
            && FlattenValue(t, MemberKey(None, NameOf(t[i])), v) == (u, Ok)
            && WellFormed(u) && BlankAll(u) == BlankAll(t)
  {
    hide FlattenValue, Reaches, Conforms, MergeNode;
    assert LocPath(t, [i]) == [Segment(NameOf(t[i]), [])];
    FlattenNode(t, [i], v);
    MergeKeepsShape(t[i], v);
    NodeAtWellFormed(t, [i]);
    MergeWellFormed(t[i], v);
    ReplaceKeeps(t, [i], MergeNode(t[i], v));
  }

  /** One step of both folds: the tree after it, which takes the rest of the input like the one before. */
  lemma {:induction false} NextTree(t: seq<Node>, members: seq<Member>, from: nat) returns (u: seq<Node>)
    requires WellFormed(t) && from < |members| && MembersConform(t, members)
    requires MembersReach(BlankAll(t), BlankAll(t), [], members)
    ensures WellFormed(u) && MembersConform(u, members) && MembersReach(BlankAll(u), BlankAll(u), [], members)
    ensures FlattenMembers(t, None, members, from) == FlattenMembers(u, None, members, from + 1)
    ensures MergeMembers(t, members, from) == MergeMembers(u, members, from + 1)
  {
    hide WellFormed, FlattenValue, Reaches, Conforms, MergeNode, MembersConform, MembersReach, FlattenMembers, MergeMembers,
         FirstNamed, Blank, BlankAll;
    NextMember(t, t, [], members, from);
    var i, v := FirstNamed(t, members[from].name, 0).value, members[from].value;
    assert [] + [i] == [i];
    assert NameOf(t[i]) == members[from].name;
    u := t[i := MergeNode(t[i], v)];
    PropertyMerged(t, i, v);
    MergeFold(t, members, from);
    FlattenFold(t, None, members, from, u);
    SameConformance(t, u, members);
  }

  lemma {:induction false} FoldsEnd(t: seq<Node>, members: seq<Member>)
    ensures FlattenMembers(t, None, members, |members|) == (t, Ok) && MergeMembers(t, members, |members|) == t
  {
  }

  /** The fold of string-keyed writes is the direct merge, and it succeeds, whatever the schema, if what is supplied goes to
      shallow places. */
  lemma {:induction false} FlattenMerges(t: seq<Node>, members: seq<Member>, from: nat)
    requires WellFormed(t) && from <= |members| && MembersConform(t, members)
    requires MembersReach(BlankAll(t), BlankAll(t), [], members)
    ensures FlattenMembers(t, None, members, from) == (MergeMembers(t, members, from), Ok)
    decreases |members| - from
  {
    hide WellFormed, MembersConform, MembersReach, FlattenMembers, MergeMembers, BlankAll;
    if from == |members| {
      FoldsEnd(t, members);
    } else {
      var u := NextTree(t, members, from);
      FlattenMerges(u, members, from + 1);
    }
  }

  /** Under the documented schema that is every conforming input. */
  lemma {:induction false} FlattenIsMerge(t: seq<Node>, members: seq<Member>, from: nat)
    requires Ready(t) && from <= |members| && MembersConform(t, members)
    ensures FlattenMembers(t, None, members, from) == (MergeMembers(t, members, from), Ok)
  {
    hide Reaches, FlattenMembers, MergeMembers;
    BlankWellFormed(t);
    DocumentedBlank(t);
    MembersConformBlank(t, members);
    DocumentedMembersReach(BlankAll(t), BlankAll(t), [], members);
    FlattenMerges(t, members, from);
  }

  lemma {:induction false} BlankWellFormed(t: seq<Node>)
    requires WellFormed(t)
    ensures WellFormed(BlankAll(t))
    decreases t, 0
  {
    forall i | 0 <= i < |t|
      ensures WellFormedNode(Blank(t[i]))
    {
      BlankNodeWellFormed(t[i]);
    }
  }

  lemma {:induction false} BlankNodeWellFormed(n: Node)
    requires WellFormedNode(n)
    ensures WellFormedNode(Blank(n))
    decreases n, 1
  {
    match n
    case Leaf(_, _, _) =>
    case Array(_, _, _) =>
    case Struct(_, ms) => BlankWellFormed(ms);
    case StructArray(_, es) =>
      forall k | 0 <= k < |es|
        ensures WellFormedNode(Blank(es[k])) && Blank(es[k]).Struct? && Blank(es[k]).id.None?
      {
        BlankNodeWellFormed(es[k]);
      }
  }
}
