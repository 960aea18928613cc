/** Whole lives of shadows: created, set in any order, destroyed; and two of them side by side. */
module ShadowLife {
  import opened Text
  import opened Tree = ShadowTree
  import opened Schema
  import opened Shadow
  import opened DeviceShadow
  import Laws = ShadowLaws
  import Paths
  import Flatten = PropertySet
  import Refines = FlattenRefines

  /** What a client does to a shadow. */
  datatype Command = SetKey(key: string, arg: Option<Value>) | SetAll(members: seq<Flatten.Member>)

  function Obeyed(t: seq<Node>, c: Command): (seq<Node>, Status) {
    match c
    case SetKey(key, arg) => SetProperty(t, key, arg)
    case SetAll(members) => Flatten.FlattenMembers(t, None, members, 0)
  }

  /** A run of commands; failures are passed over, a key that leaves the elements ends it. */
  function Script(t: seq<Node>, cs: seq<Command>): (seq<Node>, Status) {
    if cs == [] then (t, Ok)
    else
      var (u, status) := Script(t, cs[..|cs| - 1]);
      if status == Undefined then (u, Undefined)
      else
        var (v, last) := Obeyed(u, cs[|cs| - 1]);
        (v, if last == Undefined then Undefined else Ok)
  }

  /** The command stays within the tree: its key does, or its JSON follows a documented schema. */
  ghost predicate Inside(t: seq<Node>, c: Command) {
    match c
    case SetKey(key, _) => Tree.PropertySearch(t, key) != Outside
    case SetAll(members) => Paths.Documented(t) && Flatten.MembersConform(t, members)
  }

  lemma {:induction false} InsideSameShape(t: seq<Node>, u: seq<Node>, c: Command)
    requires BlankAll(t) == BlankAll(u)
    ensures Inside(t, c) == Inside(u, c)
  {
    match c
    case SetKey(key, _) => Laws.SameShape(t, u, key);
    case SetAll(members) =>
      Refines.DocumentedBlank(t);
      Refines.DocumentedBlank(u);
      Refines.SameConformance(t, u, members);
  }

  lemma {:induction false} ObeyedKeeps(t: seq<Node>, c: Command)
    requires Tree.WellFormed(t) && Inside(t, c)
    ensures var (u, status) := Obeyed(t, c);
            status != Undefined && WellFormed(u) && BlankAll(u) == BlankAll(t)
  {
    match c
    case SetKey(key, arg) =>
      Laws.SetKeepsShape(t, key, arg);
      if Tree.PropertySearch(t, key).Found? {
        var r := Tree.PropertySearch(t, key);
        if Settable(NodeAt(t, r.loc), r.index) {
          WriteWellFormed(t, r.loc, r.index, arg);
        }
      }
    case SetAll(members) =>
      Refines.FlattenIsMerge(t, members, 0);
      Flatten.MergeMembersKeepsShape(t, members, 0);
      Flatten.MergeMembersWellFormed(t, members, 0);
  }

  /** Whether a run is defined can be told from its commands and the first tree. */
  lemma {:induction false} ScriptDefined(t: seq<Node>, cs: seq<Command>)
    requires WellFormed(t) && forall i :: 0 <= i < |cs| ==> Inside(t, cs[i])
    ensures var (u, status) := Script(t, cs);
            status == Ok && WellFormed(u) && BlankAll(u) == BlankAll(t)
  {
    hide Inside, WellFormed, BlankAll, Obeyed;
    if cs != [] {
      var n := |cs| - 1;
      ScriptDefined(t, cs[..n]);
      var u := Script(t, cs[..n]).0;
      InsideSameShape(t, u, cs[n]);
      ObeyedKeeps(u, cs[n]);
    }
  }

  method Obey(shadow: DeviceShadow, c: Command) returns (status: Status)
    requires shadow.Valid()
    modifies shadow.mem, CellsOfAll(shadow.properties)
    ensures status == Undefined <==> Obeyed(old(shadow.Value()), c).1 == Undefined
    ensures status != Undefined ==>
              shadow.Valid() && Balanced(old(shadow.mem.live), old(shadow.Owned()), shadow.mem.live, shadow.Owned())
              && (shadow.Value(), status) == Obeyed(old(shadow.Value()), c)
  {
    hide SetProperty, Flatten.FlattenMembers, Tree.WellFormed, SeparateAll, CellsOfAll, Paths.Documented;
    match c {
      case SetKey(key, arg) =>
        SetUndefined(shadow.Value(), key, arg);
        status := shadow.SetPropertyValue(key, arg);
      case SetAll(members) => status := shadow.PropertySet(members);
    }
  }

  lemma {:induction false} SetUndefined(t: seq<Node>, key: string, arg: Option<Value>)
    ensures SetProperty(t, key, arg).1 == Undefined <==> Tree.PropertySearch(t, key) == Outside
  {
  }

  method ObeyOne(shadow: DeviceShadow, c: Command, ghost start: multiset<Block>) returns (status: Status)
    requires shadow.Valid() && shadow.mem.live == start + shadow.Owned()
    modifies shadow.mem, CellsOfAll(shadow.properties)
    ensures status == Undefined <==> Obeyed(old(shadow.Value()), c).1 == Undefined
    ensures status != Undefined ==>
              shadow.Valid() && shadow.mem.live == start + shadow.Owned()
              && (shadow.Value(), status) == Obeyed(old(shadow.Value()), c)
  {
    hide Tree.WellFormed, SeparateAll, CellsOfAll, Obeyed, BlocksAll, ViewAll, Balanced;
    ghost var live, own := shadow.mem.live, shadow.Owned();
    status := Obey(shadow, c);
    if status != Undefined {
      AllReturned(start, live, own, shadow.mem.live, shadow.Owned());
    }
  }

  method ObeyAll(shadow: DeviceShadow, script: seq<Command>, ghost start: multiset<Block>) returns (status: Status)
    requires shadow.Valid() && shadow.mem.live == start + shadow.Owned()
    modifies shadow.mem, CellsOfAll(shadow.properties)
    ensures status == Script(old(shadow.Value()), script).1
    ensures status != Undefined ==>
              shadow.Valid() && shadow.mem.live == start + shadow.Owned()
              && shadow.Value() == Script(old(shadow.Value()), script).0
  {
    hide Tree.WellFormed, SeparateAll, CellsOfAll, Obeyed, Script, BlocksAll, ViewAll, Balanced;
    ghost var tree := shadow.Value();
    AllocatedAll(shadow.properties);
    NoScript(tree, script);
    var index := 0;
    while index < |script|
      invariant 0 <= index <= |script|
      invariant shadow.Valid() && shadow.mem.live == start + shadow.Owned()
      invariant Script(tree, script[..index]) == (shadow.Value(), Ok)
    {
      ScriptStep(tree, script, index);
      status := ObeyOne(shadow, script[index], start);
      index := index + 1;
      if status == Undefined {
        ScriptStops(tree, script, index);
        return;
      }
    }
    assert script[..index] == script;
    status := Ok;
  }

  /** Created, run through a script, destroyed: what was live before is live after, and nothing else. */
  method Lifetime(mem: Memory, fields: seq<Field>, script: seq<Command>) returns (status: Status)
    requires mem.Valid() && WellFormedSchema(fields)
    modifies mem
    ensures status == Script(FreshAll(fields), script).1
    ensures status != Undefined ==> mem.Valid() && mem.live == old(mem.live)
  {
    hide Tree.WellFormed, SeparateAll, Schema.FreshAll, CellsOfAll, Script, BlocksAll, ViewAll, Schema.WellFormedSchema;
    var shadow := new DeviceShadow(mem, fields);
    status := ObeyAll(shadow, script, old(mem.live));
    if status != Undefined {
      Close(shadow, old(mem.live));
    }
  }

  lemma {:induction false} NoScript(t: seq<Node>, cs: seq<Command>)
    ensures Script(t, cs[..0]) == (t, Ok)
  {
  }

  method Close(shadow: DeviceShadow, ghost start: multiset<Block>)
    requires shadow.Valid() && shadow.mem.live == start + shadow.Owned()
    modifies shadow.mem
    ensures shadow.mem.Valid() && shadow.mem.live == start
  {
    ghost var own := shadow.Owned();
    shadow.Destroy();
    Cancel(shadow.mem.live, start, own);
  }

  lemma {:induction false} ScriptStep(t: seq<Node>, cs: seq<Command>, i: nat)
    requires i < |cs| && Script(t, cs[..i]).1 == Ok
    ensures var (v, last) := Obeyed(Script(t, cs[..i]).0, cs[i]);
            Script(t, cs[..i + 1]) == (v, if last == Undefined then Undefined else Ok)
  {
    assert cs[..i + 1][..i] == cs[..i];
  }

  lemma {:induction false} ScriptStops(t: seq<Node>, cs: seq<Command>, i: nat)
    requires i <= |cs| && Script(t, cs[..i]).1 == Undefined
    ensures Script(t, cs).1 == Undefined
    decreases |cs| - i
  {
    if i == |cs| {
      assert cs[..i] == cs;
    } else {
      assert cs[..i + 1][..i] == cs[..i];
      ScriptStops(t, cs, i + 1);
    }
  }

  lemma {:induction false} AllReturned(start: multiset<Block>, live: multiset<Block>, own: multiset<Block>,
                                       live': multiset<Block>, own': multiset<Block>)
    requires live == start + own && Balanced(live, own, live', own')
    ensures live' == start + own'
  {
    forall b: Block ensures live'[b] == (start + own')[b] {
      assert (live' + own)[b] == (live + own')[b];
    }
  }

  /** Two shadows on one memory: each owns its blocks and its cells. */
  ghost predicate Beside(a: DeviceShadow, b: DeviceShadow)
    reads a, a.mem, CellsOfAll(a.properties), b, b.mem, CellsOfAll(b.properties)
  {
    && a.mem == b.mem && a.Valid() && b.Valid()
    && CellsOfAll(a.properties) !! CellsOfAll(b.properties) && a.Owned() + b.Owned() <= a.mem.live
  }

  /** A command to one leaves the other as it is, and both stay apart. */
  method ObeyBeside(a: DeviceShadow, b: DeviceShadow, c: Command) returns (status: Status)
    requires Beside(a, b)
    modifies a.mem, CellsOfAll(a.properties)
    ensures status == Undefined <==> Obeyed(old(a.Value()), c).1 == Undefined
    ensures status != Undefined ==>
              Beside(a, b) && (a.Value(), status) == Obeyed(old(a.Value()), c)
              && b.Value() == old(b.Value()) && b.Owned() == old(b.Owned())
  {
    hide Tree.WellFormed, SeparateAll, Obeyed, ViewAll, BlocksAll, Balanced, CellsOfAll;
    AllocatedAll(a.properties);
    AllocatedAll(b.properties);
    ghost var live, own, other, m := a.mem.live, a.Owned(), b.Owned(), b.Now();
    status := Obey(a, c);
    assert b.Now() == m;
    assert b.Owned() == other;
    if status != Undefined {
      BothLive(live, own, a.mem.live, a.Owned(), other);
    }
  }

  lemma {:induction false} BothLive(live: multiset<Block>, own: multiset<Block>, live': multiset<Block>, own': multiset<Block>,
                                    other: multiset<Block>)
    requires Balanced(live, own, live', own') && own + other <= live
    ensures own' + other <= live' && other <= live'
  {
    forall b: Block ensures (own' + other)[b] <= live'[b] {
      assert (live' + own)[b] == (live + own')[b] && (own + other)[b] <= live[b];
    }
  }
}
