/**
  The shadow of one device as the program holds it: created from a schema, set and read by key,
  fed whole property-sets, assembled into JSON, destroyed.  Every method is tied to the tree laws.
*/
module DeviceShadow {
  import opened Text
  import opened Tree = ShadowTree
  import opened Schema
  import opened Shadow
  import SchemaLaws
  import Creation
  import Paths
  import Flatten = PropertySet
  import Refines = FlattenRefines
  import Assembly = Assemble

  type Json = Flatten.Json

  /** A node that holds cells: a scalar with its one cell, or a scalar array. */
  ghost predicate Holds(d: Data, m: Store, a: Cells) {
    CellsOf(d) == {a} && a in m && (d.DArray? || (d.DLeaf? && |m[a]| == 1))
  }

  lemma {:induction false} ArrayBalance(d: Data, m: Store, a: Cells, k: nat, x: Slot)
    requires Holds(d, m, a) && k < |m[a]| && d.DArray?
    ensures Blocks(d, m[a := m[a][k := x]]) + SlotBlocks(m[a][k]) == Blocks(d, m) + SlotBlocks(x)
    ensures SlotBlocks(m[a][k]) <= Blocks(d, m)
  {
    var s := m[a];
    var n := m[a := s[k := x]];
    var before, after := EachSlotBlocks(s), EachSlotBlocks(s[k := x]);
    assert after == before[k := SlotBlocks(x)];
    SumUpdate(before, k, SlotBlocks(x));
    Reassociate(IdBlocks(d.id), FrameBlocks(d), Sum(after), before[k]);
    Reassociate(IdBlocks(d.id), FrameBlocks(d), Sum(before), SlotBlocks(x));
  }

  lemma {:induction false} Reassociate(a: multiset<Block>, b: multiset<Block>, c: multiset<Block>, d: multiset<Block>)
    ensures (a + (b + c)) + d == (a + b) + (c + d)
  {
  }

  /** The blocks balance when a cell's text is replaced. */
  lemma {:induction false} CellBalance(d: Data, m: Store, a: Cells, k: nat, x: Slot)
    requires Holds(d, m, a) && k < |m[a]|
    ensures Blocks(d, m[a := m[a][k := x]]) + SlotBlocks(m[a][k]) == Blocks(d, m) + SlotBlocks(x)
    ensures SlotBlocks(m[a][k]) <= Blocks(d, m)
  {
    if d.DArray? {
      ArrayBalance(d, m, a, k, x);
    } else {
      LeafBalance(d, m, a, x);
    }
  }

  lemma {:induction false} LeafBalance(d: Data, m: Store, a: Cells, x: Slot)
    requires Holds(d, m, a) && d.DLeaf?
    ensures Blocks(d, m[a := m[a][0 := x]]) + SlotBlocks(m[a][0]) == Blocks(d, m) + SlotBlocks(x)
    ensures SlotBlocks(m[a][0]) <= Blocks(d, m)
  {
    Reassociate(IdBlocks(d.id), FrameBlocks(d), SlotBlocks(x), SlotBlocks(m[a][0]));
    Reassociate(IdBlocks(d.id), FrameBlocks(d), SlotBlocks(m[a][0]), SlotBlocks(x));
  }

  lemma {:induction false} CellWritten(d: Data, m: Store, a: Cells, k: nat, x: Slot, arg: Option<Value>)
    requires Holds(d, m, a) && k < |m[a]|
    requires SlotValue(x) == Stored(d.ty, d.DArray?, arg)
    ensures Settable(View(d, m), k)
    ensures View(d, m[a := m[a][k := x]]) == Write(View(d, m), k, arg)
  {
    if d.DArray? {
      assert SlotValues(m[a][k := x]) == SlotValues(m[a])[k := SlotValue(x)];
    }
  }

  /** What is live changed by as much as what is owned. */
  ghost predicate Balanced(live: multiset<Block>, own: multiset<Block>, live': multiset<Block>, own': multiset<Block>) {
    live' + own == live + own'
  }

  lemma {:induction false} LiveBalance(all: multiset<Block>, all': multiset<Block>, d: multiset<Block>, d': multiset<Block>,
                                       was: multiset<Block>, now: multiset<Block>, live: multiset<Block>, live': multiset<Block>)
    requires live' + was == live + now
    requires all' + d == all + d' && d' + was == d + now
    ensures Balanced(live, all, live', all')
  {
    forall b: Block ensures (live' + all)[b] == (live + all')[b] {
      assert (live' + was)[b] == (live + now)[b];
      assert (all' + d)[b] == (all + d')[b];
      assert (d' + was)[b] == (d + now)[b];
    }
  }

  /** What is owned stays live. */
  lemma {:induction false} StillLive(live: multiset<Block>, own: multiset<Block>, live': multiset<Block>, own': multiset<Block>)
    requires Balanced(live, own, live', own') && own <= live
    ensures own' <= live'
  {
    forall b: Block ensures own'[b] <= live'[b] {
      assert (live' + own)[b] == (live + own')[b] && own[b] <= live[b];
    }
  }

  /** One change after another. */
  lemma {:induction false} BalancedTwice(live: multiset<Block>, own: multiset<Block>, live': multiset<Block>, own': multiset<Block>,
                                         live'': multiset<Block>, own'': multiset<Block>)
    requires Balanced(live, own, live', own') && Balanced(live', own', live'', own'')
    ensures Balanced(live, own, live'', own'')
  {
    forall b: Block ensures (live'' + own)[b] == (live + own'')[b] {
      assert (live' + own)[b] == (live + own')[b] && (live'' + own')[b] == (live' + own'')[b];
    }
  }

  /** Blocks that are owned throughout make no difference. */
  lemma {:induction false} BalancedMore(head: multiset<Block>, live: multiset<Block>, own: multiset<Block>,
                                        live': multiset<Block>, own': multiset<Block>)
    requires Balanced(live, own, live', own')
    ensures Balanced(live, head + own, live', head + own')
  {
    forall b: Block ensures (live' + (head + own))[b] == (live + (head + own'))[b] {
      assert (live' + own)[b] == (live + own')[b];
    }
  }

  /** A place of a well-formed forest before its cell is written. */
  lemma {:induction false} BeforeWrite(ds: seq<Data>, m: Store, loc: seq<nat>, a: Cells, k: nat)
    requires WellFormed(ViewAll(ds, m)) && InTree(ViewAll(ds, m), loc)
    requires Holds(At(ds, loc), m, a) && k < |m[a]|
    ensures Fits(At(ds, loc).ty, SlotValue(m[a][k]))
    ensures SlotBlocks(m[a][k]) <= BlocksAll(ds, m)
  {
    AtView(ds, m, loc);
    AtBlocks(ds, m, loc);
    CellBalance(At(ds, loc), m, a, k, m[a][k]);
    Refines.NodeAtWellFormed(ViewAll(ds, m), loc);
    CellFits(At(ds, loc), m, a, k);
  }

  lemma {:induction false} CellFits(d: Data, m: Store, a: Cells, k: nat)
    requires Holds(d, m, a) && k < |m[a]| && WellFormedNode(View(d, m))
    ensures Fits(d.ty, SlotValue(m[a][k]))
  {
    if d.DArray? {
      assert View(d, m).slots[k] == SlotValue(m[a][k]);
    }
  }

  /** And after. */
  lemma {:induction false} AfterWrite(ds: seq<Data>, m: Store, loc: seq<nat>, a: Cells, k: nat, x: Slot, arg: Option<Value>,
                   live: multiset<Block>, live': multiset<Block>)
    requires SeparateAll(ds) && WellFormed(ViewAll(ds, m)) && InTree(ViewAll(ds, m), loc)
    requires Holds(At(ds, loc), m, a) && k < |m[a]|
    requires SlotValue(x) == Stored(At(ds, loc).ty, At(ds, loc).DArray?, arg)
    requires live' + SlotBlocks(m[a][k]) == live + SlotBlocks(x)
    ensures var n, vs := m[a := m[a][k := x]], ViewAll(ds, m);
            && Settable(NodeAt(vs, loc), k)
            && ViewAll(ds, n) == ReplaceAt(vs, loc, Write(NodeAt(vs, loc), k, arg))
            && WellFormed(ViewAll(ds, n))
            && Balanced(live, BlocksAll(ds, m), live', BlocksAll(ds, n))
  {
    var d, s := At(ds, loc), m[a][k := x];
    AtView(ds, m, loc);
    CellWritten(d, m, a, k, x, arg);
    ChangedAt(ds, m, loc, a, s);
    WriteWellFormed(ViewAll(ds, m), loc, k, arg);
    CellBalance(d, m, a, k, x);
    BlocksChangedAt(ds, m, loc, a, s);
    LiveBalance(BlocksAll(ds, m), BlocksAll(ds, m[a := s]), Blocks(d, m), Blocks(d, m[a := s]),
                SlotBlocks(m[a][k]), SlotBlocks(x), live, live');
  }

  /** A set leaves a well-formed tree well formed. */
  lemma {:induction false} WriteWellFormed(t: seq<Node>, loc: seq<nat>, k: int, arg: Option<Value>)
    requires WellFormed(t) && InTree(t, loc) && Settable(NodeAt(t, loc), k)
    ensures WellFormed(ReplaceAt(t, loc, Write(NodeAt(t, loc), k, arg)))
  {
    var n := NodeAt(t, loc);
    Refines.NodeAtWellFormed(t, loc);
    var w := Write(n, k, arg);
    if n.Array? {
      assert Blank(w).slots == Blank(n).slots;
    }
    Refines.ReplaceWellFormed(t, loc, w);
  }

  /** The assignment itself, and what it does to what memory holds. */
  method Overwrite(ghost cells: set<Cells>, a: Cells, k: nat, slot: Slot)
    requires a in cells && k < a.Length
    modifies a
    ensures Snapshot(cells) == old(Snapshot(cells))[a := old(a[..])[k := slot]]
  {
    a[k] := slot;
    assert a[..] == old(a[..])[k := slot];
    assert forall b :: b in cells && b != a ==> b[..] == old(b[..]);
  }

  /** One cell of a forest is overwritten in place. */
  method WriteCell(mem: Memory, ds: seq<Data>, ghost m: Store, ghost loc: seq<nat>, a: Cells, k: nat,
                   ty: ScalarType, element: bool, arg: Option<Value>)
    requires mem.Valid() && SeparateAll(ds) && m == Snapshot(CellsOfAll(ds))
    requires WellFormed(ViewAll(ds, m)) && InTree(ViewAll(ds, m), loc) && BlocksAll(ds, m) <= mem.live
    requires a in CellsOfAll(ds) && k < a.Length && Holds(At(ds, loc), m, a) && At(ds, loc).ty == ty
    requires At(ds, loc).DArray? == element
    modifies mem, a
    ensures mem.Valid()
    ensures var n, vs := Snapshot(CellsOfAll(ds)), ViewAll(ds, m);
            && Settable(NodeAt(vs, loc), k)
            && ViewAll(ds, n) == ReplaceAt(vs, loc, Write(NodeAt(vs, loc), k, arg))
            && WellFormed(ViewAll(ds, n)) && Balanced(old(mem.live), BlocksAll(ds, m), mem.live, BlocksAll(ds, n))
  {
    hide Tree.WellFormed, SeparateAll, BlocksAll, ViewAll, View, Tree.InTree, Tree.NodeAt, Tree.ReplaceAt, At, CellsOfAll;
    ghost var live := mem.live;
    AllocatedAll(ds);
    BeforeWrite(ds, m, loc, a, k);
    var slot := StoreSlot(mem, a[k], ty, element, arg);
    Overwrite(CellsOfAll(ds), a, k, slot);
    AfterWrite(ds, m, loc, a, k, slot, arg, live, mem.live);
  }

  /** How a node of the forest shows in the value. */
  ghost predicate Shown(d: Data, n: Node, m: Store) {
    match d
    case DLeaf(_, ty, cell) =>
      Holds(d, m, cell) && m[cell] != [] && n.Leaf? && n.ty == ty && n.value == SlotValue(m[cell][0])
    case DArray(_, ty, _, slots) =>
      Holds(d, m, slots) && |m[slots]| == slots.Length && n.Array? && n.ty == ty && n.slots == SlotValues(m[slots])
    case _ => !n.Leaf? && !n.Array?
  }

  lemma {:induction false} NodeShown(d: Data, m: Store)
    requires Separate(d) && Covers(m, CellsOf(d))
    ensures Shown(d, View(d, m), m)
  {
  }

  /** A successful search designates a node of the tree, and its cells. */
  lemma {:induction false} Reached(ds: seq<Data>, m: Store, key: string)
    requires SeparateAll(ds) && Covers(m, CellsOfAll(ds))
    ensures var r := Tree.PropertySearch(ViewAll(ds, m), key);
            && Tree.PropertySearch(ShapeAll(ds), key) == r
            && (r.Found? ==>
                 && r.loc[0] < |ds|
                 && LiftAll(ds, r) == Hit(At(ds, r.loc), r.index)
                 && CellsOf(At(ds, r.loc)) <= CellsOfAll(ds)
                 && Shown(At(ds, r.loc), NodeAt(ViewAll(ds, m), r.loc), m))
  {
    SearchShape(ds, m, key);
    var r := Tree.PropertySearch(ViewAll(ds, m), key);
    if r.Found? {
      AtView(ds, m, r.loc);
      AtOwned(ds, m, r.loc);
      CellsOfMember(ds, r.loc[0]);
      NodeShown(At(ds, r.loc), m);
    }
  }

  lemma {:induction false} ViewName(d: Data, m: Store)
    ensures View(d, m).id == IdName(d.id)
  {
  }

  /** `m` records what memory holds in these cells. */
  ghost predicate Matches(m: Store, cells: set<Cells>)
    reads cells
  {
    forall a :: a in cells ==> a in m && m[a] == a[..]
  }

  /** _dm_shw_data_insert_json_item: the value it adds under the node's identifier. */
  method AssembleData(d: Data, ghost m: Store) returns (v: Json)
    requires Separate(d) && Matches(m, CellsOf(d))
    ensures v == Assembly.AssembleNode(View(d, m))
    decreases d, 1
  {
    match d {
      case DLeaf(_, _, cell) =>
        v := Assembly.CellJson(SlotValue(cell[0]));
      case DArray(_, _, _, slots) =>
        v := AssembleSlots(slots);
      case DStruct(_, _, members) =>
        var ms := AssembleMembers(members, m);
        v := Flatten.JObject(ms);
      case DStructArray(_, _, elements) =>
        var es := AssembleElements(elements, m);
        v := Flatten.JArray(es);
        assert es == Assembly.AssembleNode(View(d, m)).items;
    }
  }

  /** The scalar branches of _dm_shw_array_insert_json_item. */
  method AssembleSlots(slots: Cells) returns (v: Json)
    ensures v == Flatten.JArray(seq(slots.Length,
                                    k requires 0 <= k < slots.Length reads slots => Assembly.CellJson(SlotValue(slots[k]))))
  {
    var items: seq<Json> := [];
    var index := 0;
    while index < slots.Length
      invariant 0 <= index <= slots.Length && |items| == index
      invariant forall k :: 0 <= k < index ==> items[k] == Assembly.CellJson(SlotValue(slots[k]))
    {
      items := items + [Assembly.CellJson(SlotValue(slots[index]))];
      index := index + 1;
    }
    v := Flatten.JArray(items);
  }

  /** The member loop of _dm_shw_struct_insert_json_item. */
  method AssembleMembers(ds: seq<Data>, ghost m: Store) returns (r: seq<Flatten.Member>)
    requires SeparateAll(ds) && Matches(m, CellsOfAll(ds))
    ensures r == Assembly.AssembleAll(ViewAll(ds, m))
    decreases ds, 0
  {
    hide Assembly.AssembleNode, View, Separate, SeparateAll, CellsOf, CellsOfAll;
    AllocatedAll(ds);
    ghost var whole := Assembly.AssembleAll(ViewAll(ds, m));
    r := [];
    var index := 0;
    while index < |ds|
      invariant 0 <= index <= |ds| && |r| == index
      invariant Matches(m, CellsOfAll(ds))
      invariant forall k :: 0 <= k < index ==> r[k] == whole[k]
    {
      CellsOfMember(ds, index);
      ViewName(ds[index], m);
      var v := AssembleData(ds[index], m);
      r := r + [Flatten.Member(if ds[index].id.NoIdent? then "" else ds[index].id.name, v)];
      index := index + 1;
    }
  }

  /** The element loop of _dm_shw_array_insert_json_item: elements without identifier go in bare. */
  method AssembleElements(ds: seq<Data>, ghost m: Store) returns (r: seq<Json>)
    requires SeparateAll(ds) && Matches(m, CellsOfAll(ds))
    ensures |r| == |ds| && forall k :: 0 <= k < |ds| ==> r[k] == Assembly.AssembleNode(View(ds[k], m))
    decreases ds, 0
  {
    AllocatedAll(ds);
    r := [];
    var index := 0;
    while index < |ds|
      invariant 0 <= index <= |ds| && |r| == index
      invariant Matches(m, CellsOfAll(ds))
      invariant forall k :: 0 <= k < index ==> r[k] == Assembly.AssembleNode(View(ds[k], m))
    {
      CellsOfMember(ds, index);
      var v := AssembleData(ds[index], m);
      r := r + [v];
      index := index + 1;
    }
  }

  lemma {:induction false} Remaining(before: multiset<Block>, after: multiset<Block>, gone: multiset<Block>, rest: multiset<Block>)
    requires after + gone == before && gone + rest <= before
    ensures rest <= after
  {
    forall b: Block ensures rest[b] <= after[b] {
      assert (after + gone)[b] == before[b] && (gone + rest)[b] <= before[b];
    }
  }

  lemma {:induction false} Cancel(a: multiset<Block>, b: multiset<Block>, c: multiset<Block>)
    requires a + c == b + c
    ensures a == b
  {
    forall x: Block ensures a[x] == b[x] {
      assert (a + c)[x] == (b + c)[x];
    }
  }

  /** _dm_shw_property_free: the identifier, then what the value owns. */
  method FreeData(mem: Memory, d: Data, ghost m: Store)
    requires mem.Valid() && Matches(m, CellsOf(d)) && Separate(d) && Blocks(d, m) <= mem.live
    modifies mem
    ensures mem.Valid() && mem.live + Blocks(d, m) == old(mem.live)
    decreases d, 2
  {
    hide ValueBlocks;
    ghost var l0 := mem.live;
    Allocated(d);
    if d.id.Ident? {
      mem.Free(d.id.block);
    }
    ghost var l1 := mem.live;
    assert l1 + IdBlocks(d.id) == l0;
    Remaining(l0, l1, IdBlocks(d.id), ValueBlocks(d, m));
    FreeValue(mem, d, m);
    assert (mem.live + ValueBlocks(d, m)) + IdBlocks(d.id) == mem.live + (IdBlocks(d.id) + ValueBlocks(d, m));
  }

  /** What the cells and members of a node own. */
  ghost function Contents(d: Data, m: Store): multiset<Block> {
    match d
    case DLeaf(_, _, cell) => SlotBlocks(FirstSlot(Held(m, cell)))
    case DArray(_, _, _, slots) => Sum(EachSlotBlocks(Held(m, slots)))
    case DStruct(_, _, ms) => BlocksAll(ms, m)
    case DStructArray(_, _, es) => BlocksAll(es, m)
  }

  lemma {:induction false} ValueIsFrameAndContents(d: Data, m: Store)
    ensures ValueBlocks(d, m) == FrameBlocks(d) + Contents(d, m)
  {
  }

  /** _dm_shw_text_free, _dm_shw_array_free and _dm_shw_struct_free: contents first, then the storage and its header. */
  method FreeValue(mem: Memory, d: Data, ghost m: Store)
    requires mem.Valid() && Matches(m, CellsOf(d)) && Separate(d) && ValueBlocks(d, m) <= mem.live
    modifies mem
    ensures mem.Valid() && mem.live + ValueBlocks(d, m) == old(mem.live)
    decreases d, 1
  {
    hide ValueBlocks, Blocks, Contents, BlocksAll, CellsOfAll, SeparateAll;
    ghost var l0, frame, contents := mem.live, FrameBlocks(d), Contents(d, m);
    ValueIsFrameAndContents(d, m);
    assert contents + frame == frame + contents;
    FreeContents(mem, d, m);
    ghost var l1 := mem.live;
    Remaining(l0, l1, contents, frame);
    if !d.DLeaf? {
      assert d.frame.storage in frame && d.frame.storage in l1;
      mem.Free(d.frame.storage);
      Remaining(l1, mem.live, multiset{d.frame.storage}, multiset{d.frame.header});
      mem.Free(d.frame.header);
    }
    assert mem.live + frame == l1;
    assert mem.live + (frame + contents) == (mem.live + frame) + contents;
  }

  method FreeContents(mem: Memory, d: Data, ghost m: Store)
    requires mem.Valid() && Matches(m, CellsOf(d)) && Separate(d) && Contents(d, m) <= mem.live
    modifies mem
    ensures mem.Valid() && mem.live + Contents(d, m) == old(mem.live)
    decreases d, 0
  {
    match d {
      case DLeaf(_, _, cell) =>
        if cell[0].TextS? {
          mem.Free(cell[0].block);
        }
      case DArray(_, _, _, slots) => FreeSlots(mem, slots);
      case DStruct(_, _, members) => FreeAll(mem, members, m);
      case DStructArray(_, _, elements) => FreeAll(mem, elements, m);
    }
  }

  /** One step of a freeing loop. */
  lemma {:induction false} Released(each: seq<multiset<Block>>, i: nat, start: multiset<Block>, live: multiset<Block>)
    requires i < |each| && live + Sum(each[..i]) == start && Sum(each) <= start
    ensures each[i] <= live && Sum(each[..i + 1]) == Sum(each[..i]) + each[i]
  {
    SumPrefix(each, i);
    SumPrefix(each, i + 1);
    Remaining(start, live, Sum(each[..i]), each[i]);
  }

  lemma {:induction false} SumNone(each: seq<multiset<Block>>)
    ensures Sum(each[..0]) == multiset{}
  {
  }

  method FreeSlot(mem: Memory, slot: Slot)
    requires mem.Valid() && SlotBlocks(slot) <= mem.live
    modifies mem
    ensures mem.Valid() && mem.live + SlotBlocks(slot) == old(mem.live)
  {
    if slot.TextS? {
      mem.Free(slot.block);
    }
  }

  /** _dm_shw_array_text_free. */
  method FreeSlots(mem: Memory, slots: Cells)
    requires mem.Valid() && Sum(EachSlotBlocks(slots[..])) <= mem.live
    modifies mem
    ensures mem.Valid() && mem.live + Sum(EachSlotBlocks(slots[..])) == old(mem.live)
  {
    hide Sum;
    ghost var each := EachSlotBlocks(slots[..]);
    SumNone(each);
    var index := 0;
    while index < slots.Length
      invariant 0 <= index <= slots.Length
      invariant mem.Valid() && mem.live + Sum(each[..index]) == old(mem.live)
    {
      ghost var live := mem.live;
      Released(each, index, old(mem.live), live);
      FreeSlot(mem, slots[index]);
      assert mem.live + (Sum(each[..index]) + each[index]) == (mem.live + each[index]) + Sum(each[..index]);
      index := index + 1;
    }
    assert each[..index] == each;
  }

  /** _dm_shw_properties_free and the loops of the struct and struct-array frees. */
  method FreeAll(mem: Memory, ds: seq<Data>, ghost m: Store)
    requires mem.Valid() && Matches(m, CellsOfAll(ds)) && SeparateAll(ds) && BlocksAll(ds, m) <= mem.live
    modifies mem
    ensures mem.Valid() && mem.live + BlocksAll(ds, m) == old(mem.live)
    decreases ds, 0
  {
    hide Blocks, CellsOfAll, CellsOf, SeparateAll, Separate;
    ghost var each := EachBlocks(ds, m);
    AllocatedAll(ds);
    var index := 0;
    while index < |ds|
      invariant 0 <= index <= |ds|
      invariant Matches(m, CellsOfAll(ds))
      invariant mem.Valid() && mem.live + Sum(each[..index]) == old(mem.live)
    {
      ghost var live := mem.live;
      Released(each, index, old(mem.live), live);
      CellsOfMember(ds, index);
      FreeData(mem, ds[index], m);
      assert mem.live + (Sum(each[..index]) + each[index]) == (mem.live + each[index]) + Sum(each[..index]);
      index := index + 1;
    }
    assert each[..index] == each;
  }

  lemma {:induction false} Associate(a: multiset<Block>, b: multiset<Block>, c: multiset<Block>)
    ensures a + (b + c) == (a + b) + c
  {
  }

  lemma {:induction false} Unchanged(live: multiset<Block>, own: multiset<Block>)
    ensures Balanced(live, own, live, own)
  {
  }

  lemma {:induction false} MembersStep(t: seq<Node>, key: Option<string>, members: seq<Flatten.Member>, i: nat)
    requires i < |members|
    ensures var (u, status) := Flatten.FlattenValue(t, Paths.MemberKey(key, members[i].name), members[i].value);
            Flatten.FlattenMembers(t, key, members, i)
              == if status != Ok then (u, status) else Flatten.FlattenMembers(u, key, members, i + 1)
  {
  }

  lemma {:induction false} MembersEnd(key: Option<string>, members: seq<Flatten.Member>)
    ensures forall u :: Flatten.FlattenMembers(u, key, members, |members|) == (u, Ok)
  {
  }

  lemma {:induction false} ItemsStep(t: seq<Node>, key: string, items: seq<Json>, i: nat)
    requires i < |items|
    ensures var (u, status) := Flatten.FlattenValue(t, Paths.ElementKey(key, i), items[i]);
            Flatten.FlattenItems(t, key, items, i) == if status != Ok then (u, status) else Flatten.FlattenItems(u, key, items, i + 1)
  {
  }

  lemma {:induction false} ItemsEnd(key: string, items: seq<Json>)
    ensures forall u :: Flatten.FlattenItems(u, key, items, |items|) == (u, Ok)
  {
  }

  function OneBlock(b: Option<Block>): multiset<Block> {
    if b.Some? then multiset{b.value} else multiset{}
  }

  method MallocIf(mem: Memory, wanted: bool) returns (b: Option<Block>)
    requires mem.Valid()
    modifies mem
    ensures mem.Valid() && mem.live == old(mem.live) + OneBlock(b) && (b.Some? <==> wanted)
  {
    b := None;
    if wanted {
      var block := mem.Malloc();
      b := Some(block);
    }
  }

  method FreeIf(mem: Memory, b: Option<Block>)
    requires mem.Valid() && OneBlock(b) <= mem.live
    modifies mem
    ensures mem.Valid() && mem.live + OneBlock(b) == old(mem.live)
  {
    if b.Some? {
      mem.Free(b.value);
    }
  }

  /** The blocks and nodes of a new shadow; an empty list of properties has no array. */
  method AllocateAll(mem: Memory, fields: seq<Field>)
    returns (root: Block, storage: Option<Block>, ds: seq<Data>, ghost m: Store)
    requires mem.Valid() && WellFormedSchema(fields)
    modifies mem
    ensures mem.Valid() && fresh(CellsOfAll(ds)) && Creation.Recorded(ds, m) && ViewAll(ds, m) == FreshAll(fields)
    ensures mem.live == old(mem.live) + ((multiset{root} + OneBlock(storage)) + BlocksAll(ds, m))
    ensures storage.None? <==> fields == []
  {
    hide BlocksAll, CellsOfAll, View, ViewAll, Schema.WellFormedSchema, Schema.FreshAll;
    root := mem.Malloc();
    storage := MallocIf(mem, fields != []);
    ghost var head := multiset{root} + OneBlock(storage);
    assert mem.live == old(mem.live) + head;
    ds, m := Creation.ParseFields(mem, fields);
    Associate(old(mem.live), head, BlocksAll(ds, m));
  }

  class DeviceShadow {
    const mem: Memory
    var properties: seq<Data>
    /** The dm_shw_t itself and its array of properties, if it has any. */
    var root: Block
    var storage: Option<Block>

    ghost function Now(): Store
      reads this, CellsOfAll(properties)
    {
      Snapshot(CellsOfAll(properties))
    }

    /** The abstract tree. */
    ghost function Value(): seq<Node>
      reads this, CellsOfAll(properties)
    {
      ViewAll(properties, Now())
    }

    /** The blocks of the shadow itself. */
    ghost function Head(): multiset<Block>
      reads this
    {
      multiset{root} + OneBlock(storage)
    }

    /** Every block it owns. */
    ghost function Owned(): multiset<Block>
      reads this, CellsOfAll(properties)
    {
      Head() + BlocksAll(properties, Now())
    }

    ghost predicate Valid()
      reads this, mem, CellsOfAll(properties)
    {
      mem.Valid() && SeparateAll(properties) && WellFormed(Value()) && Owned() <= mem.live
    }

    /** dm_tsl_alink_create: the schema's tree, zeroed, and nothing allocated beside it. */
    constructor (mem: Memory, fields: seq<Field>)
      requires mem.Valid() && WellFormedSchema(fields)
      modifies mem
      ensures Valid() && this.mem == mem && mem.live == old(mem.live) + Owned()
      ensures fresh(CellsOfAll(properties))
      ensures Value() == FreshAll(fields)
      ensures storage.None? <==> fields == []
    {
      hide Tree.WellFormed, SeparateAll, View, ViewAll, Schema.WellFormedSchema, Schema.FreshAll, Blocks, BlocksAll, CellsOfAll;
      var r, s, ds;
      ghost var m;
      r, s, ds, m := AllocateAll(mem, fields);
      this.mem := mem;
      properties := ds;
      root, storage := r, s;
      new;
      SchemaLaws.FreshWellFormed(fields);
    }

    /** dm_shw_set_property_value.  After a key that leaves the elements nothing is promised. */
    method SetPropertyValue(key: string, arg: Option<Value>) returns (status: Status)
      requires Valid()
      modifies mem, CellsOfAll(properties)
      ensures status == Undefined <==> Tree.PropertySearch(old(Value()), key) == Outside
      ensures status != Undefined ==>
                Valid() && Balanced(old(mem.live), old(Owned()), mem.live, Owned())
                && (Value(), status) == SetProperty(old(Value()), key, arg)
    {
      hide Tree.WellFormed, SeparateAll, BlocksAll, ViewAll, View, Tree.InTree, Tree.NodeAt, Tree.ReplaceAt, CellsOfAll, Balanced;
      AllocatedAll(properties);
      Reached(properties, Now(), key);
      ghost var r, live, head, all := Tree.PropertySearch(Value(), key), mem.live, Head(), BlocksAll(properties, Now());
      Unchanged(live, all);
      var found := Shadow.PropertySearch(properties, key);
      match found {
        case Miss => status := Failed;
        case Past => status := Undefined;
        case Hit(d, index) =>
          match d {
            case DLeaf(_, ty, cell) =>
              WriteCell(mem, properties, Now(), r.loc, cell, 0, ty, false, arg);
              status := Ok;
            case DArray(_, ty, _, slots) =>
              if 0 <= index < slots.Length {
                WriteCell(mem, properties, Now(), r.loc, slots, index, ty, true, arg);
                status := Ok;
              } else {
                status := Failed;
              }
            case _ => status := Failed;
          }
      }
      BalancedMore(head, live, all, mem.live, BlocksAll(properties, Now()));
      StillLive(live, head + all, mem.live, Owned());
    }

    /** dm_shw_get_property_value. */
    method GetPropertyValue(key: string) returns (value: Option<Value>)
      requires Valid()
      ensures Tree.PropertySearch(Value(), key) != Outside ==> value == GetProperty(Value(), key)
    {
      hide Tree.WellFormed, SeparateAll, BlocksAll, ViewAll, View, Tree.InTree, Tree.NodeAt, CellsOfAll;
      AllocatedAll(properties);
      Reached(properties, Now(), key);
      var found := Shadow.PropertySearch(properties, key);
      match found {
        case Hit(d, index) =>
          match d {
            case DLeaf(_, _, cell) =>
              value := if cell[0].NoText? then None else Some(SlotValue(cell[0]));
            case DArray(_, _, _, slots) =>
              if index < 0 || index >= slots.Length {
                return None;
              }
              value := if slots[index].NoText? then None else Some(SlotValue(slots[index]));
            case _ => value := None;
          }
        case _ => value := None;
      }
    }

    // -------------------------------------------------------------- property-set

    /** _dm_msg_set_number and _dm_msg_set_string: find the cell, look at its type, set it or let the value pass. */
    method SetScalar(key: string, v: Json) returns (status: Status)
      requires Valid()
      modifies mem, CellsOfAll(properties)
      ensures status == Undefined <==> Flatten.SetScalar(old(Value()), key, v).1 == Undefined
      ensures status != Undefined ==>
                Valid() && Balanced(old(mem.live), old(Owned()), mem.live, Owned())
                && (Value(), status) == Flatten.SetScalar(old(Value()), key, v)
    {
      hide Tree.WellFormed, SeparateAll, BlocksAll, ViewAll, View, Tree.InTree, Tree.NodeAt, Tree.SetProperty, CellsOfAll;
      AllocatedAll(properties);
      Reached(properties, Now(), key);
      var found := Shadow.PropertySearch(properties, key);
      match found {
        case Miss => status := Failed;
        case Past => status := Undefined;
        case Hit(d, _) =>
          var arg := if d.DLeaf? || d.DArray? then Flatten.Argument(v, d.ty) else None;
          if arg.Some? {
            status := SetPropertyValue(key, arg);
          } else {
            status := Ok;
          }
      }
    }

    /** The type switch in the loops of _dm_msg_set_object and _dm_msg_set_array. */
    method FlattenValue(key: string, v: Json) returns (status: Status)
      requires Valid()
      modifies mem, CellsOfAll(properties)
      ensures status == Undefined <==> Flatten.FlattenValue(old(Value()), key, v).1 == Undefined
      ensures status != Undefined ==>
                Valid() && Balanced(old(mem.live), old(Owned()), mem.live, Owned())
                && (Value(), status) == Flatten.FlattenValue(old(Value()), key, v)
      decreases v, 0
    {
      hide Tree.WellFormed, SeparateAll, BlocksAll, ViewAll, View, CellsOfAll, Flatten.SetScalar;
      match v {
        case JObject(members) => status := FlattenMembers(Some(key), members);
        case JArray(items) => status := FlattenItems(key, items);
        case JOther => status := Ok;
        case _ => status := SetScalar(key, v);
      }
    }

    /** _dm_msg_set_object: one key per member, the first failure ends it. */
    method FlattenMembers(key: Option<string>, members: seq<Flatten.Member>) returns (status: Status)
      requires Valid()
      modifies mem, CellsOfAll(properties)
      ensures status == Undefined <==> Flatten.FlattenMembers(old(Value()), key, members, 0).1 == Undefined
      ensures status != Undefined ==>
                Valid() && Balanced(old(mem.live), old(Owned()), mem.live, Owned())
                && (Value(), status) == Flatten.FlattenMembers(old(Value()), key, members, 0)
      decreases members, 0
    {
      hide Tree.WellFormed, SeparateAll, BlocksAll, ViewAll, View, CellsOfAll, Flatten.FlattenValue, Flatten.FlattenMembers, Balanced;
      AllocatedAll(properties);
      ghost var live, own := mem.live, Owned();
      Unchanged(live, own);
      MembersEnd(key, members);
      var index := 0;
      while index < |members|
        invariant 0 <= index <= |members|
        invariant Valid() && Balanced(live, own, mem.live, Owned())
        invariant Flatten.FlattenMembers(old(Value()), key, members, 0) == Flatten.FlattenMembers(Value(), key, members, index)
      {
        ghost var liveNow, ownNow := mem.live, Owned();
        MembersStep(Value(), key, members, index);
        status := FlattenValue(Paths.MemberKey(key, members[index].name), members[index].value);
        if status != Undefined {
          BalancedTwice(live, own, liveNow, ownNow, mem.live, Owned());
        }
        if status != Ok {
          return;
        }
        index := index + 1;
      }
      status := Ok;
    }

    /** _dm_msg_set_array. */
    method FlattenItems(key: string, items: seq<Json>) returns (status: Status)
      requires Valid()
      modifies mem, CellsOfAll(properties)
      ensures status == Undefined <==> Flatten.FlattenItems(old(Value()), key, items, 0).1 == Undefined
      ensures status != Undefined ==>
                Valid() && Balanced(old(mem.live), old(Owned()), mem.live, Owned())
                && (Value(), status) == Flatten.FlattenItems(old(Value()), key, items, 0)
      decreases items, 0
    {
      hide Tree.WellFormed, SeparateAll, BlocksAll, ViewAll, View, CellsOfAll, Flatten.FlattenValue, Flatten.FlattenItems, Balanced;
      AllocatedAll(properties);
      ghost var live, own := mem.live, Owned();
      Unchanged(live, own);
      ItemsEnd(key, items);
      var index := 0;
      while index < |items|
        invariant 0 <= index <= |items|
        invariant Valid() && Balanced(live, own, mem.live, Owned())
        invariant Flatten.FlattenItems(old(Value()), key, items, 0) == Flatten.FlattenItems(Value(), key, items, index)
      {
        ghost var liveNow, ownNow := mem.live, Owned();
        ItemsStep(Value(), key, items, index);
        status := FlattenValue(Paths.ElementKey(key, index), items[index]);
        if status != Undefined {
          BalancedTwice(live, own, liveNow, ownNow, mem.live, Owned());
        }
        if status != Ok {
          return;
        }
        index := index + 1;
      }
      status := Ok;
    }

    /**
      The writing half of dm_msg_property_set.  On the documented schema and an input that follows it,
      the in-place result is the structural merge.
    */
    method PropertySet(members: seq<Flatten.Member>) returns (status: Status)
      requires Valid()
      modifies mem, CellsOfAll(properties)
      ensures status == Undefined <==> Flatten.FlattenMembers(old(Value()), None, members, 0).1 == Undefined
      ensures status != Undefined ==>
                Valid() && Balanced(old(mem.live), old(Owned()), mem.live, Owned())
                && (Value(), status) == Flatten.FlattenMembers(old(Value()), None, members, 0)
      ensures Paths.Documented(old(Value())) && Flatten.MembersConform(old(Value()), members) ==>
                status == Ok && Valid() && Value() == Flatten.MergeMembers(old(Value()), members, 0)
    {
      hide Tree.WellFormed, SeparateAll, BlocksAll, ViewAll, View, CellsOfAll, Flatten.FlattenValue, Flatten.MergeMembers,
           Flatten.MembersConform, Paths.Documented;
      ghost var before := Value();
      status := FlattenMembers(None, members);
      if Paths.Documented(before) && Flatten.MembersConform(before, members) {
        Refines.FlattenIsMerge(before, members, 0);
      }
    }

    // -------------------------------------------------------------- assembling

    /** dm_shw_assemble_property: the member it adds to the caller's object. */
    method AssembleProperty(identifier: string) returns (r: Option<Flatten.Member>)
      requires Valid()
      ensures var i := FirstNamed(Value(), identifier, 0);
              r == if i.None? then None else Some(Flatten.Member(identifier, Assembly.AssembleNode(Value()[i.value])))
    {
      hide Tree.WellFormed, SeparateAll, BlocksAll, View, CellsOfAll;
      AllocatedAll(properties);
      ghost var m, vs := Now(), Value();
      var index := 0;
      while index < |properties|
        invariant 0 <= index <= |properties|
        invariant FirstNamed(vs, identifier, 0) == FirstNamed(vs, identifier, index)
      {
        ViewName(properties[index], m);
        if IdName(properties[index].id) == Some(identifier) {
          CellsOfMember(properties, index);
          var v := AssembleData(properties[index], m);
          return Some(Flatten.Member(identifier, v));
        }
        index := index + 1;
      }
      r := None;
    }

    // -------------------------------------------------------------- destruction

    /** dm_shw_destroy: every block of the shadow is released once, and no other. */
    method Destroy()
      requires Valid()
      modifies mem
      ensures mem.Valid() && mem.live + old(Owned()) == old(mem.live)
    {
      hide Tree.WellFormed, SeparateAll, ViewAll, View, Blocks, CellsOfAll, BlocksAll;
      ghost var m, live, inner := Now(), mem.live, BlocksAll(properties, Now());
      AllocatedAll(properties);
      assert inner + Head() == Owned();
      FreeAll(mem, properties, m);
      Remaining(live, mem.live, inner, Head());
      FreeIf(mem, storage);
      mem.Free(root);
      Associate(mem.live, Head(), inner);
    }
  }
}
