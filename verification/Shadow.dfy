/**
  The shadow in memory: a skeleton fixed by the schema whose cells are updated in place, with every
  heap block it owns.  Methods follow dm_shadow.c, dm_tsl_alink.c and the setters of dm_message.c.
*/
module Shadow {
  import opened Text
  import opened Tree = ShadowTree
  import Laws = ShadowLaws

  type Block = nat

  /** DM_malloc and DM_free: the blocks that are live.  Allocation is assumed to succeed. */
  class Memory {
    var next: Block
    ghost var live: multiset<Block>

    ghost predicate Valid()
      reads this
    {
      forall b :: b in live ==> live[b] == 1 && b < next
    }

    constructor ()
      ensures Valid() && live == multiset{}
    {
      next := 0;
      live := multiset{};
    }

    method Malloc() returns (b: Block)
      requires Valid()
      modifies this
      ensures Valid()
      ensures b !in old(live) && live == old(live) + multiset{b}
    {
      b := next;
      next := next + 1;
      live := live + multiset{b};
    }

    method Free(b: Block)
      requires Valid() && b in live
      modifies this
      ensures Valid()
      ensures live + multiset{b} == old(live) && b !in live
    {
      live := live - multiset{b};
    }
  }

  // ---------------------------------------------------------------- the skeleton

  /** A stored cell; a text points to a block of its own. */
  datatype Slot = IntS(i: int) | RealS(r: real) | TextS(text: string, block: Block) | NoText

  /** A run of cells in memory: one for a scalar, `size` of them for a scalar array. */
  type Cells = array<Slot>

  /** An element of a struct array has a null identifier. */
  datatype Ident = NoIdent | Ident(name: string, block: Block)

  /** The complex-value header and the storage it points to. */
  datatype Frame = Frame(header: Block, storage: Block)

  datatype Data =
    | DLeaf(id: Ident, ty: ScalarType, cell: Cells)
    | DArray(id: Ident, ty: ScalarType, frame: Frame, slots: Cells)
    | DStruct(id: Ident, frame: Frame, members: seq<Data>)
    | DStructArray(id: Ident, frame: Frame, elements: seq<Data>)

  function IdName(id: Ident): Option<string> {
    if id.NoIdent? then None else Some(id.name)
  }

  function Parts(d: Data): seq<Data> {
    match d
    case DStruct(_, _, ms) => ms
    case DStructArray(_, _, es) => es
    case _ => []
  }

  /** The cells of a tree: what can change in it. */
  function CellsOf(d: Data): set<Cells>
    decreases d, 1
  {
    match d
    case DLeaf(_, _, cell) => {cell}
    case DArray(_, _, _, slots) => {slots}
    case DStruct(_, _, ms) => CellsOfAll(ms)
    case DStructArray(_, _, es) => CellsOfAll(es)
  }

  function CellsOfAll(ds: seq<Data>): set<Cells>
    decreases ds, 0
  {
    if ds == [] then {} else CellsOfAll(ds[..|ds| - 1]) + CellsOf(ds[|ds| - 1])
  }

  /** No two nodes share cells, and a scalar has exactly one. */
  ghost predicate Separate(d: Data)
    decreases d, 1
  {
    match d
    case DLeaf(_, _, cell) => cell.Length == 1
    case DArray(_, _, _, _) => true
    case DStruct(_, _, ms) => SeparateAll(ms)
    case DStructArray(_, _, es) => SeparateAll(es)
  }

  ghost predicate SeparateAll(ds: seq<Data>)
    decreases ds, 0
  {
    ds == [] ||
    (SeparateAll(ds[..|ds| - 1]) && Separate(ds[|ds| - 1]) && CellsOfAll(ds[..|ds| - 1]) !! CellsOf(ds[|ds| - 1]))
  }

  lemma {:induction false} CellsOfMember(ds: seq<Data>, i: nat)
    requires i < |ds|
    ensures CellsOf(ds[i]) <= CellsOfAll(ds)
    ensures SeparateAll(ds) ==> Separate(ds[i])
    decreases |ds|
  {
    if i < |ds| - 1 {
      CellsOfMember(ds[..|ds| - 1], i);
    }
  }

  lemma {:induction false} MembersApart(ds: seq<Data>, i: nat, j: nat)
    requires i < j < |ds| && SeparateAll(ds)
    ensures CellsOf(ds[i]) !! CellsOf(ds[j])
    decreases |ds|
  {
    if j < |ds| - 1 {
      MembersApart(ds[..|ds| - 1], i, j);
    } else {
      CellsOfMember(ds[..|ds| - 1], i);
    }
  }

  /** The part of the tree that no setter touches, as a value with every cell zeroed. */
  function Shape(d: Data): Node
    decreases d, 1
  {
    match d
    case DLeaf(id, ty, _) => Leaf(IdName(id), ty, Zero(ty))
    case DArray(id, ty, _, slots) => Array(IdName(id), ty, seq(slots.Length, _ => Zero(ty)))
    case DStruct(id, _, ms) => Struct(IdName(id), ShapeAll(ms))
    case DStructArray(id, _, es) => StructArray(IdName(id), ShapeAll(es))
  }

  function ShapeAll(ds: seq<Data>): (r: seq<Node>)
    ensures |r| == |ds| && forall i :: 0 <= i < |ds| ==> r[i] == Shape(ds[i])
    decreases ds, 0
  {
    seq(|ds|, i requires 0 <= i < |ds| => Shape(ds[i]))
  }

  // ---------------------------------------------------------------- the value and the blocks of a tree

  /** What memory holds in each run of cells. */
  type Store = map<Cells, seq<Slot>>

  ghost function Snapshot(cells: set<Cells>): (m: Store)
    reads cells
    ensures m.Keys == cells && forall a :: a in cells ==> m[a] == a[..]
  {
    map a | a in cells :: a[..]
  }

  ghost function Held(m: Store, a: Cells): seq<Slot> {
    if a in m then m[a] else []
  }

  function FirstSlot(s: seq<Slot>): Slot {
    if s == [] then NoText else s[0]
  }

  function SlotValue(s: Slot): Value {
    match s
    case IntS(i) => IntV(i)
    case RealS(r) => RealV(r)
    case TextS(t, _) => TextV(Some(t))
    case NoText => TextV(None)
  }

  function SlotValues(s: seq<Slot>): (r: seq<Value>)
    ensures |r| == |s| && forall k :: 0 <= k < |s| ==> r[k] == SlotValue(s[k])
  {
    seq(|s|, k requires 0 <= k < |s| => SlotValue(s[k]))
  }

  /** The tree as a value. */
  ghost function View(d: Data, m: Store): Node
    decreases d, 1
  {
    match d
    case DLeaf(id, ty, cell) => Leaf(IdName(id), ty, SlotValue(FirstSlot(Held(m, cell))))
    case DArray(id, ty, _, slots) => Array(IdName(id), ty, SlotValues(Held(m, slots)))
    case DStruct(id, _, ms) => Struct(IdName(id), ViewAll(ms, m))
    case DStructArray(id, _, es) => StructArray(IdName(id), ViewAll(es, m))
  }

  ghost function ViewAll(ds: seq<Data>, m: Store): (r: seq<Node>)
    ensures |r| == |ds| && forall i :: 0 <= i < |ds| ==> r[i] == View(ds[i], m)
    decreases ds, 0
  {
    seq(|ds|, i requires 0 <= i < |ds| => View(ds[i], m))
  }

  function SlotBlocks(s: Slot): multiset<Block> {
    if s.TextS? then multiset{s.block} else multiset{}
  }

  function Sum(bs: seq<multiset<Block>>): multiset<Block> {
    if bs == [] then multiset{} else Sum(bs[..|bs| - 1]) + bs[|bs| - 1]
  }

  function EachSlotBlocks(s: seq<Slot>): (r: seq<multiset<Block>>)
    ensures |r| == |s| && forall k :: 0 <= k < |s| ==> r[k] == SlotBlocks(s[k])
  {
    seq(|s|, k requires 0 <= k < |s| => SlotBlocks(s[k]))
  }

  function IdBlocks(id: Ident): multiset<Block> {
    if id.NoIdent? then multiset{} else multiset{id.block}
  }

  function FrameBlocks(d: Data): multiset<Block> {
    if d.DLeaf? then multiset{} else multiset{d.frame.header, d.frame.storage}
  }

  /** The blocks of the node itself, which live as long as the tree. */
  function OwnBlocks(d: Data): multiset<Block> {
    IdBlocks(d.id) + FrameBlocks(d)
  }

  /** Every block a tree owns, with multiplicity. */
  ghost function Blocks(d: Data, m: Store): multiset<Block>
    decreases d, 2
  {
    IdBlocks(d.id) + ValueBlocks(d, m)
  }

  /** All of them but the identifier's. */
  ghost function ValueBlocks(d: Data, m: Store): multiset<Block>
    decreases d, 1
  {
    FrameBlocks(d) +
    match d
    case DLeaf(_, _, cell) => SlotBlocks(FirstSlot(Held(m, cell)))
    case DArray(_, _, _, slots) => Sum(EachSlotBlocks(Held(m, slots)))
    case DStruct(_, _, ms) => Sum(EachBlocks(ms, m))
    case DStructArray(_, _, es) => Sum(EachBlocks(es, m))
  }

  ghost function EachBlocks(ds: seq<Data>, m: Store): (r: seq<multiset<Block>>)
    ensures |r| == |ds| && forall i :: 0 <= i < |ds| ==> r[i] == Blocks(ds[i], m)
    decreases ds, 0
  {
    seq(|ds|, i requires 0 <= i < |ds| => Blocks(ds[i], m))
  }

  ghost function BlocksAll(ds: seq<Data>, m: Store): multiset<Block> {
    Sum(EachBlocks(ds, m))
  }

  lemma {:induction false} SumUpdate(bs: seq<multiset<Block>>, i: nat, x: multiset<Block>)
    requires i < |bs|
    ensures Sum(bs[i := x]) + bs[i] == Sum(bs) + x
    ensures bs[i] <= Sum(bs)
    decreases |bs|
  {
    var u, init := bs[i := x], bs[..|bs| - 1];
    if i < |bs| - 1 {
      SumUpdate(init, i, x);
      assert u[..|u| - 1] == init[i := x];
      var last := bs[|bs| - 1];
      assert Sum(u) + bs[i] == (Sum(init[i := x]) + init[i]) + last;
      assert Sum(bs) + x == (Sum(init) + x) + last;
    } else {
      assert u[..|u| - 1] == init;
    }
  }

  lemma {:induction false} SumPrefix(bs: seq<multiset<Block>>, k: nat)
    requires k <= |bs|
    ensures Sum(bs[..k]) <= Sum(bs)
    ensures k < |bs| ==> Sum(bs[..k + 1]) == Sum(bs[..k]) + bs[k]
    decreases |bs|
  {
    if k < |bs| {
      assert bs[..k + 1][..k] == bs[..k];
      if k < |bs| - 1 {
        assert bs[..|bs| - 1][..k] == bs[..k];
        SumPrefix(bs[..|bs| - 1], k);
      }
    } else {
      assert bs[..k] == bs;
    }
  }

  /** Only the cells of a tree matter to its value and its blocks. */
  lemma {:induction false} Agree(d: Data, m: Store, n: Store)
    requires forall a :: a in CellsOf(d) ==> Held(m, a) == Held(n, a)
    ensures View(d, m) == View(d, n) && Blocks(d, m) == Blocks(d, n)
    decreases d, 1
  {
    if d.DStruct? {
      AgreeAll(d.members, m, n);
    } else if d.DStructArray? {
      AgreeAll(d.elements, m, n);
    }
  }

  lemma {:induction false} AgreeAll(ds: seq<Data>, m: Store, n: Store)
    requires forall a :: a in CellsOfAll(ds) ==> Held(m, a) == Held(n, a)
    ensures ViewAll(ds, m) == ViewAll(ds, n) && EachBlocks(ds, m) == EachBlocks(ds, n)
    decreases ds, 0
  {
    forall i | 0 <= i < |ds| ensures View(ds[i], m) == View(ds[i], n) && Blocks(ds[i], m) == Blocks(ds[i], n) {
      CellsOfMember(ds, i);
      Agree(ds[i], m, n);
    }
  }

  ghost predicate Covers(m: Store, cells: set<Cells>) {
    forall a :: a in cells ==> a in m && |m[a]| == a.Length
  }

  lemma {:induction false} ShapeIsBlank(d: Data, m: Store)
    requires Covers(m, CellsOf(d))
    ensures Shape(d) == Blank(View(d, m))
    decreases d, 1
  {
    if d.DStruct? {
      ShapeAllIsBlank(d.members, m);
    } else if d.DStructArray? {
      ShapeAllIsBlank(d.elements, m);
    }
  }

  lemma {:induction false} ShapeAllIsBlank(ds: seq<Data>, m: Store)
    requires Covers(m, CellsOfAll(ds))
    ensures ShapeAll(ds) == BlankAll(ViewAll(ds, m))
    decreases ds, 0
  {
    forall i | 0 <= i < |ds| ensures Shape(ds[i]) == Blank(View(ds[i], m)) {
      CellsOfMember(ds, i);
      ShapeIsBlank(ds[i], m);
    }
  }

  lemma {:induction false} Allocated(d: Data)
    ensures forall a :: a in CellsOf(d) ==> allocated(a)
    decreases d, 1
  {
    if d.DStruct? {
      AllocatedAll(d.members);
    } else if d.DStructArray? {
      AllocatedAll(d.elements);
    }
  }

  lemma {:induction false} AllocatedAll(ds: seq<Data>)
    ensures forall a :: a in CellsOfAll(ds) ==> allocated(a)
    decreases ds, 0
  {
    if ds != [] {
      AllocatedAll(ds[..|ds| - 1]);
      Allocated(ds[|ds| - 1]);
    }
  }

  // ---------------------------------------------------------------- searches

  /** What a search writes to its caller: the node and the index, or nothing; Past is a read beyond the elements. */
  datatype Lookup = Hit(data: Data, index: int) | Miss | Past

  function DataAt(d: Data, loc: seq<nat>): Data
    decreases |loc|
  {
    if loc == [] || loc[0] >= |Parts(d)| then d else DataAt(Parts(d)[loc[0]], loc[1..])
  }

  /** The node that a search over the values designates. */
  function Lift(d: Data, r: Search): Lookup {
    match r
    case Found(loc, index) => Hit(DataAt(d, loc), index)
    case Missing => Miss
    case Outside => Past
  }

  function LiftAll(ds: seq<Data>, r: Search): Lookup {
    match r
    case Found(loc, index) => if loc != [] && loc[0] < |ds| then Hit(DataAt(ds[loc[0]], loc[1..]), index) else Miss
    case Missing => Miss
    case Outside => Past
  }

  lemma {:induction false} LiftBelow(ds: seq<Data>, i: nat, r: Search)
    requires i < |ds|
    ensures LiftAll(ds, Below(i, r)) == Lift(ds[i], r)
  {
    if r.Found? {
      assert ([i] + r.loc)[1..] == r.loc;
    }
  }

  lemma {:induction false} LiftPart(d: Data, i: nat, r: Search)
    requires i < |Parts(d)|
    ensures Lift(d, Below(i, r)) == Lift(Parts(d)[i], r)
  {
    if r.Found? {
      assert ([i] + r.loc)[1..] == r.loc;
    }
  }

  lemma {:induction false} LiftParts(d: Data, r: Search)
    requires r.Found? ==> r.loc != [] && r.loc[0] < |Parts(d)|
    ensures LiftAll(Parts(d), r) == Lift(d, r)
  {
  }

  /** The tokeniser and the index parser, as every search starts. */
  method TakeHead(key: string) returns (h: Head)
    ensures h == HeadOf(key)
  {
    var token := Memtok(key, '.', 1);
    var d := if token.Some? then token.value else |key|;
    var b := StrarrIndex(key[..d]);
    var n := if b.ok && b.partial <= d then b.partial else d;
    h := Head(d, b, key[..n], d == |key|, if d == |key| then "" else key[d + 1..]);
  }

  /** _dm_shw_data_array_search. */
  method ArraySearch(d: Data, index: int, key: string) returns (r: Lookup)
    requires d.DArray? || d.DStructArray?
    ensures r == Lift(d, Tree.ArraySearch(Shape(d), index, key))
    decreases d, 0
  {
    var token := Memtok(key, '.', 1);
    var e := if token.Some? then token.value else |key|;
    match d
    case DArray(_, _, _, _) =>
      if e != |key| {
        return Miss;
      }
      return Hit(d, index);
    case DStructArray(_, _, elements) =>
      if index < 0 || index >= |elements| {
        return Past;
      }
      if !elements[index].DStruct? {
        return Miss;
      }
      r := StructSearch(elements[index].members, key[..e]);
      ghost var s := Tree.StructSearch(ShapeAll(elements[index].members), key[..e]);
      LiftPart(d, index, s);
      LiftParts(elements[index], s);
  }

  /** The switch after an identifier matched, in _dm_shw_data_struct_search and _dm_shw_data_search. */
  method MatchedSearch(d: Data, h: Head) returns (r: Lookup)
    ensures r == Lift(d, Tree.MatchedSearch(Shape(d), h))
    decreases d, 1
  {
    match d
    case DLeaf(_, _, _) =>
      if h.bracket.partial != 0 || !h.last {
        return Miss;
      }
      return Hit(d, 0);
    case DStruct(_, _, members) =>
      if h.last {
        return Hit(d, 0);
      }
      if h.bracket.partial != 0 {
        return Miss;
      }
      r := StructSearch(members, h.rest);
      LiftParts(d, Tree.StructSearch(ShapeAll(members), h.rest));
    case _ =>
      if h.bracket.partial == 0 && h.last {
        return Hit(d, 0);
      }
      if h.bracket.partial == 0 {
        return Miss;
      }
      r := ArraySearch(d, h.bracket.index, h.rest);
  }

  /** _dm_shw_data_struct_search: the first member whose identifier matches decides. */
  method StructSearch(ms: seq<Data>, key: string) returns (r: Lookup)
    ensures r == LiftAll(ms, Tree.StructSearch(ShapeAll(ms), key))
    decreases ms, 0
  {
    var h := TakeHead(key);
    ghost var vs := ShapeAll(ms);
    var itemIndex := 0;
    while itemIndex < |ms|
      invariant 0 <= itemIndex <= |ms|
      invariant FirstNamed(vs, h.name, 0) == FirstNamed(vs, h.name, itemIndex)
    {
      if IdName(ms[itemIndex].id) == Some(h.name) {
        assert Named(vs[itemIndex], h.name);
        r := MatchedSearch(ms[itemIndex], h);
        LiftBelow(ms, itemIndex, Tree.MatchedSearch(vs[itemIndex], h));
        return;
      }
      itemIndex := itemIndex + 1;
    }
    return Miss;
  }

  /** _dm_shw_data_search. */
  method DataSearch(d: Data, key: string) returns (r: Lookup)
    ensures r == Lift(d, Tree.DataSearch(Shape(d), key))
  {
    var h := TakeHead(key);
    if IdName(d.id) != Some(h.name) {
      return Miss;
    }
    r := MatchedSearch(d, h);
  }

  /** _dm_shw_property_search: the next property is tried after a miss. */
  method PropertySearch(ds: seq<Data>, key: string) returns (r: Lookup)
    ensures r == LiftAll(ds, Tree.PropertySearch(ShapeAll(ds), key))
  {
    if key == "" {
      return Miss;
    }
    ghost var vs := ShapeAll(ds);
    var itemIndex := 0;
    while itemIndex < |ds|
      invariant 0 <= itemIndex <= |ds|
      invariant PropertyFrom(vs, key, 0) == PropertyFrom(vs, key, itemIndex)
    {
      r := DataSearch(ds[itemIndex], key);
      LiftBelow(ds, itemIndex, Tree.DataSearch(vs[itemIndex], key));
      if r != Miss {
        return;
      }
      itemIndex := itemIndex + 1;
    }
    return Miss;
  }

  /** The search over the shape is the search over the values. */
  lemma {:induction false} SearchShape(ds: seq<Data>, m: Store, key: string)
    requires Covers(m, CellsOfAll(ds))
    ensures Tree.PropertySearch(ShapeAll(ds), key) == Tree.PropertySearch(ViewAll(ds, m), key)
  {
    ShapeAllIsBlank(ds, m);
    Laws.PropertyFromBlank(ViewAll(ds, m), key, 0);
  }

  // ---------------------------------------------------------------- one run of cells changes

  /** The node at a location of the forest. */
  function At(ds: seq<Data>, loc: seq<nat>): Data
    requires loc != [] && loc[0] < |ds|
  {
    DataAt(ds[loc[0]], loc[1..])
  }

  lemma {:induction false} PartsOf(d: Data, m: Store)
    requires Parts(d) != []
    ensures Children(View(d, m)) == ViewAll(Parts(d), m)
  {
  }

  lemma {:induction false} PartsReplaced(d: Data, m: Store, n: Store)
    requires Parts(d) != []
    ensures View(d, n) == WithChildren(View(d, m), ViewAll(Parts(d), n))
  {
  }

  lemma {:induction false} PartsBlocks(d: Data, m: Store)
    requires Parts(d) != []
    ensures Blocks(d, m) == OwnBlocks(d) + BlocksAll(Parts(d), m)
  {
    var rest := BlocksAll(Parts(d), m);
    assert ValueBlocks(d, m) == FrameBlocks(d) + rest;
    assert IdBlocks(d.id) + (FrameBlocks(d) + rest) == (IdBlocks(d.id) + FrameBlocks(d)) + rest;
  }

  lemma {:induction false} PartsSeparate(d: Data)
    requires Parts(d) != []
    ensures CellsOf(d) == CellsOfAll(Parts(d)) && (Separate(d) ==> SeparateAll(Parts(d)))
  {
  }

  lemma {:induction false} AtParts(ds: seq<Data>, m: Store, loc: seq<nat>)
    requires InTree(ViewAll(ds, m), loc) && |loc| > 1
    ensures Parts(ds[loc[0]]) != [] && InTree(ViewAll(Parts(ds[loc[0]]), m), loc[1..])
    ensures At(Parts(ds[loc[0]]), loc[1..]) == At(ds, loc)
    ensures NodeAt(ViewAll(ds, m), loc) == NodeAt(ViewAll(Parts(ds[loc[0]]), m), loc[1..])
  {
    var d := ds[loc[0]];
    assert InTree(Children(View(d, m)), loc[1..]);
    PartsOf(d, m);
  }

  lemma {:induction false} AtView(ds: seq<Data>, m: Store, loc: seq<nat>)
    requires InTree(ViewAll(ds, m), loc)
    ensures View(At(ds, loc), m) == NodeAt(ViewAll(ds, m), loc)
    decreases |loc|
  {
    if |loc| > 1 {
      AtParts(ds, m, loc);
      AtView(Parts(ds[loc[0]]), m, loc[1..]);
    }
  }

  lemma {:induction false} AtOwned(ds: seq<Data>, m: Store, loc: seq<nat>)
    requires InTree(ViewAll(ds, m), loc)
    ensures CellsOf(At(ds, loc)) <= CellsOf(ds[loc[0]])
    ensures SeparateAll(ds) ==> Separate(At(ds, loc))
    decreases |loc|
  {
    CellsOfMember(ds, loc[0]);
    if |loc| > 1 {
      var d := ds[loc[0]];
      AtParts(ds, m, loc);
      PartsSeparate(d);
      AtOwned(Parts(d), m, loc[1..]);
      CellsOfMember(Parts(d), loc[1]);
    }
  }

  lemma {:induction false} AtBlocks(ds: seq<Data>, m: Store, loc: seq<nat>)
    requires InTree(ViewAll(ds, m), loc)
    ensures Blocks(At(ds, loc), m) <= BlocksAll(ds, m)
    decreases |loc|
  {
    hide Sum, Blocks, View;
    SumUpdate(EachBlocks(ds, m), loc[0], multiset{});
    assert Blocks(ds[loc[0]], m) <= BlocksAll(ds, m);
    if |loc| > 1 {
      AtParts(ds, m, loc);
      PartsBlocks(ds[loc[0]], m);
      AtBlocks(Parts(ds[loc[0]]), m, loc[1..]);
    } else {
      assert At(ds, loc) == ds[loc[0]];
    }
  }

  /** Whatever a node has in memory is owned: its identifier, header and storage, and the text in each of its cells. */
  lemma {:induction false} NodeOwned(ds: seq<Data>, m: Store, loc: seq<nat>)
    requires InTree(ViewAll(ds, m), loc)
    ensures var d, all := At(ds, loc), BlocksAll(ds, m);
            && (d.id.Ident? ==> d.id.block in all)
            && (!d.DLeaf? ==> d.frame.header in all && d.frame.storage in all)
            && (d.DLeaf? && d.cell in m && m[d.cell] != [] && m[d.cell][0].TextS? ==> m[d.cell][0].block in all)
            && (d.DArray? && d.slots in m ==>
                  forall k :: 0 <= k < |m[d.slots]| && m[d.slots][k].TextS? ==> m[d.slots][k].block in all)
  {
    AtBlocks(ds, m, loc);
    var d := At(ds, loc);
    if d.DArray? && d.slots in m {
      forall k | 0 <= k < |m[d.slots]| && m[d.slots][k].TextS?
        ensures m[d.slots][k].block in Blocks(d, m)
      {
        SumUpdate(EachSlotBlocks(m[d.slots]), k, multiset{});
      }
    }
    hide BlocksAll, EachBlocks, View, ViewAll;
  }

  lemma {:induction false} OtherTree(d: Data, m: Store, a: Cells, s: seq<Slot>)
    requires a !in CellsOf(d)
    ensures View(d, m[a := s]) == View(d, m) && Blocks(d, m[a := s]) == Blocks(d, m)
  {
    Agree(d, m, m[a := s]);
  }

  lemma {:induction false} OtherTrees(ds: seq<Data>, m: Store, i: nat, a: Cells, s: seq<Slot>)
    requires SeparateAll(ds) && i < |ds| && a in CellsOf(ds[i])
    ensures forall j :: 0 <= j < |ds| && j != i ==> View(ds[j], m[a := s]) == View(ds[j], m)
    ensures forall j :: 0 <= j < |ds| && j != i ==> Blocks(ds[j], m[a := s]) == Blocks(ds[j], m)
  {
    forall j | 0 <= j < |ds| && j != i
      ensures View(ds[j], m[a := s]) == View(ds[j], m) && Blocks(ds[j], m[a := s]) == Blocks(ds[j], m)
    {
      if j < i {
        MembersApart(ds, j, i);
      } else {
        MembersApart(ds, i, j);
      }
      OtherTree(ds[j], m, a, s);
    }
  }

  /** Writing one run of cells of one tree of a forest. */
  lemma {:induction false} ChangedTree(ds: seq<Data>, m: Store, i: nat, a: Cells, s: seq<Slot>)
    requires SeparateAll(ds) && i < |ds| && a in CellsOf(ds[i])
    ensures ViewAll(ds, m[a := s]) == ViewAll(ds, m)[i := View(ds[i], m[a := s])]
    ensures BlocksAll(ds, m[a := s]) + Blocks(ds[i], m) == BlocksAll(ds, m) + Blocks(ds[i], m[a := s])
  {
    OtherTrees(ds, m, i, a, s);
    OnlyOneDiffers(ViewAll(ds, m), ViewAll(ds, m[a := s]), i);
    OnlyOneDiffers(EachBlocks(ds, m), EachBlocks(ds, m[a := s]), i);
    SumUpdate(EachBlocks(ds, m), i, Blocks(ds[i], m[a := s]));
  }

  lemma {:induction false} OnlyOneDiffers<T>(before: seq<T>, after: seq<T>, i: nat)
    requires i < |before| == |after| && forall j :: 0 <= j < |before| && j != i ==> after[j] == before[j]
    ensures after == before[i := after[i]]
  {
  }

  /** Writing the cells of the node at a location replaces that node in the value. */
  lemma {:induction false} ChangedAt(ds: seq<Data>, m: Store, loc: seq<nat>, a: Cells, s: seq<Slot>)
    requires SeparateAll(ds) && InTree(ViewAll(ds, m), loc) && CellsOf(At(ds, loc)) == {a}
    ensures ViewAll(ds, m[a := s]) == ReplaceAt(ViewAll(ds, m), loc, View(At(ds, loc), m[a := s]))
    decreases |loc|
  {
    var d := ds[loc[0]];
    AtOwned(ds, m, loc);
    ChangedTree(ds, m, loc[0], a, s);
    if |loc| > 1 {
      AtParts(ds, m, loc);
      PartsOf(d, m);
      PartsReplaced(d, m, m[a := s]);
      CellsOfMember(ds, loc[0]);
      PartsSeparate(d);
      ChangedAt(Parts(d), m, loc[1..], a, s);
    }
  }

  /** And its blocks among the blocks. */
  lemma {:induction false} BlocksChangedAt(ds: seq<Data>, m: Store, loc: seq<nat>, a: Cells, s: seq<Slot>)
    requires SeparateAll(ds) && InTree(ViewAll(ds, m), loc) && CellsOf(At(ds, loc)) == {a}
    ensures BlocksAll(ds, m[a := s]) + Blocks(At(ds, loc), m) == BlocksAll(ds, m) + Blocks(At(ds, loc), m[a := s])
    decreases |loc|
  {
    var d, n := ds[loc[0]], m[a := s];
    AtOwned(ds, m, loc);
    ChangedTree(ds, m, loc[0], a, s);
    if |loc| > 1 {
      AtParts(ds, m, loc);
      PartsBlocks(d, m);
      PartsBlocks(d, n);
      CellsOfMember(ds, loc[0]);
      PartsSeparate(d);
      BlocksChangedAt(Parts(d), m, loc[1..], a, s);
      BalanceInside(BlocksAll(ds, n), BlocksAll(ds, m), Blocks(d, n), Blocks(d, m), OwnBlocks(d),
                    BlocksAll(Parts(d), n), BlocksAll(Parts(d), m), Blocks(At(ds, loc), n), Blocks(At(ds, loc), m));
    }
  }

  lemma {:induction false} BalanceInside(alln: multiset<Block>, allm: multiset<Block>, dn: multiset<Block>, dm: multiset<Block>,
                      own: multiset<Block>, pn: multiset<Block>, pm: multiset<Block>, tn: multiset<Block>, tm: multiset<Block>)
    requires alln + dm == allm + dn && dn == own + pn && dm == own + pm && pn + tm == pm + tn
    ensures alln + tm == allm + tn
  {
    forall b: Block ensures alln[b] + tm[b] == allm[b] + tn[b] {
      assert (alln + dm)[b] == (allm + dn)[b];
      assert (pn + tm)[b] == (pm + tn)[b];
    }
    assert forall b: Block :: (alln + tm)[b] == (allm + tn)[b];
  }

  /** The text and date setters: the replaced buffer is given back, then a new one is taken. */
  method StoreText(mem: Memory, was: Slot, text: string) returns (slot: Slot)
    requires mem.Valid() && SlotBlocks(was) <= mem.live
    modifies mem
    ensures mem.Valid()
    ensures slot.TextS? && slot.text == text
    ensures mem.live + SlotBlocks(was) == old(mem.live) + SlotBlocks(slot)
  {
    if was.TextS? {
      mem.Free(was.block);
    }
    ghost var between := mem.live;
    assert between + SlotBlocks(was) == old(mem.live);
    var block := mem.Malloc();
    slot := TextS(text, block);
    assert (between + multiset{block}) + SlotBlocks(was) == (between + SlotBlocks(was)) + multiset{block};
  }

  /** The setters of dm_shadow.c:840-1024, by type. */
  method StoreSlot(mem: Memory, was: Slot, ty: ScalarType, element: bool, arg: Option<Value>) returns (slot: Slot)
    requires mem.Valid() && SlotBlocks(was) <= mem.live && Fits(ty, SlotValue(was))
    modifies mem
    ensures mem.Valid()
    ensures SlotValue(slot) == Stored(ty, element, arg)
    ensures mem.live + SlotBlocks(was) == old(mem.live) + SlotBlocks(slot)
  {
    if ty.TextT? || ty.DateT? {
      slot := StoreText(mem, was, if arg.Some? && arg.value.TextV? && arg.value.text.Some? then arg.value.text.value else "NULL");
    } else if ty.FloatT? || ty.DoubleT? {
      slot := RealS(if arg.Some? && arg.value.RealV? then arg.value.r else 0.0);
    } else {
      var intSet := if arg.Some? && arg.value.IntV? then arg.value.i else 0;
      if ty.EnumT? && !element {
        intSet := if intSet < 0 then 0 else intSet;
      } else if ty.BoolT? && !element {
        intSet := if intSet == 0 then intSet else if intSet == 1 then intSet else 0;
      }
      slot := IntS(intSet);
    }
  }
}
