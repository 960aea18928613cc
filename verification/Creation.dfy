/** Creation: eng/dev_model/dm_tsl_alink.c allocates and zeroes the tree a schema describes. */
module Creation {
  import opened Text
  import opened Tree = ShadowTree
  import opened Schema
  import opened Shadow

  function ZeroSlot(ty: ScalarType): (s: Slot)
    ensures SlotValue(s) == Zero(ty) && SlotBlocks(s) == multiset{}
  {
    if IntLike(ty) then IntS(0) else if RealLike(ty) then RealS(0.0) else NoText
  }

  lemma {:induction false} SumOfEmpty(bs: seq<multiset<Block>>)
    requires forall k :: 0 <= k < |bs| ==> bs[k] == multiset{}
    ensures Sum(bs) == multiset{}
  {
    if bs != [] {
      SumOfEmpty(bs[..|bs| - 1]);
    }
  }

  lemma {:induction false} ZeroSlots(s: seq<Slot>, ty: ScalarType)
    requires forall k :: 0 <= k < |s| ==> s[k] == ZeroSlot(ty)
    ensures SlotValues(s) == seq(|s|, _ => Zero(ty)) && Sum(EachSlotBlocks(s)) == multiset{}
  {
    SumOfEmpty(EachSlotBlocks(s));
  }

  /** A forest grows by one tree with cells of its own. */
  lemma {:induction false} AppendSeparate(ds: seq<Data>, d: Data)
    requires SeparateAll(ds) && Separate(d) && CellsOfAll(ds) !! CellsOf(d)
    ensures SeparateAll(ds + [d]) && CellsOfAll(ds + [d]) == CellsOfAll(ds) + CellsOf(d)
  {
    var u := ds + [d];
    assert u[..|u| - 1] == ds;
  }

  lemma {:induction false} AppendValue(ds: seq<Data>, d: Data, m: Store, md: Store)
    requires m.Keys == CellsOfAll(ds) && md.Keys == CellsOf(d) && CellsOfAll(ds) !! CellsOf(d)
    ensures ViewAll(ds + [d], m + md) == ViewAll(ds, m) + [View(d, md)]
    ensures BlocksAll(ds + [d], m + md) == BlocksAll(ds, m) + Blocks(d, md)
  {
    var u, n := ds + [d], m + md;
    AgreeAll(ds, m, n);
    Agree(d, md, n);
    AppendBlocks(ds, d, n);
  }

  lemma {:induction false} AppendBlocks(ds: seq<Data>, d: Data, n: Store)
    ensures ViewAll(ds + [d], n) == ViewAll(ds, n) + [View(d, n)]
    ensures BlocksAll(ds + [d], n) == BlocksAll(ds, n) + Blocks(d, n)
  {
    var each := EachBlocks(ds + [d], n);
    assert each == EachBlocks(ds, n) + [Blocks(d, n)];
    assert each[..|each| - 1] == EachBlocks(ds, n);
  }

  /** A forest with cells of its own, and what memory holds in them. */
  ghost predicate Recorded(ds: seq<Data>, m: Store)
    reads CellsOfAll(ds)
  {
    SeparateAll(ds) && m == Snapshot(CellsOfAll(ds))
  }

  lemma {:induction false} AppendRecorded(ds: seq<Data>, d: Data, m: Store, md: Store)
    requires Recorded(ds, m) && Separate(d) && md == Snapshot(CellsOf(d))
    requires CellsOfAll(ds) !! CellsOf(d)
    ensures Recorded(ds + [d], m + md) && CellsOfAll(ds + [d]) == CellsOfAll(ds) + CellsOf(d)
    ensures ViewAll(ds + [d], m + md) == ViewAll(ds, m) + [View(d, md)]
    ensures BlocksAll(ds + [d], m + md) == BlocksAll(ds, m) + Blocks(d, md)
  {
    AppendSeparate(ds, d);
    AppendValue(ds, d, m, md);
  }

  /** _dm_shw_int_parse and its like: a zero cell. */
  method ParseScalar(id: Ident, ty: ScalarType) returns (d: Data, ghost m: Store)
    ensures d.id == id && fresh(CellsOf(d)) && Separate(d) && m == Snapshot(CellsOf(d))
    ensures View(d, m) == FreshNode(IdName(id), ScalarSpec(ty)) && ValueBlocks(d, m) == multiset{}
  {
    var cell := new Slot[1](_ => ZeroSlot(ty));
    d := DLeaf(id, ty, cell);
    m := Snapshot({cell});
  }

  /** The array half of _dm_shw_array_parse for scalar elements: `size` zero cells. */
  method ParseArray(mem: Memory, id: Ident, size: nat, ty: ScalarType) returns (d: Data, ghost m: Store)
    requires mem.Valid()
    modifies mem
    ensures mem.Valid()
    ensures d.id == id && fresh(CellsOf(d)) && Separate(d) && m == Snapshot(CellsOf(d))
    ensures View(d, m) == FreshNode(IdName(id), ArraySpec(size, ty))
    ensures mem.live == old(mem.live) + ValueBlocks(d, m)
  {
    hide Sum, EachSlotBlocks, SlotValues;
    ghost var before := mem.live;
    var header := mem.Malloc();
    var storage := mem.Malloc();
    assert mem.live == before + multiset{header, storage};
    var slots := new Slot[size](_ => ZeroSlot(ty));
    d := DArray(id, ty, Frame(header, storage), slots);
    m := Snapshot({slots});
    ZeroSlots(m[slots], ty);
    assert ValueBlocks(d, m) == multiset{header, storage};
  }

  /** _dm_shw_data_parse for a node whose identifier is already copied. */
  method ParseSpec(mem: Memory, id: Ident, spec: TypeSpec) returns (d: Data, ghost m: Store)
    requires mem.Valid() && WellFormedSpec(spec)
    modifies mem
    ensures mem.Valid()
    ensures d.id == id && fresh(CellsOf(d)) && Separate(d) && m == Snapshot(CellsOf(d))
    ensures View(d, m) == FreshNode(IdName(id), spec)
    ensures mem.live == old(mem.live) + ValueBlocks(d, m)
    decreases spec, 1
  {
    match spec {
      case ScalarSpec(ty) =>
        d, m := ParseScalar(id, ty);
      case ArraySpec(size, ty) =>
        d, m := ParseArray(mem, id, size, ty);
      case StructSpec(fields) =>
        d, m := ParseStruct(mem, id, fields);
      case StructArraySpec(size, fields) =>
        var header := mem.Malloc();
        var storage := mem.Malloc();
        ghost var before := mem.live;
        var elements;
        elements, m := ParseElements(mem, size, fields);
        d := DStructArray(id, Frame(header, storage), elements);
        assert mem.live == before + Sum(EachBlocks(elements, m));
    }
  }

  /** _dm_shw_struct_parse. */
  method ParseStruct(mem: Memory, id: Ident, fields: seq<Field>) returns (d: Data, ghost m: Store)
    requires mem.Valid() && WellFormedSchema(fields)
    modifies mem
    ensures mem.Valid()
    ensures d.id == id && fresh(CellsOf(d)) && Separate(d) && m == Snapshot(CellsOf(d))
    ensures View(d, m) == Struct(IdName(id), FreshAll(fields))
    ensures mem.live == old(mem.live) + ValueBlocks(d, m)
    decreases fields, 3
  {
    var header := mem.Malloc();
    var storage := mem.Malloc();
    ghost var before := mem.live;
    var members;
    members, m := ParseFields(mem, fields);
    d := DStruct(id, Frame(header, storage), members);
    assert mem.live == before + Sum(EachBlocks(members, m));
  }

  /** _dm_shw_property_parse. */
  method ParseProperty(mem: Memory, field: Field) returns (d: Data, ghost m: Store)
    requires mem.Valid() && WellFormedSpec(field.spec)
    modifies mem
    ensures mem.Valid()
    ensures fresh(CellsOf(d)) && Separate(d) && m == Snapshot(CellsOf(d))
    ensures View(d, m) == FreshNode(Some(field.id), field.spec)
    ensures mem.live == old(mem.live) + Blocks(d, m)
    decreases field, 2
  {
    var block := mem.Malloc();
    d, m := ParseSpec(mem, Ident(field.id, block), field.spec);
  }

  lemma {:induction false} PrefixGrows<T>(whole: seq<T>, i: nat)
    requires i < |whole|
    ensures whole[..i + 1] == whole[..i] + [whole[i]]
  {
  }

  lemma {:induction false} CopiesGrow<T>(x: T, i: nat)
    ensures seq(i + 1, _ => x) == seq(i, _ => x) + [x]
  {
  }

  lemma {:induction false} EmptyForest()
    ensures CellsOfAll([]) == {} && Recorded([], map[])
    ensures ViewAll([], map[]) == [] && BlocksAll([], map[]) == multiset{}
  {
  }

  /** One round of the member loop. */
  method ParseNext(mem: Memory, ds: seq<Data>, ghost m: Store, field: Field)
    returns (r: seq<Data>, ghost n: Store, ghost added: multiset<Block>)
    requires mem.Valid() && WellFormedSpec(field.spec) && Recorded(ds, m)
    modifies mem
    ensures mem.Valid() && mem.live == old(mem.live) + added
    ensures fresh(CellsOfAll(r) - CellsOfAll(ds)) && Recorded(r, n)
    ensures ViewAll(r, n) == ViewAll(ds, m) + [FreshNode(Some(field.id), field.spec)]
    ensures BlocksAll(r, n) == BlocksAll(ds, m) + added
    decreases field, 3
  {
    AllocatedAll(ds);
    var d;
    ghost var md;
    d, md := ParseProperty(mem, field);
    AppendRecorded(ds, d, m, md);
    r, n, added := ds + [d], m + md, Blocks(d, md);
  }

  /** The member loop of _dm_shw_struct_parse and _dm_shw_properties_parse. */
  method ParseFields(mem: Memory, fields: seq<Field>) returns (ds: seq<Data>, ghost m: Store)
    requires mem.Valid() && WellFormedSchema(fields)
    modifies mem
    ensures mem.Valid()
    ensures fresh(CellsOfAll(ds)) && Recorded(ds, m)
    ensures ViewAll(ds, m) == FreshAll(fields)
    ensures mem.live == old(mem.live) + BlocksAll(ds, m)
    decreases fields, 0
  {
    hide BlocksAll, View, FreshNode, WellFormedSpec;
    EmptyForest();
    ds, m := [], map[];
    ghost var whole := FreshAll(fields);
    var index := 0;
    while index < |fields|
      invariant 0 <= index <= |fields|
      invariant mem.Valid()
      invariant fresh(CellsOfAll(ds)) && Recorded(ds, m)
      invariant ViewAll(ds, m) == whole[..index]
      invariant mem.live == old(mem.live) + BlocksAll(ds, m)
    {
      PrefixGrows(whole, index);
      ghost var added;
      ds, m, added := ParseNext(mem, ds, m, fields[index]);
      index := index + 1;
    }
  }

  /** One element: a structure without identifier. */
  method ParseBareStruct(mem: Memory, fields: seq<Field>) returns (d: Data, ghost m: Store)
    requires mem.Valid() && WellFormedSchema(fields)
    modifies mem
    ensures mem.Valid()
    ensures fresh(CellsOf(d)) && Separate(d) && m == Snapshot(CellsOf(d))
    ensures View(d, m) == Struct(None, FreshAll(fields))
    ensures mem.live == old(mem.live) + Blocks(d, m)
    decreases fields, 4
  {
    d, m := ParseStruct(mem, NoIdent, fields);
  }

  /** One round of the element loop. */
  method ParseElement(mem: Memory, ds: seq<Data>, ghost m: Store, fields: seq<Field>)
    returns (r: seq<Data>, ghost n: Store, ghost added: multiset<Block>)
    requires mem.Valid() && WellFormedSchema(fields) && Recorded(ds, m)
    modifies mem
    ensures mem.Valid() && mem.live == old(mem.live) + added
    ensures fresh(CellsOfAll(r) - CellsOfAll(ds)) && Recorded(r, n)
    ensures ViewAll(r, n) == ViewAll(ds, m) + [Struct(None, FreshAll(fields))]
    ensures BlocksAll(r, n) == BlocksAll(ds, m) + added
    decreases fields, 5
  {
    AllocatedAll(ds);
    var d;
    ghost var md;
    d, md := ParseBareStruct(mem, fields);
    AppendRecorded(ds, d, m, md);
    r, n, added := ds + [d], m + md, Blocks(d, md);
  }

  /** _dm_shw_array_struct_parse: elements have no identifier. */
  method ParseElements(mem: Memory, size: nat, fields: seq<Field>) returns (ds: seq<Data>, ghost m: Store)
    requires mem.Valid() && WellFormedSchema(fields)
    modifies mem
    ensures mem.Valid()
    ensures fresh(CellsOfAll(ds)) && Recorded(ds, m)
    ensures ViewAll(ds, m) == seq(size, _ => Struct(None, FreshAll(fields)))
    ensures mem.live == old(mem.live) + BlocksAll(ds, m)
    decreases fields, 6
  {
    hide BlocksAll, View, FreshNode, WellFormedSchema;
    EmptyForest();
    ds, m := [], map[];
    ghost var element := Struct(None, FreshAll(fields));
    var index := 0;
    while index < size
      invariant 0 <= index <= size
      invariant mem.Valid()
      invariant fresh(CellsOfAll(ds)) && Recorded(ds, m)
      invariant ViewAll(ds, m) == seq(index, _ => element)
      invariant mem.live == old(mem.live) + BlocksAll(ds, m)
    {
      CopiesGrow(element, index);
      ghost var added;
      ds, m, added := ParseElement(mem, ds, m, fields);
      index := index + 1;
    }
  }
}
