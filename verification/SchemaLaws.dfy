/** What the created tree has: well-formedness, exactly the schema's paths and places, and a key for each of them. */
module SchemaLaws {
  import opened Text
  import opened ShadowTree
  import opened Paths
  import opened Schema

  lemma {:induction false} FreshWellFormed(fields: seq<Field>)
    requires WellFormedSchema(fields)
    ensures WellFormed(FreshAll(fields))
    decreases fields, 0
  {
    forall i | 0 <= i < |fields| ensures WellFormedNode(FreshNode(Some(fields[i].id), fields[i].spec)) {
      FreshNodeWellFormed(Some(fields[i].id), fields[i].spec);
    }
  }

  lemma {:induction false} FreshNodeWellFormed(id: Option<string>, spec: TypeSpec)
    requires WellFormedSpec(spec)
    ensures WellFormedNode(FreshNode(id, spec))
    decreases spec, 1
  {
    match spec
    case ScalarSpec(_) =>
    case ArraySpec(_, _) =>
    case StructSpec(fields) => FreshWellFormed(fields);
    case StructArraySpec(_, fields) => FreshWellFormed(fields);
  }

  // ---------------------------------------------------------------- the places a schema asks for

  type Place = (seq<nat>, nat)

  /** How many places a schema asks for. */
  function PlacesAsked(fields: seq<Field>): nat
    decreases fields, 0
  {
    if fields == [] then 0 else PlacesAsked(fields[..|fields| - 1]) + SpecPlaces(fields[|fields| - 1].spec)
  }

  function SpecPlaces(spec: TypeSpec): nat
    decreases spec, 1
  {
    match spec
    case ScalarSpec(_) => 1
    case ArraySpec(size, _) => size
    case StructSpec(fields) => PlacesAsked(fields)
    case StructArraySpec(size, fields) => size * PlacesAsked(fields)
  }

  function Under(i: nat, ps: seq<Place>): (r: seq<Place>)
    ensures |r| == |ps| && forall k :: 0 <= k < |ps| ==> r[k] == ([i] + ps[k].0, ps[k].1)
  {
    seq(|ps|, k requires 0 <= k < |ps| => ([i] + ps[k].0, ps[k].1))
  }

  /** The places of a tree, one after the other. */
  function Places(ms: seq<Node>): seq<Place>
    decreases ms, 0
  {
    if ms == [] then [] else Places(ms[..|ms| - 1]) + Under(|ms| - 1, NodePlaces(ms[|ms| - 1]))
  }

  /** The places at a node, from it. */
  function NodePlaces(n: Node): seq<Place>
    decreases n, 1
  {
    match n
    case Leaf(_, _, _) => [([], 0)]
    case Array(_, _, slots) => seq(|slots|, k requires 0 <= k < |slots| => ([], k))
    case Struct(_, ms) => Places(ms)
    case StructArray(_, es) => Places(es)
  }

  ghost predicate Distinct(ps: seq<Place>) {
    forall a, b :: 0 <= a < b < |ps| ==> ps[a] != ps[b]
  }

  lemma {:induction false} InTreeStep(ms: seq<Node>, i: nat, loc: seq<nat>)
    requires i < |ms| && InTree(Children(ms[i]), loc)
    ensures InTree(ms, [i] + loc) && NodeAt(ms, [i] + loc) == NodeAt(Children(ms[i]), loc)
  {
    assert ([i] + loc)[1..] == loc;
  }

  /** A place under a node. */
  predicate PlaceIn(n: Node, loc: seq<nat>, index: nat) {
    if loc == [] then Settable(n, index) && (n.Leaf? ==> index == 0) else IsPlace(Children(n), loc, index)
  }

  lemma {:induction false} PlaceUnder(ms: seq<Node>, loc: seq<nat>, index: nat)
    ensures IsPlace(ms, loc, index) <==> loc != [] && loc[0] < |ms| && PlaceIn(ms[loc[0]], loc[1..], index)
  {
  }

  lemma {:induction false} IsPlaceInit(ms: seq<Node>, loc: seq<nat>, index: nat)
    requires ms != [] && (loc != [] ==> loc[0] != |ms| - 1)
    ensures IsPlace(ms, loc, index) <==> IsPlace(ms[..|ms| - 1], loc, index)
  {
    PlaceUnder(ms, loc, index);
    PlaceUnder(ms[..|ms| - 1], loc, index);
  }

  lemma {:induction false} UnderExact(i: nat, ps: seq<Place>, x: Place)
    ensures x in Under(i, ps) <==> x.0 != [] && x.0[0] == i && (x.0[1..], x.1) in ps
  {
    var r := Under(i, ps);
    if x in r {
      var k :| 0 <= k < |r| && r[k] == x;
      assert ([i] + ps[k].0)[1..] == ps[k].0;
    }
    if x.0 != [] && x.0[0] == i && (x.0[1..], x.1) in ps {
      var k :| 0 <= k < |ps| && ps[k] == (x.0[1..], x.1);
      assert [i] + x.0[1..] == x.0;
      assert r[k] == x;
    }
  }

  /** The enumeration holds exactly the places, */
  lemma {:induction false} PlacesExact(ms: seq<Node>, x: Place)
    ensures x in Places(ms) <==> IsPlace(ms, x.0, x.1)
    decreases ms, 0
  {
    if ms != [] {
      var n := |ms| - 1;
      hide NodePlaces, IsPlace, Under;
      UnderExact(n, NodePlaces(ms[n]), x);
      PlacesExact(ms[..n], x);
      if x.0 != [] && x.0[0] == n {
        NodePlacesExact(ms[n], (x.0[1..], x.1));
        PlaceUnder(ms[..n], x.0, x.1);
        PlaceUnder(ms, x.0, x.1);
      } else {
        IsPlaceInit(ms, x.0, x.1);
      }
    }
  }

  lemma {:induction false} NodePlacesExact(n: Node, x: Place)
    ensures x in NodePlaces(n) <==> PlaceIn(n, x.0, x.1)
    decreases n, 1
  {
    match n
    case Leaf(_, _, _) =>
    case Array(_, _, slots) =>
      if x.0 == [] && x.1 < |slots| {
        assert NodePlaces(n)[x.1] == x;
      }
    case Struct(_, ms) => PlacesExact(ms, x);
    case StructArray(_, es) => PlacesExact(es, x);
  }

  /** and each of them once, */
  lemma {:induction false} PlacesDistinct(ms: seq<Node>)
    ensures Distinct(Places(ms))
    decreases ms, 0
  {
    if ms != [] {
      var n := |ms| - 1;
      PlacesDistinct(ms[..n]);
      NodePlacesDistinct(ms[n]);
      hide NodePlaces;
      var ps, qs := Places(ms[..n]), Under(n, NodePlaces(ms[n]));
      forall a, b | 0 <= a < b < |qs| ensures qs[a] != qs[b] {
        var ns := NodePlaces(ms[n]);
        assert ([n] + ns[a].0)[1..] == ns[a].0 && ([n] + ns[b].0)[1..] == ns[b].0;
      }
      forall a, b | 0 <= a < |ps| && 0 <= b < |qs| ensures ps[a] != qs[b] {
        PlacesExact(ms[..n], ps[a]);
        assert qs[b].0[0] == n;
      }
    }
  }

  lemma {:induction false} NodePlacesDistinct(n: Node)
    ensures Distinct(NodePlaces(n))
    decreases n, 1
  {
    match n
    case Leaf(_, _, _) =>
    case Array(_, _, _) =>
    case Struct(_, ms) => PlacesDistinct(ms);
    case StructArray(_, es) => PlacesDistinct(es);
  }

  /** and the created tree has as many as the schema asks for. */
  lemma {:induction false} FreshPlaces(fields: seq<Field>)
    ensures |Places(FreshAll(fields))| == PlacesAsked(fields)
    decreases fields, 0
  {
    if fields != [] {
      var init := fields[..|fields| - 1];
      assert FreshAll(fields)[..|fields| - 1] == FreshAll(init);
      FreshPlaces(init);
      FreshNodePlaces(Some(fields[|fields| - 1].id), fields[|fields| - 1].spec);
    }
  }

  lemma {:induction false} FreshNodePlaces(id: Option<string>, spec: TypeSpec)
    ensures |NodePlaces(FreshNode(id, spec))| == SpecPlaces(spec)
    decreases spec, 1
  {
    match spec
    case ScalarSpec(_) =>
    case ArraySpec(_, _) =>
    case StructSpec(fields) => FreshPlaces(fields);
    case StructArraySpec(size, fields) =>
      FreshPlaces(fields);
      CopiesPlaces(Struct(None, FreshAll(fields)), size);
  }

  lemma {:induction false} CopiesPlaces(n: Node, size: nat)
    ensures |Places(seq(size, _ => n))| == size * |NodePlaces(n)|
    decreases size
  {
    if size > 0 {
      assert seq(size, _ => n)[..size - 1] == seq(size - 1, _ => n);
      CopiesPlaces(n, size - 1);
    }
  }

  // ---------------------------------------------------------------- the paths a schema has

  /** The path leads from the schema to a scalar of the type, or to one element of an array of such scalars. */
  predicate IsSchemaPath(fields: seq<Field>, p: Path, ty: ScalarType)
    decreases |p|, 1
  {
    p != [] && exists i :: 0 <= i < |fields| && fields[i].id == p[0].name && SpecPath(fields[i].spec, p[0].indices, p[1..], ty)
  }

  predicate SpecPath(spec: TypeSpec, indices: seq<nat>, rest: Path, ty: ScalarType)
    decreases |rest|, 2
  {
    match spec
    case ScalarSpec(t) => indices == [] && rest == [] && ty == t
    case ArraySpec(size, t) => |indices| == 1 && indices[0] < size && rest == [] && ty == t
    case StructSpec(fields) => indices == [] && IsSchemaPath(fields, rest, ty)
    case StructArraySpec(size, fields) => |indices| == 1 && indices[0] < size && IsSchemaPath(fields, rest, ty)
  }

  /** A cell as the program zeroes it: no bit set, and for a text a null pointer. */
  predicate IsZero(ty: ScalarType, v: Value) {
    match ty
    case IntT => v == IntV(0)
    case EnumT => v == IntV(0)
    case BoolT => v == IntV(0)
    case FloatT => v == RealV(0.0)
    case DoubleT => v == RealV(0.0)
    case TextT => v == TextV(None)
    case DateT => v == TextV(None)
  }

  predicate Zeroed(n: Node, index: nat) {
    (n.Leaf? && IsZero(n.ty, n.value)) || (n.Array? && index < |n.slots| && IsZero(n.ty, n.slots[index]))
  }

  /** A place of the created tree, its path, its type and its zeroed cell. */
  ghost predicate PlaceOfPath(fields: seq<Field>, p: Path, ty: ScalarType, loc: seq<nat>, index: nat) {
    && IsPlace(FreshAll(fields), loc, index) && PlacePath(FreshAll(fields), loc, index) == p
    && NodeAt(FreshAll(fields), loc).ty == ty && Zeroed(NodeAt(FreshAll(fields), loc), index)
  }

  lemma {:induction false} FieldName(fields: seq<Field>, i: nat)
    requires i < |fields|
    ensures NameOf(FreshAll(fields)[i]) == fields[i].id
  {
  }

  /** A place at the top, and its path. */
  lemma {:induction false} TopPlace(fields: seq<Field>, i: nat, index: nat)
    requires i < |fields|
    ensures (fields[i].spec.ScalarSpec? && index == 0) || (fields[i].spec.ArraySpec? && index < fields[i].spec.size) ==>
              PlaceOfPath(fields, [Segment(fields[i].id, if fields[i].spec.ArraySpec? then [index] else [])], fields[i].spec.ty,
                          [i], index)
  {
    var t := FreshAll(fields);
    FieldName(fields, i);
    assert NodeAt(t, [i]) == t[i];
    if IsPlace(t, [i], index) {
      PlaceAtTop(t, [i], index);
    }
  }

  /** A place inside a structure, */
  lemma {:induction false} StructPlace(fields: seq<Field>, i: nat, rest: Path, ty: ScalarType, loc: seq<nat>, index: nat)
    requires i < |fields| && fields[i].spec.StructSpec?
    ensures PlaceOfPath(fields, [Segment(fields[i].id, [])] + rest, ty, [i] + loc, index)
       <==> PlaceOfPath(fields[i].spec.fields, rest, ty, loc, index)
  {
    var t, l, x := FreshAll(fields), [i] + loc, [Segment(fields[i].id, [])];
    assert l[1..] == loc && (x + rest)[1..] == rest;
    FieldName(fields, i);
    PlaceUnder(t, l, index);
    if loc != [] && IsPlace(t, l, index) {
      PlacePathInStruct(t, l, index);
      var q := PlacePath(t[i].members, loc, index);
      assert (x + q)[1..] == q;
    }
  }

  /** and inside an element. */
  lemma {:induction false} ElementPlace(fields: seq<Field>, i: nat, k: nat, rest: Path, ty: ScalarType,
                                        loc: seq<nat>, index: nat)
    requires WellFormedSchema(fields) && i < |fields| && fields[i].spec.StructArraySpec? && k < fields[i].spec.size
    ensures PlaceOfPath(fields, [Segment(fields[i].id, [k])] + rest, ty, [i, k] + loc, index)
       <==> PlaceOfPath(fields[i].spec.fields, rest, ty, loc, index)
  {
    var t, l, x := FreshAll(fields), [i, k] + loc, [Segment(fields[i].id, [k])];
    var es := t[i].elements;
    assert l[1..] == [k] + loc && l[2..] == loc && ([k] + loc)[1..] == loc && (x + rest)[1..] == rest;
    assert es[k] == Struct(None, FreshAll(fields[i].spec.fields));
    FieldName(fields, i);
    PlaceUnder(t, l, index);
    PlaceUnder(es, [k] + loc, index);
    if loc != [] && IsPlace(t, l, index) {
      FreshWellFormed(fields);
      assert WellFormedNode(t[i]);
      PlacePathInElement(t, l, index);
      var q := PlacePath(es[k].members, loc, index);
      assert (x + q)[1..] == q;
    }
  }

  /** Each path of the schema is the path of a place, */
  lemma {:induction false} SchemaPathPlace(fields: seq<Field>, p: Path, ty: ScalarType) returns (loc: seq<nat>, index: nat)
    requires WellFormedSchema(fields) && IsSchemaPath(fields, p, ty)
    ensures PlaceOfPath(fields, p, ty, loc, index)
    decreases |p|
  {
    hide PlaceOfPath;
    var i :| 0 <= i < |fields| && fields[i].id == p[0].name && SpecPath(fields[i].spec, p[0].indices, p[1..], ty);
    var spec := fields[i].spec;
    assert WellFormedSpec(spec);
    assert p == [Segment(fields[i].id, p[0].indices)] + p[1..];
    if spec.ScalarSpec? || spec.ArraySpec? {
      loc, index := [i], if spec.ScalarSpec? then 0 else p[0].indices[0];
      TopPlace(fields, i, index);
      assert spec.ArraySpec? ==> p[0].indices == [index];
      assert p == [Segment(fields[i].id, p[0].indices)];
    } else {
      loc, index := SchemaPathPlace(spec.fields, p[1..], ty);
      if spec.StructSpec? {
        StructPlace(fields, i, p[1..], ty, loc, index);
        loc := [i] + loc;
      } else {
        var k := p[0].indices[0];
        assert p[0].indices == [k];
        ElementPlace(fields, i, k, p[1..], ty, loc, index);
        loc := [i, k] + loc;
      }
    }
  }

  /** and the path of each place is one of the schema. */
  lemma {:induction false} PlaceSchemaPath(fields: seq<Field>, loc: seq<nat>, index: nat)
    requires WellFormedSchema(fields) && IsPlace(FreshAll(fields), loc, index)
    ensures var ty := NodeAt(FreshAll(fields), loc).ty;
            IsSchemaPath(fields, PlacePath(FreshAll(fields), loc, index), ty) && Zeroed(NodeAt(FreshAll(fields), loc), index)
    decreases |loc|
  {
    var t, i := FreshAll(fields), loc[0];
    var spec, p, n := fields[i].spec, PlacePath(t, loc, index), NodeAt(t, loc);
    FieldName(fields, i);
    FreshWellFormed(fields);
    assert WellFormedSpec(spec);
    if |loc| == 1 {
      hide PlacePath, LocPath, WellFormed;
      PlaceAtTop(t, loc, index);
      assert p[1..] == [] && n == t[i];
      assert fields[i].id == p[0].name && SpecPath(spec, p[0].indices, p[1..], n.ty);
    } else {
      hide PlacePath, LocPath, WellFormed, Settable, NodeAt, InTree, Zeroed;
      PlacePathStep(t, loc, index);
      PlaceStepNode(t, loc, index);
      if spec.StructSpec? {
        PlaceSchemaPath(spec.fields, loc[1..], index);
        assert p[1..] == PlacePath(t[i].members, loc[1..], index);
        assert fields[i].id == p[0].name && SpecPath(spec, p[0].indices, p[1..], n.ty);
      } else {
        assert t[i].elements[loc[1]] == Struct(None, FreshAll(spec.fields));
        PlaceSchemaPath(spec.fields, loc[2..], index);
        assert p[1..] == PlacePath(t[i].elements[loc[1]].members, loc[2..], index);
        assert fields[i].id == p[0].name && SpecPath(spec, p[0].indices, p[1..], n.ty);
      }
    }
  }

  /** The paths of the schema are exactly the paths of the places of the tree created from it, with their types; and every
      place of that tree is zeroed. */
  lemma {:induction false} SchemaPathsExact(fields: seq<Field>, p: Path, ty: ScalarType)
    requires WellFormedSchema(fields)
    ensures IsSchemaPath(fields, p, ty) <==> exists loc, index: nat :: PlaceOfPath(fields, p, ty, loc, index)
  {
    if IsSchemaPath(fields, p, ty) {
      var loc, index := SchemaPathPlace(fields, p, ty);
      assert PlaceOfPath(fields, p, ty, loc, index);
    }
    if exists loc, index: nat :: PlaceOfPath(fields, p, ty, loc, index) {
      var loc, index: nat :| PlaceOfPath(fields, p, ty, loc, index);
      PlaceSchemaPath(fields, loc, index);
    }
  }

  // ---------------------------------------------------------------- every schema path resolves

  /** Struct-array elements have scalar and scalar-array members only. */
  predicate DocumentedSchema(fields: seq<Field>)
    decreases fields, 0
  {
    forall i :: 0 <= i < |fields| ==> DocumentedSpec(fields[i].spec)
  }

  predicate DocumentedSpec(spec: TypeSpec)
    decreases spec, 1
  {
    match spec
    case StructSpec(fields) => DocumentedSchema(fields)
    case StructArraySpec(_, fields) =>
      forall j :: 0 <= j < |fields| ==> fields[j].spec.ScalarSpec? || fields[j].spec.ArraySpec?
    case _ => true
  }

  lemma {:induction false} FreshDocumented(fields: seq<Field>)
    requires DocumentedSchema(fields)
    ensures Documented(FreshAll(fields))
    decreases fields, 0
  {
    forall i | 0 <= i < |fields| ensures DocumentedNode(FreshAll(fields)[i]) {
      var spec := fields[i].spec;
      assert DocumentedSpec(spec);
      if spec.StructSpec? {
        FreshDocumented(spec.fields);
      } else if spec.StructArraySpec? {
        assert forall j :: 0 <= j < |spec.fields| ==> Children(FreshAll(spec.fields)[j]) == [];
      }
    }
  }

  /** In the tree created for a well-formed schema, every place's key finds the place, if the schema is the documented one. */
  lemma {:induction false} CreatedPlacesResolve(fields: seq<Field>, loc: seq<nat>, index: nat)
    requires WellFormedSchema(fields) && IsPlace(FreshAll(fields), loc, index)
    ensures var t := FreshAll(fields);
            && WellFormed(t)
            && (PropertySearch(t, Print(PlacePath(t, loc, index))) == Found(loc, index) <==> Shallow(t, loc))
            && (DocumentedSchema(fields) ==> Shallow(t, loc))
  {
    var t := FreshAll(fields);
    FreshWellFormed(fields);
    PlaceKeyResolves(t, loc, index);
    if DocumentedSchema(fields) {
      FreshDocumented(fields);
      DocumentedIsShallow(t, loc, index);
    }
  }

  /** In the tree of a documented schema every path of the schema, printed, finds its place. */
  lemma {:induction false} SchemaPathFound(fields: seq<Field>, p: Path, ty: ScalarType)
    requires WellFormedSchema(fields) && DocumentedSchema(fields) && IsSchemaPath(fields, p, ty)
    ensures exists loc, index: nat ::
              PlaceOfPath(fields, p, ty, loc, index) && PropertySearch(FreshAll(fields), Print(p)) == Found(loc, index)
  {
    var loc, index := SchemaPathPlace(fields, p, ty);
    CreatedPlacesResolve(fields, loc, index);
    assert PlaceOfPath(fields, p, ty, loc, index);
  }

  /** Before any set, the key of every place that has a working one reads as zero, or fails if the place holds text. */
  lemma {:induction false} FreshReads(fields: seq<Field>, loc: seq<nat>, index: nat)
    requires WellFormedSchema(fields) && IsPlace(FreshAll(fields), loc, index) && Shallow(FreshAll(fields), loc)
    ensures var t := FreshAll(fields);
            var r := GetProperty(t, Print(PlacePath(t, loc, index)));
            match NodeAt(t, loc).ty
            case IntT => r == Some(IntV(0))
            case EnumT => r == Some(IntV(0))
            case BoolT => r == Some(IntV(0))
            case FloatT => r == Some(RealV(0.0))
            case DoubleT => r == Some(RealV(0.0))
            case TextT => r == None
            case DateT => r == None
  {
    hide PropertySearch, Print, PlacePath, WellFormedSchema;
    CreatedPlacesResolve(fields, loc, index);
    PlaceSchemaPath(fields, loc, index);
  }

  /** No array of the schema is empty. */
  predicate Filled(fields: seq<Field>)
    decreases fields, 0
  {
    forall i :: 0 <= i < |fields| ==> FilledSpec(fields[i].spec)
  }

  predicate FilledSpec(spec: TypeSpec)
    decreases spec, 1
  {
    match spec
    case ScalarSpec(_) => true
    case ArraySpec(size, _) => size > 0
    case StructSpec(fields) => Filled(fields)
    case StructArraySpec(size, fields) => size > 0 && Filled(fields)
  }

  lemma {:induction false} PlaceInside(fields: seq<Field>, i: nat, loc: seq<nat>, index: nat)
    requires i < |fields| && fields[i].spec.StructSpec? && IsPlace(FreshAll(fields[i].spec.fields), loc, index)
    ensures IsPlace(FreshAll(fields), [i] + loc, index)
    ensures Shallow(FreshAll(fields), [i] + loc) == Shallow(FreshAll(fields[i].spec.fields), loc)
  {
    assert ([i] + loc)[1..] == loc;
    PlaceUnder(FreshAll(fields), [i] + loc, index);
  }

  lemma {:induction false} PlaceInElement(fields: seq<Field>, i: nat, loc: seq<nat>, index: nat)
    requires i < |fields| && fields[i].spec.StructArraySpec? && fields[i].spec.size > 0
    requires IsPlace(FreshAll(fields[i].spec.fields), loc, index)
    ensures IsPlace(FreshAll(fields), [i, 0] + loc, index)
    ensures Shallow(FreshAll(fields), [i, 0] + loc) <==> |loc| == 1
  {
    var es, l := FreshAll(fields)[i].elements, [i, 0] + loc;
    assert l[1..] == [0] + loc && ([0] + loc)[1..] == loc;
    assert es[0] == Struct(None, FreshAll(fields[i].spec.fields));
    PlaceUnder(es, [0] + loc, index);
    PlaceUnder(FreshAll(fields), l, index);
  }

  /** A schema without empty arrays has a place under every field. */
  lemma {:induction false} SomePlace(fields: seq<Field>, i: nat) returns (loc: seq<nat>, index: nat)
    requires WellFormedSchema(fields) && Filled(fields) && i < |fields|
    ensures IsPlace(FreshAll(fields), loc, index) && loc[0] == i
    ensures fields[i].spec.StructSpec? || fields[i].spec.StructArraySpec? ==> |loc| > 1
    decreases fields
  {
    var spec := fields[i].spec;
    assert WellFormedSpec(spec) && FilledSpec(spec);
    if spec.ScalarSpec? || spec.ArraySpec? {
      loc, index := [i], 0;
      assert NodeAt(FreshAll(fields), [i]) == FreshAll(fields)[i];
    } else {
      loc, index := SomePlace(spec.fields, 0);
      hide WellFormedSchema, Filled;
      if spec.StructSpec? {
        PlaceInside(fields, i, loc, index);
        loc := [i] + loc;
      } else {
        PlaceInElement(fields, i, loc, index);
        loc := [i, 0] + loc;
      }
    }
  }

  lemma {:induction false} UndocumentedPlace(fields: seq<Field>) returns (loc: seq<nat>, index: nat)
    requires WellFormedSchema(fields) && Filled(fields) && !DocumentedSchema(fields)
    ensures IsPlace(FreshAll(fields), loc, index) && !Shallow(FreshAll(fields), loc)
    decreases fields
  {
    var i :| 0 <= i < |fields| && !DocumentedSpec(fields[i].spec);
    var spec := fields[i].spec;
    assert WellFormedSpec(spec) && FilledSpec(spec);
    if spec.StructSpec? {
      loc, index := UndocumentedPlace(spec.fields);
      hide WellFormedSchema, Filled, Shallow;
      PlaceInside(fields, i, loc, index);
      loc := [i] + loc;
    } else {
      var j :| 0 <= j < |spec.fields| && !(spec.fields[j].spec.ScalarSpec? || spec.fields[j].spec.ArraySpec?);
      loc, index := SomePlace(spec.fields, j);
      hide WellFormedSchema, Filled, Shallow;
      PlaceInElement(fields, i, loc, index);
      loc := [i, 0] + loc;
    }
  }

  /** The documented schemas are exactly those all of whose places have working keys, empty arrays aside. */
  lemma {:induction false} DocumentedExactly(fields: seq<Field>)
    requires WellFormedSchema(fields) && Filled(fields)
    ensures DocumentedSchema(fields) <==>
            forall loc, index: nat :: IsPlace(FreshAll(fields), loc, index) ==> Shallow(FreshAll(fields), loc)
  {
    if DocumentedSchema(fields) {
      forall loc, index: nat | IsPlace(FreshAll(fields), loc, index)
        ensures Shallow(FreshAll(fields), loc)
      {
        CreatedPlacesResolve(fields, loc, index);
      }
    } else {
      var loc, index := UndocumentedPlace(fields);
    }
  }

  /** A structure nested in a struct-array element is beyond the key language: its key stops at the structure. */
  lemma {:induction false} NestedStructUnaddressable()
    ensures var fields := [Field("a", StructArraySpec(1, [Field("s", StructSpec([Field("x", ScalarSpec(IntT))]))]))];
            && WellFormedSchema(fields)
            && IsPlace(FreshAll(fields), [0, 0, 0, 0], 0)
            && PropertySearch(FreshAll(fields), Print(PlacePath(FreshAll(fields), [0, 0, 0, 0], 0))) != Found([0, 0, 0, 0], 0)
  {
    var inner := [Field("x", ScalarSpec(IntT))];
    var middle := [Field("s", StructSpec(inner))];
    var fields := [Field("a", StructArraySpec(1, middle))];
    assert WellFormedSchema(inner);
    assert WellFormedSpec(StructSpec(inner));
    assert WellFormedSchema(middle);
    assert WellFormedSpec(StructArraySpec(1, middle));
    assert WellFormedSchema(fields);
    var t := FreshAll(fields);
    var loc: seq<nat> := [0, 0, 0, 0];
    assert t[0].elements[0] == Struct(None, FreshAll(middle));
    assert FreshAll(middle)[0] == Struct(Some("s"), FreshAll(inner));
    assert FreshAll(inner)[0] == Leaf(Some("x"), IntT, IntV(0));
    InTreeStep(FreshAll(middle), 0, [0]);
    InTreeStep(t[0].elements, 0, [0, 0]);
    InTreeStep(t, 0, [0, 0, 0]);
    assert [0] + [0] == [0, 0] && [0] + [0, 0] == [0, 0, 0] && [0] + [0, 0, 0] == loc;
    assert loc[1..][1..] == [0, 0];
    CreatedPlacesResolve(fields, loc, 0);
  }
}
