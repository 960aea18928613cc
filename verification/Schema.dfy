/** The schema (TSL) of a device and the tree that eng/dev_model/dm_tsl_alink.c creates for it. */
module Schema {
  import opened Text
  import opened ShadowTree

  datatype TypeSpec =
    | ScalarSpec(ty: ScalarType)
    | ArraySpec(size: nat, ty: ScalarType)
    | StructSpec(fields: seq<Field>)
    | StructArraySpec(size: nat, fields: seq<Field>)

  datatype Field = Field(id: string, spec: TypeSpec)

  /** Distinct plain identifiers among siblings; structures with members; sizes that print in full. */
  predicate WellFormedSchema(fields: seq<Field>)
    decreases fields, 0
  {
    && (forall i :: 0 <= i < |fields| ==> Plain(fields[i].id) && WellFormedSpec(fields[i].spec))
    && (forall i, j :: 0 <= i < j < |fields| ==> fields[i].id != fields[j].id)
  }

  predicate WellFormedSpec(spec: TypeSpec)
    decreases spec, 1
  {
    match spec
    case ScalarSpec(_) => true
    case ArraySpec(size, _) => size <= ITOA_LIMIT
    case StructSpec(fields) => fields != [] && WellFormedSchema(fields)
    case StructArraySpec(size, fields) => size <= ITOA_LIMIT && fields != [] && WellFormedSchema(fields)
  }

  /** The tree a schema stands for, all cells zero. */
  function FreshNode(id: Option<string>, spec: TypeSpec): Node
    decreases spec, 1
  {
    match spec
    case ScalarSpec(ty) => Leaf(id, ty, Zero(ty))
    case ArraySpec(size, ty) => Array(id, ty, seq(size, _ => Zero(ty)))
    case StructSpec(fields) => Struct(id, FreshAll(fields))
    case StructArraySpec(size, fields) => StructArray(id, seq(size, _ => Struct(None, FreshAll(fields))))
  }

  function FreshAll(fields: seq<Field>): (r: seq<Node>)
    ensures |r| == |fields|
    ensures forall i :: 0 <= i < |fields| ==> r[i] == FreshNode(Some(fields[i].id), fields[i].spec)
    decreases fields, 0
  {
    seq(|fields|, i requires 0 <= i < |fields| => FreshNode(Some(fields[i].id), fields[i].spec))
  }
}
