/**
  The shadow of eng/dev_model/dm_shadow.c as a value: the tree of properties, the key searches,
  and what a set and a get of one key do to it.  The heap form in Shadow.dfy is proved against this.
*/
module ShadowTree {
  import opened Text

  datatype ScalarType = IntT | FloatT | DoubleT | TextT | EnumT | DateT | BoolT

  /** A cell: the union of dm_shw_data_value_t.  A text that was never set is a null pointer. */
  datatype Value = IntV(i: int) | RealV(r: real) | TextV(text: Option<string>)

  datatype Node =
    | Leaf(id: Option<string>, ty: ScalarType, value: Value)
    | Array(id: Option<string>, ty: ScalarType, slots: seq<Value>)
    | Struct(id: Option<string>, members: seq<Node>)
    | StructArray(id: Option<string>, elements: seq<Node>)

  function Children(n: Node): seq<Node> {
    match n
    case Struct(_, ms) => ms
    case StructArray(_, es) => es
    case _ => []
  }

  function WithChildren(n: Node, cs: seq<Node>): Node {
    match n
    case Struct(id, _) => Struct(id, cs)
    case StructArray(id, _) => StructArray(id, cs)
    case _ => n
  }

  // ---------------------------------------------------------------- well-formed trees

  predicate Plain(name: string) {
    name != "" && '.' !in name && '[' !in name && ']' !in name && '\0' !in name
  }

  predicate IntLike(ty: ScalarType) { ty.IntT? || ty.EnumT? || ty.BoolT? }
  predicate RealLike(ty: ScalarType) { ty.FloatT? || ty.DoubleT? }
  predicate TextLike(ty: ScalarType) { ty.TextT? || ty.DateT? }

  predicate Fits(ty: ScalarType, v: Value) {
    match v
    case IntV(_) => IntLike(ty)
    case RealV(_) => RealLike(ty)
    case TextV(_) => TextLike(ty)
  }

  predicate DistinctIds(ms: seq<Node>) {
    && (forall i :: 0 <= i < |ms| ==> ms[i].id.Some? && Plain(ms[i].id.value))
    && (forall i, j :: 0 <= i < j < |ms| ==> ms[i].id != ms[j].id)
  }

  /** Siblings with distinct plain names, all the way down; cells of the declared type; sizes that print in full. */
  ghost predicate WellFormed(ms: seq<Node>)
    decreases ms, 0
  {
    DistinctIds(ms) && forall i :: 0 <= i < |ms| ==> WellFormedNode(ms[i])
  }

  ghost predicate WellFormedNode(n: Node)
    decreases n, 1
  {
    match n
    case Leaf(_, ty, v) => Fits(ty, v)
    case Array(_, ty, slots) => |slots| <= ITOA_LIMIT && forall k :: 0 <= k < |slots| ==> Fits(ty, slots[k])
    case Struct(_, ms) => WellFormed(ms)
    case StructArray(_, es) =>
      |es| <= ITOA_LIMIT && forall k :: 0 <= k < |es| ==> es[k].Struct? && es[k].id.None? && WellFormedNode(es[k])
  }

  // ---------------------------------------------------------------- shape

  function Zero(ty: ScalarType): (v: Value)
    ensures Fits(ty, v)
  {
    if IntLike(ty) then IntV(0) else if RealLike(ty) then RealV(0.0) else TextV(None)
  }

  /** The tree with every cell zeroed: what is left is its shape. */
  function Blank(n: Node): Node
    decreases n, 1
  {
    match n
    case Leaf(id, ty, _) => Leaf(id, ty, Zero(ty))
    case Array(id, ty, slots) => Array(id, ty, seq(|slots|, _ => Zero(ty)))
    case Struct(id, ms) => Struct(id, BlankAll(ms))
    case StructArray(id, es) => StructArray(id, BlankAll(es))
  }

  function BlankAll(ms: seq<Node>): (r: seq<Node>)
    ensures |r| == |ms| && forall i :: 0 <= i < |ms| ==> r[i] == Blank(ms[i])
    decreases ms, 0
  {
    seq(|ms|, i requires 0 <= i < |ms| => Blank(ms[i]))
  }

  // ---------------------------------------------------------------- key searches

  /**
    What a search leaves: the node, as child positions from the root, and the caller's index
    (0 unless a scalar array wrote it); a miss; or a read past the elements of a struct array.
  */
  datatype Search = Found(loc: seq<nat>, index: int) | Missing | Outside

  function Below(i: nat, r: Search): Search {
    match r
    case Found(loc, index) => Found([i] + loc, index)
    case _ => r
  }

  /** The first segment of a key, the part of it compared with identifiers, and what follows it. */
  datatype Head = Head(segment: nat, bracket: Bracket, name: string, last: bool, rest: string)

  function HeadOf(key: string): (h: Head)
    ensures h.last <==> h.segment == |key|
    ensures key != "" && h.rest != "" ==> |h.rest| < |key|
  {
    var d := SegmentEnd(key);
    var b := ParseIndex(key[..d]);
    var n := if b.ok && b.partial <= d then b.partial else d;
    Head(d, b, key[..n], d == |key|, if d == |key| then "" else key[d + 1..])
  }

  predicate Named(n: Node, name: string) { n.id == Some(name) }

  function FirstNamed(ms: seq<Node>, name: string, from: nat): (r: Option<nat>)
    requires from <= |ms|
    ensures r.Some? ==> from <= r.value < |ms| && Named(ms[r.value], name)
    ensures r.None? ==> forall i :: from <= i < |ms| ==> !Named(ms[i], name)
    decreases |ms| - from
  {
    if from == |ms| then None
    else if Named(ms[from], name) then Some(from)
    else FirstNamed(ms, name, from + 1)
  }

  /** _dm_shw_data_struct_search over the members of one structure. */
  function StructSearch(ms: seq<Node>, key: string): (r: Search)
    ensures r.Found? ==> r.loc != [] && InTree(ms, r.loc)
    decreases ms, 0
  {
    var h := HeadOf(key);
    match FirstNamed(ms, h.name, 0)
    case None => Missing
    case Some(i) => Below(i, MatchedSearch(ms[i], h))
  }

  /** The switch on the type of a node whose identifier matched. */
  function MatchedSearch(n: Node, h: Head): (r: Search)
    ensures r.Found? && r.loc != [] ==> InTree(Children(n), r.loc)
    decreases n, 1
  {
    match n
    case Leaf(_, _, _) =>
      if h.bracket.partial != 0 || !h.last then Missing else Found([], 0)
    case Struct(_, ms) =>
      if h.last then Found([], 0)
      else if h.bracket.partial != 0 then Missing
      else StructSearch(ms, h.rest)
    case _ =>
      if h.bracket.partial == 0 then if h.last then Found([], 0) else Missing
      else ArraySearch(n, h.bracket.index, h.rest)
  }

  /** _dm_shw_data_array_search: a scalar array ignores one further segment, a struct array forwards only one. */
  function ArraySearch(n: Node, index: int, key: string): (r: Search)
    requires n.Array? || n.StructArray?
    ensures r.Found? && r.loc != [] ==> InTree(Children(n), r.loc)
    decreases n, 0
  {
    if n.Array? then
      if SegmentEnd(key) != |key| then Missing else Found([], index)
    else if !(0 <= index < |n.elements|) then Outside
    else if !n.elements[index].Struct? then Missing
    else Below(index, StructSearch(n.elements[index].members, key[..SegmentEnd(key)]))
  }

  /** _dm_shw_data_search: one property against the key. */
  function DataSearch(n: Node, key: string): (r: Search)
    ensures r.Found? && r.loc != [] ==> InTree(Children(n), r.loc)
  {
    var h := HeadOf(key);
    if Named(n, h.name) then MatchedSearch(n, h) else Missing
  }

  function PropertyFrom(ms: seq<Node>, key: string, from: nat): (r: Search)
    requires from <= |ms|
    ensures r.Found? ==> r.loc != [] && InTree(ms, r.loc)
    decreases |ms| - from
  {
    if from == |ms| then Missing
    else
      match DataSearch(ms[from], key)
      case Missing => PropertyFrom(ms, key, from + 1)
      case r => Below(from, r)
  }

  /** _dm_shw_property_search. */
  function PropertySearch(ms: seq<Node>, key: string): (r: Search)
    ensures r.Found? ==> r.loc != [] && InTree(ms, r.loc)
  {
    if key == "" then Missing else PropertyFrom(ms, key, 0)
  }

  // ---------------------------------------------------------------- locations

  predicate InTree(ms: seq<Node>, loc: seq<nat>)
    decreases |loc|
  {
    loc != [] && loc[0] < |ms| && (|loc| == 1 || InTree(Children(ms[loc[0]]), loc[1..]))
  }

  function NodeAt(ms: seq<Node>, loc: seq<nat>): Node
    requires InTree(ms, loc)
    decreases |loc|
  {
    if |loc| == 1 then ms[loc[0]] else NodeAt(Children(ms[loc[0]]), loc[1..])
  }

  function ReplaceAt(ms: seq<Node>, loc: seq<nat>, n: Node): (r: seq<Node>)
    requires InTree(ms, loc)
    ensures |r| == |ms|
    decreases |loc|
  {
    var i := loc[0];
    ms[i := if |loc| == 1 then n else WithChildren(ms[i], ReplaceAt(Children(ms[i]), loc[1..], n))]
  }

  // ---------------------------------------------------------------- set and get

  datatype Status = Ok | Failed | Undefined

  /**
    The per-type setters; None is a null argument, and so is one of another C type, which the
    interface forbids.  Elements of enum and bool arrays are kept as they come.
  */
  function Stored(ty: ScalarType, element: bool, arg: Option<Value>): (v: Value)
    ensures Fits(ty, v) && v != TextV(None)
  {
    if IntLike(ty) then
      var i := if arg.Some? && arg.value.IntV? then arg.value.i else 0;
      if ty.EnumT? && !element && i < 0 then IntV(0)
      else if ty.BoolT? && !element && i != 1 then IntV(0)
      else IntV(i)
    else if RealLike(ty) then
      RealV(if arg.Some? && arg.value.RealV? then arg.value.r else 0.0)
    else
      TextV(Some(if arg.Some? && arg.value.TextV? && arg.value.text.Some? then arg.value.text.value else "NULL"))
  }

  predicate Settable(n: Node, index: int) {
    n.Leaf? || (n.Array? && 0 <= index < |n.slots|)
  }

  function Write(n: Node, index: int, arg: Option<Value>): Node
    requires Settable(n, index)
  {
    match n
    case Leaf(id, ty, _) => Leaf(id, ty, Stored(ty, false, arg))
    case Array(id, ty, slots) => Array(id, ty, slots[index := Stored(ty, true, arg)])
  }

  function Read(n: Node, index: int): Option<Value> {
    if !Settable(n, index) then None
    else
      var v := if n.Leaf? then n.value else n.slots[index];
      if v == TextV(None) then None else Some(v)
  }

  /** dm_shw_set_property_value. */
  function SetProperty(ms: seq<Node>, key: string, arg: Option<Value>): (r: (seq<Node>, Status)) {
    match PropertySearch(ms, key)
    case Missing => (ms, Failed)
    case Outside => (ms, Undefined)
    case Found(loc, index) =>
      var n := NodeAt(ms, loc);
      if Settable(n, index) then (ReplaceAt(ms, loc, Write(n, index, arg)), Ok) else (ms, Failed)
  }

  /** dm_shw_get_property_value: None when it fails. */
  function GetProperty(ms: seq<Node>, key: string): Option<Value> {
    match PropertySearch(ms, key)
    case Found(loc, index) => Read(NodeAt(ms, loc), index)
    case _ => None
  }
}
