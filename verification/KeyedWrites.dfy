/**
  Any JSON against any schema: the nested loops of a property-set are one list of keyed writes, which ends at the first that
  fails.  Whether a write fails is known beforehand, because no write changes the shape of the tree.
*/
module KeyedWrites {
  import opened Text
  import opened ShadowTree
  import opened ShadowLaws
  import opened Paths
  import opened PropertySet

  /** A scalar of the input and the key it is written under. */
  datatype Keyed = Keyed(key: string, v: Json)

  function Writes(key: string, v: Json): seq<Keyed>
    decreases v, 0
  {
    match v
    case JObject(members) => MemberWrites(Some(key), members, 0)
    case JArray(items) => ItemWrites(key, items, 0)
    case JOther => []
    case _ => [Keyed(key, v)]
  }

  function MemberWrites(key: Option<string>, members: seq<Member>, from: nat): seq<Keyed>
    requires from <= |members|
    decreases members, |members| - from
  {
    if from == |members| then []
    else
      var name := members[from].name;
      Writes(if key.None? then name else key.value + "." + name, members[from].value) + MemberWrites(key, members, from + 1)
  }

  function ItemWrites(key: string, items: seq<Json>, from: nat): seq<Keyed>
    requires from <= |items|
    decreases items, |items| - from
  {
    if from == |items| then []
    else Writes(key + "[" + Itoa(from) + "]", items[from]) + ItemWrites(key, items, from + 1)
  }

  function Perform(t: seq<Node>, ws: seq<Keyed>): (seq<Node>, Status)
    decreases |ws|
  {
    if ws == [] then (t, Ok)
    else
      var (u, status) := SetScalar(t, ws[0].key, ws[0].v);
      if status != Ok then (u, status) else Perform(u, ws[1..])
  }

  // ---------------------------------------------------------------- one write

  /** The pairs of value and cell that make a write: a number for a cell that holds one, a text for one that holds a text. */
  predicate Suits(v: Json, ty: ScalarType) {
    match (v, ty)
    case (JNumber(_, _), IntT) => true
    case (JNumber(_, _), EnumT) => true
    case (JNumber(_, _), BoolT) => true
    case (JNumber(_, _), FloatT) => true
    case (JNumber(_, _), DoubleT) => true
    case (JString(_), TextT) => true
    case (JString(_), DateT) => true
    case _ => false
  }

  /** A write fails if its key is not found, or if it suits an array that has no such slot; one that suits nothing passes. */
  lemma {:induction false} SetScalarExact(t: seq<Node>, key: string, v: Json)
    ensures var (u, status) := SetScalar(t, key, v);
            && (status != Ok ==> u == t)
            && match PropertySearch(t, key)
               case Missing => status == Failed
               case Outside => status == Undefined
               case Found(loc, index) =>
                 var n := NodeAt(t, loc);
                 if (n.Leaf? || n.Array?) && Suits(v, n.ty) then
                   if n.Leaf? || 0 <= index < |n.slots| then
                     status == Ok && GetProperty(u, key) != None && BlankAll(u) == BlankAll(t)
                   else status == Failed
                 else status == Ok && u == t
  {
    var r := PropertySearch(t, key);
    if r.Found? {
      var n := NodeAt(t, r.loc);
      var arg := CellArgument(v, n);
      if arg.Some? {
        SetKeepsShape(t, key, arg);
        if SetProperty(t, key, arg).1 == Ok {
          SetThenGet(t, key, arg);
        }
      }
      hide PropertySearch, InTree;
    }
  }

  lemma {:induction false} SetScalarShape(t: seq<Node>, key: string, v: Json)
    ensures BlankAll(SetScalar(t, key, v).0) == BlankAll(t)
  {
    SetScalarExact(t, key, v);
    hide SetScalar;
  }

  lemma {:induction false} SetScalarSame(t: seq<Node>, u: seq<Node>, key: string, v: Json)
    requires BlankAll(t) == BlankAll(u)
    ensures SetScalar(t, key, v).1 == SetScalar(u, key, v).1
  {
    SameShape(t, u, key);
    var r := PropertySearch(t, key);
    if r.Found? {
      SameType(NodeAt(t, r.loc), NodeAt(u, r.loc), v);
      SameSettable(t, u, key, CellArgument(v, NodeAt(t, r.loc)));
    }
  }

  lemma {:induction false} SameType(m: Node, n: Node, v: Json)
    requires Blank(m) == Blank(n)
    ensures CellArgument(v, m) == CellArgument(v, n)
  {
    assert CellType(m) == CellType(Blank(m)) && CellType(n) == CellType(Blank(n));
  }

  // ---------------------------------------------------------------- all of them

  lemma {:induction false} PerformOn(t: seq<Node>, a: seq<Keyed>, b: seq<Keyed>)
    ensures var (u, status) := Perform(t, a);
            Perform(t, a + b) == if status != Ok then (u, status) else Perform(u, b)
    decreases |a|
  {
    hide SetScalar;
    if a == [] {
      assert a + b == b;
    } else {
      assert (a + b)[1..] == a[1..] + b && (a + b)[0] == a[0];
      PerformOn(SetScalar(t, a[0].key, a[0].v).0, a[1..], b);
    }
  }

  lemma {:induction false} FlattenIsPerform(t: seq<Node>, key: string, v: Json)
    ensures FlattenValue(t, key, v) == Perform(t, Writes(key, v))
    decreases v, 0
  {
    match v
    case JObject(members) => MembersPerform(t, Some(key), members, 0);
    case JArray(items) => ItemsPerform(t, key, items, 0);
    case JOther =>
    case _ =>
      hide SetScalar;
      assert [Keyed(key, v)][1..] == [];
  }

  lemma {:induction false} MembersPerform(t: seq<Node>, key: Option<string>, members: seq<Member>, from: nat)
    requires from <= |members|
    ensures FlattenMembers(t, key, members, from) == Perform(t, MemberWrites(key, members, from))
    decreases members, |members| - from
  {
    hide Perform, SetScalar;
    if from == |members| {
      PerformNothing(t);
    } else {
      var k, v := MemberKey(key, members[from].name), members[from].value;
      FlattenIsPerform(t, k, v);
      PerformOn(t, Writes(k, v), MemberWrites(key, members, from + 1));
      MembersPerform(FlattenValue(t, k, v).0, key, members, from + 1);
      hide FlattenValue, Writes;
    }
  }

  lemma {:induction false} PerformNothing(t: seq<Node>)
    ensures Perform(t, []) == (t, Ok)
  {
  }

  lemma {:induction false} ItemsPerform(t: seq<Node>, key: string, items: seq<Json>, from: nat)
    requires from <= |items|
    ensures FlattenItems(t, key, items, from) == Perform(t, ItemWrites(key, items, from))
    decreases items, |items| - from
  {
    hide Perform, SetScalar;
    if from == |items| {
      PerformNothing(t);
    } else {
      var k, v := ElementKey(key, from), items[from];
      FlattenIsPerform(t, k, v);
      PerformOn(t, Writes(k, v), ItemWrites(key, items, from + 1));
      ItemsPerform(FlattenValue(t, k, v).0, key, items, from + 1);
      hide FlattenValue, Writes;
    }
  }

  /** The writes before the k-th succeed on the tree as it was. */
  ghost predicate Succeed(t: seq<Node>, ws: seq<Keyed>, k: nat) {
    k <= |ws| && forall i :: 0 <= i < k ==> SetScalar(t, ws[i].key, ws[i].v).1 == Ok
  }

  lemma {:induction false} SucceedSame(t: seq<Node>, u: seq<Node>, ws: seq<Keyed>, k: nat)
    requires BlankAll(t) == BlankAll(u)
    ensures Succeed(t, ws, k) == Succeed(u, ws, k)
  {
    if k <= |ws| {
      forall i | 0 <= i < k
        ensures SetScalar(t, ws[i].key, ws[i].v).1 == SetScalar(u, ws[i].key, ws[i].v).1
      {
        SetScalarSame(t, u, ws[i].key, ws[i].v);
      }
    }
  }

  /** All writes are made if each of them would succeed by itself; otherwise the ones before the first that would not are made,
      and its status is the status of all. */
  lemma {:induction false} PerformExact(t: seq<Node>, ws: seq<Keyed>) returns (k: nat)
    ensures Succeed(t, ws, k)
    ensures if k == |ws| then Perform(t, ws).1 == Ok
            else
              && SetScalar(t, ws[k].key, ws[k].v).1 == Perform(t, ws).1 != Ok
              && Perform(t, ws).0 == Perform(t, ws[..k]).0 && Perform(t, ws[..k]).1 == Ok
    decreases |ws|
  {
    hide SetScalar, BlankAll;
    if ws == [] {
      k := 0;
    } else if SetScalar(t, ws[0].key, ws[0].v).1 != Ok {
      k := 0;
      SetScalarExact(t, ws[0].key, ws[0].v);
      assert ws[..0] == [];
    } else {
      var u, rest := SetScalar(t, ws[0].key, ws[0].v).0, ws[1..];
      SetScalarShape(t, ws[0].key, ws[0].v);
      var i := PerformExact(u, rest);
      k := i + 1;
      SucceedSame(t, u, rest, i);
      SucceedMore(t, ws, i);
      assert ws[..k][1..] == rest[..i] && ws[..k][0] == ws[0];
      if k < |ws| {
        SetScalarSame(t, u, ws[k].key, ws[k].v);
        assert ws[k] == rest[i];
      }
      hide Succeed;
    }
  }

  lemma {:induction false} SucceedMore(t: seq<Node>, ws: seq<Keyed>, i: nat)
    requires ws != [] && SetScalar(t, ws[0].key, ws[0].v).1 == Ok && Succeed(t, ws[1..], i)
    ensures Succeed(t, ws, i + 1)
  {
    hide SetScalar;
    assert forall j :: 0 < j < i + 1 ==> ws[j] == ws[1..][j - 1];
  }

  /** A property-set succeeds exactly if every scalar of its input would by itself; if not, the scalars before the first that
      would not are written all the same. */
  lemma {:induction false} PropertySetExact(t: seq<Node>, members: seq<Member>) returns (k: nat)
    ensures var ws, (u, status) := MemberWrites(None, members, 0), FlattenMembers(t, None, members, 0);
            && Succeed(t, ws, k) && (status == Ok <==> Succeed(t, ws, |ws|))
            && (if k == |ws| then (u, status) == Perform(t, ws) && status == Ok
                else
                  && SetScalar(t, ws[k].key, ws[k].v).1 == status != Ok
                  && (u, Ok) == Perform(t, ws[..k]))
  {
    hide Perform, SetScalar, FlattenMembers, MemberWrites;
    MembersPerform(t, None, members, 0);
    k := PerformExact(t, MemberWrites(None, members, 0));
  }
}
