/** What sets and gets of keys do to one another, over any sequence of sets. */
module ShadowLaws {
  import opened Text
  import opened ShadowTree

  // ---------------------------------------------------------------- replacing a node

  lemma {:induction false} NodeAtReplaced(ms: seq<Node>, loc: seq<nat>, n: Node)
    requires InTree(ms, loc)
    ensures InTree(ReplaceAt(ms, loc, n), loc) && NodeAt(ReplaceAt(ms, loc, n), loc) == n
    decreases |loc|
  {
    if |loc| > 1 {
      NodeAtReplaced(Children(ms[loc[0]]), loc[1..], n);
    }
  }

  lemma {:induction false} ReplacedKeepsShape(ms: seq<Node>, loc: seq<nat>, n: Node)
    requires InTree(ms, loc) && Blank(n) == Blank(NodeAt(ms, loc))
    ensures BlankAll(ReplaceAt(ms, loc, n)) == BlankAll(ms)
    decreases |loc|
  {
    if |loc| > 1 {
      ReplacedKeepsShape(Children(ms[loc[0]]), loc[1..], n);
    }
  }

  /** A node elsewhere reads as before when a cell-holding node is replaced by one like it. */
  lemma {:induction false} ReplacedReadsElsewhere(ms: seq<Node>, loc: seq<nat>, n: Node, other: seq<nat>, index: int)
    requires InTree(ms, loc) && InTree(ms, other) && loc != other
    requires Children(NodeAt(ms, loc)) == []
    ensures InTree(ReplaceAt(ms, loc, n), other)
    ensures Read(NodeAt(ReplaceAt(ms, loc, n), other), index) == Read(NodeAt(ms, other), index)
    decreases |loc|
  {
    if loc[0] == other[0] && |loc| > 1 && |other| > 1 {
      assert loc == [loc[0]] + loc[1..] && other == [other[0]] + other[1..];
      ReplacedReadsElsewhere(Children(ms[loc[0]]), loc[1..], n, other[1..], index);
    }
  }

  // ---------------------------------------------------------------- searches see only the shape

  lemma {:induction false} FirstNamedBlank(ms: seq<Node>, name: string, from: nat)
    requires from <= |ms|
    ensures FirstNamed(BlankAll(ms), name, from) == FirstNamed(ms, name, from)
    decreases |ms| - from
  {
    if from < |ms| {
      FirstNamedBlank(ms, name, from + 1);
    }
  }

  lemma {:induction false} StructSearchBlank(ms: seq<Node>, key: string)
    ensures StructSearch(BlankAll(ms), key) == StructSearch(ms, key)
    decreases ms, 0
  {
    var h := HeadOf(key);
    FirstNamedBlank(ms, h.name, 0);
    var i := FirstNamed(ms, h.name, 0);
    if i.Some? {
      MatchedSearchBlank(ms[i.value], h);
    }
  }

  lemma {:induction false} MatchedSearchBlank(n: Node, h: Head)
    ensures MatchedSearch(Blank(n), h) == MatchedSearch(n, h)
    decreases n, 1
  {
    if n.Struct? {
      StructSearchBlank(n.members, h.rest);
    } else if n.StructArray? && 0 <= h.bracket.index < |n.elements| && n.elements[h.bracket.index].Struct? {
      StructSearchBlank(n.elements[h.bracket.index].members, h.rest[..SegmentEnd(h.rest)]);
    }
  }

  lemma {:induction false} PropertyFromBlank(ms: seq<Node>, key: string, from: nat)
    requires from <= |ms|
    ensures PropertyFrom(BlankAll(ms), key, from) == PropertyFrom(ms, key, from)
    decreases |ms| - from
  {
    if from < |ms| {
      MatchedSearchBlank(ms[from], HeadOf(key));
      PropertyFromBlank(ms, key, from + 1);
    }
  }

  lemma {:induction false} NodeAtBlank(ms: seq<Node>, loc: seq<nat>)
    ensures InTree(BlankAll(ms), loc) == InTree(ms, loc)
    ensures InTree(ms, loc) ==> NodeAt(BlankAll(ms), loc) == Blank(NodeAt(ms, loc))
    decreases |loc|
  {
    if loc != [] && loc[0] < |ms| && |loc| > 1 {
      NodeAtBlank(Children(ms[loc[0]]), loc[1..]);
      assert Children(Blank(ms[loc[0]])) == BlankAll(Children(ms[loc[0]]));
    }
  }

  /** Trees of one shape resolve every key alike, to nodes of one shape. */
  lemma {:induction false} SameShape(a: seq<Node>, b: seq<Node>, key: string)
    requires BlankAll(a) == BlankAll(b)
    ensures PropertySearch(a, key) == PropertySearch(b, key)
    ensures var r := PropertySearch(a, key);
            r.Found? ==> InTree(b, r.loc) && Blank(NodeAt(a, r.loc)) == Blank(NodeAt(b, r.loc))
  {
    PropertyFromBlank(a, key, 0);
    PropertyFromBlank(b, key, 0);
    var r := PropertySearch(a, key);
    if r.Found? {
      NodeAtBlank(a, r.loc);
      NodeAtBlank(b, r.loc);
    }
  }

  // ---------------------------------------------------------------- one set

  /** A set whose key stays within the elements never changes shape or identifiers, whatever its argument. */
  lemma {:induction false} SetKeepsShape(ms: seq<Node>, key: string, arg: Option<Value>)
    requires PropertySearch(ms, key) != Outside
    ensures BlankAll(SetProperty(ms, key, arg).0) == BlankAll(ms)
  {
    var r := PropertySearch(ms, key);
    if r.Found? {
      var n := NodeAt(ms, r.loc);
      if Settable(n, r.index) {
        ReplacedKeepsShape(ms, r.loc, Write(n, r.index, arg));
      }
    }
  }

  /** What a get at `key` may return after a successful set at `key`. */
  function Normalised(ms: seq<Node>, key: string, arg: Option<Value>): Option<Value> {
    match PropertySearch(ms, key)
    case Found(loc, _) =>
      (match NodeAt(ms, loc)
       case Leaf(_, ty, _) => Some(Stored(ty, false, arg))
       case Array(_, ty, _) => Some(Stored(ty, true, arg))
       case _ => None)
    case _ => None
  }

  lemma {:induction false} GetAfterSet(ms: seq<Node>, key: string, arg: Option<Value>)
    requires SetProperty(ms, key, arg).1 == Ok
    ensures Normalised(ms, key, arg).Some?
    ensures GetProperty(SetProperty(ms, key, arg).0, key) == Normalised(ms, key, arg)
  {
    var r := PropertySearch(ms, key);
    SetKeepsShape(ms, key, arg);
    SameShape(ms, SetProperty(ms, key, arg).0, key);
    NodeAtReplaced(ms, r.loc, Write(NodeAt(ms, r.loc), r.index, arg));
  }

  /** What a get reads back, type by type: the argument, normalised for a scalar enum or bool; for a null argument 0, 0.0 or
      the text "NULL". */
  ghost predicate ReadsBack(n: Node, arg: Option<Value>, r: Option<Value>)
    requires n.Leaf? || n.Array?
  {
    match (n.ty, arg)
    case (IntT, Some(IntV(i))) => r == Some(IntV(i))
    case (EnumT, Some(IntV(i))) => r == Some(IntV(if n.Leaf? && i < 0 then 0 else i))
    case (BoolT, Some(IntV(i))) => r == Some(IntV(if n.Leaf? && i != 1 then 0 else i))
    case (FloatT, Some(RealV(x))) => r == Some(RealV(x))
    case (DoubleT, Some(RealV(x))) => r == Some(RealV(x))
    case (TextT, Some(TextV(Some(s)))) => r == Some(TextV(Some(s)))
    case (DateT, Some(TextV(Some(s)))) => r == Some(TextV(Some(s)))
    case (IntT, _) => r == Some(IntV(0))
    case (EnumT, _) => r == Some(IntV(0))
    case (BoolT, _) => r == Some(IntV(0))
    case (FloatT, _) => r == Some(RealV(0.0))
    case (DoubleT, _) => r == Some(RealV(0.0))
    case (TextT, _) => r == Some(TextV(Some("NULL")))
    case (DateT, _) => r == Some(TextV(Some("NULL")))
  }

  lemma {:induction false} SetThenGet(ms: seq<Node>, key: string, arg: Option<Value>)
    requires SetProperty(ms, key, arg).1 == Ok
    ensures var n := NodeAt(ms, PropertySearch(ms, key).loc);
            (n.Leaf? || n.Array?) && ReadsBack(n, arg, GetProperty(SetProperty(ms, key, arg).0, key))
  {
    GetAfterSet(ms, key, arg);
  }

  /** Exactly which keys a set accepts: those that reach a scalar, or a slot that the array has.  Of a key that leaves the
      elements of a struct array nothing is promised. */
  lemma {:induction false} SetSucceeds(ms: seq<Node>, key: string, arg: Option<Value>)
    requires PropertySearch(ms, key) != Outside
    ensures SetProperty(ms, key, arg).1 == Ok <==>
            exists loc, index :: PropertySearch(ms, key) == Found(loc, index) && Settable(NodeAt(ms, loc), index)
    ensures SetProperty(ms, key, arg).1 != Ok ==> SetProperty(ms, key, arg) == (ms, Failed)
  {
  }

  /** Only a scalar array gives a key an index other than 0. */
  lemma {:induction false} StructSearchIndex(ms: seq<Node>, key: string)
    ensures var r := StructSearch(ms, key); r.Found? && !NodeAt(ms, r.loc).Array? ==> r.index == 0
    decreases ms, 0
  {
    var h := HeadOf(key);
    var i := FirstNamed(ms, h.name, 0);
    if i.Some? {
      MatchedSearchIndex(ms[i.value], h);
      var r := MatchedSearch(ms[i.value], h);
      if r.Found? && r.loc != [] {
        assert ([i.value] + r.loc)[1..] == r.loc;
      }
    }
  }

  lemma {:induction false} MatchedSearchIndex(n: Node, h: Head)
    ensures var r := MatchedSearch(n, h);
            r.Found? && (r.loc == [] ==> !n.Array?) && (r.loc != [] ==> !NodeAt(Children(n), r.loc).Array?) ==> r.index == 0
    decreases n, 1
  {
    if n.Struct? && !h.last {
      StructSearchIndex(n.members, h.rest);
    } else if n.StructArray? && 0 <= h.bracket.index < |n.elements| && n.elements[h.bracket.index].Struct? {
      var ms, key := n.elements[h.bracket.index].members, h.rest[..SegmentEnd(h.rest)];
      StructSearchIndex(ms, key);
      var r := StructSearch(ms, key);
      if r.Found? {
        assert ([h.bracket.index] + r.loc)[1..] == r.loc;
      }
    }
  }

  lemma {:induction false} PropertyFromIndex(ms: seq<Node>, key: string, from: nat)
    requires from <= |ms|
    ensures var r := PropertyFrom(ms, key, from); r.Found? && !NodeAt(ms, r.loc).Array? ==> r.index == 0
    decreases |ms| - from
  {
    if from < |ms| {
      PropertyFromIndex(ms, key, from + 1);
      MatchedSearchIndex(ms[from], HeadOf(key));
      var r := DataSearch(ms[from], key);
      if r.Found? && r.loc != [] {
        assert ([from] + r.loc)[1..] == r.loc;
      }
    }
  }

  /** A key that resolves elsewhere, to another node or another slot, reads as before. */
  lemma {:induction false} GetElsewhere(ms: seq<Node>, key: string, arg: Option<Value>, other: string)
    requires PropertySearch(ms, key) != Outside && PropertySearch(ms, other) != Outside
    requires PropertySearch(ms, other) != PropertySearch(ms, key)
    ensures GetProperty(SetProperty(ms, key, arg).0, other) == GetProperty(ms, other)
  {
    var r, o := PropertySearch(ms, key), PropertySearch(ms, other);
    SetKeepsShape(ms, key, arg);
    SameShape(ms, SetProperty(ms, key, arg).0, other);
    if r.Found? && o.Found? && Settable(NodeAt(ms, r.loc), r.index) {
      var n := Write(NodeAt(ms, r.loc), r.index, arg);
      if r.loc == o.loc {
        PropertyFromIndex(ms, key, 0);
        PropertyFromIndex(ms, other, 0);
        NodeAtReplaced(ms, r.loc, n);
      } else {
        ReplacedReadsElsewhere(ms, r.loc, n, o.loc, o.index);
      }
    }
  }

  // ---------------------------------------------------------------- runs of sets

  type Assignment = (string, Option<Value>)

  function RunSets(ms: seq<Node>, writes: seq<Assignment>): seq<Node> {
    if writes == [] then ms
    else SetProperty(RunSets(ms, writes[..|writes| - 1]), writes[|writes| - 1].0, writes[|writes| - 1].1).0
  }

  /** The value the last successful write of the run to the place `key` resolves to has left there. */
  function LastWritten(ms: seq<Node>, writes: seq<Assignment>, key: string): Option<Value> {
    if writes == [] then GetProperty(ms, key)
    else
      var (k, arg) := writes[|writes| - 1];
      if PropertySearch(ms, k) == PropertySearch(ms, key) && SetProperty(ms, k, arg).1 == Ok then Normalised(ms, k, arg)
      else LastWritten(ms, writes[..|writes| - 1], key)
  }

  /** The keys of a run stay within the elements of the tree. */
  ghost predicate Within(ms: seq<Node>, writes: seq<Assignment>) {
    forall i :: 0 <= i < |writes| ==> PropertySearch(ms, writes[i].0) != Outside
  }

  /** Over any run of sets within the tree the shape never changes, and each key reads the last value written to its place. */
  lemma {:induction false} ReadAfterRun(ms: seq<Node>, writes: seq<Assignment>, key: string)
    requires Within(ms, writes) && PropertySearch(ms, key) != Outside
    ensures BlankAll(RunSets(ms, writes)) == BlankAll(ms)
    ensures PropertySearch(RunSets(ms, writes), key) == PropertySearch(ms, key)
    ensures GetProperty(RunSets(ms, writes), key) == LastWritten(ms, writes, key)
    decreases |writes|
  {
    if writes != [] {
      var before := RunSets(ms, writes[..|writes| - 1]);
      var (k, arg) := writes[|writes| - 1];
      ReadAfterRun(ms, writes[..|writes| - 1], key);
      SameShape(ms, before, k);
      SetKeepsShape(before, k, arg);
      SameShape(ms, before, key);
      SameShape(ms, RunSets(ms, writes), key);
      if PropertySearch(ms, k) != PropertySearch(ms, key) {
        GetElsewhere(before, k, arg, key);
      } else if SetProperty(before, k, arg).1 == Ok {
        GetAfterSet(before, k, arg);
        GetAfterSameKey(before, k, arg, key);
        SameSettable(ms, before, k, arg);
      } else {
        SameSettable(ms, before, k, arg);
      }
    }
  }

  lemma {:induction false} GetAfterSameKey(ms: seq<Node>, k: string, arg: Option<Value>, key: string)
    requires PropertySearch(ms, k) == PropertySearch(ms, key) != Outside
    ensures GetProperty(SetProperty(ms, k, arg).0, key) == GetProperty(SetProperty(ms, k, arg).0, k)
  {
    SetKeepsShape(ms, k, arg);
    SameShape(ms, SetProperty(ms, k, arg).0, k);
    SameShape(ms, SetProperty(ms, k, arg).0, key);
  }

  lemma {:induction false} SameSettable(a: seq<Node>, b: seq<Node>, key: string, arg: Option<Value>)
    requires BlankAll(a) == BlankAll(b)
    ensures SetProperty(a, key, arg).1 == SetProperty(b, key, arg).1
    ensures Normalised(a, key, arg) == Normalised(b, key, arg)
  {
    SameShape(a, b, key);
    var r := PropertySearch(a, key);
    if r.Found? {
      assert forall n: Node :: n.Array? ==> |Blank(n).slots| == |n.slots|;
    }
  }
}
