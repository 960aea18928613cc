/**
  The key language: how the flattener prints a path as a key, which node a printed path reaches,
  and for which places of a tree the printed key leads back to the place.
*/
module Paths {
  import opened Text
  import opened ShadowTree

  /** One dotted segment: a name and the indices after it. */
  datatype Segment = Segment(name: string, indices: seq<nat>)

  type Path = seq<Segment>

  predicate PlainSegment(s: Segment) {
    Plain(s.name) && forall k :: 0 <= k < |s.indices| ==> s.indices[k] < ITOA_LIMIT
  }

  predicate PlainPath(p: Path) {
    forall k :: 0 <= k < |p| ==> PlainSegment(p[k])
  }

  function PrintSegment(name: string, indices: seq<nat>): string {
    if indices == [] then name
    else Bracketed(PrintSegment(name, indices[..|indices| - 1]), Itoa(indices[|indices| - 1]))
  }

  function Print(p: Path): string {
    if p == [] then ""
    else if |p| == 1 then PrintSegment(p[0].name, p[0].indices)
    else PrintSegment(p[0].name, p[0].indices) + "." + Print(p[1..])
  }

  // ---------------------------------------------------------------- how the flattener extends a key

  /** The key of an object member; the outermost object has no key of its own. */
  function MemberKey(key: Option<string>, name: string): string {
    if key.None? then name else key.value + "." + name
  }

  /** The key of an array element. */
  function ElementKey(key: string, i: nat): string {
    Bracketed(key, Itoa(i))
  }

  function AddIndex(p: Path, i: nat): (r: Path)
    requires p != []
    ensures |r| == |p|
  {
    var last := p[|p| - 1];
    p[|p| - 1 := Segment(last.name, last.indices + [i])]
  }

  lemma {:induction false} DotDot(a: string, b: string, c: string)
    ensures a + "." + (b + "." + c) == (a + "." + b) + "." + c
  {
  }

  lemma {:induction false} DotBracket(a: string, b: string, c: string)
    ensures a + "." + Bracketed(b, c) == Bracketed(a + "." + b, c)
  {
  }

  lemma {:induction false} PrintMember(p: Path, name: string)
    requires p != []
    ensures Print(p + [Segment(name, [])]) == MemberKey(Some(Print(p)), name)
  {
    var q, head := p + [Segment(name, [])], PrintSegment(p[0].name, p[0].indices);
    assert q[1..] == p[1..] + [Segment(name, [])];
    if |p| > 1 {
      PrintMember(p[1..], name);
      DotDot(head, Print(p[1..]), name);
    } else {
      assert q[1..] == [Segment(name, [])];
    }
  }

  lemma {:induction false} PrintElement(p: Path, i: nat)
    requires p != []
    ensures Print(AddIndex(p, i)) == ElementKey(Print(p), i)
  {
    var q, head, last := AddIndex(p, i), PrintSegment(p[0].name, p[0].indices), p[|p| - 1];
    if |p| > 1 {
      assert q[1..] == AddIndex(p[1..], i);
      PrintElement(p[1..], i);
      DotBracket(head, Print(p[1..]), Itoa(i));
    } else {
      assert (last.indices + [i])[..|last.indices|] == last.indices;
    }
  }

  // ---------------------------------------------------------------- parsing a printed segment

  lemma {:induction false} SegmentText(name: string, indices: seq<nat>)
    requires Plain(name)
    ensures PrintSegment(name, indices) != "" && '.' !in PrintSegment(name, indices)
  {
    if indices != [] {
      SegmentText(name, indices[..|indices| - 1]);
    }
  }

  /** What the segment parser makes of a printed segment. */
  function SegmentBracket(s: Segment): Bracket {
    if |s.indices| == 1 then Bracket(true, |s.name|, s.indices[0]) else NO_BRACKET
  }

  lemma {:induction false} ParseSegment(s: Segment)
    requires PlainSegment(s)
    ensures ParseIndex(PrintSegment(s.name, s.indices)) == SegmentBracket(s)
  {
    var n := |s.indices|;
    if n == 0 {
      ParseIndexFree(s.name);
    } else if n == 1 {
      ParseIndexBracketed(s.name, Itoa(s.indices[0]));
      ItoaReadsBack(s.indices[0]);
    } else {
      var init := s.indices[..n - 1];
      var inner := Bracketed(PrintSegment(s.name, init[..n - 2]), Itoa(init[n - 2]));
      assert inner == PrintSegment(s.name, init);
      var key := Bracketed(inner, Itoa(s.indices[n - 1]));
      assert key[|inner| - 1] == inner[|inner| - 1] == ']';
      ParseIndexInnerBracket(key, |inner| - 1);
    }
  }

  lemma {:induction false} SegmentName(s: Segment)
    requires PlainSegment(s)
    ensures |s.indices| == 1 ==> s.name <= PrintSegment(s.name, s.indices)
    ensures s.indices != [] ==> '[' in PrintSegment(s.name, s.indices)
  {
    if s.indices != [] {
      var inner := PrintSegment(s.name, s.indices[..|s.indices| - 1]);
      assert PrintSegment(s.name, s.indices)[|inner|] == '[';
    }
  }

  lemma {:induction false} PrintNonempty(p: Path)
    requires PlainPath(p) && p != []
    ensures Print(p) != ""
  {
    SegmentText(p[0].name, p[0].indices);
  }

  lemma {:induction false} SegmentEndPrinted(p: Path)
    requires PlainPath(p)
    ensures SegmentEnd(Print(p)) == |Print(p[..if p == [] then 0 else 1])|
    ensures Print(p)[..SegmentEnd(Print(p))] == Print(p[..if p == [] then 0 else 1])
    ensures |p| > 1 ==> SegmentEnd(Print(p)) < |Print(p)| && Print(p)[SegmentEnd(Print(p)) + 1..] == Print(p[1..])
    ensures |p| <= 1 ==> SegmentEnd(Print(p)) == |Print(p)|
  {
    if p != [] {
      var head := PrintSegment(p[0].name, p[0].indices);
      assert p[..1] == [p[0]];
      SegmentText(p[0].name, p[0].indices);
      if |p| == 1 {
        SegmentEndPlain(head);
        assert head[..|head|] == head;
      } else {
        PrintNonempty(p[1..]);
        SegmentEndDotted(head, Print(p[1..]));
        assert Print(p)[..|head|] == head;
        assert Print(p)[|head| + 1..] == Print(p[1..]);
      }
    }
  }

  /** The head the searches take off a printed path. */
  lemma {:induction false} HeadOfPrinted(p: Path)
    requires PlainPath(p) && p != []
    ensures var h := HeadOf(Print(p));
            && h.bracket == SegmentBracket(p[0])
            && h.rest == Print(p[1..])
            && (h.last <==> |p| == 1)
            && (|p[0].indices| <= 1 ==> h.name == p[0].name)
            && (|p[0].indices| > 1 ==> '[' in h.name)
  {
    SegmentEndPrinted(p);
    ParseSegment(p[0]);
    SegmentName(p[0]);
    assert p[..1] == [p[0]];
    if |p| == 1 {
      assert p[1..] == [];
    }
  }

  // ---------------------------------------------------------------- which node a path reaches

  /** The structural reading of a path against the members of a structure. */
  function ResolveIn(ms: seq<Node>, p: Path): (r: Search)
    ensures r.Found? ==> r.loc != [] && InTree(ms, r.loc)
    decreases ms, 0
  {
    if p == [] || |p[0].indices| > 1 then Missing
    else
      match FirstNamed(ms, p[0].name, 0)
      case None => Missing
      case Some(i) => Below(i, ResolveNode(ms[i], if p[0].indices == [] then None else Some(p[0].indices[0]), p[1..]))
  }

  function ResolveNode(n: Node, sub: Option<nat>, rest: Path): (r: Search)
    ensures r.Found? && r.loc != [] ==> InTree(Children(n), r.loc)
    decreases n, 1
  {
    match n
    case Leaf(_, _, _) => if sub.None? && rest == [] then Found([], 0) else Missing
    case Struct(_, ms) =>
      if rest == [] then Found([], 0) else if sub.Some? then Missing else ResolveIn(ms, rest)
    case Array(_, _, _) =>
      if sub.None? then if rest == [] then Found([], 0) else Missing
      else if |rest| <= 1 then Found([], sub.value) else Missing
    case StructArray(_, es) =>
      if sub.None? then if rest == [] then Found([], 0) else Missing
      else if sub.value >= |es| then Outside
      else if !es[sub.value].Struct? then Missing
      else Below(sub.value, ResolveIn(es[sub.value].members, if rest == [] then [] else rest[..1]))
  }

  /** Parsing the printed path is reading the path, for every plain path and every well-formed tree. */
  lemma {:induction false} StructSearchPrinted(ms: seq<Node>, p: Path)
    requires WellFormed(ms) && PlainPath(p)
    ensures StructSearch(ms, Print(p)) == ResolveIn(ms, p)
    decreases ms, 0
  {
    var h := HeadOf(Print(p));
    if p == [] {
      assert SegmentEnd("") == 0;
      assert h.name == "";
    } else {
      HeadOfPrinted(p);
      if |p[0].indices| <= 1 {
        var i := FirstNamed(ms, h.name, 0);
        if i.Some? {
          MatchedSearchPrinted(ms[i.value], h, if p[0].indices == [] then None else Some(p[0].indices[0]), p[1..]);
        }
      }
    }
  }

  lemma {:induction false} MatchedSearchPrinted(n: Node, h: Head, sub: Option<nat>, rest: Path)
    requires WellFormedNode(n) && PlainPath(rest)
    requires h.rest == Print(rest) && (h.last <==> rest == [])
    requires sub.None? ==> h.bracket == NO_BRACKET
    requires sub.Some? ==> h.bracket.partial != 0 && h.bracket.index == sub.value
    ensures MatchedSearch(n, h) == ResolveNode(n, sub, rest)
    decreases n, 1
  {
    SegmentEndPrinted(rest);
    if n.Struct? {
      StructSearchPrinted(n.members, rest);
    } else if n.StructArray? && sub.Some? && sub.value < |n.elements| {
      StructSearchPrinted(n.elements[sub.value].members, if rest == [] then [] else rest[..1]);
    }
  }

  lemma {:induction false} PropertyFromFirst(ms: seq<Node>, key: string, from: nat)
    requires from <= |ms| && DistinctIds(ms)
    ensures var i := FirstNamed(ms, HeadOf(key).name, from);
            PropertyFrom(ms, key, from) == if i.None? then Missing else Below(i.value, MatchedSearch(ms[i.value], HeadOf(key)))
    decreases |ms| - from
  {
    if from < |ms| {
      PropertyFromFirst(ms, key, from + 1);
    }
  }

  /** The property search of a printed path, over the whole tree. */
  lemma {:induction false} PropertySearchPrinted(ms: seq<Node>, p: Path)
    requires WellFormed(ms) && PlainPath(p) && p != []
    ensures PropertySearch(ms, Print(p)) == ResolveIn(ms, p)
  {
    PrintNonempty(p);
    PropertyFromFirst(ms, Print(p), 0);
    StructSearchPrinted(ms, p);
  }

  // ---------------------------------------------------------------- places and their keys

  /** A place holds one value: a scalar, or one slot of a scalar array. */
  predicate IsPlace(ms: seq<Node>, loc: seq<nat>, index: nat) {
    && InTree(ms, loc)
    && Settable(NodeAt(ms, loc), index)
    && (NodeAt(ms, loc).Leaf? ==> index == 0)
  }

  function CellAt(ms: seq<Node>, loc: seq<nat>, index: nat): Value
    requires IsPlace(ms, loc, index)
  {
    var n := NodeAt(ms, loc);
    if n.Leaf? then n.value else n.slots[index]
  }

  function NameOf(n: Node): string {
    if n.id.Some? then n.id.value else ""
  }

  /** The path from the root to a location. */
  function LocPath(ms: seq<Node>, loc: seq<nat>): (p: Path)
    requires InTree(ms, loc)
    ensures p != []
    decreases |loc|
  {
    var n := ms[loc[0]];
    if |loc| == 1 then [Segment(NameOf(n), [])]
    else if n.StructArray? then
      assert InTree(Children(n), loc[1..]) && loc[1..][1..] == loc[2..];
      [Segment(NameOf(n), [loc[1]])] + if |loc| == 2 then [] else LocPath(Children(n.elements[loc[1]]), loc[2..])
    else [Segment(NameOf(n), [])] + LocPath(Children(n), loc[1..])
  }

  function PlacePath(ms: seq<Node>, loc: seq<nat>, index: nat): (p: Path)
    requires InTree(ms, loc)
    ensures p != []
  {
    if NodeAt(ms, loc).Array? then AddIndex(LocPath(ms, loc), index) else LocPath(ms, loc)
  }

  /** Below an element of a struct array, the location is at most a member of that very element. */
  predicate Shallow(ms: seq<Node>, loc: seq<nat>)
    requires InTree(ms, loc)
    decreases |loc|
  {
    var n := ms[loc[0]];
    |loc| == 1 || (if n.StructArray? then |loc| <= 3 else Shallow(Children(n), loc[1..]))
  }

  lemma {:induction false} FirstNamedIs(ms: seq<Node>, i: nat, from: nat)
    requires DistinctIds(ms) && from <= i < |ms|
    ensures FirstNamed(ms, NameOf(ms[i]), from) == Some(i)
    decreases i - from
  {
    if from < i {
      assert ms[from].id != ms[i].id;
      FirstNamedIs(ms, i, from + 1);
    }
  }

  lemma {:induction false} PlacePathInStruct(ms: seq<Node>, loc: seq<nat>, index: nat)
    requires IsPlace(ms, loc, index) && |loc| > 1 && ms[loc[0]].Struct?
    ensures var n := ms[loc[0]];
            && IsPlace(n.members, loc[1..], index)
            && PlacePath(ms, loc, index) == [Segment(NameOf(n), [])] + PlacePath(n.members, loc[1..], index)
  {
  }

  lemma {:induction false} PlacePathInElement(ms: seq<Node>, loc: seq<nat>, index: nat)
    requires IsPlace(ms, loc, index) && |loc| > 1 && ms[loc[0]].StructArray? && WellFormedNode(ms[loc[0]])
    ensures var n := ms[loc[0]];
            && |loc| > 2 && loc[1] < |n.elements| && n.elements[loc[1]].Struct?
            && IsPlace(n.elements[loc[1]].members, loc[2..], index)
            && PlacePath(ms, loc, index)
               == [Segment(NameOf(n), [loc[1]])] + PlacePath(n.elements[loc[1]].members, loc[2..], index)
  {
    var n, tail := ms[loc[0]], loc[1..];
    assert InTree(n.elements, tail) && tail[0] == loc[1] && tail[1..] == loc[2..];
    var e := n.elements[loc[1]];
    assert NodeAt(ms, loc) == NodeAt(n.elements, tail);
    assert e.Struct? && |loc| > 2;
    assert NodeAt(n.elements, tail) == NodeAt(e.members, loc[2..]);
    assert LocPath(ms, loc) == [Segment(NameOf(n), [loc[1]])] + LocPath(e.members, loc[2..]);
  }

  /** One level of a place's path. */
  lemma {:induction false} PlacePathStep(ms: seq<Node>, loc: seq<nat>, index: nat)
    requires IsPlace(ms, loc, index) && |loc| > 1 && WellFormed(ms)
    ensures var n := ms[loc[0]];
            if n.StructArray? then
              && |loc| > 2 && loc[1] < |n.elements| && n.elements[loc[1]].Struct?
              && WellFormed(n.elements[loc[1]].members)
              && IsPlace(n.elements[loc[1]].members, loc[2..], index)
              && PlacePath(ms, loc, index)
                 == [Segment(NameOf(n), [loc[1]])] + PlacePath(n.elements[loc[1]].members, loc[2..], index)
            else
              && n.Struct? && IsPlace(n.members, loc[1..], index)
              && PlacePath(ms, loc, index) == [Segment(NameOf(n), [])] + PlacePath(n.members, loc[1..], index)
  {
    var n := ms[loc[0]];
    assert WellFormedNode(n) && InTree(Children(n), loc[1..]);
    if n.StructArray? {
      PlacePathInElement(ms, loc, index);
      assert WellFormedNode(n.elements[loc[1]]);
    } else {
      PlacePathInStruct(ms, loc, index);
    }
  }

  /** The node of a place, one level down. */
  lemma {:induction false} PlaceStepNode(ms: seq<Node>, loc: seq<nat>, index: nat)
    requires IsPlace(ms, loc, index) && |loc| > 1 && WellFormed(ms)
    ensures var n := ms[loc[0]];
            if n.StructArray? then
              && |loc| > 2 && loc[1] < |n.elements| && n.elements[loc[1]].Struct? && InTree(n.elements[loc[1]].members, loc[2..])
              && NodeAt(ms, loc) == NodeAt(n.elements[loc[1]].members, loc[2..])
            else
              n.Struct? && InTree(n.members, loc[1..]) && NodeAt(ms, loc) == NodeAt(n.members, loc[1..])
  {
    PlacePathStep(ms, loc, index);
    var n := ms[loc[0]];
    if n.StructArray? {
      assert loc[1..][1..] == loc[2..] && NodeAt(ms, loc) == NodeAt(n.elements, loc[1..]);
    }
  }

  /** One level of resolution. */
  lemma {:induction false} ResolveStep(ms: seq<Node>, i: nat, indices: seq<nat>, rest: Path)
    requires DistinctIds(ms) && i < |ms| && |indices| <= 1
    ensures ResolveIn(ms, [Segment(NameOf(ms[i]), indices)] + rest)
         == Below(i, ResolveNode(ms[i], if indices == [] then None else Some(indices[0]), rest))
  {
    var p := [Segment(NameOf(ms[i]), indices)] + rest;
    assert p[1..] == rest;
    FirstNamedIs(ms, i, 0);
  }

  /** No segment has more than one index. */
  predicate Single(p: Path) {
    forall k :: 0 <= k < |p| ==> |p[k].indices| <= 1
  }

  lemma {:induction false} PlainMore(s: Segment, p: Path)
    requires PlainSegment(s) && |s.indices| <= 1 && PlainPath(p) && Single(p)
    ensures PlainPath([s] + p) && Single([s] + p)
  {
  }

  /** The path of a place at the top. */
  lemma {:induction false} PlaceAtTop(ms: seq<Node>, loc: seq<nat>, index: nat)
    requires IsPlace(ms, loc, index) && |loc| == 1
    ensures var n := ms[loc[0]];
            && PlacePath(ms, loc, index) == [Segment(NameOf(n), if n.Array? then [index] else [])]
            && (n.Array? ==> index < |n.slots|) && (!n.Array? ==> n.Leaf? && index == 0)
  {
    assert [] + [index] == [index];
    assert LocPath(ms, loc) == [Segment(NameOf(ms[loc[0]]), [])];
  }

  lemma {:induction false} PlacePathPlain(ms: seq<Node>, loc: seq<nat>, index: nat)
    requires WellFormed(ms) && IsPlace(ms, loc, index)
    ensures PlainPath(PlacePath(ms, loc, index)) && Single(PlacePath(ms, loc, index))
    decreases |loc|
  {
    hide PlacePath, LocPath, PlainPath, Single;
    var n := ms[loc[0]];
    assert Plain(NameOf(n)) && WellFormedNode(n);
    if |loc| == 1 {
      PlaceAtTop(ms, loc, index);
      var s := Segment(NameOf(n), if n.Array? then [index] else []);
      assert [s] + [] == [s];
      PlainNothing();
      PlainMore(s, []);
    } else {
      PlacePathStep(ms, loc, index);
      if n.StructArray? {
        PlacePathPlain(n.elements[loc[1]].members, loc[2..], index);
        PlainMore(Segment(NameOf(n), [loc[1]]), PlacePath(n.elements[loc[1]].members, loc[2..], index));
      } else {
        PlacePathPlain(n.members, loc[1..], index);
        PlainMore(Segment(NameOf(n), []), PlacePath(n.members, loc[1..], index));
      }
    }
  }

  lemma {:induction false} PlainNothing()
    ensures PlainPath([]) && Single([])
  {
  }

  /** The first segment of a deeper path stops at the node it names, or misses. */
  lemma {:induction false} FirstSegmentStops(ms: seq<Node>, loc: seq<nat>, index: nat)
    requires WellFormed(ms) && IsPlace(ms, loc, index) && |loc| > 1
    ensures ResolveIn(ms, PlacePath(ms, loc, index)[..1]) != Found(loc, index)
    ensures ResolveIn(ms, PlacePath(ms, loc, index)[..1]) != Outside
  {
    hide PlacePath, LocPath;
    PlacePathStep(ms, loc, index);
    var n := ms[loc[0]];
    var indices := if n.StructArray? then [loc[1]] else [];
    assert PlacePath(ms, loc, index)[..1] == [Segment(NameOf(n), indices)] + [];
    ResolveStep(ms, loc[0], indices, []);
  }

  /** Which places a path leads back to: exactly the shallow ones; and it never leads out of the tree. */
  lemma {:induction false} PlaceResolves(ms: seq<Node>, loc: seq<nat>, index: nat)
    requires WellFormed(ms) && IsPlace(ms, loc, index)
    ensures ResolveIn(ms, PlacePath(ms, loc, index)) == Found(loc, index) <==> Shallow(ms, loc)
    ensures ResolveIn(ms, PlacePath(ms, loc, index)) != Outside
    decreases |loc|
  {
    var n, p := ms[loc[0]], PlacePath(ms, loc, index);
    if |loc| == 1 {
      var indices := if n.Array? then [index] else [];
      assert NodeAt(ms, loc) == n && [] + [index] == [index];
      assert LocPath(ms, loc) == [Segment(NameOf(n), [])];
      assert p == [Segment(NameOf(n), indices)] + [];
      ResolveStep(ms, loc[0], indices, []);
      assert loc == [loc[0]] + [];
    } else {
      PlacePathStep(ms, loc, index);
      if n.StructArray? {
        PlaceInElementResolves(ms, loc, index);
      } else {
        var rest := PlacePath(n.members, loc[1..], index);
        ResolveStep(ms, loc[0], [], rest);
        PlaceResolves(n.members, loc[1..], index);
        BelowFound(loc, ResolveIn(n.members, rest), index);
      }
    }
  }

  lemma {:induction false} BelowFound(loc: seq<nat>, r: Search, index: int)
    requires loc != []
    ensures Below(loc[0], r) == Found(loc, index) <==> r == Found(loc[1..], index)
  {
    assert loc == [loc[0]] + loc[1..];
    if r.Found? {
      assert ([loc[0]] + r.loc)[1..] == r.loc;
    }
  }

  lemma {:induction false} PlaceInElementResolves(ms: seq<Node>, loc: seq<nat>, index: nat)
    requires WellFormed(ms) && IsPlace(ms, loc, index) && |loc| > 1 && ms[loc[0]].StructArray?
    ensures ResolveIn(ms, PlacePath(ms, loc, index)) == Found(loc, index) <==> Shallow(ms, loc)
    ensures ResolveIn(ms, PlacePath(ms, loc, index)) != Outside
    decreases |loc|, 0
  {
    PlacePathStep(ms, loc, index);
    var es := ms[loc[0]].elements[loc[1]].members;
    var rest := PlacePath(es, loc[2..], index);
    ResolveStep(ms, loc[0], [loc[1]], rest);
    var inner := ResolveIn(es, rest[..1]);
    BelowFound(loc, Below(loc[1], inner), index);
    assert loc[1..][1..] == loc[2..];
    BelowFound(loc[1..], inner, index);
    if |loc| == 3 {
      PlaceResolves(es, loc[2..], index);
      assert rest[..1] == rest;
    } else {
      FirstSegmentStops(es, loc[2..], index);
    }
  }

  /** The printed key of a place, looked up in the whole tree, finds that place exactly when it is shallow, and stays within
      the tree in any case. */
  lemma {:induction false} PlaceKeyResolves(ms: seq<Node>, loc: seq<nat>, index: nat)
    requires WellFormed(ms) && IsPlace(ms, loc, index)
    ensures PropertySearch(ms, Print(PlacePath(ms, loc, index))) == Found(loc, index) <==> Shallow(ms, loc)
    ensures PropertySearch(ms, Print(PlacePath(ms, loc, index))) != Outside
  {
    PlacePathPlain(ms, loc, index);
    PropertySearchPrinted(ms, PlacePath(ms, loc, index));
    PlaceResolves(ms, loc, index);
  }

  /** Where the path of a deep place leads instead: to a structure, which has no cell, or nowhere. */
  predicate Stops(ms: seq<Node>, r: Search) {
    r.Missing? || (r.Found? && InTree(ms, r.loc) && NodeAt(ms, r.loc).Struct?)
  }

  lemma {:induction false} StopsBelow(ms: seq<Node>, i: nat, r: Search)
    requires i < |ms| && Stops(Children(ms[i]), r)
    ensures Stops(ms, Below(i, r))
  {
    if r.Found? {
      assert ([i] + r.loc)[1..] == r.loc;
    }
  }

  lemma {:induction false} FirstSegmentDeep(ms: seq<Node>, loc: seq<nat>, index: nat)
    requires WellFormed(ms) && IsPlace(ms, loc, index) && |loc| > 1
    ensures Stops(ms, ResolveIn(ms, PlacePath(ms, loc, index)[..1]))
  {
    hide PlacePath, LocPath;
    PlacePathStep(ms, loc, index);
    var n := ms[loc[0]];
    var indices := if n.StructArray? then [loc[1]] else [];
    assert PlacePath(ms, loc, index)[..1] == [Segment(NameOf(n), indices)] + [];
    ResolveStep(ms, loc[0], indices, []);
  }

  /** A place that is not shallow: the key printed for it stops on the way. */
  lemma {:induction false} DeepStops(ms: seq<Node>, loc: seq<nat>, index: nat)
    requires WellFormed(ms) && IsPlace(ms, loc, index) && !Shallow(ms, loc)
    ensures Stops(ms, ResolveIn(ms, PlacePath(ms, loc, index)))
    decreases |loc|
  {
    hide PlacePath, LocPath, ResolveIn, Stops;
    PlacePathStep(ms, loc, index);
    var n := ms[loc[0]];
    if n.StructArray? {
      var es := n.elements[loc[1]].members;
      var rest := PlacePath(es, loc[2..], index);
      ResolveStep(ms, loc[0], [loc[1]], rest);
      FirstSegmentDeep(es, loc[2..], index);
      StopsBelow(n.elements, loc[1], ResolveIn(es, rest[..1]));
      StopsBelow(ms, loc[0], Below(loc[1], ResolveIn(es, rest[..1])));
    } else {
      var rest := PlacePath(n.members, loc[1..], index);
      ResolveStep(ms, loc[0], [], rest);
      DeepStops(n.members, loc[1..], index);
      StopsBelow(ms, loc[0], ResolveIn(n.members, rest));
    }
  }

  lemma {:induction false} SameHead(s: Segment, t: Segment)
    requires SegmentBracket(s) == SegmentBracket(t) && s.name == t.name && s.name != ""
    requires |s.indices| <= 1 && |t.indices| <= 1
    ensures s == t
  {
    if |s.indices| == 1 {
      assert |t.indices| == 1 && s.indices == [s.indices[0]] && t.indices == [t.indices[0]];
    } else {
      assert |t.indices| == 0;
    }
  }

  /** Different paths print different keys. */
  lemma {:induction false} PrintInjective(p: Path, q: Path)
    requires PlainPath(p) && PlainPath(q) && Single(p) && Single(q) && Print(p) == Print(q)
    ensures p == q
  {
    hide Print, HeadOf, SegmentBracket;
    if p == [] || q == [] {
      PrintNothing();
      if p != [] {
        PrintNonempty(p);
      }
      if q != [] {
        PrintNonempty(q);
      }
    } else {
      HeadOfPrinted(p);
      HeadOfPrinted(q);
      assert PlainSegment(p[0]);
      SameHead(p[0], q[0]);
      PrintInjective(p[1..], q[1..]);
      assert p == [p[0]] + p[1..] && q == [q[0]] + q[1..];
    }
  }

  lemma {:induction false} PrintNothing()
    ensures Print([]) == ""
  {
  }

  /** Two places with one path are one place. */
  lemma {:induction false} PlacePathInjective(ms: seq<Node>, a: seq<nat>, i: nat, b: seq<nat>, j: nat)
    requires WellFormed(ms) && IsPlace(ms, a, i) && IsPlace(ms, b, j) && PlacePath(ms, a, i) == PlacePath(ms, b, j)
    ensures (a, i) == (b, j)
    decreases |a|
  {
    PlacePathBegins(ms, a, i);
    PlacePathBegins(ms, b, j);
    FirstNamedIs(ms, a[0], 0);
    FirstNamedIs(ms, b[0], 0);
    var n, c, d := ms[a[0]], a[1..], b[1..];
    assert a == [a[0]] + c && b == [b[0]] + d;
    hide WellFormed, PlacePath, LocPath, InTree, NodeAt;
    if |a| == 1 {
      PlaceAtTop(ms, a, i);
      if |b| > 1 {
        PlacePathStep(ms, b, j);
      } else {
        PlaceAtTop(ms, b, j);
      }
    } else {
      PlacePathStep(ms, a, i);
      if |b| == 1 {
        PlaceAtTop(ms, b, j);
      } else {
        PlacePathStep(ms, b, j);
        if n.StructArray? {
          assert PlacePath(ms, a, i)[0].indices == [a[1]] && PlacePath(ms, b, j)[0].indices == [b[1]];
          assert PlacePath(ms, a, i)[1..] == PlacePath(n.elements[a[1]].members, a[2..], i);
          assert PlacePath(ms, b, j)[1..] == PlacePath(n.elements[b[1]].members, b[2..], j);
          PlacePathInjective(n.elements[a[1]].members, a[2..], i, b[2..], j);
          assert a == [a[0], a[1]] + a[2..] && b == [b[0], b[1]] + b[2..];
        } else {
          assert PlacePath(ms, a, i)[1..] == PlacePath(n.members, c, i);
          assert PlacePath(ms, b, j)[1..] == PlacePath(n.members, d, j);
          PlacePathInjective(n.members, c, i, d, j);
        }
      }
    }
  }

  lemma {:induction false} PlacePathBegins(ms: seq<Node>, loc: seq<nat>, index: nat)
    requires WellFormed(ms) && IsPlace(ms, loc, index)
    ensures PlacePath(ms, loc, index)[0].name == NameOf(ms[loc[0]])
    ensures DistinctIds(ms) && loc[0] < |ms|
  {
    if |loc| == 1 {
      PlaceAtTop(ms, loc, index);
    } else {
      PlacePathStep(ms, loc, index);
    }
  }

  /** Keys printed for two different places are different, and those of two shallow places never reach the same place. */
  lemma {:induction false} PlaceKeysDistinct(ms: seq<Node>, a: seq<nat>, i: nat, b: seq<nat>, j: nat)
    requires WellFormed(ms) && IsPlace(ms, a, i) && IsPlace(ms, b, j) && (a, i) != (b, j)
    ensures Print(PlacePath(ms, a, i)) != Print(PlacePath(ms, b, j))
    ensures Shallow(ms, a) && Shallow(ms, b) ==>
              PropertySearch(ms, Print(PlacePath(ms, a, i))) != PropertySearch(ms, Print(PlacePath(ms, b, j)))
  {
    hide Print, PlacePath, PropertySearch, WellFormed;
    PlacePathPlain(ms, a, i);
    PlacePathPlain(ms, b, j);
    if Print(PlacePath(ms, a, i)) == Print(PlacePath(ms, b, j)) {
      PrintInjective(PlacePath(ms, a, i), PlacePath(ms, b, j));
      PlacePathInjective(ms, a, i, b, j);
    }
    PlaceKeyResolves(ms, a, i);
    PlaceKeyResolves(ms, b, j);
  }

  // ---------------------------------------------------------------- the documented schema

  /** Struct-array elements hold scalars and scalar arrays only, as dm_shadow.h documents. */
  predicate Documented(ms: seq<Node>)
    decreases ms, 0
  {
    forall i :: 0 <= i < |ms| ==> DocumentedNode(ms[i])
  }

  predicate DocumentedNode(n: Node)
    decreases n, 1
  {
    match n
    case Struct(_, ms) => Documented(ms)
    case StructArray(_, es) =>
      forall k :: 0 <= k < |es| ==> forall j :: 0 <= j < |Children(es[k])| ==> Children(Children(es[k])[j]) == []
    case _ => true
  }

  /** Under the documented schema every place is shallow, so every place is addressable. */
  lemma {:induction false} DocumentedIsShallow(ms: seq<Node>, loc: seq<nat>, index: nat)
    requires WellFormed(ms) && Documented(ms) && IsPlace(ms, loc, index)
    ensures Shallow(ms, loc)
    decreases |loc|
  {
    if |loc| > 1 {
      PlacePathStep(ms, loc, index);
      var n := ms[loc[0]];
      assert DocumentedNode(n);
      if n.StructArray? {
        if |loc| > 3 {
          PlacePathStep(n.elements[loc[1]].members, loc[2..], index);
          assert false;
        }
      } else {
        DocumentedIsShallow(n.members, loc[1..], index);
      }
    }
  }
}
