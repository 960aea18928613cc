/**
  When a key leaves the elements of a struct array.  _dm_shw_data_array_search adds the index of the key to the address of
  the elements without a look at their number (dm_shadow.c:170), so that such a key reads whatever lies there.
*/
module Bounds {
  import opened Text
  import opened ShadowTree
  import opened Paths

  // ---------------------------------------------------------------- any key as words

  /** A segment of a key as the searches read it: a name, and the index if a bracket follows, whatever atoi makes of it. */
  datatype Word = Word(name: string, sub: Option<int>)

  function FirstWord(key: string): Word {
    var h := HeadOf(key);
    Word(h.name, if h.bracket.partial == 0 then None else Some(h.bracket.index))
  }

  function Words(key: string): (ws: seq<Word>)
    ensures ws != [] && ws[0] == FirstWord(key)
    decreases |key|
  {
    var h := HeadOf(key);
    [FirstWord(key)] + if h.last then [] else Words(h.rest)
  }

  /** The words that lead to a node, an index after the last of them. */
  function WordsTo(ms: seq<Node>, loc: seq<nat>, j: int): (ws: seq<Word>)
    requires InTree(ms, loc)
    ensures ws != []
    decreases |loc|
  {
    var n := ms[loc[0]];
    if |loc| == 1 then [Word(NameOf(n), Some(j))]
    else if n.StructArray? then
      assert InTree(Children(n), loc[1..]) && loc[1..][1..] == loc[2..];
      [Word(NameOf(n), Some(loc[1]))] + if |loc| == 2 then [] else WordsTo(Children(n.elements[loc[1]]), loc[2..], j)
    else [Word(NameOf(n), None)] + WordsTo(Children(n), loc[1..], j)
  }

  /** A struct array that the searches get to, and an index that it does not have. */
  predicate Beyond(ms: seq<Node>, loc: seq<nat>, j: int) {
    && InTree(ms, loc) && Shallow(ms, loc)
    && NodeAt(ms, loc).StructArray? && !(0 <= j < |NodeAt(ms, loc).elements|)
  }

  /** The key begins with the name of such an array and such an index. */
  predicate Overruns(ms: seq<Node>, loc: seq<nat>, j: int, ws: seq<Word>) {
    Beyond(ms, loc, j) && WordsTo(ms, loc, j) <= ws
  }

  // ---------------------------------------------------------------- one level

  lemma {:induction false} WellFormedAt(ms: seq<Node>, i: nat)
    requires WellFormed(ms) && i < |ms|
    ensures DistinctIds(ms) && ms[i].id.Some? && NameOf(ms[i]) != ""
    ensures ms[i].Struct? ==> WellFormed(ms[i].members)
    ensures ms[i].StructArray? ==>
              forall k :: 0 <= k < |ms[i].elements| ==> ms[i].elements[k].Struct? && WellFormed(ms[i].elements[k].members)
  {
    assert WellFormedNode(ms[i]);
    if ms[i].StructArray? {
      assert forall k :: 0 <= k < |ms[i].elements| ==> WellFormedNode(ms[i].elements[k]);
    }
  }

  lemma {:induction false} PrefixStep<T>(x: T, a: seq<T>, b: seq<T>)
    ensures [x] + a <= [x] + b <==> a <= b
  {
    assert ([x] + a)[1..] == a && ([x] + b)[1..] == b;
    if [x] + a <= [x] + b {
      assert forall k :: 0 <= k < |a| ==> a[k] == ([x] + a)[k + 1] == ([x] + b)[k + 1] == b[k];
    }
  }

  /** The way into a structure. */
  lemma {:induction false} IntoStruct(ms: seq<Node>, i: nat, l: seq<nat>, j: int, ws: seq<Word>)
    requires i < |ms| && ms[i].Struct?
    ensures Overruns(ms, [i] + l, j, [Word(NameOf(ms[i]), None)] + ws) <==> Overruns(ms[i].members, l, j, ws)
  {
    var loc := [i] + l;
    assert loc[1..] == l;
    if l != [] && InTree(ms[i].members, l) {
      assert NodeAt(ms, loc) == NodeAt(ms[i].members, l) && Shallow(ms, loc) == Shallow(ms[i].members, l);
      assert WordsTo(ms, loc, j) == [Word(NameOf(ms[i]), None)] + WordsTo(ms[i].members, l, j);
      PrefixStep(Word(NameOf(ms[i]), None), WordsTo(ms[i].members, l, j), ws);
    }
  }

  /** The way into an element, to a direct member of it. */
  lemma {:induction false} IntoElement(ms: seq<Node>, i: nat, k: nat, m: nat, j: int, ws: seq<Word>)
    requires i < |ms| && ms[i].StructArray? && k < |ms[i].elements| && ms[i].elements[k].Struct?
    ensures Overruns(ms, [i, k, m], j, [Word(NameOf(ms[i]), Some(k))] + ws)
       <==> Overruns(ms[i].elements[k].members, [m], j, ws)
  {
    var loc, es, e := [i, k, m], ms[i].elements, ms[i].elements[k];
    assert loc[1..] == [k, m] && loc[2..] == [m] && [k, m][1..] == [m];
    assert InTree(es, [k, m]) == InTree(e.members, [m]);
    if InTree(e.members, [m]) {
      assert NodeAt(es, [k, m]) == NodeAt(e.members, [m]);
      assert NodeAt(ms, loc) == NodeAt(es, [k, m]);
      assert WordsTo(ms, loc, j) == [Word(NameOf(ms[i]), Some(k))] + WordsTo(e.members, [m], j);
      PrefixStep(Word(NameOf(ms[i]), Some(k)), WordsTo(e.members, [m], j), ws);
    }
  }

  /** Below an element the way ends at a direct member. */
  lemma {:induction false} OneMember(ms: seq<Node>, loc: seq<nat>, j: int)
    requires WellFormed(ms) && Beyond(ms, loc, j) && |loc| > 1 && ms[loc[0]].StructArray?
    ensures |loc| == 3 && loc == [loc[0], loc[1], loc[2]] && loc[1] < |ms[loc[0]].elements|
    ensures ms[loc[0]].elements[loc[1]].Struct? && loc[2] < |ms[loc[0]].elements[loc[1]].members|
    ensures |WordsTo(ms, loc, j)| == 2
  {
    WellFormedAt(ms, loc[0]);
    var es, tail := ms[loc[0]].elements, loc[1..];
    assert InTree(es, tail) && NodeAt(ms, loc) == NodeAt(es, tail);
    if |loc| > 2 {
      assert tail[1..] == loc[2..] && |loc[2..]| == 1;
      assert InTree(es[loc[1]].members, loc[2..]);
    }
  }

  lemma {:induction false} OneWord(ms: seq<Node>, loc: seq<nat>, j: int)
    requires WellFormed(ms) && Beyond(ms, loc, j) && |WordsTo(ms, loc, j)| == 1
    ensures loc == [loc[0]]
  {
    if |loc| > 1 && ms[loc[0]].StructArray? {
      OneMember(ms, loc, j);
    }
  }

  lemma {:induction false} NoName(ms: seq<Node>)
    requires WellFormed(ms)
    ensures StructSearch(ms, "") == Missing
  {
    assert SegmentEnd("") == 0;
    assert HeadOf("").name == "";
    if FirstNamed(ms, "", 0).Some? {
      WellFormedAt(ms, FirstNamed(ms, "", 0).value);
    }
  }

  /** The first segment taken by itself is the same word, and the last one. */
  lemma {:induction false} SegmentAlone(key: string)
    ensures var seg := key[..SegmentEnd(key)];
            HeadOf(seg).last && HeadOf(seg).bracket == HeadOf(key).bracket && HeadOf(seg).name == HeadOf(key).name
            && Words(seg) == [FirstWord(key)]
  {
    var d := SegmentEnd(key);
    var seg := key[..d];
    if d < |key| {
      SegmentFree(key);
      SegmentEndPlain(seg);
    } else {
      assert seg == key;
    }
    assert seg[..|seg|] == seg;
  }

  lemma {:induction false} WordsStep(key: string)
    ensures Words(key) == [FirstWord(key)] + if HeadOf(key).last then [] else Words(HeadOf(key).rest)
  {
  }

  /** Where one level of the search leaves the elements. */
  lemma {:induction false} MatchedOutside(n: Node, h: Head)
    ensures MatchedSearch(n, h) == Outside <==>
            || (n.Struct? && !h.last && h.bracket.partial == 0 && StructSearch(n.members, h.rest) == Outside)
            || (n.StructArray? && h.bracket.partial != 0 &&
                (!(0 <= h.bracket.index < |n.elements|)
                 || (n.elements[h.bracket.index].Struct?
                     && StructSearch(n.elements[h.bracket.index].members, h.rest[..SegmentEnd(h.rest)]) == Outside)))
  {
  }

  // ---------------------------------------------------------------- a read outside names an array and an index

  lemma {:induction false} OutsideNames(ms: seq<Node>, key: string) returns (loc: seq<nat>, j: int)
    requires WellFormed(ms) && StructSearch(ms, key) == Outside
    ensures Overruns(ms, loc, j, Words(key))
    decreases ms, 0
  {
    hide Words, WordsTo, WellFormed, Beyond, MatchedSearch;
    var h := HeadOf(key);
    var i := FirstNamed(ms, h.name, 0).value;
    var n := ms[i];
    MatchedOutside(n, h);
    WellFormedAt(ms, i);
    WordsStep(key);
    if n.Struct? {
      var l;
      l, j := OutsideNames(n.members, h.rest);
      loc := [i] + l;
      IntoStruct(ms, i, l, j, Words(h.rest));
    } else if !(0 <= h.bracket.index < |n.elements|) {
      loc, j := [i], h.bracket.index;
      HereBeyond(ms, i, j);
    } else {
      var k: nat, seg := h.bracket.index, h.rest[..SegmentEnd(h.rest)];
      var es := n.elements[k].members;
      SegmentAlone(h.rest);
      if seg == "" {
        NoName(es);
      }
      var l;
      l, j := OutsideNames(es, seg);
      FirstWordOnly(es, l, j, h.rest);
      loc := [i, k, l[0]];
      IntoElement(ms, i, k, l[0], j, Words(h.rest));
    }
  }

  lemma {:induction false} HereBeyond(ms: seq<Node>, i: nat, j: int)
    requires i < |ms| && ms[i].StructArray? && !(0 <= j < |ms[i].elements|)
    ensures Beyond(ms, [i], j) && WordsTo(ms, [i], j) == [Word(NameOf(ms[i]), Some(j))]
  {
  }

  lemma {:induction false} FirstWordOnly(ms: seq<Node>, loc: seq<nat>, j: int, key: string)
    requires WellFormed(ms) && Overruns(ms, loc, j, [FirstWord(key)])
    ensures loc == [loc[0]] && Overruns(ms, [loc[0]], j, Words(key))
  {
    OneWord(ms, loc, j);
  }

  // ---------------------------------------------------------------- and the other way round

  /** The word is that of the first node on the way. */
  lemma {:induction false} WayBegins(ms: seq<Node>, key: string, loc: seq<nat>, j: int)
    requires WellFormed(ms) && Overruns(ms, loc, j, Words(key))
    ensures var n := ms[loc[0]];
            && FirstNamed(ms, HeadOf(key).name, 0) == Some(loc[0])
            && FirstWord(key) == Word(NameOf(n), if |loc| == 1 then Some(j) else if n.StructArray? then Some(loc[1]) else None)
            && (|loc| > 1 ==> n.StructArray? || n.Struct?) && (|loc| == 1 ==> n.StructArray?)
            && (|loc| > 1 && n.Struct? ==> |WordsTo(ms, loc, j)| > 1)
  {
    hide Words, WellFormed;
    WellFormedAt(ms, loc[0]);
    FirstNamedIs(ms, loc[0], 0);
    assert WordsTo(ms, loc, j)[0] == Words(key)[0];
    if |loc| > 1 {
      assert InTree(Children(ms[loc[0]]), loc[1..]);
    }
  }

  lemma {:induction false} NamedHere(ms: seq<Node>, key: string, i: nat, j: int)
    requires WellFormed(ms) && Overruns(ms, [i], j, Words(key))
    ensures StructSearch(ms, key) == Outside
  {
    hide Words, WellFormed, MatchedSearch, WordsTo;
    WayBegins(ms, key, [i], j);
    MatchedOutside(ms[i], HeadOf(key));
  }

  lemma {:induction false} NamedInElement(ms: seq<Node>, key: string, loc: seq<nat>, j: int)
    requires WellFormed(ms) && Overruns(ms, loc, j, Words(key)) && |loc| > 1 && ms[loc[0]].StructArray?
    ensures StructSearch(ms, key) == Outside
  {
    hide Words, WellFormed, MatchedSearch, WordsTo, Shallow, NodeAt;
    var h, i := HeadOf(key), loc[0];
    WellFormedAt(ms, i);
    WayBegins(ms, key, loc, j);
    WordsStep(key);
    OneMember(ms, loc, j);
    var es := ms[i].elements[loc[1]].members;
    IntoElement(ms, i, loc[1], loc[2], j, Words(h.rest));
    SegmentAlone(h.rest);
    MemberFirst(es, loc[2], j, Words(h.rest));
    NamedHere(es, h.rest[..SegmentEnd(h.rest)], loc[2], j);
    MatchedOutside(ms[i], h);
  }

  lemma {:induction false} NamedOutside(ms: seq<Node>, key: string, loc: seq<nat>, j: int)
    requires WellFormed(ms) && Overruns(ms, loc, j, Words(key))
    ensures StructSearch(ms, key) == Outside
    decreases |loc|
  {
    hide Words, WellFormed, MatchedSearch, WordsTo, Shallow, NodeAt;
    var h, i := HeadOf(key), loc[0];
    var n, tail := ms[i], loc[1..];
    if |loc| == 1 {
      assert loc == [i];
      NamedHere(ms, key, i, j);
    } else if n.StructArray? {
      NamedInElement(ms, key, loc, j);
    } else {
      WayBegins(ms, key, loc, j);
      WellFormedAt(ms, i);
      WordsStep(key);
      MatchedOutside(n, h);
      assert loc == [i] + tail;
      IntoStruct(ms, i, tail, j, Words(h.rest));
      NamedOutside(n.members, h.rest, tail, j);
    }
  }

  lemma {:induction false} MemberFirst(ms: seq<Node>, m: nat, j: int, ws: seq<Word>)
    requires Overruns(ms, [m], j, ws)
    ensures Overruns(ms, [m], j, [ws[0]])
  {
  }

  /** For every key, whatever its form: it reads past a struct array exactly when it begins with the way to one and an index
      that the array does not have, a negative one included. */
  lemma {:induction false} OutsideExactly(ms: seq<Node>, key: string)
    requires WellFormed(ms)
    ensures PropertySearch(ms, key) == Outside <==> exists loc, j :: Overruns(ms, loc, j, Words(key))
  {
    SearchIsStruct(ms, key);
    hide WellFormed, Words, Overruns, PropertySearch, StructSearch;
    if StructSearch(ms, key) == Outside {
      var loc, j := OutsideNames(ms, key);
    }
    if exists loc, j :: Overruns(ms, loc, j, Words(key)) {
      var loc, j :| Overruns(ms, loc, j, Words(key));
      NamedOutside(ms, key, loc, j);
    }
  }

  /** The properties are searched like the members of one structure. */
  lemma {:induction false} SearchIsStruct(ms: seq<Node>, key: string)
    requires WellFormed(ms)
    ensures PropertySearch(ms, key) == StructSearch(ms, key)
  {
    PropertyFromFirst(ms, key, 0);
    NoName(ms);
  }

  // ---------------------------------------------------------------- printed keys

  /** What the searches make of a printed segment; one with two indices keeps a bracket in its name. */
  predicate Reads(w: Word, s: Segment) {
    if |s.indices| == 0 then w == Word(s.name, None)
    else if |s.indices| == 1 then w == Word(s.name, Some(s.indices[0]))
    else '[' in w.name
  }

  lemma {:induction false} WordsPrinted(p: Path)
    requires PlainPath(p) && p != []
    ensures |Words(Print(p))| == |p| && forall k :: 0 <= k < |p| ==> Reads(Words(Print(p))[k], p[k])
  {
    HeadOfPrinted(p);
    WordsStep(Print(p));
    hide Words, Print, PlainSegment, HeadOf;
    if |p| > 1 {
      WordsPrinted(p[1..]);
    }
  }

  lemma {:induction false} AddIndexLater(x: Segment, p: Path, j: nat)
    requires p != []
    ensures AddIndex([x] + p, j) == [x] + AddIndex(p, j)
  {
  }

  /** A path whose words are these. */
  ghost predicate Spells(ws: seq<Word>, p: Path) {
    |p| == |ws| && forall k :: 0 <= k < |p| ==> |p[k].indices| <= 1 && Plain(p[k].name) && Reads(ws[k], p[k])
  }

  lemma {:induction false} SpellsMore(w: Word, ws: seq<Word>, s: Segment, p: Path)
    requires Spells(ws, p) && |s.indices| <= 1 && Plain(s.name) && Reads(w, s)
    ensures Spells([w] + ws, [s] + p)
  {
  }

  lemma {:induction false} WordsOfPath(ms: seq<Node>, loc: seq<nat>, j: nat)
    requires WellFormed(ms) && Beyond(ms, loc, j)
    ensures Spells(WordsTo(ms, loc, j), AddIndex(LocPath(ms, loc), j))
    decreases |loc|
  {
    hide WellFormed, Spells, Shallow;
    var n, tail := ms[loc[0]], loc[1..];
    var name := NameOf(n);
    WellFormedAt(ms, loc[0]);
    PlainAt(ms, loc[0]);
    if |loc| == 1 {
      OneSpells(name, j);
      assert AddIndex([Segment(name, [])], j) == [Segment(name, [j])] by {
        assert [] + [j] == [j];
      }
    } else if n.StructArray? {
      OneMember(ms, loc, j);
      var es, l := n.elements[loc[1]].members, [loc[2]];
      assert loc[2..] == l && InTree(n.elements, tail) && tail[1..] == l;
      WellFormedAt(es, loc[2]);
      PlainAt(es, loc[2]);
      var last := NameOf(es[loc[2]]);
      OneSpells(last, j);
      assert AddIndex([Segment(last, [])], j) == [Segment(last, [j])] by {
        assert [] + [j] == [j];
      }
      assert LocPath(es, l) == [Segment(last, [])] && WordsTo(es, l, j) == [Word(last, Some(j))];
      SpellsMore(Word(name, Some(loc[1])), [Word(last, Some(j))], Segment(name, [loc[1]]), [Segment(last, [j])]);
      AddIndexLater(Segment(name, [loc[1]]), LocPath(es, l), j);
    } else {
      assert InTree(Children(n), tail);
      BeyondInside(ms, loc, j);
      WordsOfPath(n.members, tail, j);
      SpellsMore(Word(name, None), WordsTo(n.members, tail, j), Segment(name, []), AddIndex(LocPath(n.members, tail), j));
      AddIndexLater(Segment(name, []), LocPath(n.members, tail), j);
    }
  }

  lemma {:induction false} PlainAt(ms: seq<Node>, i: nat)
    requires WellFormed(ms) && i < |ms|
    ensures Plain(NameOf(ms[i]))
  {
  }

  lemma {:induction false} OneSpells(name: string, j: nat)
    requires Plain(name)
    ensures Spells([Word(name, Some(j))], [Segment(name, [j])])
  {
  }

  lemma {:induction false} BeyondInside(ms: seq<Node>, loc: seq<nat>, j: int)
    requires Beyond(ms, loc, j) && |loc| > 1 && !ms[loc[0]].StructArray?
    ensures ms[loc[0]].Struct? && Beyond(ms[loc[0]].members, loc[1..], j)
  {
    assert InTree(Children(ms[loc[0]]), loc[1..]);
  }

  /** Words that spell a plain path begin with the words of a way exactly when the path begins with its path. */
  lemma {:induction false} SpellsPrefix(ws: seq<Word>, q: Path, vs: seq<Word>, p: Path)
    requires Spells(ws, q) && |vs| == |p| && forall k :: 0 <= k < |p| ==> Reads(vs[k], p[k])
    ensures ws <= vs <==> q <= p
  {
    if ws <= vs {
      forall k | 0 <= k < |q| ensures q[k] == p[k] {
        assert Reads(ws[k], q[k]) && Reads(vs[k], p[k]) && ws[k] == vs[k] && '[' !in q[k].name;
        assert |q[k].indices| == |p[k].indices| && q[k].indices == p[k].indices;
      }
    }
    if q <= p {
      forall k | 0 <= k < |ws| ensures ws[k] == vs[k] {
        assert Reads(ws[k], q[k]) && Reads(vs[k], p[k]) && q[k] == p[k];
      }
    }
  }

  /** A path goes beyond the elements when it begins with the path of a struct array and an index the array does not have. */
  predicate PathOverruns(ms: seq<Node>, loc: seq<nat>, j: nat, p: Path) {
    Beyond(ms, loc, j) && AddIndex(LocPath(ms, loc), j) <= p
  }

  /** For printed keys the condition can be read off the path. */
  lemma {:induction false} OutsidePrinted(ms: seq<Node>, p: Path)
    requires WellFormed(ms) && PlainPath(p) && p != []
    ensures PropertySearch(ms, Print(p)) == Outside <==> exists loc, j: nat :: PathOverruns(ms, loc, j, p)
  {
    hide WellFormed, Words, WordsTo, LocPath, Spells, Reads, Print, PropertySearch, PlainSegment;
    OutsideExactly(ms, Print(p));
    WordsPrinted(p);
    var vs := Words(Print(p));
    if exists loc, j :: Overruns(ms, loc, j, vs) {
      var loc, j :| Overruns(ms, loc, j, vs);
      NotNegative(ms, loc, j, vs, p);
      WordsOfPath(ms, loc, j);
      SpellsPrefix(WordsTo(ms, loc, j), AddIndex(LocPath(ms, loc), j), vs, p);
      assert PathOverruns(ms, loc, j, p);
    }
    if exists loc, j: nat :: PathOverruns(ms, loc, j, p) {
      var loc, j: nat :| PathOverruns(ms, loc, j, p);
      WordsOfPath(ms, loc, j);
      SpellsPrefix(WordsTo(ms, loc, j), AddIndex(LocPath(ms, loc), j), vs, p);
      assert Overruns(ms, loc, j, vs);
    }
  }

  /** A printed index is never negative. */
  lemma {:induction false} NotNegative(ms: seq<Node>, loc: seq<nat>, j: int, vs: seq<Word>, p: Path)
    requires WellFormed(ms) && Overruns(ms, loc, j, vs)
    requires |vs| == |p| && forall k :: 0 <= k < |p| ==> Reads(vs[k], p[k])
    ensures j >= 0
  {
    LastWord(ms, loc, j);
    var ws := WordsTo(ms, loc, j);
    assert vs[|ws| - 1] == ws[|ws| - 1] && Reads(vs[|ws| - 1], p[|ws| - 1]);
  }

  lemma {:induction false} LastWord(ms: seq<Node>, loc: seq<nat>, j: int)
    requires WellFormed(ms) && Beyond(ms, loc, j)
    ensures var w := WordsTo(ms, loc, j)[|WordsTo(ms, loc, j)| - 1];
            w.sub == Some(j) && Plain(w.name)
    decreases |loc|
  {
    hide WellFormed, Shallow;
    WellFormedAt(ms, loc[0]);
    PlainAt(ms, loc[0]);
    if |loc| > 1 {
      if ms[loc[0]].StructArray? {
        OneMember(ms, loc, j);
        PlainAt(ms[loc[0]].elements[loc[1]].members, loc[2]);
      } else {
        BeyondInside(ms, loc, j);
        LastWord(ms[loc[0]].members, loc[1..], j);
      }
    }
  }

  // ---------------------------------------------------------------- a key that does it

  const ONE_ELEMENT := [StructArray(Some("a"), [Struct(None, [Leaf(Some("x"), IntT, IntV(0))])])]

  lemma {:induction false} OneElementOk()
    ensures WellFormed(ONE_ELEMENT) && Documented(ONE_ELEMENT)
  {
    var members := [Leaf(Some("x"), IntT, IntV(0))];
    assert WellFormed(members) by {
      assert WellFormedNode(members[0]);
    }
    var element := Struct(None, members);
    assert WellFormedNode(element);
    assert WellFormedNode(ONE_ELEMENT[0]);
  }

  lemma {:induction false} IndexedWords(name: string, body: string, rest: string)
    requires BracketFree(name) && BracketFree(body) && '.' !in name && '.' !in body && 0 < |body| <= 10 && rest != ""
    requires name != ""
    ensures FirstWord(Bracketed(name, body) + "." + rest) == Word(name, Some(Atoi(body)))
  {
    var head := Bracketed(name, body);
    var key := head + "." + rest;
    SegmentEndDotted(head, rest);
    assert key[..|head|] == head;
    ParseIndexBracketed(name, body);
    assert key[..|name|] == name;
  }

  /** An element too far, and one before the first: both keys read outside the one element there is. */
  lemma {:induction false} ReadsOutside()
    ensures WellFormed(ONE_ELEMENT) && Documented(ONE_ELEMENT)
    ensures PropertySearch(ONE_ELEMENT, "a[7].x") == Outside && PropertySearch(ONE_ELEMENT, "a[-1].x") == Outside
  {
    OneElementOk();
    hide WellFormed, Documented, PropertySearch, HeadOf, FirstWord, Words;
    assert "a[7].x" == Bracketed("a", "7") + "." + "x";
    assert "a[-1].x" == Bracketed("a", "-1") + "." + "x";
    IndexedWords("a", "7", "x");
    IndexedWords("a", "-1", "x");
    AtoiSeven();
    HereBeyond(ONE_ELEMENT, 0, 7);
    HereBeyond(ONE_ELEMENT, 0, -1);
    assert Overruns(ONE_ELEMENT, [0], 7, Words("a[7].x"));
    assert Overruns(ONE_ELEMENT, [0], -1, Words("a[-1].x"));
    OutsideExactly(ONE_ELEMENT, "a[7].x");
    OutsideExactly(ONE_ELEMENT, "a[-1].x");
  }

  lemma {:induction false} AtoiSeven()
    ensures Atoi("7") == 7 && Atoi("-1") == -1
  {
    assert "-1"[1..] == "1";
    assert DigitPrefix("7") == 1 && DigitPrefix("1") == 1;
    assert "7"[..1] == "7" && "1"[..1] == "1";
  }
}
