/** What the keys that begin with the name of a property reach, form by form. */
module Keys {
  import opened Text
  import opened ShadowTree
  import opened Paths
  import Bounds

  lemma {:induction false} PathOfName(name: string, indices: seq<nat>, rest: Path)
    requires Plain(name) && |indices| <= 1 && (forall k :: 0 <= k < |indices| ==> indices[k] < ITOA_LIMIT) && PlainPath(rest)
    ensures PlainPath([Segment(name, indices)] + rest)
  {
  }

  /** A key without an index: the property itself, and below a structure its members. */
  lemma {:induction false} NameKey(ms: seq<Node>, i: nat, rest: Path)
    requires WellFormed(ms) && i < |ms| && PlainPath(rest)
    ensures var n := ms[i];
            var r := PropertySearch(ms, Print([Segment(NameOf(n), [])] + rest));
            if rest == [] then r == Found([i], 0)
            else if n.Struct? then r == Below(i, ResolveIn(n.members, rest))
            else r == Missing
  {
    var p := [Segment(NameOf(ms[i]), [])] + rest;
    Bounds.WellFormedAt(ms, i);
    Bounds.PlainAt(ms, i);
    PathOfName(NameOf(ms[i]), [], rest);
    PropertySearchPrinted(ms, p);
    ResolveStep(ms, i, [], rest);
    assert [i] + [] == [i];
  }

  /** A key with an index: a slot of a scalar array, whatever one more segment says; one segment below an element of a struct
      array; the index of a structure is ignored when nothing follows. */
  lemma {:induction false} IndexKey(ms: seq<Node>, i: nat, k: nat, rest: Path)
    requires WellFormed(ms) && i < |ms| && k < 1_000_000_000 && PlainPath(rest)
    ensures var n := ms[i];
            var r := PropertySearch(ms, Print([Segment(NameOf(n), [k])] + rest));
            match n
            case Leaf(_, _, _) => r == Missing
            case Struct(_, _) => r == if rest == [] then Found([i], 0) else Missing
            case Array(_, _, _) => r == if |rest| <= 1 then Found([i], k) else Missing
            case StructArray(_, es) =>
              if k >= |es| then r == Outside
              else if rest == [] then r == Missing
              else es[k].Struct? && r == Below(i, Below(k, ResolveIn(es[k].members, rest[..1])))
  {
    var n := ms[i];
    Bounds.WellFormedAt(ms, i);
    Bounds.PlainAt(ms, i);
    PathOfName(NameOf(n), [k], rest);
    PropertySearchPrinted(ms, [Segment(NameOf(n), [k])] + rest);
    ResolveStep(ms, i, [k], rest);
    hide WellFormed, PropertySearch, Print, PlainPath;
    assert [i] + [] == [i];
    if n.StructArray? && k < |n.elements| && rest == [] {
      NothingResolves(n.elements[k].members);
    }
  }

  lemma {:induction false} NothingResolves(ms: seq<Node>)
    ensures ResolveIn(ms, []) == Missing
  {
  }

  /** Whatever stands in the brackets: up to ten characters are read by atoi, more than ten make no index, and then no name
      fits. */
  lemma {:induction false} BracketKey(ms: seq<Node>, i: nat, body: string)
    requires WellFormed(ms) && i < |ms| && ms[i].Array?
    requires BracketFree(body) && '.' !in body && body != ""
    ensures PropertySearch(ms, Bracketed(NameOf(ms[i]), body)) == if |body| <= 10 then Found([i], Atoi(body)) else Missing
  {
    var name := NameOf(ms[i]);
    var key := Bracketed(name, body);
    Bounds.SearchIsStruct(ms, key);
    Bounds.WellFormedAt(ms, i);
    Bounds.PlainAt(ms, i);
    BracketHead(name, body);
    hide WellFormed, HeadOf, PropertySearch;
    if |body| <= 10 {
      FirstNamedIs(ms, i, 0);
      assert SegmentEnd("") == 0;
      assert |name| > 0;
      assert MatchedSearch(ms[i], HeadOf(key)) == Found([], Atoi(body));
      assert [i] + [] == [i];
    } else {
      assert key[|name|] == '[';
      NoPlainName(ms, key);
    }
  }

  lemma {:induction false} BracketHead(name: string, body: string)
    requires Plain(name) && BracketFree(body) && '.' !in body && body != ""
    ensures var h, key := HeadOf(Bracketed(name, body)), Bracketed(name, body);
            && h.last && h.rest == ""
            && (if |body| <= 10 then h.bracket == Bracket(true, |name|, Atoi(body)) && h.name == name else h.name == key)
  {
    var key := Bracketed(name, body);
    SegmentEndPlain(key);
    assert key[..|key|] == key && key[..|name|] == name;
    ParseIndexBracketed(name, body);
    hide ParseIndex, SegmentEnd, Atoi;
  }

  lemma {:induction false} NoPlainName(ms: seq<Node>, key: string)
    requires WellFormed(ms) && '[' in key
    ensures FirstNamed(ms, key, 0) == None
  {
    if FirstNamed(ms, key, 0).Some? {
      Bounds.PlainAt(ms, FirstNamed(ms, key, 0).value);
    }
  }
}
