/** Threads waiting for the answer to an upstream request: eng/dev_model/impl_linkkit.c. */
module Waiters {
  import opened Messages
  import opened Text

  datatype Code = Success | Refused

  /** A list node.  History: the thread that waits on it and the last message that set its code. */
  datatype Waiter = Waiter(id: int, sem: nat, code: Code, owner: nat, cause: Option<Message>)

  /** Index of the first waiter with the id, or the length. */
  function Place(ws: seq<Waiter>, id: int): (i: nat)
    ensures i <= |ws| && (i < |ws| ==> ws[i].id == id)
    ensures forall k :: 0 <= k < i ==> ws[k].id != id
  {
    if ws == [] || ws[0].id == id then 0 else Place(ws[1..], id) + 1
  }

  predicate Waits(ws: seq<Waiter>, id: int) {
    Place(ws, id) < |ws|
  }

  function Enlist(ws: seq<Waiter>, w: Waiter): seq<Waiter> {
    [w] + ws
  }

  function Strike(ws: seq<Waiter>, id: int): seq<Waiter> {
    var i := Place(ws, id);
    if i < |ws| then ws[..i] + ws[i + 1..] else ws
  }

  function CodeOf(code: int): Code {
    if code == CODE_SUCCESS then Success else Refused
  }

  /** The list after a message for its id: the waiter learns the code. */
  function Told(ws: seq<Waiter>, m: Message): seq<Waiter> {
    var i := Place(ws, m.id);
    if i < |ws| then ws[i := ws[i].(code := CodeOf(m.code), cause := Some(m))] else ws
  }

  ghost predicate Distinct(ws: seq<Waiter>) {
    forall i, j :: 0 <= i < j < |ws| ==> ws[i].id != ws[j].id && ws[i].sem != ws[j].sem
  }

  /** Ids and semaphores are not shared, and the semaphores alive are those of the waiters. */
  ghost predicate Proper(ws: seq<Waiter>, sems: map<nat, nat>) {
    Distinct(ws) && (forall i :: 0 <= i < |ws| ==> ws[i].sem in sems) && |sems| == |ws|
  }

  lemma {:induction false} StrikeLater(ws: seq<Waiter>, id: int)
    requires ws != [] && ws[0].id != id
    ensures Strike(ws, id) == [ws[0]] + Strike(ws[1..], id)
  {
    var i := Place(ws[1..], id);
    assert Place(ws, id) == i + 1;
    if i < |ws| - 1 {
      UnlinkLater(ws, i);
    }
  }

  /** Striking one id leaves every other waiter where a search finds it. */
  lemma {:induction false} StrikeKeeps(ws: seq<Waiter>, id: int, other: int)
    requires id != other
    ensures Waits(Strike(ws, id), other) == Waits(ws, other)
    ensures Waits(ws, other) ==> Strike(ws, id)[Place(Strike(ws, id), other)] == ws[Place(ws, other)]
  {
    hide Strike;
    if ws == [] || ws[0].id == id {
      StrikeHead(ws, id);
    } else {
      StrikeLater(ws, id);
      StrikeKeeps(ws[1..], id, other);
      HeadPlace(ws[0], Strike(ws[1..], id), other);
      HeadPlace(ws[0], ws[1..], other);
      assert [ws[0]] + ws[1..] == ws;
      hide Place;
    }
  }

  lemma {:induction false} StrikeHead(ws: seq<Waiter>, id: int)
    requires ws != [] ==> ws[0].id == id
    ensures Strike(ws, id) == if ws == [] then ws else ws[1..]
  {
  }

  lemma {:induction false} HeadPlace(x: Waiter, ws: seq<Waiter>, id: int)
    ensures Place([x] + ws, id) == if x.id == id then 0 else Place(ws, id) + 1
    ensures Waits([x] + ws, id) && x.id != id ==> ([x] + ws)[Place([x] + ws, id)] == ws[Place(ws, id)]
  {
    assert ([x] + ws)[1..] == ws;
  }

  lemma {:induction false} StrikeAt(ws: seq<Waiter>, id: int, k: nat)
    requires Waits(ws, id) && k < |ws| - 1
    ensures |Strike(ws, id)| == |ws| - 1
    ensures Strike(ws, id)[k] == if k < Place(ws, id) then ws[k] else ws[k + 1]
  {
  }

  /** What is left keeps its distance from the waiter that was struck. */
  lemma {:induction false} StrikeApart(ws: seq<Waiter>, id: int, k: nat)
    requires Distinct(ws) && Waits(ws, id) && k < |Strike(ws, id)|
    ensures var x, y := ws[Place(ws, id)], Strike(ws, id)[k];
            y.id != id && y.sem != x.sem && y in ws
  {
    StrikeAt(ws, id, if k < |ws| - 1 then k else 0);
    hide Strike;
  }

  lemma {:induction false} StrikeDistinct(ws: seq<Waiter>, id: int, a: nat, b: nat)
    requires Distinct(ws) && Waits(ws, id) && a < b < |Strike(ws, id)|
    ensures Strike(ws, id)[a].id != Strike(ws, id)[b].id && Strike(ws, id)[a].sem != Strike(ws, id)[b].sem
  {
    StrikeLength(ws, id);
    StrikeAt(ws, id, a);
    StrikeAt(ws, id, b);
    hide Strike, Place;
  }

  lemma {:induction false} StrikeLength(ws: seq<Waiter>, id: int)
    requires Waits(ws, id)
    ensures |Strike(ws, id)| == |ws| - 1
  {
  }

  lemma {:induction false} StrikeRemoves(ws: seq<Waiter>, sems: map<nat, nat>, id: int)
    requires Proper(ws, sems) && Waits(ws, id)
    ensures !Waits(Strike(ws, id), id)
    ensures Proper(Strike(ws, id), sems - {ws[Place(ws, id)].sem})
  {
    hide Strike, Place, Distinct;
    var i, us := Place(ws, id), Strike(ws, id);
    forall k | 0 <= k < |us|
      ensures us[k].id != id && us[k].sem in sems - {ws[i].sem}
    {
      StrikeApart(ws, id, k);
    }
    assert Distinct(us) by { StrikeAllDistinct(ws, id); }
    StrikeLength(ws, id);
    DropCount(sems, ws[i].sem);
  }

  lemma {:induction false} StrikeAllDistinct(ws: seq<Waiter>, id: int)
    requires Distinct(ws) && Waits(ws, id)
    ensures Distinct(Strike(ws, id))
  {
    hide Strike, Place;
    forall a, b | 0 <= a < b < |Strike(ws, id)|
      ensures Strike(ws, id)[a].id != Strike(ws, id)[b].id && Strike(ws, id)[a].sem != Strike(ws, id)[b].sem
    {
      StrikeDistinct(ws, id, a, b);
    }
  }

  lemma {:induction false} DropCount(sems: map<nat, nat>, s: nat)
    requires s in sems
    ensures |sems - {s}| == |sems| - 1
  {
    assert (sems - {s}).Keys == sems.Keys - {s};
    assert |(sems - {s}).Keys| == |sems - {s}| && |sems.Keys| == |sems|;
  }

  lemma {:induction false} AddCount(sems: map<nat, nat>, s: nat)
    requires s !in sems
    ensures |sems[s := 0]| == |sems| + 1
  {
    assert sems[s := 0].Keys == sems.Keys + {s};
    assert |sems[s := 0].Keys| == |sems[s := 0]| && |sems.Keys| == |sems|;
  }

  lemma {:induction false} EnlistProper(ws: seq<Waiter>, sems: map<nat, nat>, w: Waiter)
    requires Proper(ws, sems) && w.sem !in sems
    ensures Waits(ws, w.id) || Proper(Enlist(ws, w), sems[w.sem := 0])
  {
    AddCount(sems, w.sem);
    if !Waits(ws, w.id) {
      assert forall k :: 0 <= k < |ws| ==> ws[k].id != w.id;
      var us := [w] + ws;
      assert Enlist(ws, w) == us;
      assert forall k :: 0 < k < |us| ==> us[k] == ws[k - 1];
    }
    hide Place, Enlist;
  }

  lemma {:induction false} ToldProper(ws: seq<Waiter>, sems: map<nat, nat>, m: Message)
    requires Proper(ws, sems)
    ensures Waits(ws, m.id) ==>
              var s := ws[Place(ws, m.id)].sem;
              s in sems && Proper(Told(ws, m), sems[s := sems[s] + 1])
    ensures !Waits(ws, m.id) ==> Told(ws, m) == ws
  {
    if Waits(ws, m.id) {
      var s := ws[Place(ws, m.id)].sem;
      var n := sems[s := sems[s] + 1];
      assert n.Keys == sems.Keys;
      assert |n.Keys| == |n| && |sems.Keys| == |sems|;
    }
  }

  /** upstream_sync_callback_list of the context, with the semaphores alive and how often each was posted. */
  class WaiterList {
    var waiters: seq<Waiter>
    var sems: map<nat, nat>
    var nextSem: nat

    ghost predicate Valid()
      reads this
    {
      Proper(waiters, sems) && forall s :: s in sems ==> s < nextSem
    }

    constructor ()
      ensures Valid() && waiters == [] && sems == map[]
    {
      waiters, sems, nextSem := [], map[], 0;
    }

    method Search(id: int) returns (i: nat)
      ensures i == Place(waiters, id)
    {
      i := 0;
      while i < |waiters| && waiters[i].id != id
        invariant i <= |waiters|
        invariant forall k :: 0 <= k < i ==> waiters[k].id != id
      {
        i := i + 1;
      }
    }

    /** A semaphore is created for the id; when the id is already listed, it is destroyed again. */
    method Insert(id: int, owner: nat) returns (r: Option<nat>)
      requires Valid()
      modifies this
      ensures Valid()
      ensures r.None? <==> Waits(old(waiters), id)
      ensures r.None? ==> waiters == old(waiters) && sems == old(sems)
      ensures r.Some? ==> r.value !in old(sems) && sems == old(sems)[r.value := 0]
      ensures r.Some? ==> waiters == [Waiter(id, r.value, Success, owner, None)] + old(waiters)
    {
      var sem := nextSem;
      nextSem := nextSem + 1;
      var i := Search(id);
      if i < |waiters| {
        return None;
      }
      EnlistProper(waiters, sems, Waiter(id, sem, Success, owner, None));
      sems := sems[sem := 0];
      waiters := [Waiter(id, sem, Success, owner, None)] + waiters;
      r := Some(sem);
    }

    /** Destroys the semaphore and unlinks the node. */
    method Remove(id: int) returns (ok: bool)
      requires Valid()
      modifies this
      ensures Valid() && ok == Waits(old(waiters), id)
      ensures waiters == Strike(old(waiters), id) && !Waits(waiters, id)
      ensures sems == if ok then old(sems) - {old(waiters)[Place(old(waiters), id)].sem} else old(sems)
    {
      var i := Search(id);
      ok := i < |waiters|;
      if ok {
        StrikeRemoves(waiters, sems, id);
        sems := sems - {waiters[i].sem};
        waiters := waiters[..i] + waiters[i + 1..];
      }
    }

    /** _iotx_linkkit_upstream_callback_remove: the post goes to a semaphore that is alive. */
    method Tell(m: Message) returns (posted: Option<nat>)
      requires Valid()
      modifies this
      ensures Valid() && waiters == Told(old(waiters), m)
      ensures posted.Some? <==> Waits(old(waiters), m.id)
      ensures posted.Some? ==> posted.value in old(sems) && sems == old(sems)[posted.value := old(sems)[posted.value] + 1]
      ensures posted.Some? ==> posted.value == old(waiters)[Place(old(waiters), m.id)].sem
      ensures posted.None? ==> sems == old(sems)
    {
      ToldProper(waiters, sems, m);
      var i := Search(m.id);
      if i == |waiters| {
        return None;
      }
      var w := waiters[i];
      waiters := waiters[i := w.(code := CodeOf(m.code), cause := Some(m))];
      sems := sems[w.sem := sems[w.sem] + 1];
      posted := Some(w.sem);
    }
  }
}
