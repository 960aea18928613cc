/** What every step keeps on the side of the threads that wait. */
module LifecycleThreads {
  import opened Messages
  import opened Text
  import opened Waiters
  import opened Lifecycle
  import opened LifecycleInvariants

  predicate Enlisted(p: Phase) {
    p.Waiting? || p.Woken?
  }

  /** The request a call is at, or -1. */
  function PhaseId(p: Phase): int {
    if p.Start? then -1 else p.id
  }

  predicate KindOfCall(call: Call, kind: Kind) {
    kind == FirstKind(call) || (call.Connect? && kind.TopoAdd?)
  }

  /** The request whose answer makes the call succeed. */
  function LastKind(call: Call): Kind {
    if call.Connect? then TopoAdd else FirstKind(call)
  }

  /** A waiter belongs to a thread that is waiting for its id on its semaphore. */
  ghost predicate OwnerOk(x: Waiter, threads: map<nat, Thread>) {
    x.owner in threads && Enlisted(threads[x.owner].phase)
    && threads[x.owner].phase.id == x.id && threads[x.owner].phase.sem == x.sem
  }

  /** A message for a waiter that was delivered, and decided its code. */
  ghost predicate Heard(m: Message, id: int, delivered: seq<Message>) {
    m.id == id && Wakes(m.kind) && m in delivered
  }

  /** The code is that of the last message; before any message there is no post. */
  ghost predicate CodeOk(x: Waiter, sems: map<nat, nat>, delivered: seq<Message>) {
    match x.cause
    case None => x.sem in sems && sems[x.sem] == 0
    case Some(m) => Heard(m, x.id, delivered) && x.code == CodeOf(m.code)
  }

  ghost predicate PhaseOk(call: Call, t: nat, p: Phase, ws: seq<Waiter>, w: Wire) {
    match p
    case Start(kind) => KindOfCall(call, kind)
    case Sent(kind, id) =>
      KindOfCall(call, kind) && id in w.requests && w.requests[id] == Request(kind, call.devid) && !Waits(ws, id)
    case Waiting(kind, id, sem) =>
      KindOfCall(call, kind) && id in w.requests && w.requests[id] == Request(kind, call.devid)
      && Waits(ws, id) && ws[Place(ws, id)].owner == t
    case Woken(kind, id, sem) =>
      KindOfCall(call, kind) && id in w.requests && w.requests[id] == Request(kind, call.devid)
      && Waits(ws, id) && ws[Place(ws, id)].owner == t && ws[Place(ws, id)].cause.Some?
    case Done(r, id, last) =>
      !Waits(ws, id) && (id == -1 || id in w.requests)
      && (r.Ok? ==> id in w.requests && w.requests[id] == Request(LastKind(call), call.devid)
                    && last.Some? && Heard(last.value, id, w.delivered) && last.value.code == CODE_SUCCESS)
  }

  ghost predicate Owned(tb: Table) {
    forall i :: 0 <= i < |tb.waiters| ==> OwnerOk(tb.waiters[i], tb.threads)
  }

  ghost predicate Coded(tb: Table, w: Wire) {
    forall i :: 0 <= i < |tb.waiters| ==> CodeOk(tb.waiters[i], tb.sems, w.delivered)
  }

  ghost predicate Phased(tb: Table, w: Wire) {
    forall t :: t in tb.threads ==> PhaseOk(tb.threads[t].call, t, tb.threads[t].phase, tb.waiters, w)
  }

  /** No two calls are at the same request. */
  ghost predicate Apart(tb: Table) {
    forall t, u :: t in tb.threads && u in tb.threads && t != u && PhaseId(tb.threads[t].phase) >= 0 ==>
      PhaseId(tb.threads[t].phase) != PhaseId(tb.threads[u].phase)
  }

  ghost predicate Semaphores(tb: Table) {
    Proper(tb.waiters, tb.sems) && forall s :: s in tb.sems ==> s < tb.nextSem
  }

  ghost predicate TableOk(tb: Table, w: Wire) {
    Semaphores(tb) && Owned(tb) && Coded(tb, w) && Phased(tb, w) && Apart(tb) && Numbered(w)
  }

  ghost predicate StateOk(s: State) {
    WireOk(s.wire) && TableOk(s.table, s.wire)
  }

  // ---------------------------------------------------------------- the wire moves

  lemma {:induction false} WireMoves(tb: Table, w: Wire, u: Wire)
    requires TableOk(tb, w) && Grows(w, u) && Numbered(u)
    ensures TableOk(tb, u)
  {
    hide Place, Proper;
  }

  // ---------------------------------------------------------------- one thread moves

  /** A thread outside the list goes on outside the list. */
  lemma {:induction false} MoveOk(tb: Table, w: Wire, t: nat, p: Phase)
    requires TableOk(tb, w) && t in tb.threads && !Enlisted(tb.threads[t].phase) && !Enlisted(p)
    requires PhaseOk(tb.threads[t].call, t, p, tb.waiters, w)
    requires PhaseId(p) >= 0 ==> forall u :: u in tb.threads && u != t ==> PhaseId(tb.threads[u].phase) != PhaseId(p)
    ensures TableOk(Move(tb, t, p), w)
  {
    hide Place, Proper;
  }

  /** Another thread's phase survives a change of the list that keeps its own id where it is. */
  lemma {:induction false} PhaseStays(call: Call, t: nat, p: Phase, ws: seq<Waiter>, us: seq<Waiter>, w: Wire)
    requires PhaseOk(call, t, p, ws, w)
    requires PhaseId(p) >= 0 ==> Waits(us, PhaseId(p)) == Waits(ws, PhaseId(p))
    requires PhaseId(p) >= 0 && Waits(ws, PhaseId(p)) ==> us[Place(us, PhaseId(p))] == ws[Place(ws, PhaseId(p))]
    requires !p.Start? && PhaseId(p) < 0 ==> !Waits(us, PhaseId(p))
    requires Numbered(w)
    ensures PhaseOk(call, t, p, us, w)
  {
    hide Place;
  }

  // ---------------------------------------------------------------- leaving the list

  lemma {:induction false} LeaveList(tb: Table, w: Wire, t: nat, p: Phase)
    requires TableOk(tb, w) && t in tb.threads && Enlisted(tb.threads[t].phase) && !Enlisted(p)
    requires PhaseId(p) == -1 || PhaseId(p) == tb.threads[t].phase.id
    requires PhaseOk(tb.threads[t].call, t, p, Strike(tb.waiters, tb.threads[t].phase.id), w)
    ensures TableOk(Move(DropWaiter(tb, tb.threads[t].phase.id), t, p), w)
    ensures !Waits(DropWaiter(tb, tb.threads[t].phase.id).waiters, tb.threads[t].phase.id)
  {
    hide Proper, Place, Strike;
    var id, ws := tb.threads[t].phase.id, tb.waiters;
    var us := Strike(ws, id);
    assert PhaseOk(tb.threads[t].call, t, tb.threads[t].phase, ws, w);
    StrikeRemoves(ws, tb.sems, id);
    var v := Move(DropWaiter(tb, id), t, p);
    assert v.waiters == us && v.sems == tb.sems - {ws[Place(ws, id)].sem};
    LeaveOwned(tb, w, t, p);
    forall u | u in v.threads
      ensures PhaseOk(v.threads[u].call, u, v.threads[u].phase, us, w)
    {
      if u != t {
        var q := tb.threads[u].phase;
        assert PhaseOk(tb.threads[u].call, u, q, ws, w);
        assert PhaseId(q) != id;
        if !q.Start? {
          StrikeKeeps(ws, id, PhaseId(q));
        }
        PhaseStays(tb.threads[u].call, u, q, ws, us, w);
      }
    }
  }

  lemma {:induction false} LeaveOne(tb: Table, w: Wire, t: nat, p: Phase, k: nat)
    requires TableOk(tb, w) && t in tb.threads && Enlisted(tb.threads[t].phase)
    requires Waits(tb.waiters, tb.threads[t].phase.id) && k < |tb.waiters| - 1
    ensures var v := Move(DropWaiter(tb, tb.threads[t].phase.id), t, p);
            && |v.waiters| == |tb.waiters| - 1
            && OwnerOk(v.waiters[k], v.threads) && CodeOk(v.waiters[k], v.sems, w.delivered)
  {
    hide Strike, Place, Phased, Apart, OwnerOk, CodeOk, Proper;
    var id, ws := tb.threads[t].phase.id, tb.waiters;
    var i := Place(ws, id);
    var j := if k < i then k else k + 1;
    StrikeAt(ws, id, k);
    WaitersDiffer(ws, tb.sems, i, j);
    assert OwnerOk(ws[j], tb.threads) && CodeOk(ws[j], tb.sems, w.delivered);
    OwnerStays(ws[j], tb.threads, t, tb.threads[t].(phase := p));
    CodeStays(ws[j], tb.sems, ws[i].sem, w.delivered);
  }

  lemma {:induction false} WaitersDiffer(ws: seq<Waiter>, sems: map<nat, nat>, i: nat, j: nat)
    requires Proper(ws, sems) && i < |ws| && j < |ws| && i != j
    ensures ws[i].id != ws[j].id && ws[i].sem != ws[j].sem
  {
  }

  lemma {:induction false} OwnerStays(x: Waiter, threads: map<nat, Thread>, t: nat, th: Thread)
    requires OwnerOk(x, threads) && t in threads && Enlisted(threads[t].phase) && threads[t].phase.id != x.id
    ensures OwnerOk(x, threads[t := th])
  {
  }

  lemma {:induction false} CodeStays(x: Waiter, sems: map<nat, nat>, s: nat, delivered: seq<Message>)
    requires CodeOk(x, sems, delivered) && x.sem != s
    ensures CodeOk(x, sems - {s}, delivered)
  {
  }

  lemma {:induction false} LeaveOwned(tb: Table, w: Wire, t: nat, p: Phase)
    requires TableOk(tb, w) && t in tb.threads && Enlisted(tb.threads[t].phase)
    requires Waits(tb.waiters, tb.threads[t].phase.id)
    ensures var v := Move(DropWaiter(tb, tb.threads[t].phase.id), t, p);
            Owned(v) && Coded(v, w)
  {
    var v := Move(DropWaiter(tb, tb.threads[t].phase.id), t, p);
    assert |v.waiters| == |tb.waiters| - 1;
    forall k | 0 <= k < |v.waiters|
      ensures OwnerOk(v.waiters[k], v.threads) && CodeOk(v.waiters[k], v.sems, w.delivered)
    {
      LeaveOne(tb, w, t, p, k);
    }
    hide Strike, Place, TableOk, OwnerOk, CodeOk;
  }

  // ---------------------------------------------------------------- entering the list

  lemma {:induction false} EnlistPlaces(ws: seq<Waiter>, x: Waiter, id: int)
    requires !Waits(ws, x.id)
    ensures Enlist(ws, x) == [x] + ws && Waits(Enlist(ws, x), id) == (id == x.id || Waits(ws, id))
    ensures id != x.id && Waits(ws, id) ==> Enlist(ws, x)[Place(Enlist(ws, x), id)] == ws[Place(ws, id)]
    ensures id == x.id ==> Place(Enlist(ws, x), id) == 0
  {
    assert ([x] + ws)[1..] == ws;
  }

  /** A request that was just sent is never in the list yet, so that its waiter is always taken. */
  lemma {:induction false} NeverDuplicate(tb: Table, w: Wire, t: nat)
    requires TableOk(tb, w) && t in tb.threads && tb.threads[t].phase.Sent?
    ensures !Waits(tb.waiters, tb.threads[t].phase.id)
    ensures AddWaiter(tb, t, true).threads[t].phase.Waiting?
  {
    assert PhaseOk(tb.threads[t].call, t, tb.threads[t].phase, tb.waiters, w);
  }

  lemma {:induction false} EnlistOk(tb: Table, w: Wire, t: nat)
    requires TableOk(tb, w) && t in tb.threads && tb.threads[t].phase.Sent?
    ensures TableOk(AddWaiter(tb, t, true), w)
  {
    hide Place, Proper, Enlist;
    var id, ws := tb.threads[t].phase.id, tb.waiters;
    NeverDuplicate(tb, w, t);
    assert PhaseOk(tb.threads[t].call, t, tb.threads[t].phase, ws, w);
    var x := Waiter(id, tb.nextSem, Success, t, None);
    EnlistProper(ws, tb.sems, x);
    EnlistPlaces(ws, x, id);
    var v := AddWaiter(tb, t, true);
    EnlistOwned(tb, w, t);
    forall u | u in v.threads
      ensures PhaseOk(v.threads[u].call, u, v.threads[u].phase, v.waiters, w)
    {
      if u != t {
        var q := tb.threads[u].phase;
        assert PhaseOk(tb.threads[u].call, u, q, ws, w);
        assert PhaseId(q) != id;
        if !q.Start? {
          EnlistPlaces(ws, x, PhaseId(q));
        }
        PhaseStays(tb.threads[u].call, u, q, ws, v.waiters, w);
      }
    }
  }

  lemma {:induction false} EnlistOwned(tb: Table, w: Wire, t: nat)
    requires TableOk(tb, w) && t in tb.threads && tb.threads[t].phase.Sent? && !Waits(tb.waiters, tb.threads[t].phase.id)
    ensures Owned(AddWaiter(tb, t, true)) && Coded(AddWaiter(tb, t, true), w)
  {
    var ws := tb.waiters;
    var v := AddWaiter(tb, t, true);
    forall k | 0 <= k < |v.waiters|
      ensures OwnerOk(v.waiters[k], v.threads) && CodeOk(v.waiters[k], v.sems, w.delivered)
    {
      if k > 0 {
        assert v.waiters[k] == ws[k - 1];
        assert OwnerOk(ws[k - 1], tb.threads) && CodeOk(ws[k - 1], tb.sems, w.delivered);
        assert ws[k - 1].sem in tb.sems;
      }
    }
  }

  // ---------------------------------------------------------------- a message arrives

  lemma {:induction false} ToldPlaces(ws: seq<Waiter>, m: Message, id: int)
    ensures Place(Told(ws, m), id) == Place(ws, id)
  {
    var us, i := Told(ws, m), Place(ws, id);
    assert |us| == |ws| && forall k :: 0 <= k < |ws| ==> us[k].id == ws[k].id;
    var j := Place(us, id);
    assert j < |ws| ==> us[j].id == id;
    assert i < |ws| ==> us[i].id == id;
  }

  /** The post goes to a semaphore that is alive: that of the waiter with the id. */
  lemma {:induction false} PostsToTheLiving(tb: Table, w: Wire, m: Message)
    requires TableOk(tb, w) && Waits(tb.waiters, m.id)
    ensures tb.waiters[Place(tb.waiters, m.id)].sem in tb.sems
  {
  }

  lemma {:induction false} NotifyOk(tb: Table, w: Wire, m: Message)
    requires TableOk(tb, w) && Wakes(m.kind) && m in w.delivered
    ensures TableOk(Notify(tb, m), w)
  {
    hide Place, Proper, Told;
    var ws := tb.waiters;
    if Waits(ws, m.id) {
      PostsToTheLiving(tb, w, m);
      ToldProper(ws, tb.sems, m);
      var v := Notify(tb, m);
      NotifyOwned(tb, w, m);
      forall u | u in v.threads
        ensures PhaseOk(v.threads[u].call, u, v.threads[u].phase, v.waiters, w)
      {
        PhaseTold(tb.threads[u].call, u, tb.threads[u].phase, ws, w, m);
      }
    }
  }

  lemma {:induction false} PhaseTold(call: Call, u: nat, q: Phase, ws: seq<Waiter>, w: Wire, m: Message)
    requires PhaseOk(call, u, q, ws, w)
    ensures PhaseOk(call, u, q, Told(ws, m), w)
  {
    hide Place, Told;
    if !q.Start? {
      ToldPlaces(ws, m, PhaseId(q));
      ToldAt(ws, m, PhaseId(q));
    }
  }

  lemma {:induction false} ToldAt(ws: seq<Waiter>, m: Message, id: int)
    ensures |Told(ws, m)| == |ws|
    ensures Waits(ws, id) ==>
              var x, y := ws[Place(ws, id)], Told(ws, m)[Place(ws, id)];
              y == if id == m.id then x.(code := CodeOf(m.code), cause := Some(m)) else x
  {
  }

  lemma {:induction false} NotifyOwned(tb: Table, w: Wire, m: Message)
    requires TableOk(tb, w) && Wakes(m.kind) && m in w.delivered && Waits(tb.waiters, m.id)
    ensures Owned(Notify(tb, m)) && Coded(Notify(tb, m), w)
  {
    var ws, i := tb.waiters, Place(tb.waiters, m.id);
    var v := Notify(tb, m);
    forall k | 0 <= k < |v.waiters|
      ensures OwnerOk(v.waiters[k], v.threads) && CodeOk(v.waiters[k], v.sems, w.delivered)
    {
      assert OwnerOk(ws[k], tb.threads) && CodeOk(ws[k], tb.sems, w.delivered);
      assert k != i ==> v.waiters[k] == ws[k] && ws[k].sem != ws[i].sem;
    }
  }

  // ---------------------------------------------------------------- waking up

  lemma {:induction false} WakeOk(tb: Table, w: Wire, t: nat)
    requires TableOk(tb, w) && t in tb.threads && tb.threads[t].phase.Waiting?
    requires var sem := tb.threads[t].phase.sem; sem in tb.sems && tb.sems[sem] > 0
    ensures var Waiting(kind, id, sem) := tb.threads[t].phase;
            TableOk(Move(tb.(sems := tb.sems[sem := tb.sems[sem] - 1]), t, Woken(kind, id, sem)), w)
  {
    hide Place;
    var Waiting(kind, id, sem) := tb.threads[t].phase;
    var ws, i := tb.waiters, Place(tb.waiters, id);
    assert PhaseOk(tb.threads[t].call, t, tb.threads[t].phase, ws, w);
    PlaceHas(ws, id);
    assert OwnerOk(ws[i], tb.threads) && CodeOk(ws[i], tb.sems, w.delivered);
    assert ws[i].sem == sem && ws[i].cause.Some?;
    var sems := tb.sems[sem := tb.sems[sem] - 1];
    SameCount(tb.sems, sem, tb.sems[sem] - 1);
    var v := Move(tb.(sems := sems), t, Woken(kind, id, sem));
    assert Coded(v, w) by {
      forall k | 0 <= k < |ws|
        ensures CodeOk(ws[k], sems, w.delivered)
      {
        assert CodeOk(ws[k], tb.sems, w.delivered);
        assert k != i ==> ws[k].sem != sem;
      }
    }
  }

  lemma {:induction false} PlaceHas(ws: seq<Waiter>, id: int)
    ensures Waits(ws, id) ==> Place(ws, id) < |ws| && ws[Place(ws, id)].id == id
  {
  }

  lemma {:induction false} SameCount(sems: map<nat, nat>, s: nat, n: nat)
    requires s in sems
    ensures |sems[s := n]| == |sems|
  {
    assert sems[s := n].Keys == sems.Keys;
    assert |sems[s := n].Keys| == |sems[s := n]| && |sems.Keys| == |sems|;
  }

  // ---------------------------------------------------------------- every step, every run

  lemma {:induction false} WireStep(s: State, u: Wire)
    requires StateOk(s) && WireOk(u) && Grows(s.wire, u)
    ensures StateOk(State(u, s.table))
  {
    hide Semaphores, Owned, Coded, Phased, Apart, CacheOk, Settled, Conserved, Counted, AllExplained, DevicesOk;
    WireMoves(s.table, s.wire, u);
  }

  /** A call that has sent nothing yet disturbs no other. */
  lemma {:induction false} NewThread(tb: Table, w: Wire, t: nat, call: Call, p: Phase)
    requires TableOk(tb, w) && t !in tb.threads && PhaseId(p) == -1 && PhaseOk(call, t, p, tb.waiters, w)
    ensures TableOk(tb.(threads := tb.threads[t := Thread(call, p)]), w)
  {
    hide Place, Proper;
    assert forall i :: 0 <= i < |tb.waiters| ==> OwnerOk(tb.waiters[i], tb.threads);
  }

  lemma {:induction false} BeginOk(s: State, t: nat, call: Call)
    requires StateOk(s)
    ensures StateOk(Next(s, BeginStep(t, call))) && Next(s, BeginStep(t, call)).wire == s.wire
  {
    NoWaiterBelowZero(s.table, s.wire);
    hide Place, Proper, WireOk, Numbered, Owned, Coded, Phased, Apart, Semaphores, TableOk;
    if !At(s.table, t) {
      var refused := (call.Connect? || call.DeleteTopo?) && call.devid <= 0;
      NewThread(s.table, s.wire, t, call, if refused then Done(BadDevice, -1, None) else Start(FirstKind(call)));
    }
  }

  /** Whoever is waited for was asked. */
  lemma {:induction false} WaiterKnown(tb: Table, w: Wire, id: int)
    requires TableOk(tb, w) && Waits(tb.waiters, id)
    ensures 0 <= id < w.nextId
    ensures exists t :: t in tb.threads && PhaseId(tb.threads[t].phase) == id
  {
    var x := tb.waiters[Place(tb.waiters, id)];
    assert OwnerOk(x, tb.threads);
    assert PhaseOk(tb.threads[x.owner].call, x.owner, tb.threads[x.owner].phase, tb.waiters, w);
  }

  lemma {:induction false} NoWaiterBelowZero(tb: Table, w: Wire)
    requires TableOk(tb, w)
    ensures !Waits(tb.waiters, -1)
  {
    if Waits(tb.waiters, -1) {
      WaiterKnown(tb, w, -1);
    }
  }

  lemma {:induction false} SendNextOk(s: State, t: nat, now: nat, sent: bool)
    requires StateOk(s) && t in s.table.threads && s.table.threads[t].phase.Start?
    ensures StateOk(SendNext(s, t, now, sent)) && Grows(s.wire, SendNext(s, t, now, sent).wire)
  {
    hide Send, Place;
    var tb, th := s.table, s.table.threads[t];
    assert PhaseOk(th.call, t, th.phase, tb.waiters, s.wire);
    NoWaiterBelowZero(tb, s.wire);
    if th.call.devid in s.wire.status && (th.phase.kind.Logout? ==> s.wire.status[th.call.devid].Logined?) {
      var id, u := s.wire.nextId, Send(s.wire, th.phase.kind, th.call.devid, now, sent);
      SendOk(s.wire, th.phase.kind, th.call.devid, now, sent);
      SendRecords(s.wire, th.phase.kind, th.call.devid, now, sent);
      WireStep(s, u);
      FreshId(tb, s.wire, u);
      hide WireOk, Semaphores, Owned, Coded, Phased, Apart;
      MoveOk(tb, u, t, SendNext(s, t, now, sent).table.threads[t].phase);
    } else {
      SameGrows(s.wire);
      MoveOk(tb, s.wire, t, SendNext(s, t, now, sent).table.threads[t].phase);
    }
  }

  lemma {:induction false} SendRecords(w: Wire, kind: Kind, devid: int, now: nat, sent: bool)
    ensures Send(w, kind, devid, now, sent).requests == w.requests[w.nextId := Request(kind, devid)]
  {
  }

  lemma {:induction false} FreshId(tb: Table, w: Wire, u: Wire)
    requires TableOk(tb, w)
    ensures !Waits(tb.waiters, w.nextId)
    ensures forall t :: t in tb.threads ==> PhaseId(tb.threads[t].phase) != w.nextId
  {
    forall t | t in tb.threads
      ensures PhaseId(tb.threads[t].phase) != w.nextId
    {
      assert PhaseOk(tb.threads[t].call, t, tb.threads[t].phase, tb.waiters, w);
    }
    if Waits(tb.waiters, w.nextId) {
      WaiterKnown(tb, w, w.nextId);
    }
  }

  lemma {:induction false} DeliverOk(s: State)
    requires StateOk(s)
    ensures StateOk(Deliver(s)) && Grows(s.wire, Deliver(s).wire)
  {
    if s.wire.queue != [] {
      var m, u := s.wire.queue[0], Take(s.wire);
      TakeOk(s.wire);
      WireStep(s, u);
      if Wakes(m.kind) {
        assert u.delivered[|s.wire.delivered|] == m;
        NotifyOk(s.table, u, m);
      }
    }
  }

  lemma {:induction false} EnlistStepOk(s: State, t: nat, made: bool)
    requires StateOk(s) && t in s.table.threads && s.table.threads[t].phase.Sent?
    ensures StateOk(State(s.wire, AddWaiter(s.table, t, made)))
  {
    if made {
      EnlistOk(s.table, s.wire, t);
    } else {
      var th := s.table.threads[t];
      assert PhaseOk(th.call, t, th.phase, s.table.waiters, s.wire);
      MoveOk(s.table, s.wire, t, Done(NoSemaphore, th.phase.id, None));
    }
  }

  lemma {:induction false} ExpireStepOk(s: State, t: nat)
    requires StateOk(s) && t in s.table.threads && s.table.threads[t].phase.Waiting?
    ensures StateOk(Next(s, ExpireStep(t)))
  {
    hide Proper, Place, Strike, WireOk;
    var th, ws := s.table.threads[t], s.table.waiters;
    assert PhaseOk(th.call, t, th.phase, ws, s.wire);
    StrikeRemoves(ws, s.table.sems, th.phase.id);
    LeaveList(s.table, s.wire, t, Done(WaitFailed, th.phase.id, None));
  }

  lemma {:induction false} FinishOk(s: State, t: nat)
    requires StateOk(s) && t in s.table.threads && s.table.threads[t].phase.Woken?
    ensures Waits(s.table.waiters, s.table.threads[t].phase.id)
    ensures StateOk(State(s.wire, ReadAndLeave(s.table, t)))
  {
    hide Proper, Strike, WireOk;
    var th, ws := s.table.threads[t], s.table.waiters;
    var id := th.phase.id;
    assert PhaseOk(th.call, t, th.phase, ws, s.wire);
    var x := ws[Place(ws, id)];
    assert CodeOk(x, s.table.sems, s.wire.delivered);
    StrikeRemoves(ws, s.table.sems, id);
    LeaveList(s.table, s.wire, t, ReadAndLeave(s.table, t).threads[t].phase);
  }

  lemma {:induction false} RegisteredOk(s: State, t: nat)
    requires StateOk(s) && t in s.table.threads && s.table.threads[t].phase.Start? && s.table.threads[t].call.Connect?
    ensures StateOk(State(s.wire, Move(s.table, t, Start(TopoAdd))))
  {
    MoveOk(s.table, s.wire, t, Start(TopoAdd));
  }

  lemma {:induction false} StepOk(s: State, step: Step)
    requires StateOk(s)
    ensures StateOk(Next(s, step)) && Grows(s.wire, Next(s, step).wire)
  {
    hide TableOk, WireOk, Send, FindReply, TellUser, Leave, Item, ItemsDone, TickWire, Deliver, AddWaiter, DropWaiter, ReadAndLeave,
         CreateDevice, DestroyDevice, SendNext, Move, Place;
    assert WireOk(s.wire) && TableOk(s.table, s.wire);
    SameGrows(s.wire);
    var u := Next(s, step).wire;
    match step {
      case BeginStep(t, call) => BeginOk(s, t, call);
      case RegisteredStep(t) =>
        if Next(s, step) != s {
          RegisteredOk(s, t);
        }
      case SendStep(t, now, sent) =>
        if Next(s, step) != s {
          SendNextOk(s, t, now, sent);
        }
      case ReportStep(kind, devid, now, sent) =>
        if Gated(kind) && !Attaches(kind) && devid in s.wire.status {
          SendOk(s.wire, kind, devid, now, sent);
          WireStep(s, u);
        }
      case FindStep(kind, id, code) =>
        if Gated(kind) && s.wire.handling.Idle? {
          FindOk(s.wire, kind, id, code);
          WireStep(s, u);
        }
      case TellStep =>
        TellOk(s.wire);
        WireStep(s, u);
      case LeaveStep =>
        LeaveOk(s.wire);
        WireStep(s, u);
      case ItemStep(kind, id, code, itemCode, devid) =>
        if s.wire.handling.Idle? {
          ItemOk(s.wire, kind, id, code, itemCode, devid);
          WireStep(s, u);
        }
      case ItemsDoneStep(id) =>
        if s.wire.handling.Idle? {
          ItemsDoneOk(s.wire, id);
          WireStep(s, u);
        }
      case TickStep(now) =>
        TickOk(s.wire, now);
        WireStep(s, u);
      case DispatchStep => DeliverOk(s);
      case EnlistStep(t, made) =>
        if At(s.table, t) && s.table.threads[t].phase.Sent? {
          EnlistStepOk(s, t, made);
        }
      case ExpireStep(t) =>
        if At(s.table, t) && s.table.threads[t].phase.Waiting? {
          ExpireStepOk(s, t);
        }
      case WakeStep(t) =>
        if Next(s, step) != s {
          WakeOk(s.table, s.wire, t);
        }
      case FinishStep(t) =>
        if At(s.table, t) && s.table.threads[t].phase.Woken? {
          FinishOk(s, t);
        }
      case CreateStep =>
        CreateOk(s.wire);
        WireStep(s, u);
      case DestroyStep(devid) =>
        DestroyOk(s.wire, devid);
        WireStep(s, u);
    }
  }
}
