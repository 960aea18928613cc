/** Which reply does what, kind by kind: the switch of the event callback, the calls, and the handlers of replies. */
module LifecycleKinds {
  import opened Messages
  import opened Text
  import opened MessageCache
  import opened MessageQueue
  import opened Waiters
  import opened Lifecycle
  import opened LifecycleInvariants
  import opened LifecycleThreads
  import opened LifecycleLaws
  import opened LifecycleReplies

  // ---------------------------------------------------------------- the event callback

  /** The head of the queue is the answer to the request that the listed thread waits for. */
  ghost predicate Answered(s: State, t: nat) {
    && t in s.table.threads && s.table.threads[t].phase.Waiting? && s.wire.queue != []
    && s.wire.queue[0].id == s.table.threads[t].phase.id && s.wire.queue[0].kind == s.table.threads[t].phase.kind
  }

  /** What a thread waits for: connecting a registration or the topology, and every other call the reply of its own kind. */
  lemma {:induction false} WaitsForItsOwn(s: State, t: nat)
    requires StateOk(s) && t in s.table.threads && s.table.threads[t].phase.Waiting?
    ensures match s.table.threads[t].call
            case Connect(_, false) => s.table.threads[t].phase.kind in {Register, TopoAdd}
            case Connect(_, true) => s.table.threads[t].phase.kind in {ProxyRegister, TopoAdd}
            case DeleteTopo(_) => s.table.threads[t].phase.kind == TopoDelete
            case LoginCall(_) => s.table.threads[t].phase.kind == Login
            case LogoutCall(_) => s.table.threads[t].phase.kind == Logout
  {
    hide WireOk;
    assert PhaseOk(s.table.threads[t].call, t, s.table.threads[t].phase, s.table.waiters, s.wire);
  }

  /** Whatever the kind of the request, its answer posts the semaphore of the thread once and sets its code. */
  lemma {:induction false} AnswerWakes(s: State, t: nat)
    requires StateOk(s) && Answered(s, t)
    ensures var u, p := Next(s, DispatchStep), s.table.threads[t].phase;
            && StateOk(u) && u.table.threads == s.table.threads && u.wire.queue == s.wire.queue[1..]
            && p.sem in s.table.sems && u.table.sems == s.table.sems[p.sem := s.table.sems[p.sem] + 1]
            && Waits(u.table.waiters, p.id)
            && u.table.waiters[Place(u.table.waiters, p.id)].code == if s.wire.queue[0].code == 200 then Success else Refused
  {
    hide StateOk, Place, Told;
    var m := s.wire.queue[0];
    StepOk(s, DispatchStep);
    WaitingPlace(s, t);
    WaitsForItsOwn(s, t);
    ToldPlaces(s.table.waiters, m, m.id);
    ToldAt(s.table.waiters, m, m.id);
  }

  /** Then the thread wakes up and reads the code: refused, on to the topology, or done. */
  lemma {:induction false} WakesAndGoesOn(s: State, t: nat)
    requires StateOk(s) && Answered(s, t)
    ensures var th, code := s.table.threads[t], s.wire.queue[0].code;
            var u := Next(Next(Next(s, DispatchStep), WakeStep(t)), FinishStep(t));
            && t in u.table.threads && u.table.threads[t].call == th.call
            && var p := u.table.threads[t].phase;
               if code != 200 then p.Done? && p.result == RefusedByCloud && p.id == th.phase.id
               else if th.phase.kind.Register? || th.phase.kind.ProxyRegister? then p == Start(TopoAdd)
               else p.Done? && p.result == Ok && p.id == th.phase.id
  {
    AnswerWakes(s, t);
    WaitsForItsOwn(s, t);
    WokenGoesOn(Next(s, DispatchStep), t);
  }

  /** The same from the post on. */
  lemma {:induction false} WokenGoesOn(s: State, t: nat)
    requires StateOk(s) && t in s.table.threads && s.table.threads[t].phase.Waiting?
    requires var p := s.table.threads[t].phase;
             p.sem in s.table.sems && s.table.sems[p.sem] > 0 && Waits(s.table.waiters, p.id)
    ensures var th := s.table.threads[t];
            var u := Next(Next(s, WakeStep(t)), FinishStep(t));
            && t in u.table.threads && u.table.threads[t].call == th.call
            && var p := u.table.threads[t].phase;
               if s.table.waiters[Place(s.table.waiters, th.phase.id)].code == Refused then
                 p.Done? && p.result == RefusedByCloud && p.id == th.phase.id
               else if th.phase.kind.Register? || th.phase.kind.ProxyRegister? then p == Start(TopoAdd)
               else p.Done? && p.result == Ok && p.id == th.phase.id
  {
    WaitsForItsOwn(s, t);
    hide StateOk, Place, Strike;
  }

  /** Messages of the other kinds reach no thread. */
  lemma {:induction false} OthersWakeNobody(s: State)
    requires s.wire.queue != [] && s.wire.queue[0].kind in {PropertyPost, EventPost, Unregister}
    ensures Next(s, DispatchStep).table == s.table
  {
  }

  // ---------------------------------------------------------------- the calls

  /** How a call begins: a device id that is not positive is refused where the interface looks at it. */
  lemma {:induction false} CallBegins(s: State, t: nat, call: Call)
    requires t !in s.table.threads
    ensures var u := Next(s, BeginStep(t, call));
            && u.wire == s.wire && t in u.table.threads && u.table.threads[t].call == call
            && var p := u.table.threads[t].phase;
               match call
               case Connect(d, proxy) =>
                 if d <= 0 then p.Done? && p.result == BadDevice else p == Start(if proxy then ProxyRegister else Register)
               case DeleteTopo(d) => if d <= 0 then p.Done? && p.result == BadDevice else p == Start(TopoDelete)
               case LoginCall(_) => p == Start(Login)
               case LogoutCall(_) => p == Start(Logout)
  {
  }

  // ---------------------------------------------------------------- the handlers

  /** A reply to register, proxy register, login or logout is handled without a look into the cache: with the success code it
      sets the status of the device it names, and its message is queued if there is room. */
  lemma {:induction false} OpenReplies(s: State, kind: Kind, id: int, code: int, itemCode: int, devid: int)
    requires kind in {Register, ProxyRegister, Login, Logout} && s.wire.handling.Idle? && devid in s.wire.status
    ensures var u := Next(s, ItemStep(kind, id, code, itemCode, devid));
            var m := Message(kind, id, if kind == ProxyRegister then itemCode else code, devid, FromItem);
            && u.table == s.table && u.wire.cache == s.wire.cache && u.wire.handling.Idle?
            && u.wire.status == (if code != 200 then s.wire.status
                                 else if kind == Login then s.wire.status[devid := Logined]
                                 else if kind == Logout then s.wire.status[devid := Attached]
                                 else s.wire.status[devid := Registered])
            && u.wire.queue == if |s.wire.queue| < 50 then s.wire.queue + [m] else s.wire.queue
  {
  }

  /** A reply of another kind is looked up; only if its id is pending it is handled, and a topology reply with the success
      code then sets the device of the request ATTACHED. */
  lemma {:induction false} GatedReplies(s: State, kind: Kind, id: int, code: int)
    requires StateOk(s) && kind in {PropertyPost, EventPost, Unregister, TopoAdd, TopoDelete} && s.wire.handling.Idle?
    ensures var u := Next(s, FindStep(kind, id, code));
            var v := Next(u, TellStep);
            && u.table == v.table == s.table && u.wire.queue == s.wire.queue && v.wire.cache == s.wire.cache
            && (id !in Ids(s.wire.cache.entries) ==> v == u && u.wire.status == s.wire.status)
            && (id in Ids(s.wire.cache.entries) ==>
                  && id in s.wire.requests
                  && var devid := s.wire.requests[id].devid;
                     var attach := (kind == TopoAdd || kind == TopoDelete) && code == 200 && devid in s.wire.status;
                     && v.wire.status == (if attach then s.wire.status[devid := Attached] else s.wire.status)
                     && (|s.wire.queue| < 50 ==>
                           v.wire.queue == s.wire.queue + [Message(kind, id, code, devid, FromAnswer(attach))])
                     && (|s.wire.queue| >= 50 ==> v.wire.queue == s.wire.queue))
  {
    LookedUp(s, kind, id, code);
    hide StateOk, Next, Ids;
    var u := Next(s, FindStep(kind, id, code));
    if id in Ids(s.wire.cache.entries) {
      HandsOver(u, kind, id, code, s.wire.requests[id].devid);
    } else {
      HandsNothing(u);
    }
  }

  /** A reply that was found is handled. */
  lemma {:induction false} HandsOver(s: State, kind: Kind, id: int, code: int, devid: int)
    requires s.wire.handling == Found(kind, id, code, devid)
    ensures var v := Next(s, TellStep);
            var attach := (kind == TopoAdd || kind == TopoDelete) && code == 200 && devid in s.wire.status;
            && v.table == s.table && v.wire.cache == s.wire.cache
            && v.wire.status == (if attach then s.wire.status[devid := Attached] else s.wire.status)
            && v.wire.queue == if |s.wire.queue| < 50 then s.wire.queue + [Message(kind, id, code, devid, FromAnswer(attach))]
                               else s.wire.queue
  {
  }

  lemma {:induction false} HandsNothing(s: State)
    requires s.wire.handling.Leaving?
    ensures Next(s, TellStep) == s
  {
  }

  lemma {:induction false} LookedUp(s: State, kind: Kind, id: int, code: int)
    requires StateOk(s) && Gated(kind) && s.wire.handling.Idle?
    ensures Next(s, FindStep(kind, id, code)).table == s.table
    ensures var w := Next(s, FindStep(kind, id, code)).wire;
            if id in Ids(s.wire.cache.entries) then
              id in s.wire.requests && w == s.wire.(handling := Found(kind, id, code, s.wire.requests[id].devid))
            else w == s.wire.(handling := Leaving(id))
  {
    hide TableOk, DistinctIds, Position, Conserved, Counted, AllExplained, DevicesOk, LoginOk, InHand, Ended, Ids, Holds, Find;
    HoldsIs(s.wire.cache.entries, id);
    FoundIsPending(s.wire.cache, id);
    if id in Ids(s.wire.cache.entries) {
      assert Asked(Find(s.wire.cache, id).value, s.wire.requests);
    }
  }

  lemma {:induction false} FoundIsPending(c: Cache, id: int)
    ensures Find(c, id).Some? ==> Find(c, id).value in c.entries && Find(c, id).value.id == id
    ensures Find(c, id).Some? <==> id >= 0 && Holds(c.entries, id)
  {
  }

  // ---------------------------------------------------------------- from the reply to the end of the call

  /** The steps of a reply of the kind with the success code, up to its message. */
  function ReplySteps(kind: Kind, id: int, devid: int): seq<Step> {
    if kind == TopoAdd || kind == TopoDelete then [FindStep(kind, id, 200)] + [TellStep]
    else [ItemStep(kind, id, 200, 200, devid)]
  }

  lemma {:induction false} RunOne(s: State, a: Step)
    ensures Run(s, [a]) == Next(s, a)
  {
    RunNothing(s);
    RunThen(s, [], a);
    assert [] + [a] == [a];
  }

  /** The reply is queued behind what is queued already. */
  lemma {:induction false} ReplyIsQueued(s: State, t: nat)
    requires StateOk(s) && t in s.table.threads && s.table.threads[t].phase.Waiting?
    requires s.table.threads[t].call.devid in s.wire.status && s.wire.handling.Idle? && |s.wire.queue| < 50
    requires s.table.threads[t].phase.kind in {TopoAdd, TopoDelete} ==>
               s.table.threads[t].phase.id in Ids(s.wire.cache.entries)
    ensures var th := s.table.threads[t];
            var u := Run(s, ReplySteps(th.phase.kind, th.phase.id, th.call.devid));
            && StateOk(u) && u.table == s.table && |u.wire.queue| == |s.wire.queue| + 1
            && u.wire.queue[..|s.wire.queue|] == s.wire.queue
            && var m := u.wire.queue[|s.wire.queue|]; m.kind == th.phase.kind && m.id == th.phase.id && m.code == 200
  {
    WaitsForItsOwn(s, t);
    hide StateOk, Next, Run, Ids;
    var th := s.table.threads[t];
    var kind, id, d := th.phase.kind, th.phase.id, th.call.devid;
    if kind == TopoAdd || kind == TopoDelete {
      var a := FindStep(kind, id, 200);
      RunOne(s, a);
      RunThen(s, [a], TellStep);
      StepOk(s, a);
      StepOk(Next(s, a), TellStep);
      GatedReplies(s, kind, id, 200);
    } else {
      var a := ItemStep(kind, id, 200, 200, d);
      RunOne(s, a);
      StepOk(s, a);
      OpenReplies(s, kind, id, 200, 200, d);
    }
  }

  /** For each of the six kinds: once its own reply with the success code is handled, everything queued is dispatched and the
      thread wakes up, a call goes on from its registration to the topology, and ends well in every other case. */
  lemma {:induction false} OwnReplyArrives(s: State, t: nat)
    requires StateOk(s) && t in s.table.threads && s.table.threads[t].phase.Waiting?
    requires s.table.threads[t].call.devid in s.wire.status && s.wire.handling.Idle? && |s.wire.queue| < 50
    requires s.table.threads[t].phase.kind in {TopoAdd, TopoDelete} ==>
               s.table.threads[t].phase.id in Ids(s.wire.cache.entries)
    ensures var th := s.table.threads[t];
            var u := Run(s, ReplySteps(th.phase.kind, th.phase.id, th.call.devid) + Dispatches(|s.wire.queue| + 1)
                            + [WakeStep(t)] + [FinishStep(t)]);
            && t in u.table.threads && u.table.threads[t].call == th.call
            && var p := u.table.threads[t].phase;
               match th.phase.kind
               case Register => p == Start(TopoAdd)
               case ProxyRegister => p == Start(TopoAdd)
               case _ => p.Done? && p.result == Ok && p.id == th.phase.id
  {
    WaitsForItsOwn(s, t);
    hide StateOk, Next, Run, Ids, Dispatches, ReplySteps, Answered;
    var th, k := s.table.threads[t], |s.wire.queue|;
    var steps := ReplySteps(th.phase.kind, th.phase.id, th.call.devid);
    ReplyIsNext(s, t);
    DispatchesMore(Run(s, steps), k);
    RunTail(s, steps, Dispatches(k + 1), WakeStep(t), FinishStep(t));
    WakesAndGoesOn(Run(Run(s, steps), Dispatches(k)), t);
  }

  lemma {:induction false} ReplyIsNext(s: State, t: nat)
    requires StateOk(s) && t in s.table.threads && s.table.threads[t].phase.Waiting?
    requires s.table.threads[t].call.devid in s.wire.status && s.wire.handling.Idle? && |s.wire.queue| < 50
    requires s.table.threads[t].phase.kind in {TopoAdd, TopoDelete} ==>
               s.table.threads[t].phase.id in Ids(s.wire.cache.entries)
    ensures var th := s.table.threads[t];
            var u := Run(Run(s, ReplySteps(th.phase.kind, th.phase.id, th.call.devid)), Dispatches(|s.wire.queue|));
            StateOk(u) && Answered(u, t) && u.table.threads == s.table.threads && u.wire.queue[0].code == 200
  {
    hide StateOk, Next, Run, Ids, Dispatches, ReplySteps;
    var th, k := s.table.threads[t], |s.wire.queue|;
    ReplyIsQueued(s, t);
    var s1 := Run(s, ReplySteps(th.phase.kind, th.phase.id, th.call.devid));
    Drained(s1, k);
    assert Run(s1, Dispatches(k)).wire.queue == [s1.wire.queue[k]];
  }

  lemma {:induction false} DispatchesMore(s: State, k: nat)
    ensures Run(s, Dispatches(k + 1)) == Next(Run(s, Dispatches(k)), DispatchStep)
  {
    assert Dispatches(k + 1) == Dispatches(k) + [DispatchStep];
    RunThen(s, Dispatches(k), DispatchStep);
  }

  lemma {:induction false} RunTail(s: State, a: seq<Step>, b: seq<Step>, x: Step, y: Step)
    ensures Run(s, a + b + [x] + [y]) == Next(Next(Run(Run(s, a), b), x), y)
  {
    hide Run, Next;
    RunOn(s, a, b);
    RunThen(s, a + b, x);
    RunThen(s, a + b + [x], y);
  }
}
