/** What holds in every reachable state and over every run. */
module LifecycleLaws {
  import opened Messages
  import opened Text
  import opened MessageCache
  import opened MessageQueue
  import opened Waiters
  import opened Lifecycle
  import opened LifecycleInvariants
  import opened LifecycleThreads

  lemma {:induction false} RunOk(s: State, steps: seq<Step>)
    requires StateOk(s)
    ensures StateOk(Run(s, steps)) && Grows(s.wire, Run(s, steps).wire)
  {
    if steps == [] {
      SameGrows(s.wire);
    } else {
      var n := |steps| - 1;
      RunOk(s, steps[..n]);
      StepOk(Run(s, steps[..n]), steps[n]);
      hide StateOk, Next;
      GrowsOn(s.wire, Run(s, steps[..n]).wire, Run(s, steps).wire);
    }
  }

  lemma {:induction false} StartStateOk()
    ensures StateOk(START)
  {
    StartOk();
  }

  /** Every state a run reaches from the start. */
  ghost predicate Reachable(s: State) {
    exists steps :: s == Run(START, steps)
  }

  lemma {:induction false} ReachableOk(s: State)
    requires Reachable(s)
    ensures StateOk(s)
  {
    var steps :| s == Run(START, steps);
    StartStateOk();
    RunOk(START, steps);
  }

  // ---------------------------------------------------------------- connect

  ghost predicate Succeeded(s: State, t: nat) {
    t in s.table.threads && s.table.threads[t].phase.Done? && s.table.threads[t].phase.result.Ok?
  }

  /** No call succeeds unless a reply with the success code and the id of its last request was handled and delivered; a
      timeout never makes it succeed. */
  lemma {:induction false} SuccessAnswered(s: State, t: nat)
    requires Reachable(s) && Succeeded(s, t)
    ensures var w, th := s.wire, s.table.threads[t];
            && th.phase.id in w.requests && w.requests[th.phase.id] == Request(LastKind(th.call), th.call.devid)
            && th.phase.last.Some? && th.phase.last.value in w.delivered && th.phase.last.value.id == th.phase.id
            && th.phase.last.value.kind in {TopoAdd, TopoDelete, Register, ProxyRegister, Login, Logout} && !th.phase.last.value.origin.FromExpiry?
            && Reply(th.phase.last.value.kind, th.phase.id, 200) in w.replies
  {
    ReachableOk(s);
    var w, th := s.wire, s.table.threads[t];
    assert PhaseOk(th.call, t, th.phase, s.table.waiters, w);
    assert th.phase.last.value in w.accepted;
    assert Explained(w, th.phase.last.value);
    WakesWho(th.phase.last.value.kind);
    hide StateOk, Reachable, PhaseOk, Wakes, Gated;
  }

  /** The kinds of the event callback's last case. */
  lemma {:induction false} WakesWho(k: Kind)
    ensures Wakes(k) <==> k in {TopoAdd, TopoDelete, Register, ProxyRegister, Login, Logout}
  {
  }

  /** A connect that succeeds sent a topology request and was woken by a reply to it with the success code.  If that
      reply came as a topology reply, the device had been set ATTACHED or was destroyed meanwhile; otherwise it came
      as a reply that is handled without a look into the cache. */
  lemma {:induction false} ConnectSafe(s: State, t: nat)
    requires Reachable(s) && Succeeded(s, t) && s.table.threads[t].call.Connect?
    ensures var w, th := s.wire, s.table.threads[t];
            var devid, id, last := th.call.devid, th.phase.id, th.phase.last;
            && id in w.requests && w.requests[id] == Request(TopoAdd, devid)
            && last.Some? && last.value in w.delivered && last.value.id == id
            && Reply(last.value.kind, id, CODE_SUCCESS) in w.replies
            && (Attaches(last.value.kind) ==> last.value.devid == devid && (devid in w.attached || devid in w.destroyed))
            && (!Attaches(last.value.kind) ==> last.value.origin.FromItem?)
  {
    SuccessAnswered(s, t);
    ReachableOk(s);
    var m := s.table.threads[t].phase.last.value;
    assert PhaseOk(s.table.threads[t].call, t, s.table.threads[t].phase, s.table.waiters, s.wire);
    assert m in s.wire.accepted;
    assert Explained(s.wire, m);
  }

  /** The cloud answers a request on the topic of the request. */
  ghost predicate Matching(w: Wire) {
    forall r <- w.replies :: r.id in w.requests ==> w.requests[r.id].kind == r.kind
  }

  /** With such a cloud, success means a topology-add reply with the success code, and a device that was not destroyed
      had the status ATTACHED at some point of the run. */
  lemma {:induction false} ConnectAttached(steps: seq<Step>, t: nat)
    requires var s := Run(START, steps); Succeeded(s, t) && s.table.threads[t].call.Connect? && Matching(s.wire)
    ensures var s := Run(START, steps);
            var devid := s.table.threads[t].call.devid;
            && Reply(TopoAdd, s.table.threads[t].phase.id, CODE_SUCCESS) in s.wire.replies
            && (devid in s.wire.destroyed || exists k: nat :: HadStatus(steps, k, devid, Attached))
  {
    var s := Run(START, steps);
    ConnectSafe(s, t);
    var m := s.table.threads[t].phase.last.value;
    assert Reply(m.kind, m.id, CODE_SUCCESS) in s.wire.replies;
    if s.table.threads[t].call.devid in s.wire.attached {
      RecordedHad(steps, s.table.threads[t].call.devid, Attached);
    }
    hide Run;
  }

  /** The same at the moment the thread wakes up, before it reads its code: if the code says success, the device has
      been set ATTACHED already or was destroyed. */
  lemma {:induction false} WokenAttached(s: State, t: nat)
    requires Reachable(s) && t in s.table.threads && Matching(s.wire)
    requires s.table.threads[t].phase.Woken? && s.table.threads[t].phase.kind.TopoAdd?
    ensures var id, ws, devid := s.table.threads[t].phase.id, s.table.waiters, s.table.threads[t].call.devid;
            && Waits(ws, id)
            && (ws[Place(ws, id)].code.Success? ==> devid in s.wire.attached || devid in s.wire.destroyed)
  {
    ReachableOk(s);
    var p, ws, w := s.table.threads[t].phase, s.table.waiters, s.wire;
    assert PhaseOk(s.table.threads[t].call, t, p, ws, w);
    var x := ws[Place(ws, p.id)];
    assert CodeOk(x, s.table.sems, w.delivered);
    var m := x.cause.value;
    assert m in w.accepted;
    assert Explained(w, m);
    if x.code.Success? {
      assert !m.origin.FromExpiry?;
      assert Reply(m.kind, m.id, m.code) in w.replies;
    }
  }

  // ---------------------------------------------------------------- status

  /** After the first k steps the device has the status. */
  ghost predicate HadStatus(steps: seq<Step>, k: nat, d: int, status: Status) {
    k <= |steps| && var w := Run(START, steps[..k]).wire; d in w.status && w.status[d] == status
  }

  /** The devices recorded as having had the status. */
  function Recorded(w: Wire, status: Status): set<int> {
    match status
    case Attached => w.attached
    case Logined => w.loggedIn
    case _ => {}
  }

  /** The step that records a device as attached or logged in sets its status. */
  lemma {:induction false} RecordsSetStatus(s: State, step: Step, d: int, status: Status)
    requires d in Recorded(Next(s, step).wire, status) && d !in Recorded(s.wire, status)
    ensures d in Next(s, step).wire.status && Next(s, step).wire.status[d] == status
  {
    StepWire(s, step);
    hide Next, Send, TickWire, FindReply, Settle, Run;
    DevicesUntouched(s.wire);
  }

  /** Sending, looking up, removing and ticking leave the devices alone. */
  lemma {:induction false} DevicesUntouched(w: Wire)
    ensures forall kind, devid, now, sent :: SameDevices(w, Send(w, kind, devid, now, sent))
    ensures forall now :: SameDevices(w, TickWire(w, now))
    ensures forall kind, id, code :: SameDevices(w, FindReply(w, kind, id, code))
    ensures forall id, o :: SameDevices(w, Settle(w, id, o))
  {
    hide Insert, Remove, Find, ExpireAll, Tick, Timeouts, Holds;
    forall now
      ensures SameDevices(w, TickWire(w, now))
    {
      ExpireAllFrame(w, Timeouts(w.cache.entries, now));
    }
  }

  ghost predicate SameDevices(w: Wire, u: Wire) {
    u.status == w.status && u.attached == w.attached && u.loggedIn == w.loggedIn
  }

  /** So a recorded device did have the status. */
  lemma {:induction false} RecordedHad(steps: seq<Step>, d: int, status: Status)
    requires d in Recorded(Run(START, steps).wire, status)
    ensures exists k: nat :: HadStatus(steps, k, d, status)
  {
    hide Next;
    if steps != [] {
      var n := |steps| - 1;
      var before := Run(START, steps[..n]);
      if d in Recorded(before.wire, status) {
        RecordedHad(steps[..n], d, status);
        var k: nat :| HadStatus(steps[..n], k, d, status);
        assert steps[..n][..k] == steps[..k];
        assert HadStatus(steps, k, d, status);
      } else {
        RecordsSetStatus(before, steps[n], d, status);
        assert steps[..|steps|] == steps;
        assert HadStatus(steps, |steps|, d, status);
      }
    }
  }

  /** No device is logged out that was never logged in. */
  lemma {:induction false} LogoutAfterLogin(steps: seq<Step>, id: int)
    requires var w := Run(START, steps).wire; id in w.requests && w.requests[id].kind.Logout?
    ensures exists k: nat :: HadStatus(steps, k, Run(START, steps).wire.requests[id].devid, Logined)
  {
    var s := Run(START, steps);
    StartStateOk();
    RunOk(START, steps);
    LoggedIn(s, id);
    RecordedHad(steps, s.wire.requests[id].devid, Logined);
    hide Run, StateOk, Next, HadStatus, Grows;
  }

  lemma {:induction false} LoggedIn(s: State, id: int)
    requires StateOk(s) && id in s.wire.requests && s.wire.requests[id].kind.Logout?
    ensures s.wire.requests[id].devid in s.wire.loggedIn
  {
    hide TableOk, CacheOk, Settled, Conserved, Counted, AllExplained, Ended, InHand, DevicesOk, Numbered;
  }

  /** Only a reply with the success code changes the status of a device: a topology reply to a request for the device,
      found pending, or an item that names it. */
  lemma {:induction false} StatusFollowsReplies(s: State, step: Step, d: int)
    requires StateOk(s) && d in s.wire.status && d in Next(s, step).wire.status
    requires Next(s, step).wire.status[d] != s.wire.status[d]
    ensures var h := s.wire.handling;
            || (step.TellStep? && h.Found? && Attaches(h.kind) && h.code == CODE_SUCCESS && h.devid == d
                && h.id in s.wire.requests && s.wire.requests[h.id].devid == d)
            || (step.ItemStep? && !Gated(step.kind) && step.code == CODE_SUCCESS && step.devid == d)
  {
    StepWire(s, step);
    HandOk(s);
    DevicesUntouched(s.wire);
    StatusElse(s.wire, d);
    hide Next, StateOk, Asks, Send, TickWire, FindReply, Settle, TellUser, Item, Take, CreateDevice, DestroyDevice;
    if step.TellStep? {
      TellStatus(s.wire, d);
    }
    if step.ItemStep? {
      ItemStatus(s.wire, step.kind, step.id, step.code, step.itemCode, step.devid, d);
    }
  }

  lemma {:induction false} StatusElse(w: Wire, d: int)
    requires DevicesOk(w) && d in w.status
    ensures Take(w).status == w.status
    ensures d in CreateDevice(w).status && CreateDevice(w).status[d] == w.status[d]
    ensures forall devid :: d in DestroyDevice(w, devid).status ==> DestroyDevice(w, devid).status[d] == w.status[d]
  {
  }

  lemma {:induction false} TellStatus(w: Wire, d: int)
    requires InHand(w) && d in w.status && d in TellUser(w).status && TellUser(w).status[d] != w.status[d]
    ensures var h := w.handling;
            && h.Found? && Attaches(h.kind) && h.code == CODE_SUCCESS && h.devid == d
            && h.id in w.requests && w.requests[h.id].devid == d
  {
  }

  lemma {:induction false} ItemStatus(w: Wire, kind: Kind, id: int, code: int, itemCode: int, devid: int, d: int)
    requires var u := Item(w, kind, id, code, itemCode, devid); d in w.status && d in u.status && u.status[d] != w.status[d]
    ensures !Gated(kind) && code == CODE_SUCCESS && devid == d
  {
  }

  /** What was found is the answer to a request of the device. */
  lemma {:induction false} HandOk(s: State)
    requires StateOk(s)
    ensures InHand(s.wire) && DevicesOk(s.wire)
  {
    hide TableOk, CacheOk, Settled, Conserved, Counted, AllExplained, Ended, InHand, DevicesOk, LoginOk, Numbered;
  }

  /** A reply to a topology *delete* reports the device as attached, like one to a topology add. */
  lemma {:induction false} DeletingAttaches(w: Wire, id: int, devid: int)
    requires w.handling == Found(TopoDelete, id, CODE_SUCCESS, devid) && devid in w.status
    ensures TellUser(w).status == w.status[devid := Attached] && devid in TellUser(w).attached
  {
  }

  lemma {:induction false} RunThen(s: State, steps: seq<Step>, step: Step)
    ensures Run(s, steps + [step]) == Next(Run(s, steps), step)
  {
    assert (steps + [step])[..|steps|] == steps;
  }

  lemma {:induction false} RunNothing(s: State)
    ensures Run(s, []) == s
  {
  }

  lemma {:induction false} Run4(s: State, a: Step, b: Step, c: Step, d: Step)
    ensures Run(s, [a, b, c, d]) == Next(Next(Next(Next(s, a), b), c), d)
  {
    RunNothing(s);
    hide Run, Next;
    RunThen(s, [], a);
    RunThen(s, [a], b);
    RunThen(s, [a, b], c);
    RunThen(s, [a, b, c], d);
    assert [a, b, c, d] == [a, b, c] + [d] && [a, b, c] == [a, b] + [c] && [a, b] == [a] + [b] && [] + [a] == [a];
  }

  /** Without a cloud that matches topics, any waiting connect is made to succeed by a login reply that carries its id,
      and the device it names need not be the one that connects: nothing is set ATTACHED. */
  lemma {:induction false} OpenReplyConnects(s: State, t: nat, other: int)
    requires StateOk(s) && t in s.table.threads && s.table.threads[t].phase.Waiting?
    requires LastKind(s.table.threads[t].call) == s.table.threads[t].phase.kind
    requires s.wire.queue == [] && s.wire.handling.Idle? && other in s.wire.status
    ensures var id := s.table.threads[t].phase.id;
            var u := Run(s, [ItemStep(Login, id, CODE_SUCCESS, CODE_SUCCESS, other), DispatchStep, WakeStep(t), FinishStep(t)]);
            Succeeded(u, t) && u.wire.attached == s.wire.attached && u.wire.destroyed == s.wire.destroyed
            && u.table.threads[t].call == s.table.threads[t].call
  {
    hide StateOk, Next, Run;
    var id := s.table.threads[t].phase.id;
    var step := ItemStep(Login, id, CODE_SUCCESS, CODE_SUCCESS, other);
    var m := Message(Login, id, CODE_SUCCESS, other, FromItem);
    ItemQueues(s, id, other);
    var s1 := Next(s, step);
    MessageWakes(s1, t, m);
    WakeAndFinish(Next(s1, DispatchStep), t);
    Run4(s, step, DispatchStep, WakeStep(t), FinishStep(t));
  }

  lemma {:induction false} ItemQueues(s: State, id: int, other: int)
    requires StateOk(s) && s.wire.queue == [] && s.wire.handling.Idle? && other in s.wire.status
    ensures var u := Next(s, ItemStep(Login, id, CODE_SUCCESS, CODE_SUCCESS, other));
            && StateOk(u) && u.wire.queue == [Message(Login, id, CODE_SUCCESS, other, FromItem)]
            && u.table == s.table && u.wire.attached == s.wire.attached && u.wire.destroyed == s.wire.destroyed
  {
    hide StateOk;
    StepOk(s, ItemStep(Login, id, CODE_SUCCESS, CODE_SUCCESS, other));
  }

  /** The head of the queue reaches the thread that waits for its id. */
  lemma {:induction false} MessageWakes(s: State, t: nat, m: Message)
    requires StateOk(s) && t in s.table.threads && s.table.threads[t].phase.Waiting?
    requires s.wire.queue == [m] && m.id == s.table.threads[t].phase.id
    requires m.kind in {TopoAdd, TopoDelete, Register, ProxyRegister, Login, Logout}
    ensures var u, p := Next(s, DispatchStep), s.table.threads[t].phase;
            && StateOk(u) && u.table.threads == s.table.threads
            && u.wire.attached == s.wire.attached && u.wire.destroyed == s.wire.destroyed
            && p.sem in u.table.sems && u.table.sems[p.sem] > 0
            && Waits(u.table.waiters, p.id) && u.table.waiters[Place(u.table.waiters, p.id)].code == CodeOf(m.code)
  {
    hide StateOk, Place, Told;
    StepOk(s, DispatchStep);
    WaitingPlace(s, t);
    ToldPlaces(s.table.waiters, m, m.id);
    ToldAt(s.table.waiters, m, m.id);
  }

  lemma {:induction false} WakeAndFinish(s: State, t: nat)
    requires StateOk(s) && t in s.table.threads && s.table.threads[t].phase.Waiting?
    requires LastKind(s.table.threads[t].call) == s.table.threads[t].phase.kind
    requires var p := s.table.threads[t].phase;
             && p.sem in s.table.sems && s.table.sems[p.sem] > 0
             && Waits(s.table.waiters, p.id) && s.table.waiters[Place(s.table.waiters, p.id)].code == Success
    ensures var u := Next(Next(s, WakeStep(t)), FinishStep(t));
            Succeeded(u, t) && u.wire == s.wire && u.table.threads[t].call == s.table.threads[t].call
  {
    hide StateOk, Place, Strike;
  }

  lemma {:induction false} WaitingPlace(s: State, t: nat)
    requires StateOk(s) && t in s.table.threads && s.table.threads[t].phase.Waiting?
    ensures var p, ws := s.table.threads[t].phase, s.table.waiters;
            Waits(ws, p.id) && ws[Place(ws, p.id)].sem == p.sem && p.sem in s.table.sems
  {
    var p, ws := s.table.threads[t].phase, s.table.waiters;
    assert PhaseOk(s.table.threads[t].call, t, p, ws, s.wire);
    assert OwnerOk(ws[Place(ws, p.id)], s.table.threads);
  }

  const CONNECT := Connect(1, false)
  const SENDING := [CreateStep, BeginStep(0, CONNECT), RegisteredStep(0), SendStep(0, 0, true)]
  const OPEN_REPLY := [ItemStep(Login, 0, CODE_SUCCESS, CODE_SUCCESS, 1), DispatchStep, WakeStep(0), FinishStep(0)]

  /** A run from the start in which device 1 connects and was never attached. */
  lemma {:induction false} ConnectWithoutAttaching()
    ensures var s := Run(START, SENDING + [EnlistStep(0, true)] + OPEN_REPLY);
            && Reachable(s) && Succeeded(s, 0) && s.table.threads[0].call == CONNECT
            && s.wire.attached == {} && s.wire.destroyed == {}
  {
    hide StateOk, Run, Next, Grows;
    var connecting := SENDING + [EnlistStep(0, true)];
    Connecting();
    StartStateOk();
    RunOk(START, connecting);
    OpenReplyConnects(Run(START, connecting), 0, 1);
    RunOn(START, connecting, OPEN_REPLY);
    assert Reachable(Run(START, connecting + OPEN_REPLY));
  }

  /** The side of the cloud after one topology request of device 1, and nothing else. */
  ghost predicate OneRequest(w: Wire) {
    && w.queue == [] && w.handling.Idle? && w.status == map[0 := Unauthorized, 1 := Authorized]
    && w.attached == {} && w.destroyed == {} && w.replies == {}
    && w.cache.entries == [Pending(0, 1, TopoAdd, 0)] && w.requests == map[0 := Request(TopoAdd, 1)]
  }

  /** One connect up to its request, and up to its wait. */
  lemma {:induction false} Connecting()
    ensures var s := Run(START, SENDING);
            OneRequest(s.wire) && s.table == Table(0, [], map[], map[0 := Thread(CONNECT, Sent(TopoAdd, 0))])
    ensures var s := Run(START, SENDING + [EnlistStep(0, true)]);
            && OneRequest(s.wire) && 0 in s.table.threads
            && s.table.threads[0] == Thread(CONNECT, Waiting(TopoAdd, 0, 0))
  {
    hide Run, Next;
    var begin := BeginStep(0, CONNECT);
    Run4(START, CreateStep, begin, RegisteredStep(0), SendStep(0, 0, true));
    RunThen(START, SENDING, EnlistStep(0, true));
    Begun();
    var s := Next(Next(Next(START, CreateStep), begin), RegisteredStep(0));
    SentFirst(s);
    EnlistedFirst(Next(s, SendStep(0, 0, true)));
  }

  lemma {:induction false} Begun()
    ensures var s := Next(Next(Next(START, CreateStep), BeginStep(0, CONNECT)), RegisteredStep(0));
            && s.table == Table(0, [], map[], map[0 := Thread(CONNECT, Start(TopoAdd))])
            && s.wire == START_WIRE.(nextDev := 2, status := map[0 := Unauthorized, 1 := Authorized])
  {
    var s1 := Next(START, CreateStep);
    assert s1.wire.status == map[0 := Unauthorized, 1 := Authorized];
    var s2 := Next(s1, BeginStep(0, CONNECT));
    assert s2.table.threads == map[0 := Thread(CONNECT, Start(Register))];
    var s3 := Next(s2, RegisteredStep(0));
    assert s3.table.threads == map[0 := Thread(CONNECT, Start(TopoAdd))];
  }

  lemma {:induction false} SentFirst(s: State)
    requires s.table == Table(0, [], map[], map[0 := Thread(CONNECT, Start(TopoAdd))])
    requires s.wire == START_WIRE.(nextDev := 2, status := map[0 := Unauthorized, 1 := Authorized])
    ensures var u := Next(s, SendStep(0, 0, true));
            OneRequest(u.wire) && u.table == Table(0, [], map[], map[0 := Thread(CONNECT, Sent(TopoAdd, 0))])
  {
    var u := Next(s, SendStep(0, 0, true));
    assert u.table.threads == map[0 := Thread(CONNECT, Sent(TopoAdd, 0))];
    assert u.wire.cache.entries == [Pending(0, 1, TopoAdd, 0)];
    assert u.wire.requests == map[0 := Request(TopoAdd, 1)];
  }

  lemma {:induction false} EnlistedFirst(s: State)
    requires s.table == Table(0, [], map[], map[0 := Thread(CONNECT, Sent(TopoAdd, 0))])
    ensures var u := Next(s, EnlistStep(0, true));
            u.wire == s.wire && 0 in u.table.threads && u.table.threads[0] == Thread(CONNECT, Waiting(TopoAdd, 0, 0))
  {
  }

  lemma {:induction false} RunOn(s: State, a: seq<Step>, b: seq<Step>)
    ensures Run(s, a + b) == Run(Run(s, a), b)
  {
    if b == [] {
      assert a + b == a;
    } else {
      var n := |b| - 1;
      RunOn(s, a, b[..n]);
      assert a + b == a + b[..n] + [b[n]] && b == b[..n] + [b[n]];
      RunThen(s, a + b[..n], b[n]);
      RunThen(Run(s, a), b[..n], b[n]);
    }
  }

  // ---------------------------------------------------------------- notifications

  /** The cache causes at most two messages for an id, whatever replies and ticks come: the answer to it and its timeout,
      each at most once.  Both are made exactly for an id that aged out while its answer was in hand, and both are
      messages if both found room. */
  lemma {:induction false} Notified(s: State, id: int)
    requires Reachable(s)
    ensures var w := s.wire;
            var answers, timeouts := Reports(w.accepted, id, false), Reports(w.accepted, id, true);
            && answers == Once(w.answers, id) <= 1 && timeouts == Once(w.expiries, id) <= 1
            && (id in w.answers && id in w.expiries <==> id in w.answers && id in w.overtaken)
            && (id !in w.overtaken ==> answers + timeouts <= 1)
  {
    ReachableOk(s);
    assert Reports(s.wire.accepted, id, false) == Once(s.wire.answers, id);
    assert Reports(s.wire.accepted, id, true) == Once(s.wire.expiries, id);
  }

  /** An id is overtaken exactly by a tick that ages its entry out while its answer is in hand. */
  lemma {:induction false} OvertakenByTick(s: State, step: Step, id: int)
    requires StateOk(s) && id !in s.wire.overtaken
    ensures id in Next(s, step).wire.overtaken
       <==> step.TickStep? && Busy(s.wire, id) && exists p <- s.wire.cache.entries :: p.id == id && Aged(p, step.now)
  {
    hide Next, StateOk, Busy, Aged, TickWire;
    StepWire(s, step);
    if step.TickStep? {
      TickOvertakes(s.wire, step.now, id);
    } else {
      OnlyTicksOvertake(s, step);
    }
  }

  lemma {:induction false} OnlyTicksOvertake(s: State, step: Step)
    ensures !step.TickStep? ==> WireAfter(s, step).overtaken == s.wire.overtaken
  {
    hide Asks, Insert, Remove, Find, TickWire, Holds, Enqueue, Attaching;
  }

  lemma {:induction false} TickOvertakes(w: Wire, now: nat, id: int)
    requires id !in w.overtaken
    ensures id in TickWire(w, now).overtaken <==> Busy(w, id) && exists p <- w.cache.entries :: p.id == id && Aged(p, now)
  {
    hide Busy, Timeouts, ExpireAll, Tick, Aged;
    ExpireOvertakes(w, Timeouts(w.cache.entries, now), id);
    TimeoutIds(w.cache.entries, now, id);
  }

  lemma {:induction false} ExpireOvertakes(w: Wire, ms: seq<Message>, id: int)
    requires id !in w.overtaken
    ensures id in ExpireAll(w, ms).overtaken <==> Busy(w, id) && id in MessageIds(ms)
  {
    if ms != [] {
      var n := |ms| - 1;
      assert ms[..n] + [ms[n]] == ms;
      MessageIdsLast(ms[..n], ms[n]);
      ExpireOvertakes(w, ms[..n], id);
      ExpireAllFrame(w, ms[..n]);
    }
  }

  lemma {:induction false} TimeoutIds(e: seq<Pending>, now: nat, id: int)
    ensures id in MessageIds(Timeouts(e, now)) <==> exists p <- e :: p.id == id && Aged(p, now)
  {
    if e != [] {
      TimeoutIds(e[1..], now, id);
      var ms := Timeouts(e[1..], now);
      assert forall p <- e :: p == e[0] || p in e[1..];
      assert forall p <- e[1..] :: p in e;
      if Aged(e[0], now) {
        MessageIdsFirst(Timeout(e[0]), ms);
        assert e[0] in e && Timeouts(e, now) == [Timeout(e[0])] + ms;
      } else {
        assert Timeouts(e, now) == ms;
      }
    }
  }

  /** So each id is notified at most once when no tick comes while a reply is in hand. */
  lemma {:induction false} SerialOnce(steps: seq<Step>, id: int)
    requires forall k :: 0 <= k < |steps| && steps[k].TickStep? ==> Run(START, steps[..k]).wire.handling.Idle?
    ensures Run(START, steps).wire.overtaken == {}
    ensures Reports(Run(START, steps).wire.accepted, id, false) + Reports(Run(START, steps).wire.accepted, id, true) <= 1
  {
    hide Next;
    if steps != [] {
      var n := |steps| - 1;
      var before := Run(START, steps[..n]);
      forall k | 0 <= k < n && steps[..n][k].TickStep?
        ensures Run(START, steps[..n][..k]).wire.handling.Idle?
      {
        assert steps[..n][..k] == steps[..k];
      }
      SerialOnce(steps[..n], id);
      StartStateOk();
      RunOk(START, steps[..n]);
      forall i
        ensures i !in Next(before, steps[n]).wire.overtaken
      {
        OvertakenByTick(before, steps[n], i);
      }
    }
    assert Reachable(Run(START, steps));
    Notified(Run(START, steps), id);
  }

  const POSTING := ReportStep(PropertyPost, LOCAL_NODE, 0, true)
  const OVERTAKING := [POSTING, FindStep(PropertyPost, 0, CODE_SUCCESS), TickStep(AGE_LIMIT), TellStep]

  /** A run from the start in which one post is notified twice: it ages out between the search for its reply and the
      message about it. */
  lemma {:induction false} NotifiedTwice()
    ensures var s := Run(START, OVERTAKING);
            Reachable(s) && Reports(s.wire.accepted, 0, false) == 1 && Reports(s.wire.accepted, 0, true) == 1
  {
    hide Run;
    Run4(START, POSTING, FindStep(PropertyPost, 0, CODE_SUCCESS), TickStep(AGE_LIMIT), TellStep);
    PostedFirst();
    var s1 := Next(START, POSTING);
    FoundFirst(s1);
    var s2 := Next(s1, FindStep(PropertyPost, 0, CODE_SUCCESS));
    AgedFirst(s2);
    var s3 := Next(s2, TickStep(AGE_LIMIT));
    ToldFirst(s3);
    hide Next;
    assert Reachable(Run(START, OVERTAKING));
    Notified(Run(START, OVERTAKING), 0);
  }

  lemma {:induction false} ToldFirst(s: State)
    requires s.wire.handling == Found(PropertyPost, 0, CODE_SUCCESS, LOCAL_NODE) && |s.wire.queue| == 1
    requires s.wire.answers == map[] && s.wire.expiries == map[0 := true]
    ensures var w := Next(s, TellStep).wire;
            0 in w.answers && w.answers[0] && 0 in w.expiries && w.expiries[0]
  {
  }

  lemma {:induction false} PostedFirst()
    ensures var w := Next(START, POSTING).wire;
            && w.cache.entries == [Pending(0, LOCAL_NODE, PropertyPost, 0)] && w.handling.Idle? && w.queue == []
            && w.answers == map[] && w.expiries == map[]
  {
  }

  lemma {:induction false} FoundFirst(s: State)
    requires s.wire.cache.entries == [Pending(0, LOCAL_NODE, PropertyPost, 0)] && s.wire.handling.Idle?
    ensures Next(s, FindStep(PropertyPost, 0, CODE_SUCCESS)).wire
         == s.wire.(handling := Found(PropertyPost, 0, CODE_SUCCESS, LOCAL_NODE))
  {
    HoldsIs(s.wire.cache.entries, 0);
    IdsMember(s.wire.cache.entries, 0);
    assert Position(s.wire.cache.entries, 0) == 0;
  }

  lemma {:induction false} AgedFirst(s: State)
    requires s.wire.cache.entries == [Pending(0, LOCAL_NODE, PropertyPost, 0)] && s.wire.queue == []
    ensures var w := Next(s, TickStep(AGE_LIMIT)).wire;
            && |w.queue| == 1 && w.handling == s.wire.handling && w.answers == s.wire.answers
            && w.expiries == s.wire.expiries[0 := true]
  {
    var p := Pending(0, LOCAL_NODE, PropertyPost, 0);
    assert Timeouts(s.wire.cache.entries, AGE_LIMIT) == [Timeout(p)];
    assert [Timeout(p)][..0] == [];
    assert ExpireAll(s.wire, []) == s.wire;
    assert ExpireAll(s.wire, [Timeout(p)]) == Expire(s.wire, Timeout(p));
  }

  /** What the user got and what still waits in the queue are, in order, what was accepted. */
  lemma {:induction false} NothingLost(s: State)
    requires Reachable(s)
    ensures s.wire.accepted == s.wire.delivered + s.wire.queue && |s.wire.queue| <= QUEUE_MAX
  {
    ReachableOk(s);
  }

  /** A late or repeated reply of a gated kind does nothing at all, whatever happens between its steps. */
  lemma {:induction false} LateReplyIgnored(s: State, kind: Kind, id: int, code: int)
    requires StateOk(s) && Gated(kind) && s.wire.handling.Idle? && id in s.wire.outcomes && !s.wire.outcomes[id].Live?
    ensures Next(s, FindStep(kind, id, code)).wire == s.wire.(handling := Leaving(id))
  {
    hide Ids, Place;
    HoldsIs(s.wire.cache.entries, id);
  }

  lemma {:induction false} LateReplyLeaves(s: State, id: int)
    requires StateOk(s) && s.wire.handling == Leaving(id) && id in s.wire.outcomes && !s.wire.outcomes[id].Live?
    ensures Next(s, TellStep) == s && Next(s, LeaveStep).wire == s.wire.(handling := Idle)
  {
    hide Ids, Place;
    HoldsIs(s.wire.cache.entries, id);
  }

  /** A request leaves the cache once: an outcome other than Live stays for good. */
  lemma {:induction false} EndsOnce(s: State, step: Step, id: int)
    requires StateOk(s) && id in s.wire.outcomes && !s.wire.outcomes[id].Live?
    ensures var u := Next(s, step); id in u.wire.outcomes && u.wire.outcomes[id] == s.wire.outcomes[id]
  {
    StepWire(s, step);
    WireOfState(s);
    EndsOnceWire(s, step, id);
    hide Next, StateOk, WireOk, WireAfter;
  }

  lemma {:induction false} EndsOnceWire(s: State, step: Step, id: int)
    requires WireOk(s.wire) && id in s.wire.outcomes && !s.wire.outcomes[id].Live?
    ensures var u := WireAfter(s, step); id in u.outcomes && u.outcomes[id] == s.wire.outcomes[id]
  {
    hide WireOk, Send, FindReply, TellUser, Item, Settle, TickWire, Take, CreateDevice, DestroyDevice;
    var w := s.wire;
    match step {
      case SendStep(t, now, sent) =>
        if Asks(s, t) {
          EndsOnceSend(w, s.table.threads[t].phase.kind, s.table.threads[t].call.devid, now, sent, id);
        }
      case ReportStep(kind, devid, now, sent) => EndsOnceSend(w, kind, devid, now, sent, id);
      case LeaveStep =>
        if w.handling.Leaving? {
          EndsOnceSettle(w, w.handling.id, if w.handling.id in w.answers then Replied else Withdrawn, id);
        }
      case ItemsDoneStep(from) => EndsOnceSettle(w, from, Withdrawn, id);
      case TickStep(now) => EndsOnceTick(w, now, id);
      case _ => OtherOutcomes(s, step);
    }
  }

  lemma {:induction false} WireOfState(s: State)
    requires StateOk(s)
    ensures WireOk(s.wire)
  {
    hide TableOk, WireOk;
  }

  /** The other steps end nothing. */
  lemma {:induction false} OtherOutcomes(s: State, step: Step)
    requires !step.SendStep? && !step.ReportStep? && !step.LeaveStep? && !step.ItemsDoneStep? && !step.TickStep?
    ensures WireAfter(s, step).outcomes == s.wire.outcomes
  {
    hide Find, Send, Settle, TickWire, Asks;
  }

  lemma {:induction false} EndsOnceSettle(w: Wire, from: int, o: Outcome, id: int)
    requires WireOk(w) && id in w.outcomes && !w.outcomes[id].Live? && !o.Live?
    ensures var u := Settle(w, from, o); id in u.outcomes && u.outcomes[id] == w.outcomes[id]
  {
    hide Settle, CacheOk, Settled, Conserved, Counted, AllExplained, Ended, InHand, DevicesOk, LoginOk, Numbered;
    SettleCache(w, from, o);
  }

  lemma {:induction false} EndsOnceSend(w: Wire, kind: Kind, devid: int, now: nat, sent: bool, id: int)
    requires WireOk(w) && id in w.outcomes
    ensures var u := Send(w, kind, devid, now, sent); id in u.outcomes && u.outcomes[id] == w.outcomes[id]
  {
    SendCache(w, kind, devid, now, sent);
    SendShape(w, kind, devid, now, sent);
    hide Send;
  }

  lemma {:induction false} EndsOnceTick(w: Wire, now: nat, id: int)
    requires WireOk(w) && id in w.outcomes && !w.outcomes[id].Live?
    ensures var u := TickWire(w, now); id in u.outcomes && u.outcomes[id] == w.outcomes[id]
  {
    var e := w.cache.entries;
    var ms := Timeouts(e, now);
    IdsTick(e, now);
    AskedTick(e, now, w.requests);
    hide Ids, Survivors, ExpireAll;
    forall m | m in ms
      ensures Due(w, m)
    {
      assert m.id in MessageIds(ms);
    }
    ExpireAllEnds(w, ms);
  }

  lemma {:induction false} EndsOnceInRuns(s: State, steps: seq<Step>, id: int)
    requires StateOk(s) && id in s.wire.outcomes && !s.wire.outcomes[id].Live?
    ensures id in Run(s, steps).wire.outcomes && Run(s, steps).wire.outcomes[id] == s.wire.outcomes[id]
  {
    if steps != [] {
      var n := |steps| - 1;
      RunOk(s, steps[..n]);
      EndsOnceInRuns(s, steps[..n], id);
      EndsOnce(Run(s, steps[..n]), steps[n], id);
    }
  }

  // ---------------------------------------------------------------- waiters

  /** Ids in the list are distinct, exactly the semaphores of the listed threads are alive, each listed thread is in its
      wait, and a call that is over has left no waiter behind. */
  lemma {:induction false} WaitersSafe(s: State)
    requires Reachable(s)
    ensures Proper(s.table.waiters, s.table.sems)
    ensures forall x <- s.table.waiters :: x.owner in s.table.threads && Enlisted(s.table.threads[x.owner].phase)
    ensures forall t :: t in s.table.threads && s.table.threads[t].phase.Done? ==>
              !Waits(s.table.waiters, s.table.threads[t].phase.id)
  {
    ReachableOk(s);
    forall x | x in s.table.waiters
      ensures x.owner in s.table.threads && Enlisted(s.table.threads[x.owner].phase)
    {
      assert OwnerOk(x, s.table.threads);
    }
    forall t | t in s.table.threads && s.table.threads[t].phase.Done?
      ensures !Waits(s.table.waiters, s.table.threads[t].phase.id)
    {
      assert PhaseOk(s.table.threads[t].call, t, s.table.threads[t].phase, s.table.waiters, s.wire);
    }
  }

  // ---------------------------------------------------------------- a cache that aged out

  /** No request from `first` on is pending or was ever answered. */
  ghost predicate Closed(w: Wire, first: int) {
    && w.cache.entries == [] && w.cache.size >= CAPACITY
    && (forall id :: id in w.outcomes ==> id < first) && (w.handling.Found? ==> w.handling.id < first)
  }

  lemma {:induction false} ClosedStep(s: State, step: Step, first: int)
    requires StateOk(s) && Closed(s.wire, first)
    ensures Closed(Next(s, step).wire, first)
  {
    StepWire(s, step);
    ClosedWire(s, step, first);
    hide Next, StateOk, WireAfter, Closed;
  }

  lemma {:induction false} ClosedWire(s: State, step: Step, first: int)
    requires Closed(s.wire, first)
    ensures Closed(WireAfter(s, step), first)
  {
    ClosedElse(s.wire, first);
    hide Send, FindReply, TellUser, Item, Settle, TickWire, Take, CreateDevice, DestroyDevice, Closed;
    var w := s.wire;
    match step {
      case SendStep(t, now, sent) =>
        if Asks(s, t) {
          ClosedSend(w, s.table.threads[t].phase.kind, s.table.threads[t].call.devid, now, sent, first);
        }
      case ReportStep(kind, devid, now, sent) => ClosedSend(w, kind, devid, now, sent, first);
      case LeaveStep =>
        if w.handling.Leaving? {
          ClosedSettle(w, w.handling.id, if w.handling.id in w.answers then Replied else Withdrawn, first);
        }
      case ItemsDoneStep(from) => ClosedSettle(w, from, Withdrawn, first);
      case TickStep(now) => ClosedTick(w, now, first);
      case _ =>
    }
  }

  /** An empty cache finds nothing, */
  lemma {:induction false} ClosedElse(w: Wire, first: int)
    requires Closed(w, first)
    ensures forall kind, id, code :: Closed(FindReply(w, kind, id, code), first)
    ensures forall kind, id, code, itemCode, devid :: Closed(Item(w, kind, id, code, itemCode, devid), first)
    ensures Closed(TellUser(w), first) && Closed(Take(w), first) && Closed(w.(handling := Idle), first)
    ensures Closed(CreateDevice(w), first) && forall devid :: Closed(DestroyDevice(w, devid), first)
  {
    ClosedFind(w, first);
    hide FindReply, Enqueue;
  }

  lemma {:induction false} ClosedFind(w: Wire, first: int)
    requires Closed(w, first)
    ensures forall kind, id, code :: Closed(FindReply(w, kind, id, code), first)
  {
  }

  /** takes nothing at the maximum, */
  lemma {:induction false} ClosedSend(w: Wire, kind: Kind, devid: int, now: nat, sent: bool, first: int)
    requires Closed(w, first)
    ensures var u := Send(w, kind, devid, now, sent);
            Closed(u, first)
  {
    SendShape(w, kind, devid, now, sent);
    hide Send;
  }

  /** and has nothing to remove or to report. */
  lemma {:induction false} ClosedSettle(w: Wire, id: int, o: Outcome, first: int)
    requires Closed(w, first)
    ensures Settle(w, id, o) == w
  {
  }

  lemma {:induction false} ClosedTick(w: Wire, now: nat, first: int)
    requires Closed(w, first)
    ensures TickWire(w, now) == w
  {
  }

  /** Once the counter stands at its maximum with no live entry, as fifty age-outs leave it, no later request is ever
      answered: a later connect succeeds, if at all, through an open reply. */
  lemma {:induction false} NeverAnsweredAgain(s: State, steps: seq<Step>, first: int)
    requires StateOk(s) && Closed(s.wire, first)
    ensures var u := Run(s, steps);
            && Closed(u.wire, first)
            && (forall id, expiry :: id >= first ==> Reports(u.wire.accepted, id, expiry) == 0)
            && (forall t :: Succeeded(u, t) && u.table.threads[t].call.Connect? && u.table.threads[t].phase.id >= first ==>
                  u.table.threads[t].phase.last.Some? && u.table.threads[t].phase.last.value.origin.FromItem?)
  {
    RunOk(s, steps);
    if steps != [] {
      var n := |steps| - 1;
      RunOk(s, steps[..n]);
      NeverAnsweredAgain(s, steps[..n], first);
      ClosedStep(Run(s, steps[..n]), steps[n], first);
    }
    var u := Run(s, steps);
    forall t | Succeeded(u, t) && u.table.threads[t].call.Connect? && u.table.threads[t].phase.id >= first
      ensures u.table.threads[t].phase.last.Some? && u.table.threads[t].phase.last.value.origin.FromItem?
    {
      OnlyOpen(u, t, first);
    }
  }

  lemma {:induction false} OnlyOpen(u: State, t: nat, first: int)
    requires StateOk(u) && Succeeded(u, t) && Closed(u.wire, first) && u.table.threads[t].phase.id >= first
    ensures u.table.threads[t].phase.last.Some? && u.table.threads[t].phase.last.value.origin.FromItem?
  {
    var th := u.table.threads[t];
    assert PhaseOk(th.call, t, th.phase, u.table.waiters, u.wire);
    var m := th.phase.last.value;
    assert m in u.wire.accepted;
    if !m.origin.FromItem? {
      ReportsOf(u.wire.accepted, m);
    }
  }

  lemma {:induction false} ReportsOf(ms: seq<Message>, m: Message)
    requires m in ms && !m.origin.FromItem?
    ensures Reports(ms, m.id, m.origin.FromExpiry?) > 0
  {
    var n := |ms| - 1;
    if ms[n] != m {
      ReportsOf(ms[..n], m);
    }
  }

  // ---------------------------------------------------------------- how a cache wears out

  function Postings(k: nat): seq<Step> {
    seq(k, _ => POSTING)
  }

  /** k property posts, all sent at time 0. */
  lemma {:induction false} PostingsFill(k: nat)
    requires k <= CAPACITY
    ensures var w := Run(START, Postings(k)).wire;
            && w.cache.size == |w.cache.entries| == k && LOCAL_NODE in w.status
            && forall p <- w.cache.entries :: p.ctime == 0
  {
    if k > 0 {
      PostingsFill(k - 1);
      assert Postings(k) == Postings(k - 1) + [POSTING];
      RunThen(START, Postings(k - 1), POSTING);
      var s := Run(START, Postings(k - 1));
      assert Next(s, POSTING).wire.cache.entries
          == s.wire.cache.entries + [Pending(s.wire.nextId, LOCAL_NODE, PropertyPost, 0)];
    }
  }

  lemma {:induction false} AllAge(e: seq<Pending>, now: nat)
    requires forall p <- e :: Aged(p, now)
    ensures Survivors(e, now) == []
  {
    if e != [] {
      AllAge(e[1..], now);
    }
  }

  /** Fifty unanswered posts and one tick bring the cache there. */
  lemma {:induction false} WornOut()
    ensures var s := Run(START, Postings(CAPACITY) + [TickStep(AGE_LIMIT)]);
            Reachable(s) && StateOk(s) && Closed(s.wire, s.wire.nextId)
  {
    var steps := Postings(CAPACITY) + [TickStep(AGE_LIMIT)];
    var s := Run(START, Postings(CAPACITY));
    PostingsFill(CAPACITY);
    RunThen(START, Postings(CAPACITY), TickStep(AGE_LIMIT));
    AllAge(s.wire.cache.entries, AGE_LIMIT);
    TickLeaves(s, AGE_LIMIT);
    assert Reachable(Run(START, steps));
    ReachableOk(Run(START, steps));
    hide Run, Next, Survivors;
  }

  lemma {:induction false} TickLeaves(s: State, now: nat)
    ensures Next(s, TickStep(now)).wire.cache == Cache(Survivors(s.wire.cache.entries, now), s.wire.cache.size)
  {
  }
}
