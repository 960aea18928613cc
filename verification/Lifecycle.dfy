/**
  Requests and their replies as a transition system: sends (dm_manager.c), replies (dm_msg_process.c, dm_message.c),
  ticks (dm_message_cache.c), dispatch (dm_api.c) and the threads that wait (impl_linkkit.c).  One thread handles the
  replies, one after the other (iotx_cm.c:82-83); the reply to a gated kind is three steps, because the cache is locked
  for the search and for the removal but not in between.  A step that is not enabled changes nothing, so every
  sequence of steps is a run.
*/
module Lifecycle {
  import opened Messages
  import opened Text
  import opened MessageCache
  import opened MessageQueue
  import opened Waiters

  datatype Request = Request(kind: Kind, devid: int)

  /** How a request left the cache; it does so at most once. */
  datatype Outcome = Live | Replied | TimedOut | Withdrawn

  datatype Reply = Reply(kind: Kind, id: int, code: int)

  /** The gated reply in the hands of the reply thread: found in the cache, or on its way to the removal. */
  datatype Handling = Idle | Found(kind: Kind, id: int, code: int, devid: int) | Leaving(id: int)

  /** The side of the cloud: ids, the cache, the queue, the devices and the reply in hand.
      History: what each id was sent for, how it left the cache, the ids whose answer or timeout was reported and whether
      the report found room, the ids that aged out while their answer was in hand, the replies handled, the messages
      accepted and delivered, the devices a topology reply set ATTACHED, those a login reply set LOGINED, and the
      devices destroyed. */
  datatype Wire = Wire(
    nextId: nat, cache: Cache, queue: seq<Message>, nextDev: nat, status: map<int, Status>, handling: Handling,
    requests: map<int, Request>, outcomes: map<int, Outcome>, answers: map<int, bool>, expiries: map<int, bool>,
    overtaken: set<int>, replies: set<Reply>, accepted: seq<Message>, delivered: seq<Message>,
    attached: set<int>, loggedIn: set<int>, destroyed: set<int>)

  const LOCAL_NODE := 0

  const START_WIRE :=
    Wire(0, Cache([], 0), [], 1, map[LOCAL_NODE := Unauthorized], Idle,
         map[], map[], map[], map[], {}, {}, [], [], {}, {}, {})

  function Post(w: Wire, m: Message): Wire {
    if |w.queue| < QUEUE_MAX then w.(queue := Enqueue(w.queue, m), accepted := w.accepted + [m]) else w
  }

  /** dm_mgr_upstream_*: a fresh id, an entry in the cache if there is room, and the request; a failed send withdraws
      the entry. */
  function Send(w: Wire, kind: Kind, devid: int, now: nat, sent: bool): Wire {
    var id := w.nextId;
    var cache := Insert(w.cache, Pending(id, devid, kind, now));
    var asked := w.(nextId := id + 1, requests := w.requests[id := Request(kind, devid)]);
    if sent then
      asked.(cache := cache, outcomes := if cache != w.cache then w.outcomes[id := Live] else w.outcomes)
    else
      asked.(cache := Remove(cache, id),
             outcomes := if cache != w.cache then w.outcomes[id := Withdrawn] else w.outcomes)
  }

  /** A reply of a gated kind is looked up: pending or not, whatever the id is pending for. */
  function FindReply(w: Wire, kind: Kind, id: int, code: int): Wire {
    match Find(w.cache, id)
    case None => w.(handling := Leaving(id))
    case Some(p) => w.(handling := Found(kind, id, code, p.devid))
  }

  predicate Attaching(w: Wire, kind: Kind, code: int, devid: int) {
    Attaches(kind) && code == CODE_SUCCESS && devid in w.status
  }

  /** What the handler records before the message is posted. */
  function Handled(w: Wire, kind: Kind, id: int, code: int, devid: int): Wire {
    var attach := Attaching(w, kind, code, devid);
    w.(handling := Leaving(id),
       status := if attach then w.status[devid := Attached] else w.status,
       attached := if attach then w.attached + {devid} else w.attached,
       replies := w.replies + {Reply(kind, id, code)},
       answers := w.answers[id := |w.queue| < QUEUE_MAX])
  }

  function AnswerMessage(w: Wire, kind: Kind, id: int, code: int, devid: int): Message {
    Message(kind, id, code, devid, FromAnswer(Attaching(w, kind, code, devid)))
  }

  /** A reply that was found is handled: the status of the device, and the message to the user. */
  function TellUser(w: Wire): Wire {
    match w.handling
    case Found(kind, id, code, devid) => Post(Handled(w, kind, id, code, devid), AnswerMessage(w, kind, id, code, devid))
    case _ => w
  }

  function Settle(w: Wire, id: int, o: Outcome): Wire {
    (if Holds(w.cache.entries, id) then w.(outcomes := w.outcomes[id := o]) else w).(cache := Remove(w.cache, id))
  }

  /** Then the id is removed from the cache, found before or not. */
  function Leave(w: Wire): Wire {
    if !w.handling.Leaving? then w
    else Settle(w, w.handling.id, if w.handling.id in w.answers then Replied else Withdrawn).(handling := Idle)
  }

  function OpenStatus(kind: Kind): Status {
    match kind
    case Register => Registered
    case ProxyRegister => Registered
    case Login => Logined
    case _ => Attached
  }

  /** What one item of an open reply records before its message is posted. */
  function Noted(w: Wire, kind: Kind, id: int, code: int, given: int, devid: int): Wire {
    w.(status := if code == CODE_SUCCESS then w.status[devid := OpenStatus(kind)] else w.status,
       loggedIn := if code == CODE_SUCCESS && kind.Login? then w.loggedIn + {devid} else w.loggedIn,
       replies := w.replies + {Reply(kind, id, given)})
  }

  /** One item of a reply to register, proxy register, login or logout: the device is named in the payload and the
      cache is not asked.  An item of a proxy register reply has a code of its own. */
  function Item(w: Wire, kind: Kind, id: int, code: int, itemCode: int, devid: int): Wire {
    if Gated(kind) || devid !in w.status then w
    else
      var given := if kind.ProxyRegister? then itemCode else code;
      Post(Noted(w, kind, id, code, given, devid), Message(kind, id, given, devid, FromItem))
  }

  /** The end of such a reply: the id leaves the cache. */
  function ItemsDone(w: Wire, id: int): Wire {
    Settle(w, id, Withdrawn)
  }

  /** The answer to the id is in hand: found and not told, or told and its entry not yet removed. */
  predicate Busy(w: Wire, id: int) {
    match w.handling
    case Idle => false
    case Found(_, i, _, _) => i == id
    case Leaving(i) => i == id && id in w.answers
  }

  function Expire(w: Wire, m: Message): Wire {
    Post(w, m).(outcomes := w.outcomes[m.id := TimedOut],
                expiries := w.expiries[m.id := |w.queue| < QUEUE_MAX],
                overtaken := if Busy(w, m.id) then w.overtaken + {m.id} else w.overtaken)
  }

  function ExpireAll(w: Wire, ms: seq<Message>): Wire {
    if ms == [] then w else Expire(ExpireAll(w, ms[..|ms| - 1]), ms[|ms| - 1])
  }

  function TickWire(w: Wire, now: nat): Wire {
    ExpireAll(w, Timeouts(w.cache.entries, now)).(cache := Tick(w.cache, now))
  }

  function Take(w: Wire): Wire {
    if w.queue == [] then w else w.(queue := w.queue[1..], delivered := w.delivered + [w.queue[0]])
  }

  function CreateDevice(w: Wire): Wire {
    w.(nextDev := w.nextDev + 1, status := w.status[w.nextDev := Authorized])
  }

  function DestroyDevice(w: Wire, devid: int): Wire {
    if devid <= LOCAL_NODE || devid !in w.status then w
    else w.(status := w.status - {devid}, destroyed := w.destroyed + {devid})
  }

  // ---------------------------------------------------------------- threads

  /** The calls that wait: connect a subdevice, delete its topology, log it in, log it out. */
  datatype Call = Connect(devid: int, proxy: bool) | DeleteTopo(devid: int) | LoginCall(devid: int) | LogoutCall(devid: int)

  datatype Result = Ok | RefusedByCloud | WaitFailed | Duplicate | NoSemaphore | SendFailed | NoDevice | BadDevice | NotLoggedIn

  /** Where a call stands; `last` is the message whose code decided the result. */
  datatype Phase =
    | Start(kind: Kind)
    | Sent(kind: Kind, id: int)
    | Waiting(kind: Kind, id: int, sem: nat)
    | Woken(kind: Kind, id: int, sem: nat)
    | Done(result: Result, id: int, last: Option<Message>)

  datatype Thread = Thread(call: Call, phase: Phase)

  datatype Table = Table(nextSem: nat, waiters: seq<Waiter>, sems: map<nat, nat>, threads: map<nat, Thread>)

  datatype State = State(wire: Wire, table: Table)

  const START := State(START_WIRE, Table(0, [], map[], map[]))

  function FirstKind(call: Call): Kind {
    match call
    case Connect(_, proxy) => if proxy then ProxyRegister else Register
    case DeleteTopo(_) => TopoDelete
    case LoginCall(_) => Login
    case LogoutCall(_) => Logout
  }

  /** Connecting goes on to the topology once the registration is through. */
  predicate More(call: Call, kind: Kind) {
    call.Connect? && !kind.TopoAdd?
  }

  function Move(tb: Table, t: nat, p: Phase): Table
    requires t in tb.threads
  {
    tb.(threads := tb.threads[t := tb.threads[t].(phase := p)])
  }

  predicate At(tb: Table, t: nat) {
    t in tb.threads
  }

  datatype Step =
    | BeginStep(t: nat, call: Call)
    | RegisteredStep(t: nat)
    | SendStep(t: nat, now: nat, sent: bool)
    | ReportStep(kind: Kind, devid: int, now: nat, sent: bool)
    | FindStep(kind: Kind, id: int, code: int)
    | TellStep
    | LeaveStep
    | ItemStep(kind: Kind, id: int, code: int, itemCode: int, devid: int)
    | ItemsDoneStep(id: int)
    | TickStep(now: nat)
    | DispatchStep
    | EnlistStep(t: nat, made: bool)
    | ExpireStep(t: nat)
    | WakeStep(t: nat)
    | FinishStep(t: nat)
    | CreateStep
    | DestroyStep(devid: int)

  /** A thread sends its next request; only a device that is logged in is logged out.  Registration takes id 0 for
      "nothing to wait for". */
  function SendNext(s: State, t: nat, now: nat, sent: bool): State
    requires At(s.table, t) && s.table.threads[t].phase.Start?
  {
    var th := s.table.threads[t];
    var kind, devid, id := th.phase.kind, th.call.devid, s.wire.nextId;
    if devid !in s.wire.status then State(s.wire, Move(s.table, t, Done(NoDevice, -1, None)))
    else if kind.Logout? && !s.wire.status[devid].Logined? then State(s.wire, Move(s.table, t, Done(NotLoggedIn, -1, None)))
    else
      State(Send(s.wire, kind, devid, now, sent),
            Move(s.table, t,
                 if !sent then Done(SendFailed, id, None)
                 else if More(th.call, kind) && id == 0 then Start(TopoAdd)
                 else Sent(kind, id)))
  }

  /** One message to the event callback: it sets the code of the waiter with its id and posts its semaphore. */
  function Deliver(s: State): State {
    if s.wire.queue == [] then s
    else
      var m := s.wire.queue[0];
      State(Take(s.wire), if Wakes(m.kind) then Notify(s.table, m) else s.table)
  }

  function Notify(tb: Table, m: Message): Table {
    var i := Place(tb.waiters, m.id);
    if i == |tb.waiters| then tb
    else
      var sem := tb.waiters[i].sem;
      tb.(waiters := Told(tb.waiters, m), sems := tb.sems[sem := if sem in tb.sems then tb.sems[sem] + 1 else 1])
  }

  function AddWaiter(tb: Table, t: nat, made: bool): Table
    requires At(tb, t) && tb.threads[t].phase.Sent?
  {
    var Sent(kind, id) := tb.threads[t].phase;
    if !made then Move(tb, t, Done(NoSemaphore, id, None))
    else if Waits(tb.waiters, id) then Move(tb.(nextSem := tb.nextSem + 1), t, Done(Duplicate, id, None))
    else
      var sem := tb.nextSem;
      Move(tb.(nextSem := sem + 1, sems := tb.sems[sem := 0],
               waiters := Enlist(tb.waiters, Waiter(id, sem, Success, t, None))), t, Waiting(kind, id, sem))
  }

  function DropWaiter(tb: Table, id: int): Table {
    var i := Place(tb.waiters, id);
    if i == |tb.waiters| then tb
    else tb.(waiters := Strike(tb.waiters, id), sems := tb.sems - {tb.waiters[i].sem})
  }

  /** A woken thread reads the code of its waiter and removes it. */
  function ReadAndLeave(tb: Table, t: nat): Table
    requires At(tb, t) && tb.threads[t].phase.Woken? && Waits(tb.waiters, tb.threads[t].phase.id)
  {
    var th := tb.threads[t];
    var Woken(kind, id, _) := th.phase;
    var w := tb.waiters[Place(tb.waiters, id)];
    Move(DropWaiter(tb, id), t,
         if w.code.Refused? then Done(RefusedByCloud, id, w.cause)
         else if More(th.call, kind) then Start(TopoAdd)
         else Done(Ok, id, w.cause))
  }

  function Next(s: State, step: Step): State {
    var tb := s.table;
    match step
    case BeginStep(t, call) =>
      if At(tb, t) then s
      else
        var refused := (call.Connect? || call.DeleteTopo?) && call.devid <= 0;
        var p := if refused then Done(BadDevice, -1, None) else Start(FirstKind(call));
        State(s.wire, tb.(threads := tb.threads[t := Thread(call, p)]))
    case RegisteredStep(t) =>
      if At(tb, t) && tb.threads[t].phase.Start? && More(tb.threads[t].call, tb.threads[t].phase.kind)
         && tb.threads[t].call.devid in s.wire.status
      then State(s.wire, Move(tb, t, Start(TopoAdd))) else s
    case SendStep(t, now, sent) =>
      if At(tb, t) && tb.threads[t].phase.Start? then SendNext(s, t, now, sent) else s
    case ReportStep(kind, devid, now, sent) =>
      if Gated(kind) && !Attaches(kind) && devid in s.wire.status then State(Send(s.wire, kind, devid, now, sent), tb) else s
    case FindStep(kind, id, code) =>
      if Gated(kind) && s.wire.handling.Idle? then State(FindReply(s.wire, kind, id, code), tb) else s
    case TellStep => State(TellUser(s.wire), tb)
    case LeaveStep => State(Leave(s.wire), tb)
    case ItemStep(kind, id, code, itemCode, devid) =>
      if s.wire.handling.Idle? then State(Item(s.wire, kind, id, code, itemCode, devid), tb) else s
    case ItemsDoneStep(id) =>
      if s.wire.handling.Idle? then State(ItemsDone(s.wire, id), tb) else s
    case TickStep(now) => State(TickWire(s.wire, now), tb)
    case DispatchStep => Deliver(s)
    case EnlistStep(t, made) =>
      if At(tb, t) && tb.threads[t].phase.Sent? then State(s.wire, AddWaiter(tb, t, made)) else s
    case ExpireStep(t) =>
      if At(tb, t) && tb.threads[t].phase.Waiting?
      then
        var id := tb.threads[t].phase.id;
        State(s.wire, Move(DropWaiter(tb, id), t, Done(WaitFailed, id, None)))
      else s
    case WakeStep(t) =>
      if At(tb, t) && tb.threads[t].phase.Waiting?
         && tb.threads[t].phase.sem in tb.sems && tb.sems[tb.threads[t].phase.sem] > 0
      then
        var Waiting(kind, id, sem) := tb.threads[t].phase;
        State(s.wire, Move(tb.(sems := tb.sems[sem := tb.sems[sem] - 1]), t, Woken(kind, id, sem)))
      else s
    case FinishStep(t) =>
      if At(tb, t) && tb.threads[t].phase.Woken? && Waits(tb.waiters, tb.threads[t].phase.id)
      then State(s.wire, ReadAndLeave(tb, t)) else s
    case CreateStep => State(CreateDevice(s.wire), tb)
    case DestroyStep(devid) => State(DestroyDevice(s.wire, devid), tb)
  }

  /** The thread sends a request in its next step. */
  predicate Asks(s: State, t: nat) {
    At(s.table, t) && s.table.threads[t].phase.Start? && s.table.threads[t].call.devid in s.wire.status
    && (s.table.threads[t].phase.kind.Logout? ==> s.wire.status[s.table.threads[t].call.devid].Logined?)
  }

  /** What a step does on the side of the cloud. */
  function WireAfter(s: State, step: Step): Wire {
    var w := s.wire;
    match step
    case SendStep(t, now, sent) =>
      if Asks(s, t) then Send(w, s.table.threads[t].phase.kind, s.table.threads[t].call.devid, now, sent) else w
    case ReportStep(kind, devid, now, sent) =>
      if Gated(kind) && !Attaches(kind) && devid in w.status then Send(w, kind, devid, now, sent) else w
    case FindStep(kind, id, code) => if Gated(kind) && w.handling.Idle? then FindReply(w, kind, id, code) else w
    case TellStep => TellUser(w)
    case LeaveStep => Leave(w)
    case ItemStep(kind, id, code, itemCode, devid) => if w.handling.Idle? then Item(w, kind, id, code, itemCode, devid) else w
    case ItemsDoneStep(id) => if w.handling.Idle? then ItemsDone(w, id) else w
    case TickStep(now) => TickWire(w, now)
    case DispatchStep => Take(w)
    case CreateStep => CreateDevice(w)
    case DestroyStep(devid) => DestroyDevice(w, devid)
    case _ => w
  }

  lemma {:induction false} StepWire(s: State, step: Step)
    ensures Next(s, step).wire == WireAfter(s, step)
  {
    hide Send, FindReply, TellUser, Leave, Item, ItemsDone, TickWire, CreateDevice, DestroyDevice, Notify, AddWaiter,
         DropWaiter, ReadAndLeave, Move, Place;
  }

  function Run(s: State, steps: seq<Step>): State {
    if steps == [] then s else Next(Run(s, steps[..|steps| - 1]), steps[|steps| - 1])
  }
}
