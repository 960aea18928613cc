/** When the reply to a request reaches the thread that waits for it, and when it is lost. */
module LifecycleReplies {
  import opened Messages
  import opened Text
  import opened MessageCache
  import opened MessageQueue
  import opened Waiters
  import opened Lifecycle
  import opened LifecycleInvariants
  import opened LifecycleThreads
  import opened LifecycleLaws

  // ---------------------------------------------------------------- before or after the dispatch

  /** Nothing on the way can still reach a waiter with this id. */
  ghost predicate Quiet(w: Wire, id: int) {
    && id in w.requests && id !in Ids(w.cache.entries) && (forall m <- w.queue :: m.id != id)
    && (w.handling.Found? ==> w.handling.id != id)
  }

  /** The thread waits in vain, or has given up. */
  ghost predicate InVain(tb: Table, t: nat, id: int) {
    && t in tb.threads
    && match tb.threads[t].phase {
         case Sent(_, i) => i == id
         case Waiting(_, i, _) => i == id && Waits(tb.waiters, id) && tb.waiters[Place(tb.waiters, id)].cause.None?
         case Done(r, i, _) => i == id && (r.WaitFailed? || r.NoSemaphore?)
         case _ => false
       }
  }

  /** The thread was posted with a success code, has woken to it, or has succeeded. */
  ghost predicate Assured(tb: Table, t: nat, id: int) {
    && t in tb.threads
    && match tb.threads[t].phase {
         case Waiting(kind, i, sem) =>
           && i == id && kind == LastKind(tb.threads[t].call) && sem in tb.sems && tb.sems[sem] > 0
           && Waits(tb.waiters, id) && tb.waiters[Place(tb.waiters, id)].code.Success?
           && tb.waiters[Place(tb.waiters, id)].sem == sem
         case Woken(kind, i, _) =>
           && i == id && kind == LastKind(tb.threads[t].call)
           && Waits(tb.waiters, id) && tb.waiters[Place(tb.waiters, id)].code.Success?
         case Done(r, i, _) => i == id && r.Ok?
         case _ => false
       }
  }

  /** No item of an open reply for the id. */
  predicate Elsewhere(step: Step, id: int) {
    step.ItemStep? ==> step.id != id
  }

  lemma {:induction false} QuietPost(w: Wire, m: Message, id: int)
    requires m.id != id && forall x <- w.queue :: x.id != id
    ensures forall x <- Post(w, m).queue :: x.id != id
  {
  }

  lemma {:induction false} QuietExpire(w: Wire, ms: seq<Message>, id: int)
    requires id !in MessageIds(ms) && forall x <- w.queue :: x.id != id
    ensures forall x <- ExpireAll(w, ms).queue :: x.id != id
  {
    if ms != [] {
      var n := |ms| - 1;
      assert ms[..n] + [ms[n]] == ms;
      MessageIdsLast(ms[..n], ms[n]);
      QuietExpire(w, ms[..n], id);
      QuietPost(ExpireAll(w, ms[..n]), ms[n], id);
    }
  }

  lemma {:induction false} QuietSend(w: Wire, kind: Kind, devid: int, now: nat, sent: bool, id: int)
    requires WireOk(w) && Quiet(w, id)
    ensures Quiet(Send(w, kind, devid, now, sent), id)
  {
    hide CacheOk, Settled, Conserved, Counted, AllExplained, Ended, InHand, DevicesOk, LoginOk;
    SendCache(w, kind, devid, now, sent);
    SendShape(w, kind, devid, now, sent);
    IdsAppend(w.cache.entries, Pending(w.nextId, devid, kind, now));
    hide Send, Ids;
  }

  lemma {:induction false} QuietFind(w: Wire, kind: Kind, from: int, code: int, id: int)
    requires Quiet(w, id)
    ensures Quiet(FindReply(w, kind, from, code), id)
  {
    HoldsIs(w.cache.entries, from);
    hide Ids, Position;
  }

  lemma {:induction false} QuietSettle(w: Wire, from: int, o: Outcome, id: int)
    requires WireOk(w) && Quiet(w, id)
    ensures Quiet(Settle(w, from, o), id) && Quiet(Settle(w, from, o).(handling := Idle), id)
  {
    IdsRemove(w.cache.entries, w.cache.size, from);
    hide Ids, DistinctIds, Remove, Position;
  }

  lemma {:induction false} QuietStep(s: State, step: Step, id: int)
    requires StateOk(s) && Quiet(s.wire, id) && Elsewhere(step, id)
    ensures Quiet(Next(s, step).wire, id)
  {
    StepWire(s, step);
    WireOfState(s);
    QuietWire(s, step, id);
    hide Next, StateOk, WireOk, WireAfter, Quiet;
  }

  lemma {:induction false} QuietWire(s: State, step: Step, id: int)
    requires WireOk(s.wire) && Quiet(s.wire, id) && Elsewhere(step, id)
    ensures Quiet(WireAfter(s, step), id)
  {
    QuietElse(s.wire, id);
    hide Asks, WireOk, Send, FindReply, TellUser, Item, Settle, TickWire, Take, CreateDevice, DestroyDevice, Quiet;
    var w := s.wire;
    match step {
      case SendStep(t, now, sent) =>
        if Asks(s, t) {
          QuietSend(w, s.table.threads[t].phase.kind, s.table.threads[t].call.devid, now, sent, id);
        }
      case ReportStep(kind, devid, now, sent) => QuietSend(w, kind, devid, now, sent, id);
      case FindStep(kind, from, code) => QuietFind(w, kind, from, code, id);
      case LeaveStep =>
        if w.handling.Leaving? {
          QuietSettle(w, w.handling.id, if w.handling.id in w.answers then Replied else Withdrawn, id);
        }
      case ItemsDoneStep(from) => QuietSettle(w, from, Withdrawn, id);
      case TickStep(now) => QuietTick(w, now, id);
      case _ =>
    }
  }

  lemma {:induction false} QuietElse(w: Wire, id: int)
    requires Quiet(w, id)
    ensures forall kind, from, code, itemCode, devid :: from != id ==> Quiet(Item(w, kind, from, code, itemCode, devid), id)
    ensures Quiet(TellUser(w), id) && Quiet(Take(w), id) && Quiet(w.(handling := Idle), id)
    ensures Quiet(CreateDevice(w), id) && forall devid :: Quiet(DestroyDevice(w, devid), id)
  {
    hide Ids;
  }

  lemma {:induction false} QuietTick(w: Wire, now: nat, id: int)
    requires WireOk(w) && Quiet(w, id)
    ensures Quiet(TickWire(w, now), id)
  {
    hide Ids, DistinctIds, Survivors, Timeouts, ExpireAll, Settled, Conserved, Counted, AllExplained, Ended, InHand, DevicesOk,
         LoginOk, Numbered;
    IdsTick(w.cache.entries, now);
    QuietExpire(w, Timeouts(w.cache.entries, now), id);
    ExpireAllFrame(w, Timeouts(w.cache.entries, now));
  }

  lemma {:induction false} IdKnown(s: State, id: int)
    requires StateOk(s) && Quiet(s.wire, id)
    ensures id >= 0 && id in s.wire.requests && forall m <- s.wire.queue :: m.id != id
  {
    hide TableOk, CacheOk, Settled, Conserved, Counted, AllExplained, DevicesOk, LoginOk, InHand, Ended;
  }

  /** What a thread with this id has come to: assured of its success, or waiting in vain. */
  ghost predicate Fated(tb: Table, t: nat, id: int, posted: bool) {
    if posted then Assured(tb, t, id) else InVain(tb, t, id)
  }

  /** A message for another id leaves the waiter alone. */
  lemma {:induction false} FatedTold(tb: Table, t: nat, id: int, posted: bool, m: Message)
    requires Fated(tb, t, id, posted) && m.id != id
    ensures Fated(Notify(tb, m), t, id, posted)
  {
    hide Place, Told;
    ToldPlaces(tb.waiters, m, id);
    ToldAt(tb.waiters, m, id);
  }

  /** So does a waiter that enters, */
  lemma {:induction false} FatedEnlist(s: State, t: nat, id: int, posted: bool, u: nat)
    requires StateOk(s) && Fated(s.table, t, id, posted) && u in s.table.threads && s.table.threads[u].phase.Sent?
    ensures Fated(AddWaiter(s.table, u, true), t, id, posted)
  {
    hide Place, Enlist, WireOk, Proper;
    var tb := s.table;
    NeverDuplicate(tb, s.wire, u);
    EnlistPlaces(tb.waiters, Waiter(tb.threads[u].phase.id, tb.nextSem, Success, u, None), id);
  }

  /** one that leaves, which takes its own semaphore with it, */
  lemma {:induction false} FatedLeave(s: State, t: nat, id: int, posted: bool, u: nat, p: Phase)
    requires StateOk(s) && Fated(s.table, t, id, posted) && id >= 0
    requires u in s.table.threads && u != t && Enlisted(s.table.threads[u].phase)
    ensures Fated(Move(DropWaiter(s.table, s.table.threads[u].phase.id), u, p), t, id, posted)
  {
    hide Place, Strike, WireOk, Proper, Owned, Coded, Phased;
    var ws, other := s.table.waiters, s.table.threads[u].phase.id;
    assert PhaseId(s.table.threads[t].phase) != PhaseId(s.table.threads[u].phase);
    StrikeKeeps(ws, other, id);
    if Waits(ws, id) && Waits(ws, other) {
      PlaceHas(ws, id);
      PlaceHas(ws, other);
      WaitersDiffer(ws, s.table.sems, Place(ws, id), Place(ws, other));
    }
  }

  /** and a thread that wakes up, which takes a post of its own semaphore. */
  lemma {:induction false} FatedWake(s: State, t: nat, id: int, posted: bool, u: nat)
    requires StateOk(s) && Fated(s.table, t, id, posted) && u in s.table.threads && s.table.threads[u].phase.Waiting?
    requires u != t && id >= 0
    ensures Fated(Next(s, WakeStep(u)).table, t, id, posted)
  {
    hide Place, WireOk, Proper, Coded;
    var ws := s.table.waiters;
    assert PhaseId(s.table.threads[t].phase) != PhaseId(s.table.threads[u].phase);
    WaitingPlace(s, u);
    if Waits(ws, id) {
      PlaceHas(ws, id);
      PlaceHas(ws, s.table.threads[u].phase.id);
      WaitersDiffer(ws, s.table.sems, Place(ws, id), Place(ws, s.table.threads[u].phase.id));
    }
  }

  /** Beginning, sending and what happens on the other side leave it alone, too. */
  lemma {:induction false} FatedAside(s: State, step: Step, t: nat, id: int, posted: bool)
    requires Fated(s.table, t, id, posted) && id >= 0
    requires !step.DispatchStep? && !step.EnlistStep? && !step.ExpireStep? && !step.WakeStep? && !step.FinishStep?
    ensures Fated(Next(s, step).table, t, id, posted)
  {
    hide Send, FindReply, TellUser, Leave, TickWire, Item, ItemsDone, Place, CreateDevice, DestroyDevice;
  }

  lemma {:induction false} AddWaiterUnmade(tb: Table, u: nat)
    ensures At(tb, u) && tb.threads[u].phase.Sent? ==>
              AddWaiter(tb, u, false) == Move(tb, u, Done(NoSemaphore, tb.threads[u].phase.id, None))
  {
  }

  lemma {:induction false} NoPostYet(s: State, t: nat)
    requires StateOk(s) && t in s.table.threads && s.table.threads[t].phase.Waiting?
    requires s.table.waiters[Place(s.table.waiters, s.table.threads[t].phase.id)].cause.None?
    requires Waits(s.table.waiters, s.table.threads[t].phase.id)
    ensures var sem := s.table.threads[t].phase.sem; sem in s.table.sems && s.table.sems[sem] == 0
  {
    WaitingPlace(s, t);
    assert CodeOk(s.table.waiters[Place(s.table.waiters, s.table.threads[t].phase.id)], s.table.sems, s.wire.delivered);
  }

  /** A thread gives up, wakes up or reads its code.  Without a post the thread itself can only give up, with one it goes on
      to its success. */
  lemma {:induction false} FatedMove(s: State, step: Step, u: nat, t: nat, id: int, posted: bool)
    requires StateOk(s) && Fated(s.table, t, id, posted) && id >= 0 && (posted ==> step != ExpireStep(t))
    requires step == WakeStep(u) || step == FinishStep(u) || step == ExpireStep(u)
    ensures Fated(Next(s, step).table, t, id, posted)
  {
    hide Place, Strike, StateOk;
    if u == t {
      if step.WakeStep? && !posted && s.table.threads[t].phase.Waiting? {
        NoPostYet(s, t);
      }
    } else if At(s.table, u) && s.table.threads[u].phase.Waiting? && step.WakeStep? {
      FatedWake(s, t, id, posted, u);
    } else if At(s.table, u) && s.table.threads[u].phase.Waiting? && step.ExpireStep? {
      hide DropWaiter, Fated;
      FatedLeave(s, t, id, posted, u, Done(WaitFailed, s.table.threads[u].phase.id, None));
    } else if At(s.table, u) && s.table.threads[u].phase.Woken? && step.FinishStep?
              && Waits(s.table.waiters, s.table.threads[u].phase.id) {
      hide DropWaiter, Fated;
      FatedLeave(s, t, id, posted, u, ReadAndLeave(s.table, u).threads[u].phase);
    }
  }

  lemma {:induction false} FatedEnlists(s: State, u: nat, made: bool, t: nat, id: int, posted: bool)
    requires StateOk(s) && Fated(s.table, t, id, posted)
    ensures Fated(Next(s, EnlistStep(u, made)).table, t, id, posted)
  {
    hide Place, StateOk, AddWaiter;
    if made && At(s.table, u) && s.table.threads[u].phase.Sent? {
      FatedEnlist(s, t, id, posted, u);
    } else {
      AddWaiterUnmade(s.table, u);
    }
  }

  lemma {:induction false} FatedDispatch(s: State, t: nat, id: int, posted: bool)
    requires Fated(s.table, t, id, posted) && forall m <- s.wire.queue :: m.id != id
    ensures Fated(Next(s, DispatchStep).table, t, id, posted)
  {
    hide Notify, Fated, Take;
    if s.wire.queue != [] {
      FatedTold(s.table, t, id, posted, s.wire.queue[0]);
    }
  }

  lemma {:induction false} FatedStep(s: State, step: Step, t: nat, id: int, posted: bool)
    requires StateOk(s) && Quiet(s.wire, id) && Fated(s.table, t, id, posted)
    requires Elsewhere(step, id) && (posted ==> step != ExpireStep(t))
    ensures Fated(Next(s, step).table, t, id, posted)
  {
    IdKnown(s, id);
    hide StateOk, Quiet, Next, Fated;
    match step {
      case DispatchStep => FatedDispatch(s, t, id, posted);
      case EnlistStep(u, made) => FatedEnlists(s, u, made, t, id, posted);
      case ExpireStep(u) => FatedMove(s, step, u, t, id, posted);
      case WakeStep(u) => FatedMove(s, step, u, t, id, posted);
      case FinishStep(u) => FatedMove(s, step, u, t, id, posted);
      case _ => FatedAside(s, step, t, id, posted);
    }
  }

  /** Once the reply to a request went by before its thread was in the list, the call ends in a timeout in every
      continuation, unless an open reply carries its id: it never succeeds and is never refused. */
  lemma {:induction false} EarlyReplyLost(s: State, steps: seq<Step>, t: nat, id: int)
    requires StateOk(s) && t in s.table.threads && s.table.threads[t].phase.Sent? && s.table.threads[t].phase.id == id
    requires Quiet(s.wire, id) && forall step <- steps :: Elsewhere(step, id)
    ensures Quiet(Run(s, steps).wire, id) && InVain(Run(s, steps).table, t, id)
    ensures var p := Run(s, steps).table.threads[t].phase;
            && (p.Sent? || p.Waiting? || p.Done?) && p.id == id
            && (p.Done? ==> p.result == WaitFailed || p.result == NoSemaphore)
  {
    if steps != [] {
      var n := |steps| - 1;
      EarlyReplyLost(s, steps[..n], t, id);
      RunOk(s, steps[..n]);
      QuietStep(Run(s, steps[..n]), steps[n], id);
      FatedStep(Run(s, steps[..n]), steps[n], t, id, false);
    }
  }

  /** A call whose success was posted keeps it in every continuation in which its wait does not expire. */
  lemma {:induction false} PostedReplyKept(s: State, steps: seq<Step>, t: nat, id: int)
    requires StateOk(s) && Quiet(s.wire, id) && Assured(s.table, t, id)
    requires forall step <- steps :: Elsewhere(step, id) && step != ExpireStep(t)
    ensures Quiet(Run(s, steps).wire, id) && Assured(Run(s, steps).table, t, id)
    ensures var p := Run(s, steps).table.threads[t].phase;
            (p.Waiting? || p.Woken? || p.Done?) && p.id == id && (p.Done? ==> p.result == Ok)
  {
    if steps != [] {
      var n := |steps| - 1;
      PostedReplyKept(s, steps[..n], t, id);
      RunOk(s, steps[..n]);
      QuietStep(Run(s, steps[..n]), steps[n], id);
      FatedStep(Run(s, steps[..n]), steps[n], t, id, true);
    }
  }

  /** When the last message for a request is dispatched, whether its thread is in the list decides the call for good: a
      listed one goes on to success unless its wait expires, one that is not listed can only time out. */
  lemma {:induction false} DispatchDecides(s: State, t: nat, more: seq<Step>)
    requires StateOk(s) && s.wire.queue != [] && s.wire.queue[0].code == 200
    requires s.wire.queue[0].kind in {TopoAdd, TopoDelete, Register, ProxyRegister, Login, Logout}
    requires t in s.table.threads && (s.table.threads[t].phase.Sent? || s.table.threads[t].phase.Waiting?)
    requires s.table.threads[t].phase.kind == LastKind(s.table.threads[t].call)
    requires s.table.threads[t].phase.id == s.wire.queue[0].id && Quiet(Next(s, DispatchStep).wire, s.wire.queue[0].id)
    requires forall step <- more :: Elsewhere(step, s.wire.queue[0].id) && step != ExpireStep(t)
    ensures var id, u := s.wire.queue[0].id, Run(Next(s, DispatchStep), more);
            if s.table.threads[t].phase.Waiting? then Assured(u.table, t, id) else InVain(u.table, t, id)
  {
    hide StateOk, Next, Run, Quiet, Assured, InVain;
    var m, u := s.wire.queue[0], Next(s, DispatchStep);
    StepOk(s, DispatchStep);
    if s.table.threads[t].phase.Waiting? {
      HeadWakes(s, t);
      PostedReplyKept(u, more, t, m.id);
    } else {
      DispatchThreads(s);
      EarlyReplyLost(u, more, t, m.id);
    }
  }

  lemma {:induction false} DispatchThreads(s: State)
    ensures Next(s, DispatchStep).table.threads == s.table.threads
  {
  }

  lemma {:induction false} HeadWakes(s: State, t: nat)
    requires StateOk(s) && s.wire.queue != [] && s.wire.queue[0].code == 200
    requires s.wire.queue[0].kind in {TopoAdd, TopoDelete, Register, ProxyRegister, Login, Logout}
    requires t in s.table.threads && s.table.threads[t].phase.Waiting? && s.table.threads[t].phase.id == s.wire.queue[0].id
    requires s.table.threads[t].phase.kind == LastKind(s.table.threads[t].call)
    ensures Assured(Next(s, DispatchStep).table, t, s.wire.queue[0].id)
  {
    hide StateOk, Place, Told;
    var m := s.wire.queue[0];
    WaitingPlace(s, t);
    ToldPlaces(s.table.waiters, m, m.id);
    ToldAt(s.table.waiters, m, m.id);
  }

  // ---------------------------------------------------------------- a reply from end to end

  /** The three steps of a reply with the success code to a topology request. */
  function Answering(id: int): seq<Step> {
    [FindStep(TopoAdd, id, CODE_SUCCESS), TellStep, LeaveStep]
  }

  function Dispatches(k: nat): seq<Step> {
    seq(k, _ => DispatchStep)
  }

  /** A topology request is pending, the reply thread is idle and the queue has room. */
  ghost predicate Pendent(s: State, t: nat) {
    && t in s.table.threads && (s.table.threads[t].phase.Sent? || s.table.threads[t].phase.Waiting?)
    && s.table.threads[t].phase.kind.TopoAdd? && s.table.threads[t].call.Connect?
    && s.table.threads[t].call.devid in s.wire.status && s.table.threads[t].phase.id in Ids(s.wire.cache.entries)
    && s.wire.handling.Idle? && |s.wire.queue| < QUEUE_MAX
  }

  function Accepting(s: State, t: nat): Message
    requires t in s.table.threads && !s.table.threads[t].phase.Start?
  {
    Message(TopoAdd, s.table.threads[t].phase.id, CODE_SUCCESS, s.table.threads[t].call.devid, FromAnswer(true))
  }

  lemma {:induction false} Run3(s: State, a: Step, b: Step, c: Step)
    ensures Run(s, [a, b, c]) == Next(Next(Next(s, a), b), c)
  {
    RunNothing(s);
    hide Run, Next;
    RunThen(s, [], a);
    RunThen(s, [a], b);
    RunThen(s, [a, b], c);
    assert [a, b, c] == [a, b] + [c] && [a, b] == [a] + [b] && [] + [a] == [a];
  }

  /** The reply sets the device ATTACHED, queues its message and takes the request out of the cache. */
  lemma {:induction false} ReplyQueues(s: State, t: nat)
    requires StateOk(s) && Pendent(s, t)
    ensures var th := s.table.threads[t];
            var u := Run(s, Answering(th.phase.id));
            && StateOk(u) && u.table == s.table && u.wire.queue == s.wire.queue + [Accepting(s, t)]
            && u.wire.handling.Idle? && th.phase.id !in Ids(u.wire.cache.entries) && th.phase.id in u.wire.requests
            && u.wire.status == s.wire.status[th.call.devid := Attached] && th.call.devid in u.wire.attached
            && u.wire.replies == s.wire.replies + {Reply(TopoAdd, th.phase.id, CODE_SUCCESS)}
            && u.wire.requests == s.wire.requests
  {
    hide StateOk, Ids, Next, Run, Settle;
    var id := s.table.threads[t].phase.id;
    Run3(s, FindStep(TopoAdd, id, CODE_SUCCESS), TellStep, LeaveStep);
    ReplyFound(s, t);
    var s1 := Next(s, FindStep(TopoAdd, id, CODE_SUCCESS));
    ReplyTold(s1, id, s.table.threads[t].call.devid);
    ReplyLeaves(Next(s1, TellStep), id);
  }

  lemma {:induction false} ReplyFound(s: State, t: nat)
    requires StateOk(s) && Pendent(s, t)
    ensures var th := s.table.threads[t];
            var u := Next(s, FindStep(TopoAdd, th.phase.id, CODE_SUCCESS));
            && StateOk(u) && u.table == s.table && th.phase.id in s.wire.requests
            && u.wire == s.wire.(handling := Found(TopoAdd, th.phase.id, CODE_SUCCESS, th.call.devid))
  {
    hide Ids, DistinctIds, Position;
    var th, e := s.table.threads[t], s.wire.cache.entries;
    assert PhaseOk(th.call, t, th.phase, s.table.waiters, s.wire);
    HoldsIs(e, th.phase.id);
    assert e[Position(e, th.phase.id)] in e;
    StepOk(s, FindStep(TopoAdd, th.phase.id, CODE_SUCCESS));
    hide StateOk;
  }

  lemma {:induction false} ReplyTold(s: State, id: int, devid: int)
    requires StateOk(s) && s.wire.handling == Found(TopoAdd, id, CODE_SUCCESS, devid) && devid in s.wire.status
    requires |s.wire.queue| < QUEUE_MAX
    ensures var u := Next(s, TellStep);
            && StateOk(u) && u.table == s.table && u.wire.handling == Leaving(id) && u.wire.cache == s.wire.cache
            && u.wire.queue == s.wire.queue + [Message(TopoAdd, id, CODE_SUCCESS, devid, FromAnswer(true))]
            && u.wire.status == s.wire.status[devid := Attached] && devid in u.wire.attached
            && u.wire.replies == s.wire.replies + {Reply(TopoAdd, id, CODE_SUCCESS)} && u.wire.requests == s.wire.requests
  {
    hide StateOk;
    StepOk(s, TellStep);
  }

  lemma {:induction false} ReplyLeaves(s: State, id: int)
    requires StateOk(s) && s.wire.handling == Leaving(id)
    ensures var u := Next(s, LeaveStep);
            && StateOk(u) && u.table == s.table && u.wire.handling.Idle? && id !in Ids(u.wire.cache.entries)
            && u.wire == s.wire.(handling := Idle, cache := u.wire.cache, outcomes := u.wire.outcomes)
  {
    IdsRemove(s.wire.cache.entries, s.wire.cache.size, id);
    hide StateOk, Ids, Remove, Position;
    StepOk(s, LeaveStep);
  }

  /** As many dispatches as there are messages: the last one is the one before the end. */
  lemma {:induction false} Drained(s: State, k: nat)
    requires StateOk(s) && k <= |s.wire.queue|
    ensures var u := Run(s, Dispatches(k));
            && StateOk(u) && u.table.threads == s.table.threads && u.wire.queue == s.wire.queue[k..]
            && u.wire == s.wire.(queue := u.wire.queue, delivered := u.wire.delivered)
  {
    hide StateOk;
    if k > 0 {
      Drained(s, k - 1);
      assert Dispatches(k) == Dispatches(k - 1) + [DispatchStep];
      RunThen(s, Dispatches(k - 1), DispatchStep);
      StepOk(Run(s, Dispatches(k - 1)), DispatchStep);
      DispatchThreads(Run(s, Dispatches(k - 1)));
      hide Run, Notify;
    }
  }

  /** The reply and the dispatch of everything queued, its own message last. */
  function AnswerAndDispatch(s: State, t: nat): seq<Step>
    requires t in s.table.threads && !s.table.threads[t].phase.Start?
  {
    Answering(s.table.threads[t].phase.id) + Dispatches(|s.wire.queue| + 1)
  }

  /** A topology request is answered with success and everything queued is dispatched: from then on, in every continuation
      in which its wait does not expire, the call goes on to success if its thread was in the list, and can only time out
      if it was not, although the device was set ATTACHED in both cases. */
  lemma {:induction false} ReplyArrivesExactly(s: State, t: nat, more: seq<Step>)
    requires StateOk(s) && Pendent(s, t)
    requires forall step <- more :: Elsewhere(step, s.table.threads[t].phase.id) && step != ExpireStep(t)
    ensures var th := s.table.threads[t];
            var u := Run(s, AnswerAndDispatch(s, t) + more);
            && th.call.devid in u.wire.attached
            && (Assured(u.table, t, th.phase.id) <==> th.phase.Waiting?)
            && (InVain(u.table, t, th.phase.id) <==> th.phase.Sent?)
  {
    hide StateOk, Run, Next, Quiet, Assured, InVain, Ids;
    var id, k := s.table.threads[t].phase.id, |s.wire.queue|;
    ReplyQueues(s, t);
    var s1 := Run(s, Answering(id));
    Drained(s1, k);
    var s2 := Run(s1, Dispatches(k));
    Drained(s1, k + 1);
    assert Dispatches(k + 1) == Dispatches(k) + [DispatchStep];
    RunThen(s1, Dispatches(k), DispatchStep);
    var s3 := Next(s2, DispatchStep);
    DrainedQuiet(s3, id);
    DispatchDecides(s2, t, more);
    RunOn(s, Answering(id), Dispatches(k + 1));
    RunOn(s, AnswerAndDispatch(s, t), more);
    RunOk(s3, more);
    NotBoth(Run(s3, more), t, id);
    GrowsAttached(s3.wire, Run(s3, more).wire, s.table.threads[t].call.devid);
  }

  lemma {:induction false} DrainedQuiet(s: State, id: int)
    requires s.wire.queue == [] && s.wire.handling.Idle? && id !in Ids(s.wire.cache.entries) && id in s.wire.requests
    ensures Quiet(s.wire, id)
  {
  }

  lemma {:induction false} NotBoth(s: State, t: nat, id: int)
    requires StateOk(s)
    ensures !(Assured(s.table, t, id) && InVain(s.table, t, id))
  {
    if Assured(s.table, t, id) && InVain(s.table, t, id) && s.table.threads[t].phase.Waiting? {
      NoPostYet(s, t);
    }
  }

  lemma {:induction false} GrowsAttached(w: Wire, u: Wire, d: int)
    requires Grows(w, u) && d in w.attached
    ensures d in u.attached
  {
  }

  /** With the thread in the list, the wake-up makes the call succeed. */
  lemma {:induction false} ReplyArrives(s: State, t: nat)
    requires StateOk(s) && Pendent(s, t) && s.table.threads[t].phase.Waiting?
    ensures var u := Run(s, AnswerAndDispatch(s, t) + [WakeStep(t)] + [FinishStep(t)]);
            Succeeded(u, t) && s.table.threads[t].call.devid in u.wire.attached
  {
    hide StateOk, Run, Next, Assured, InVain, Ids;
    var steps := AnswerAndDispatch(s, t);
    ReplyArrivesExactly(s, t, []);
    assert steps + [] == steps;
    AnswerKeepsThreads(s, t);
    RunOk(s, steps);
    RunThen(s, steps, WakeStep(t));
    RunThen(s, steps + [WakeStep(t)], FinishStep(t));
    AssuredSucceeds(Run(s, steps), t);
  }

  lemma {:induction false} AnswerKeepsThreads(s: State, t: nat)
    requires StateOk(s) && Pendent(s, t)
    ensures Run(s, AnswerAndDispatch(s, t)).table.threads == s.table.threads
  {
    hide StateOk, Run, Ids;
    ReplyQueues(s, t);
    var s1 := Run(s, Answering(s.table.threads[t].phase.id));
    Drained(s1, |s.wire.queue| + 1);
    RunOn(s, Answering(s.table.threads[t].phase.id), Dispatches(|s.wire.queue| + 1));
  }

  lemma {:induction false} AssuredSucceeds(s: State, t: nat)
    requires StateOk(s) && t in s.table.threads && s.table.threads[t].phase.Waiting?
    requires Assured(s.table, t, s.table.threads[t].phase.id)
    ensures var u := Next(Next(s, WakeStep(t)), FinishStep(t));
            Succeeded(u, t) && u.wire == s.wire
  {
    WakeAndFinish(s, t);
  }

  /** From the start: a connect whose thread is listed in time succeeds, with a cloud that answers on the topic of the
      request, and its device is attached. */
  lemma {:induction false} ConnectSucceeds()
    ensures var s := Run(START, SENDING + [EnlistStep(0, true)] + (Answering(0) + Dispatches(1) + [WakeStep(0)] + [FinishStep(0)]));
            && Reachable(s) && Succeeded(s, 0) && s.table.threads[0].call == CONNECT
            && Matching(s.wire) && 1 in s.wire.attached
  {
    hide StateOk, Run, Next, Ids, Assured;
    var connecting := SENDING + [EnlistStep(0, true)];
    var s := Run(START, connecting);
    var more := Answering(0) + Dispatches(1) + [WakeStep(0)] + [FinishStep(0)];
    Connecting();
    StartStateOk();
    RunOk(START, connecting);
    OnePending(s.wire);
    ReplyArrives(s, 0);
    assert AnswerAndDispatch(s, 0) == Answering(0) + Dispatches(1);
    RunOn(START, connecting, more);
    assert Reachable(Run(START, connecting + more));
    AnswerMatches(s, 0, [WakeStep(0)] + [FinishStep(0)]);
    assert AnswerAndDispatch(s, 0) + ([WakeStep(0)] + [FinishStep(0)]) == more;
    CallStays(s, more, 0);
  }

  /** From the start: the same request, answered and dispatched before its thread is listed, times out with its device
      attached. */
  lemma {:induction false} ConnectTimesOut()
    ensures var s := Run(START, SENDING + (Answering(0) + Dispatches(1) + ([EnlistStep(0, true)] + [ExpireStep(0)])));
            && Reachable(s) && 0 in s.table.threads && s.table.threads[0] == Thread(CONNECT, Done(WaitFailed, 0, None))
            && Matching(s.wire) && 1 in s.wire.attached
  {
    hide StateOk, Run, Next, Ids, Assured, InVain;
    var s := Run(START, SENDING);
    Connecting();
    StartStateOk();
    RunOk(START, SENDING);
    OnePending(s.wire);
    var steps, late := AnswerAndDispatch(s, 0), [EnlistStep(0, true)] + [ExpireStep(0)];
    assert steps == Answering(0) + Dispatches(1);
    ReplyArrivesExactly(s, 0, []);
    assert steps + [] == steps;
    AnswerKeepsThreads(s, 0);
    var u := Run(s, steps);
    RunOk(s, steps);
    RunOn(s, steps, late);
    RunThen(u, [EnlistStep(0, true)], ExpireStep(0));
    RunThen(u, [], EnlistStep(0, true));
    assert [] + [EnlistStep(0, true)] == [EnlistStep(0, true)] && Run(u, []) == u by { RunNothing(u); }
    ListedTooLate(u);
    RunOn(START, SENDING, steps + late);
    assert Reachable(Run(START, SENDING + (steps + late)));
    AnswerMatches(s, 0, late);
    assert steps + late == Answering(0) + Dispatches(1) + late;
  }

  lemma {:induction false} OnePending(w: Wire)
    requires OneRequest(w)
    ensures 0 in Ids(w.cache.entries)
  {
    HoldsIs(w.cache.entries, 0);
    IdsMember(w.cache.entries, 0);
  }

  lemma {:induction false} ListedTooLate(s: State)
    requires StateOk(s) && 0 in s.table.threads && s.table.threads[0] == Thread(CONNECT, Sent(TopoAdd, 0))
    ensures var u := Next(Next(s, EnlistStep(0, true)), ExpireStep(0));
            u.wire == s.wire && 0 in u.table.threads && u.table.threads[0] == Thread(CONNECT, Done(WaitFailed, 0, None))
  {
    hide Place, Enlist, Strike, WireOk, Proper;
    NeverDuplicate(s.table, s.wire, 0);
  }

  /** The answer is on the topic of the request, and what follows without a reply changes nothing about that. */
  lemma {:induction false} AnswerMatches(s: State, t: nat, more: seq<Step>)
    requires StateOk(s) && Pendent(s, t) && s.wire.replies == {}
    requires forall step <- more :: step.EnlistStep? || step.ExpireStep? || step.WakeStep? || step.FinishStep?
    ensures Matching(Run(s, AnswerAndDispatch(s, t) + more).wire)
  {
    hide StateOk, Run, Ids, Next;
    var id := s.table.threads[t].phase.id;
    ReplyQueues(s, t);
    var s1 := Run(s, Answering(id));
    Drained(s1, |s.wire.queue| + 1);
    RunOn(s, Answering(id), Dispatches(|s.wire.queue| + 1));
    RunOn(s, AnswerAndDispatch(s, t), more);
    TableOnly(Run(s, AnswerAndDispatch(s, t)), more);
    RequestKind(s, t);
  }

  lemma {:induction false} RequestKind(s: State, t: nat)
    requires StateOk(s) && Pendent(s, t)
    ensures s.table.threads[t].phase.id in s.wire.requests && s.wire.requests[s.table.threads[t].phase.id].kind.TopoAdd?
  {
    assert PhaseOk(s.table.threads[t].call, t, s.table.threads[t].phase, s.table.waiters, s.wire);
  }

  lemma {:induction false} TableOnly(s: State, steps: seq<Step>)
    requires forall step <- steps :: step.EnlistStep? || step.ExpireStep? || step.WakeStep? || step.FinishStep?
    ensures Run(s, steps).wire == s.wire
  {
    hide Next;
    if steps != [] {
      var n := |steps| - 1;
      TableOnly(s, steps[..n]);
      assert steps[n] in steps;
      TableOnlyStep(Run(s, steps[..n]), steps[n]);
    }
  }

  lemma {:induction false} TableOnlyStep(s: State, step: Step)
    requires step.EnlistStep? || step.ExpireStep? || step.WakeStep? || step.FinishStep?
    ensures Next(s, step).wire == s.wire
  {
    StepWire(s, step);
    hide Next;
  }

  lemma {:induction false} CallStays(s: State, steps: seq<Step>, t: nat)
    requires t in s.table.threads
    ensures t in Run(s, steps).table.threads && Run(s, steps).table.threads[t].call == s.table.threads[t].call
  {
    if steps != [] {
      CallStays(s, steps[..|steps| - 1], t);
      CallStaysStep(Run(s, steps[..|steps| - 1]), steps[|steps| - 1], t);
    }
  }

  lemma {:induction false} CallStaysStep(s: State, step: Step, t: nat)
    requires t in s.table.threads
    ensures t in Next(s, step).table.threads && Next(s, step).table.threads[t].call == s.table.threads[t].call
  {
    hide Place, Told, Strike, Enlist, Send, TellUser, Leave, FindReply, TickWire, Item, ItemsDone;
  }
}
