/** What the steps of a call, of the cache and of the registry do, in terms of what can be seen before and after. */
module LifecycleSteps {
  import opened Messages
  import opened Text
  import opened MessageCache
  import opened MessageQueue
  import opened Waiters
  import opened Lifecycle
  import opened LifecycleInvariants
  import opened LifecycleThreads
  import opened LifecycleLaws
  import opened LifecycleReplies

  // ---------------------------------------------------------------- a call sends

  /** A call sends its next request: not for a device that is not there, and no logout of one that is not logged in.  The
      request gets the next id, and is pending from now on if it left and the cache had room.  A registration with id 0 is
      taken for one that needs no waiting. */
  lemma {:induction false} CallSends(s: State, t: nat, now: nat, sent: bool)
    requires StateOk(s) && t in s.table.threads && s.table.threads[t].phase.Start?
    ensures var th, w, u := s.table.threads[t], s.wire, Next(s, SendStep(t, now, sent));
            var kind, devid, id := th.phase.kind, th.call.devid, s.wire.nextId;
            && t in u.table.threads && u.table.threads[t].call == th.call
            && var p := u.table.threads[t].phase;
               if devid !in w.status then u.wire == w && p == Done(NoDevice, -1, None)
               else if kind == Logout && w.status[devid] != Logined then u.wire == w && p == Done(NotLoggedIn, -1, None)
               else
                 && id !in w.requests && u.wire.nextId == id + 1 && u.wire.requests == w.requests[id := Request(kind, devid)]
                 && u.wire.cache == CacheAfter(w.cache, Pending(id, devid, kind, now), sent)
                 && u.wire.queue == w.queue && u.wire.status == w.status
                 && p == (if !sent then Done(SendFailed, id, None)
                          else if id == 0 && th.call.Connect? && kind != TopoAdd then Start(TopoAdd)
                          else Sent(kind, id))
  {
    FreshSend(s);
    hide StateOk, Send, Ids, CacheAfter;
    SentWire(s.wire, s.table.threads[t].phase.kind, s.table.threads[t].call.devid, now, sent);
  }

  /** The cache after a send: with the entry if the request left and there was room. */
  function CacheAfter(c: Cache, p: Pending, sent: bool): Cache {
    if sent && c.size < 50 then Cache(c.entries + [p], c.size + 1) else c
  }

  lemma {:induction false} SentWire(w: Wire, kind: Kind, devid: int, now: nat, sent: bool)
    requires w.nextId !in Ids(w.cache.entries)
    ensures var u := Send(w, kind, devid, now, sent);
            && u.nextId == w.nextId + 1 && u.requests == w.requests[w.nextId := Request(kind, devid)]
            && u.cache == CacheAfter(w.cache, Pending(w.nextId, devid, kind, now), sent)
            && u.queue == w.queue && u.status == w.status
  {
    SendShape(w, kind, devid, now, sent);
    hide Send, Ids;
  }

  lemma {:induction false} FreshSend(s: State)
    requires StateOk(s)
    ensures s.wire.nextId !in Ids(s.wire.cache.entries) && s.wire.nextId !in s.wire.requests
  {
    hide TableOk, Ids, DistinctIds, Settled, Conserved, Counted, AllExplained, DevicesOk, LoginOk, InHand, Ended;
    IdsAsked(s.wire.cache.entries, s.wire.requests, s.wire.nextId);
  }

  /** A device reports a property or an event, or is unregistered: a request like the others, for which no thread waits. */
  lemma {:induction false} DeviceReports(s: State, kind: Kind, devid: int, now: nat, sent: bool)
    requires StateOk(s) && kind in {PropertyPost, EventPost, Unregister} && devid in s.wire.status
    ensures var w, u := s.wire, Next(s, ReportStep(kind, devid, now, sent));
            && u.table == s.table && u.wire.nextId == w.nextId + 1
            && u.wire.requests == w.requests[w.nextId := Request(kind, devid)]
            && u.wire.cache == CacheAfter(w.cache, Pending(w.nextId, devid, kind, now), sent)
            && u.wire.queue == w.queue && u.wire.status == w.status
  {
    FreshSend(s);
    ReportKinds(kind);
    hide StateOk, Send, Ids, CacheAfter, Gated, Attaches;
    SentWire(s.wire, kind, devid, now, sent);
  }

  lemma {:induction false} ReportKinds(kind: Kind)
    ensures kind in {PropertyPost, EventPost, Unregister} <==> Gated(kind) && !Attaches(kind)
  {
  }

  /** A device that is registered already goes on to its topology at once. */
  lemma {:induction false} CallSkips(s: State, t: nat, d: int, proxy: bool)
    requires t in s.table.threads && s.table.threads[t] == Thread(Connect(d, proxy), Start(if proxy then ProxyRegister else Register))
    ensures var u := Next(s, RegisteredStep(t));
            && u.wire == s.wire && t in u.table.threads && u.table.threads[t].call == Connect(d, proxy)
            && u.table.threads[t].phase == (if d in s.wire.status then Start(TopoAdd) else s.table.threads[t].phase)
  {
  }

  // ---------------------------------------------------------------- a call waits

  /** Then the thread enters the list with a semaphore of its own that nobody has posted, unless there is none. */
  lemma {:induction false} CallWaits(s: State, t: nat, made: bool)
    requires StateOk(s) && t in s.table.threads && s.table.threads[t].phase.Sent?
    ensures var p, tb, u := s.table.threads[t].phase, s.table, Next(s, EnlistStep(t, made));
            && u.wire == s.wire && t in u.table.threads && u.table.threads[t].call == s.table.threads[t].call
            && (if made then
                  && tb.nextSem !in tb.sems && u.table.sems == tb.sems[tb.nextSem := 0]
                  && u.table.waiters == [Waiter(p.id, tb.nextSem, Success, t, None)] + tb.waiters
                  && u.table.threads[t].phase == Waiting(p.kind, p.id, tb.nextSem)
                else
                  u.table.waiters == tb.waiters && u.table.sems == tb.sems
                  && u.table.threads[t].phase == Done(NoSemaphore, p.id, None))
  {
    NeverDuplicate(s.table, s.wire, t);
    FreshSemaphore(s);
    hide StateOk, Waits;
  }

  lemma {:induction false} FreshSemaphore(s: State)
    requires StateOk(s)
    ensures s.table.nextSem !in s.table.sems
  {
    hide WireOk, Owned, Coded, Phased, Apart, Numbered, Proper;
  }

  /** A wait that expires ends the call with a timeout, and takes its waiter and its semaphore away. */
  lemma {:induction false} CallExpires(s: State, t: nat)
    requires StateOk(s) && t in s.table.threads && s.table.threads[t].phase.Waiting?
    ensures var p, u := s.table.threads[t].phase, Next(s, ExpireStep(t));
            && u.wire == s.wire && t in u.table.threads && u.table.threads[t].call == s.table.threads[t].call
            && u.table.threads[t].phase == Done(WaitFailed, p.id, None)
            && !Waits(u.table.waiters, p.id) && p.sem in s.table.sems && u.table.sems == s.table.sems - {p.sem}
            && |u.table.waiters| == |s.table.waiters| - 1
  {
    WaitingPlace(s, t);
    ProperTable(s);
    hide StateOk, Place, Proper, DropWaiter, Waits;
    Dropped(s.table, s.table.threads[t].phase.id);
  }

  lemma {:induction false} Dropped(tb: Table, id: int)
    requires Proper(tb.waiters, tb.sems) && Waits(tb.waiters, id)
    ensures var u := DropWaiter(tb, id);
            && u == tb.(waiters := u.waiters, sems := tb.sems - {tb.waiters[Place(tb.waiters, id)].sem})
            && !Waits(u.waiters, id) && |u.waiters| == |tb.waiters| - 1
  {
    StrikeRemoves(tb.waiters, tb.sems, id);
    hide Place, Proper;
  }

  lemma {:induction false} ProperTable(s: State)
    requires StateOk(s)
    ensures Proper(s.table.waiters, s.table.sems)
  {
    hide WireOk, Owned, Coded, Phased, Apart, Numbered, Proper;
  }

  // ---------------------------------------------------------------- the cache

  /** The end of a reply that is handled without a look into the cache takes its id, and no other, out of the cache. */
  lemma {:induction false} OpenReplyEnds(s: State, id: int)
    requires StateOk(s) && s.wire.handling.Idle?
    ensures var u := Next(s, ItemsDoneStep(id));
            && Ids(u.wire.cache.entries) == Ids(s.wire.cache.entries) - {id}
            && u.wire.outcomes == (if id in Ids(s.wire.cache.entries) then s.wire.outcomes[id := Withdrawn] else s.wire.outcomes)
            && u.table == s.table && u.wire.queue == s.wire.queue && u.wire.status == s.wire.status && u.wire.handling.Idle?
  {
    CacheIds(s);
    hide StateOk, Ids, DistinctIds, Remove, Holds;
    IdsRemove(s.wire.cache.entries, s.wire.cache.size, id);
    HoldsIs(s.wire.cache.entries, id);
  }

  /** So does the end of a reply that was looked up, answered or not, and the next reply can come. */
  lemma {:induction false} GatedReplyEnds(s: State, id: int)
    requires StateOk(s) && s.wire.handling == Leaving(id)
    ensures var u := Next(s, LeaveStep);
            && Ids(u.wire.cache.entries) == Ids(s.wire.cache.entries) - {id}
            && u.wire.outcomes == (if id !in Ids(s.wire.cache.entries) then s.wire.outcomes
                                   else s.wire.outcomes[id := if id in s.wire.answers then Replied else Withdrawn])
            && u.table == s.table && u.wire.queue == s.wire.queue && u.wire.status == s.wire.status && u.wire.handling.Idle?
  {
    CacheIds(s);
    hide StateOk, Ids, DistinctIds, Remove, Holds;
    IdsRemove(s.wire.cache.entries, s.wire.cache.size, id);
    HoldsIs(s.wire.cache.entries, id);
  }

  lemma {:induction false} CacheIds(s: State)
    requires StateOk(s)
    ensures DistinctIds(s.wire.cache.entries)
  {
    hide TableOk, DistinctIds, Settled, Conserved, Counted, AllExplained, DevicesOk, LoginOk, InHand, Ended, Numbered;
  }

  /** A tick queues the timeouts it reports in order, as many as there is room for. */
  lemma {:induction false} TickQueues(s: State, now: nat)
    requires StateOk(s)
    ensures var ms, q, u := Timeouts(s.wire.cache.entries, now), s.wire.queue, Next(s, TickStep(now));
            && u.table == s.table && u.wire.status == s.wire.status && |q| <= 50
            && u.wire.queue == q + (if |ms| <= 50 - |q| then ms else ms[..50 - |q|])
            && u.wire.cache == Cache(Survivors(s.wire.cache.entries, now), s.wire.cache.size)
  {
    QueueRoom(s);
    hide StateOk, Timeouts, Survivors, ExpireAll;
    var ms := Timeouts(s.wire.cache.entries, now);
    ExpireAllQueues(s.wire, ms);
    ExpireAllFrame(s.wire, ms);
  }

  lemma {:induction false} QueueRoom(s: State)
    requires StateOk(s)
    ensures |s.wire.queue| <= 50
  {
    hide TableOk, CacheOk, Settled, Counted, AllExplained, DevicesOk, LoginOk, InHand, Ended, Numbered;
  }

  lemma {:induction false} ExpireAllQueues(w: Wire, ms: seq<Message>)
    requires |w.queue| <= 50
    ensures ExpireAll(w, ms).queue == w.queue + if |ms| <= 50 - |w.queue| then ms else ms[..50 - |w.queue|]
  {
    if ms != [] {
      var n := |ms| - 1;
      ExpireAllQueues(w, ms[..n]);
      ExpireQueue(ExpireAll(w, ms[..n]), ms[n]);
      hide Expire;
      assert ms == ms[..n] + [ms[n]];
      if |ms| <= 50 - |w.queue| {
        assert w.queue + ms == (w.queue + ms[..n]) + [ms[n]];
      } else {
        assert ms[..50 - |w.queue|] == ms[..n][..50 - |w.queue|];
      }
    }
  }

  lemma {:induction false} ExpireQueue(w: Wire, m: Message)
    ensures Expire(w, m).queue == if |w.queue| < 50 then w.queue + [m] else w.queue
  {
  }

  // ---------------------------------------------------------------- devices

  /** A device is created AUTHORIZED under an id that was not used; destroying removes it, and never the local node. */
  lemma {:induction false} DevicesComeAndGo(s: State, devid: int)
    requires StateOk(s)
    ensures var u := Next(s, CreateStep);
            && s.wire.nextDev !in s.wire.status && s.wire.nextDev !in s.wire.destroyed
            && u.table == s.table && u.wire.status == s.wire.status[s.wire.nextDev := Authorized]
    ensures var u := Next(s, DestroyStep(devid));
            u.table == s.table && u.wire.status == if devid > 0 then s.wire.status - {devid} else s.wire.status
  {
    hide TableOk, CacheOk, Settled, Conserved, Counted, AllExplained, LoginOk, InHand, Ended, Numbered;
    assert devid !in s.wire.status ==> s.wire.status - {devid} == s.wire.status;
  }
}
