/** What every step keeps on the side of the cloud: ids, cache, queue, outcomes. */
module LifecycleInvariants {
  import opened Messages
  import opened Text
  import opened MessageCache
  import opened MessageQueue
  import opened Lifecycle

  // ---------------------------------------------------------------- ids of a list

  function Ids(e: seq<Pending>): set<int> {
    if e == [] then {} else {e[0].id} + Ids(e[1..])
  }

  ghost predicate DistinctIds(e: seq<Pending>) {
    e != [] ==> e[0].id !in Ids(e[1..]) && DistinctIds(e[1..])
  }

  lemma {:induction false} HoldsIs(e: seq<Pending>, id: int)
    ensures Holds(e, id) <==> id in Ids(e)
  {
    if e != [] {
      HoldsIs(e[1..], id);
    }
  }

  lemma {:induction false} IdsMember(e: seq<Pending>, i: nat)
    requires i < |e|
    ensures e[i].id in Ids(e)
  {
    if i > 0 {
      IdsMember(e[1..], i - 1);
    }
  }

  lemma {:induction false} IdsAppend(e: seq<Pending>, p: Pending)
    ensures Ids(e + [p]) == Ids(e) + {p.id}
    ensures DistinctIds(e) && p.id !in Ids(e) ==> DistinctIds(e + [p])
  {
    if e == [] {
      assert e + [p] == [p];
    } else {
      IdsAppend(e[1..], p);
      assert (e + [p])[1..] == e[1..] + [p];
    }
  }

  lemma {:induction false} IdsRemove(e: seq<Pending>, size: int, id: int)
    requires DistinctIds(e)
    ensures var r := Remove(Cache(e, size), id).entries;
            Ids(r) == Ids(e) - {id} && DistinctIds(r) && (forall p :: p in r ==> p in e)
  {
    if e != [] {
      if e[0].id == id {
        assert Remove(Cache(e, size), id).entries == e[1..];
      } else {
        IdsRemove(e[1..], size, id);
        RemoveLater(e, size, id);
        var r := Remove(Cache(e[1..], size), id).entries;
        assert ([e[0]] + r)[1..] == r;
      }
    }
  }

  lemma {:induction false} RemoveLater(e: seq<Pending>, size: int, id: int)
    requires e != [] && e[0].id != id
    ensures Remove(Cache(e, size), id).entries == [e[0]] + Remove(Cache(e[1..], size), id).entries
  {
    var i := Position(e[1..], id);
    assert Position(e, id) == i + 1;
    if i < |e| - 1 {
      UnlinkLater(e, i);
    }
  }

  function MessageIds(ms: seq<Message>): set<int> {
    set m <- ms :: m.id
  }

  ghost predicate DistinctMessages(ms: seq<Message>) {
    forall i, j :: 0 <= i < j < |ms| ==> ms[i].id != ms[j].id
  }

  /** A tick splits the ids of the cache into those that stay and those that are reported. */
  lemma {:induction false} IdsTick(e: seq<Pending>, now: nat)
    requires DistinctIds(e)
    ensures Ids(e) == Ids(Survivors(e, now)) + MessageIds(Timeouts(e, now))
    ensures Ids(Survivors(e, now)) !! MessageIds(Timeouts(e, now))
    ensures DistinctIds(Survivors(e, now)) && DistinctMessages(Timeouts(e, now))
  {
    if e != [] {
      IdsTick(e[1..], now);
      var s, ms := Survivors(e[1..], now), Timeouts(e[1..], now);
      if Aged(e[0], now) {
        MessageIdsFirst(Timeout(e[0]), ms);
        assert Survivors(e, now) == s && Timeouts(e, now) == [Timeout(e[0])] + ms;
      } else {
        assert ([Clamped(e[0], now)] + s)[1..] == s && Timeouts(e, now) == ms;
      }
    }
  }

  lemma {:induction false} MessageIdsFirst(m: Message, ms: seq<Message>)
    ensures MessageIds([m] + ms) == {m.id} + MessageIds(ms)
    ensures DistinctMessages(ms) && m.id !in MessageIds(ms) ==> DistinctMessages([m] + ms)
  {
    var a := [m] + ms;
    assert forall k :: 0 < k < |a| ==> a[k] == ms[k - 1];
    assert a[0] == m;
    assert forall x :: x in ms ==> x in a;
  }

  /** A pending entry says what was asked. */
  predicate Asked(p: Pending, requests: map<int, Request>) {
    p.id in requests && requests[p.id] == Request(p.kind, p.devid)
  }

  lemma {:induction false} AskedTick(e: seq<Pending>, now: nat, requests: map<int, Request>)
    requires forall p <- e :: Asked(p, requests)
    ensures forall p <- Survivors(e, now) :: Asked(p, requests)
    ensures forall m <- Timeouts(e, now) :: m.id in requests && requests[m.id] == Request(m.kind, m.devid)
                                            && m.origin.FromExpiry? && m.code == CODE_TIMEOUT
  {
    if e != [] {
      assert Asked(e[0], requests);
      AskedTick(e[1..], now, requests);
      var s, ms := Survivors(e[1..], now), Timeouts(e[1..], now);
      assert forall p <- Survivors(e, now) :: p == Clamped(e[0], now) || p in s;
      assert forall m <- Timeouts(e, now) :: (Aged(e[0], now) && m == Timeout(e[0])) || m in ms;
    }
  }

  // ---------------------------------------------------------------- the invariant

  /** A message the cache caused for the id: its timeout, or the answer to it. */
  predicate IsReport(m: Message, id: int, expiry: bool) {
    m.id == id && if expiry then m.origin.FromExpiry? else m.origin.FromAnswer?
  }

  /** How many of them there are. */
  function Reports(ms: seq<Message>, id: int, expiry: bool): nat {
    if ms == [] then 0
    else Reports(ms[..|ms| - 1], id, expiry) + if IsReport(ms[|ms| - 1], id, expiry) then 1 else 0
  }

  /** One, if the report was made and found room. */
  function Once(made: map<int, bool>, id: int): nat {
    if id in made && made[id] then 1 else 0
  }

  ghost predicate Numbered(w: Wire) {
    forall id :: id in w.requests <==> 0 <= id < w.nextId
  }

  ghost predicate CacheOk(w: Wire) {
    DistinctIds(w.cache.entries) && forall p <- w.cache.entries :: Asked(p, w.requests)
  }

  /** Exactly the live requests are in the cache; only requests have outcomes. */
  ghost predicate Settled(w: Wire) {
    && (forall id :: id in w.outcomes ==> id in w.requests)
    && (forall id :: id in Ids(w.cache.entries) <==> id in w.outcomes && w.outcomes[id].Live?)
  }

  ghost predicate Conserved(w: Wire) {
    w.accepted == w.delivered + w.queue && |w.queue| <= QUEUE_MAX
  }

  /** The messages about an id are those reports of it that found room. */
  ghost predicate Counted(w: Wire) {
    forall id, expiry :: Reports(w.accepted, id, expiry) == Once(if expiry then w.expiries else w.answers, id)
  }

  /** What is in hand was asked, is told once, and is pending unless it was overtaken. */
  ghost predicate InHand(w: Wire) {
    w.handling.Found? ==>
      && Gated(w.handling.kind) && w.handling.id in w.requests && w.requests[w.handling.id].devid == w.handling.devid
      && w.handling.id !in w.answers
      && w.handling.id in w.outcomes && (w.outcomes[w.handling.id].Live? || w.handling.id in w.overtaken)
  }

  /** How answers and timeouts go with leaving the cache. */
  ghost predicate Ended(w: Wire) {
    && (forall id :: id in w.answers ==>
          id in w.outcomes && (w.outcomes[id].Replied? || id in w.overtaken || (w.handling == Leaving(id) && w.outcomes[id].Live?)))
    && (forall id :: id in w.expiries <==> id in w.outcomes && w.outcomes[id].TimedOut?)
    && (forall id :: id in w.overtaken ==> id in w.expiries && (id in w.answers || (w.handling.Found? && w.handling.id == id)))
  }

  /** Where a message came from. */
  ghost predicate Explained(w: Wire, m: Message) {
    match m.origin
    case FromAnswer(attached) =>
      && Gated(m.kind) && Reply(m.kind, m.id, m.code) in w.replies
      && m.id in w.requests && w.requests[m.id].devid == m.devid
      && (attached ==> m.devid in w.attached)
      && (Attaches(m.kind) && m.code == CODE_SUCCESS && !attached ==> m.devid in w.destroyed)
    case FromItem => !Gated(m.kind) && Reply(m.kind, m.id, m.code) in w.replies
    case FromExpiry => m.code == CODE_TIMEOUT && m.id in w.requests && w.requests[m.id] == Request(m.kind, m.devid)
  }

  ghost predicate AllExplained(w: Wire) {
    forall m <- w.accepted :: Explained(w, m)
  }

  /** A requested device is registered unless it was destroyed since, and an id is never used again. */
  ghost predicate DevicesOk(w: Wire) {
    && (forall d :: d in w.status || d in w.destroyed ==> d < w.nextDev)
    && (forall d :: d in w.destroyed ==> d !in w.status)
    && (forall id :: id in w.requests ==> w.requests[id].devid in w.status || w.requests[id].devid in w.destroyed)
  }

  /** A device is LOGINED, and a logout is requested, only after a login reply for it. */
  ghost predicate LoginOk(w: Wire) {
    && (forall d :: d in w.status && w.status[d].Logined? ==> d in w.loggedIn)
    && (forall id :: id in w.requests && w.requests[id].kind.Logout? ==> w.requests[id].devid in w.loggedIn)
  }

  ghost predicate WireOk(w: Wire) {
    && Numbered(w) && CacheOk(w) && Settled(w) && Conserved(w) && Counted(w) && AllExplained(w) && DevicesOk(w)
    && LoginOk(w) && InHand(w) && Ended(w)
  }

  lemma {:induction false} StartOk()
    ensures WireOk(START_WIRE)
  {
  }

  // ---------------------------------------------------------------- posting

  /** History and deliveries only grow. */
  ghost predicate Grows(w: Wire, u: Wire) {
    && w.delivered <= u.delivered
    && w.replies <= u.replies && w.attached <= u.attached && w.loggedIn <= u.loggedIn && w.destroyed <= u.destroyed
    && (forall id :: id in w.requests ==> id in u.requests && u.requests[id] == w.requests[id])
  }

  lemma {:induction false} GrowsOn(a: Wire, b: Wire, c: Wire)
    requires Grows(a, b) && Grows(b, c)
    ensures Grows(a, c)
  {
  }

  lemma {:induction false} PostCounts(w: Wire, m: Message, id: int, expiry: bool)
    ensures Reports(Post(w, m).accepted, id, expiry)
         == Reports(w.accepted, id, expiry) + if |w.queue| < QUEUE_MAX && IsReport(m, id, expiry) then 1 else 0
  {
    assert (w.accepted + [m])[..|w.accepted|] == w.accepted;
  }

  /** A report of an id that had none of its kind is counted once; a message that is no report is not counted. */
  lemma {:induction false} PostCounted(w: Wire, u: Wire, m: Message)
    requires Counted(w) && u.accepted == w.accepted && u.queue == w.queue
    requires u.answers == if m.origin.FromAnswer? then w.answers[m.id := |w.queue| < QUEUE_MAX] else w.answers
    requires u.expiries == if m.origin.FromExpiry? then w.expiries[m.id := |w.queue| < QUEUE_MAX] else w.expiries
    requires m.origin.FromAnswer? ==> m.id !in w.answers
    requires m.origin.FromExpiry? ==> m.id !in w.expiries
    ensures Counted(Post(u, m))
  {
    var v := Post(u, m);
    assert v.answers == u.answers && v.expiries == u.expiries;
    forall id, expiry
      ensures Reports(v.accepted, id, expiry) == Once(if expiry then v.expiries else v.answers, id)
    {
      PostCounts(u, m, id, expiry);
      assert Reports(w.accepted, id, expiry) == Once(if expiry then w.expiries else w.answers, id);
    }
    hide Reports, Post;
  }

  /** A message that is explained keeps the queue conserved and everything explained. */
  lemma {:induction false} PostOk(w: Wire, u: Wire, m: Message)
    requires Conserved(w) && AllExplained(w) && Grows(w, u)
    requires u.accepted == w.accepted && u.queue == w.queue && u.delivered == w.delivered
    requires Explained(u, m)
    ensures Conserved(Post(u, m)) && AllExplained(Post(u, m))
  {
    var v := Post(u, m);
    if |u.queue| < QUEUE_MAX {
      assert w.accepted + [m] == w.delivered + (w.queue + [m]);
    }
    forall x | x in v.accepted
      ensures Explained(v, x)
    {
      if x != m {
        assert x in w.accepted && Explained(w, x);
      }
    }
  }

  /** Posting touches nothing but the queue and what was accepted. */
  lemma {:induction false} PostKeeps(w: Wire, u: Wire, m: Message)
    requires Numbered(u) && DevicesOk(u) && LoginOk(u) && InHand(u) && Ended(u) && Grows(w, u)
    ensures var v := Post(u, m);
            Numbered(v) && DevicesOk(v) && LoginOk(v) && InHand(v) && Ended(v) && Grows(w, v)
  {
    PostKeepsReports(u, m);
    hide InHand, Ended;
  }

  lemma {:induction false} PostKeepsReports(u: Wire, m: Message)
    requires InHand(u) && Ended(u)
    ensures InHand(Post(u, m)) && Ended(Post(u, m))
  {
  }

  lemma {:induction false} PostKeepsCache(u: Wire, m: Message)
    requires CacheOk(u) && Settled(u)
    ensures CacheOk(Post(u, m)) && Settled(Post(u, m))
  {
    hide Ids, DistinctIds;
  }

  // ---------------------------------------------------------------- steps

  /** The cache after a send: one entry more if there was room and the request left, otherwise as before. */
  lemma {:induction false} SendShape(w: Wire, kind: Kind, devid: int, now: nat, sent: bool)
    requires w.nextId !in Ids(w.cache.entries)
    ensures var u, p := Send(w, kind, devid, now, sent), Pending(w.nextId, devid, kind, now);
            var asked := w.(nextId := w.nextId + 1, requests := w.requests[w.nextId := Request(kind, devid)]);
            if w.cache.size >= CAPACITY then u == asked
            else if sent then
              u == asked.(cache := Cache(w.cache.entries + [p], w.cache.size + 1), outcomes := w.outcomes[w.nextId := Live])
            else u == asked.(outcomes := w.outcomes[w.nextId := Withdrawn])
  {
    HoldsIs(w.cache.entries, w.nextId);
    if w.cache.size < CAPACITY {
      RemoveUndoesInsert(w.cache, Pending(w.nextId, devid, kind, now));
    }
  }

  lemma {:induction false} IdsAsked(e: seq<Pending>, requests: map<int, Request>, id: int)
    requires (forall p <- e :: Asked(p, requests)) && id !in requests
    ensures id !in Ids(e)
  {
    if e != [] {
      assert Asked(e[0], requests);
      IdsAsked(e[1..], requests, id);
    }
  }

  lemma {:induction false} AskedGrows(e: seq<Pending>, requests: map<int, Request>, p: Pending)
    requires DistinctIds(e) && p.id !in requests && forall q <- e :: Asked(q, requests)
    ensures p.id !in Ids(e) && DistinctIds(e + [p]) && Ids(e + [p]) == Ids(e) + {p.id}
    ensures var r := requests[p.id := Request(p.kind, p.devid)];
            (forall q <- e :: Asked(q, r)) && (forall q <- e + [p] :: Asked(q, r))
  {
    hide Ids, DistinctIds;
    IdsAsked(e, requests, p.id);
    IdsAppend(e, p);
    var r := requests[p.id := Request(p.kind, p.devid)];
    forall q | q in e
      ensures Asked(q, r)
    {
      assert Asked(q, requests);
    }
  }

  lemma {:induction false} SendCache(w: Wire, kind: Kind, devid: int, now: nat, sent: bool)
    requires Numbered(w) && CacheOk(w) && Settled(w)
    ensures CacheOk(Send(w, kind, devid, now, sent)) && Settled(Send(w, kind, devid, now, sent))
    ensures w.nextId !in w.outcomes && w.nextId !in Ids(w.cache.entries)
  {
    hide Ids, DistinctIds, Send, Asked;
    AskedGrows(w.cache.entries, w.requests, Pending(w.nextId, devid, kind, now));
    SendShape(w, kind, devid, now, sent);
  }

  /** Nothing is posted and no report is made. */
  ghost predicate Silent(w: Wire, u: Wire) {
    && u.accepted == w.accepted && u.queue == w.queue && u.delivered == w.delivered
    && u.answers == w.answers && u.expiries == w.expiries
  }

  lemma {:induction false} SilentOk(w: Wire, u: Wire)
    requires Conserved(w) && Counted(w) && AllExplained(w) && Silent(w, u) && Grows(w, u)
    ensures Conserved(u) && Counted(u) && AllExplained(u)
  {
    hide Reports;
    PlainOk(w, u);
    forall id, expiry
      ensures Reports(u.accepted, id, expiry) == Once(if expiry then u.expiries else u.answers, id)
    {
      assert Reports(w.accepted, id, expiry) == Once(if expiry then w.expiries else w.answers, id);
    }
  }

  lemma {:induction false} SendDevices(w: Wire, kind: Kind, devid: int, now: nat, sent: bool)
    requires Numbered(w) && DevicesOk(w) && LoginOk(w) && w.nextId !in Ids(w.cache.entries)
    requires devid in w.status && (kind.Logout? ==> w.status[devid].Logined?)
    ensures var u := Send(w, kind, devid, now, sent);
            Numbered(u) && DevicesOk(u) && LoginOk(u) && Grows(w, u) && Silent(w, u)
  {
    hide Send, Ids;
    SendShape(w, kind, devid, now, sent);
    AskedDevices(w, w.(nextId := w.nextId + 1, requests := w.requests[w.nextId := Request(kind, devid)]), kind, devid);
  }

  lemma {:induction false} AskedDevices(w: Wire, u: Wire, kind: Kind, devid: int)
    requires Numbered(w) && DevicesOk(w) && LoginOk(w)
    requires devid in w.status && (kind.Logout? ==> w.status[devid].Logined?)
    requires u == w.(nextId := w.nextId + 1, requests := w.requests[w.nextId := Request(kind, devid)])
    ensures Numbered(u) && DevicesOk(u) && LoginOk(u) && Grows(w, u)
  {
  }

  lemma {:induction false} SendReports(w: Wire, kind: Kind, devid: int, now: nat, sent: bool)
    requires Numbered(w) && InHand(w) && Ended(w) && w.nextId !in w.outcomes && w.nextId !in Ids(w.cache.entries)
    ensures InHand(Send(w, kind, devid, now, sent)) && Ended(Send(w, kind, devid, now, sent))
  {
    hide Send, Ids, InHand, Ended;
    SendShape(w, kind, devid, now, sent);
    AskedReports(w, Send(w, kind, devid, now, sent), Request(kind, devid));
  }

  lemma {:induction false} AskedReports(w: Wire, u: Wire, r: Request)
    requires Numbered(w) && InHand(w) && Ended(w) && w.nextId !in w.outcomes
    requires u == w.(nextId := w.nextId + 1, requests := w.requests[w.nextId := r], cache := u.cache, outcomes := u.outcomes)
    requires u.outcomes == w.outcomes || u.outcomes == w.outcomes[w.nextId := Live] || u.outcomes == w.outcomes[w.nextId := Withdrawn]
    ensures InHand(u) && Ended(u)
  {
  }

  lemma {:induction false} SendOk(w: Wire, kind: Kind, devid: int, now: nat, sent: bool)
    requires WireOk(w) && devid in w.status && (kind.Logout? ==> w.status[devid].Logined?)
    ensures WireOk(Send(w, kind, devid, now, sent)) && Grows(w, Send(w, kind, devid, now, sent))
  {
    hide CacheOk, Settled, Send, AllExplained, Ids, Numbered, DevicesOk, LoginOk, InHand, Ended, Counted, Conserved, Grows, Silent;
    SendCache(w, kind, devid, now, sent);
    SendDevices(w, kind, devid, now, sent);
    SendReports(w, kind, devid, now, sent);
    SilentOk(w, Send(w, kind, devid, now, sent));
  }

  lemma {:induction false} FindOk(w: Wire, kind: Kind, id: int, code: int)
    requires WireOk(w) && Gated(kind) && w.handling.Idle?
    ensures WireOk(FindReply(w, kind, id, code)) && Grows(w, FindReply(w, kind, id, code))
  {
    hide Ids, DistinctIds, Position, AllExplained, Counted, Conserved;
    HoldsIs(w.cache.entries, id);
    if Find(w.cache, id).Some? {
      assert Find(w.cache, id).value in w.cache.entries;
    }
    SilentOk(w, FindReply(w, kind, id, code));
  }

  /** What the handler records, apart from the message. */
  lemma {:induction false} HandledOk(w: Wire, kind: Kind, id: int, code: int, devid: int)
    requires Numbered(w) && CacheOk(w) && Settled(w) && DevicesOk(w) && LoginOk(w) && InHand(w) && Ended(w)
    requires w.handling == Found(kind, id, code, devid)
    ensures var u := Handled(w, kind, id, code, devid);
            && Numbered(u) && CacheOk(u) && Settled(u) && DevicesOk(u) && LoginOk(u) && InHand(u) && Ended(u)
            && Grows(w, u) && Explained(u, AnswerMessage(w, kind, id, code, devid))
  {
    hide Ids, DistinctIds;
  }

  lemma {:induction false} TellOk(w: Wire)
    requires WireOk(w)
    ensures WireOk(TellUser(w)) && Grows(w, TellUser(w))
  {
    hide CacheOk, Settled, AllExplained, DevicesOk, LoginOk, Explained, Post, Grows, Counted, Conserved, Numbered, Ended;
    SameGrows(w);
    if w.handling.Found? {
      var Found(kind, id, code, devid) := w.handling;
      var u, m := Handled(w, kind, id, code, devid), AnswerMessage(w, kind, id, code, devid);
      HandledOk(w, kind, id, code, devid);
      PostCounted(w, u, m);
      PostOk(w, u, m);
      PostKeeps(w, u, m);
      PostKeepsCache(u, m);
    }
  }

  lemma {:induction false} SettleCache(w: Wire, id: int, o: Outcome)
    requires CacheOk(w) && Settled(w) && !o.Live?
    ensures CacheOk(Settle(w, id, o)) && Settled(Settle(w, id, o))
    ensures var u := Settle(w, id, o);
            && u == w.(cache := u.cache, outcomes := u.outcomes)
            && u.outcomes == if id in w.outcomes && w.outcomes[id].Live? then w.outcomes[id := o] else w.outcomes
  {
    HoldsIs(w.cache.entries, id);
    IdsRemove(w.cache.entries, w.cache.size, id);
    hide Remove, Ids, DistinctIds;
  }

  lemma {:induction false} LeaveOk(w: Wire)
    requires WireOk(w)
    ensures WireOk(Leave(w)) && Grows(w, Leave(w))
  {
    hide CacheOk, Settled, Settle, AllExplained, Counted, Conserved, InHand, Ended;
    SameGrows(w);
    if w.handling.Leaving? {
      var o := if w.handling.id in w.answers then Replied else Withdrawn;
      SettleCache(w, w.handling.id, o);
      SettledIdle(Settle(w, w.handling.id, o));
      SilentOk(w, Leave(w));
      LeaveReports(w, Leave(w), o);
    }
  }

  lemma {:induction false} LeaveReports(w: Wire, u: Wire, o: Outcome)
    requires InHand(w) && Ended(w) && w.handling.Leaving? && o == if w.handling.id in w.answers then Replied else Withdrawn
    requires u == w.(cache := u.cache, outcomes := u.outcomes, handling := Idle)
    requires u.outcomes
          == if w.handling.id in w.outcomes && w.outcomes[w.handling.id].Live? then w.outcomes[w.handling.id := o] else w.outcomes
    ensures InHand(u) && Ended(u)
  {
  }

  lemma {:induction false} SettledIdle(w: Wire)
    ensures CacheOk(w) ==> CacheOk(w.(handling := Idle))
    ensures Settled(w) ==> Settled(w.(handling := Idle))
  {
    hide Ids, DistinctIds;
  }

  lemma {:induction false} SameGrows(w: Wire)
    ensures Grows(w, w)
  {
  }

  /** A step that accepts nothing and explains nothing new. */
  lemma {:induction false} PlainOk(w: Wire, u: Wire)
    requires AllExplained(w) && Grows(w, u) && u.accepted == w.accepted
    ensures AllExplained(u)
  {
    forall m | m in u.accepted
      ensures Explained(u, m)
    {
      assert Explained(w, m);
    }
  }

  lemma {:induction false} NotedOk(w: Wire, kind: Kind, id: int, code: int, given: int, devid: int)
    requires Numbered(w) && CacheOk(w) && Settled(w) && DevicesOk(w) && LoginOk(w) && InHand(w) && Ended(w)
    requires !Gated(kind) && devid in w.status
    ensures var u := Noted(w, kind, id, code, given, devid);
            && Numbered(u) && CacheOk(u) && Settled(u) && DevicesOk(u) && LoginOk(u) && InHand(u) && Ended(u)
            && Grows(w, u) && Explained(u, Message(kind, id, given, devid, FromItem))
  {
    hide Ids, DistinctIds;
  }

  lemma {:induction false} ItemOk(w: Wire, kind: Kind, id: int, code: int, itemCode: int, devid: int)
    requires WireOk(w)
    ensures WireOk(Item(w, kind, id, code, itemCode, devid)) && Grows(w, Item(w, kind, id, code, itemCode, devid))
  {
    hide CacheOk, Settled, AllExplained, DevicesOk, LoginOk, Explained, Post, Grows, Counted, Conserved, Numbered, Ended, InHand;
    SameGrows(w);
    if !Gated(kind) && devid in w.status {
      var given := if kind.ProxyRegister? then itemCode else code;
      var u, m := Noted(w, kind, id, code, given, devid), Message(kind, id, given, devid, FromItem);
      NotedOk(w, kind, id, code, given, devid);
      PostCounted(w, u, m);
      PostOk(w, u, m);
      PostKeeps(w, u, m);
      PostKeepsCache(u, m);
    }
  }

  lemma {:induction false} ItemsDoneOk(w: Wire, id: int)
    requires WireOk(w) && w.handling.Idle?
    ensures WireOk(ItemsDone(w, id)) && Grows(w, ItemsDone(w, id))
  {
    hide CacheOk, Settled, Settle, AllExplained, Counted, Conserved;
    SettleCache(w, id, Withdrawn);
    SilentOk(w, ItemsDone(w, id));
  }

  /** A timeout of a live request. */
  ghost predicate Due(w: Wire, m: Message) {
    m.origin.FromExpiry? && Explained(w, m) && m.id in w.outcomes && w.outcomes[m.id].Live?
  }

  /** Everything but the tie between cache and outcomes. */
  ghost predicate Loose(w: Wire) {
    && Numbered(w) && Conserved(w) && Counted(w) && AllExplained(w) && DevicesOk(w) && LoginOk(w) && InHand(w) && Ended(w)
    && forall id :: id in w.outcomes ==> id in w.requests
  }

  /** The outcome and the record of a timeout. */
  function TimeoutNoted(w: Wire, m: Message): Wire {
    w.(outcomes := w.outcomes[m.id := TimedOut],
       expiries := w.expiries[m.id := |w.queue| < QUEUE_MAX],
       overtaken := if Busy(w, m.id) then w.overtaken + {m.id} else w.overtaken)
  }

  lemma {:induction false} TimeoutNotedOk(w: Wire, m: Message)
    requires Numbered(w) && DevicesOk(w) && LoginOk(w) && InHand(w) && Ended(w) && Due(w, m)
    requires forall id :: id in w.outcomes ==> id in w.requests
    ensures var u := TimeoutNoted(w, m);
            && Numbered(u) && DevicesOk(u) && LoginOk(u) && InHand(u) && Ended(u) && Grows(w, u) && Explained(u, m)
            && m.id !in w.expiries && forall id :: id in u.outcomes ==> id in u.requests
  {
  }

  lemma {:induction false} ExpireOk(w: Wire, m: Message)
    requires Loose(w) && Due(w, m)
    ensures Loose(Expire(w, m)) && Grows(w, Expire(w, m))
  {
    hide AllExplained, DevicesOk, LoginOk, Explained, Grows, Counted, Conserved, Numbered, Ended, InHand;
    var u := TimeoutNoted(w, m);
    TimeoutNotedOk(w, m);
    PostCounted(w, u, m);
    PostOk(w, u, m);
    PostKeeps(w, u, m);
    assert Expire(w, m) == Post(u, m);
  }

  /** Exactly the reported ids time out. */
  lemma {:induction false} ExpireAllEnds(w: Wire, ms: seq<Message>)
    requires forall m <- ms :: m.id in w.outcomes
    ensures var u := ExpireAll(w, ms);
            && u.cache == w.cache && u.outcomes.Keys == w.outcomes.Keys
            && (forall id :: id in w.outcomes ==>
                  u.outcomes[id] == if id in MessageIds(ms) then TimedOut else w.outcomes[id])
  {
    hide Expire;
    if ms != [] {
      var n := |ms| - 1;
      ExpireAllEnds(w, ms[..n]);
      assert ms[..n] + [ms[n]] == ms;
      MessageIdsLast(ms[..n], ms[n]);
      ExpireEnds(ExpireAll(w, ms[..n]), ms[n]);
      assert ms[n].id in w.outcomes;
    }
  }

  lemma {:induction false} ExpireAllOk(w: Wire, ms: seq<Message>)
    requires Loose(w) && DistinctMessages(ms) && forall m <- ms :: Due(w, m)
    ensures Loose(ExpireAll(w, ms)) && Grows(w, ExpireAll(w, ms))
  {
    if ms == [] {
      SameGrows(w);
    } else {
      hide Loose, Grows, Explained, Expire;
      var n := |ms| - 1;
      ExpireAllOk(w, ms[..n]);
      var v := ExpireAll(w, ms[..n]);
      assert Due(w, ms[n]);
      ExpireAllEnds(w, ms[..n]);
      assert ms[n].id !in MessageIds(ms[..n]);
      DueStays(w, v, ms[n]);
      ExpireOk(v, ms[n]);
      GrowsOn(w, v, Expire(v, ms[n]));
    }
  }

  lemma {:induction false} ExpireEnds(w: Wire, m: Message)
    ensures Expire(w, m).cache == w.cache && Expire(w, m).outcomes == w.outcomes[m.id := TimedOut]
  {
  }

  lemma {:induction false} DueStays(w: Wire, v: Wire, m: Message)
    requires Due(w, m) && Grows(w, v) && m.id in v.outcomes && v.outcomes[m.id].Live?
    ensures Due(v, m)
  {
  }

  lemma {:induction false} MessageIdsLast(ms: seq<Message>, m: Message)
    ensures MessageIds(ms + [m]) == MessageIds(ms) + {m.id}
  {
    assert forall x :: x in ms + [m] <==> x in ms || x == m;
  }

  /** What a tick reports is live, and reported once. */
  lemma {:induction false} TickDue(w: Wire, now: nat)
    requires CacheOk(w) && Settled(w)
    ensures DistinctMessages(Timeouts(w.cache.entries, now)) && forall m <- Timeouts(w.cache.entries, now) :: Due(w, m)
  {
    hide Ids, DistinctIds, Survivors, Timeouts, DistinctMessages;
    var ms := Timeouts(w.cache.entries, now);
    IdsTick(w.cache.entries, now);
    AskedTick(w.cache.entries, now, w.requests);
    forall m | m in ms
      ensures Due(w, m)
    {
      assert m.id in MessageIds(ms);
    }
  }

  /** The cache without what was reported. */
  lemma {:induction false} TickCache(w: Wire, now: nat, v: Wire)
    requires CacheOk(w) && Settled(w) && v.cache == Tick(w.cache, now) && v.requests == w.requests
    requires v.outcomes.Keys == w.outcomes.Keys
    requires forall id :: id in w.outcomes ==>
               v.outcomes[id] == if id in MessageIds(Timeouts(w.cache.entries, now)) then TimedOut else w.outcomes[id]
    ensures CacheOk(v) && Settled(v)
  {
    hide Ids, DistinctIds, Survivors, Timeouts;
    IdsTick(w.cache.entries, now);
    AskedTick(w.cache.entries, now, w.requests);
  }

  lemma {:induction false} TickOk(w: Wire, now: nat)
    requires WireOk(w)
    ensures WireOk(TickWire(w, now)) && Grows(w, TickWire(w, now))
  {
    hide Reports, Survivors, Timeouts, ExpireAll, DistinctMessages, CacheOk, Settled, Ids, Explained, Tick;
    var ms := Timeouts(w.cache.entries, now);
    TickDue(w, now);
    TickLoose(w);
    ExpireAllOk(w, ms);
    ExpireAllEnds(w, ms);
    ExpireAllFrame(w, ms);
    TickCache(w, now, TickWire(w, now));
    TickKeeps(w, ExpireAll(w, ms), TickWire(w, now));
  }

  lemma {:induction false} TickLoose(w: Wire)
    requires WireOk(w)
    ensures Loose(w) && forall id :: id in w.outcomes ==> id in w.requests
  {
    hide CacheOk, Conserved, Counted, AllExplained, DevicesOk, LoginOk, InHand, Ended, Numbered;
  }

  lemma {:induction false} TickKeeps(w: Wire, v: Wire, u: Wire)
    requires Loose(v) && Grows(w, v) && u == v.(cache := u.cache) && CacheOk(u) && Settled(u)
    ensures WireOk(u) && Grows(w, u)
  {
    hide Reports, CacheOk, Settled;
    PlainOk(v, u);
  }

  lemma {:induction false} ExpireAllFrame(w: Wire, ms: seq<Message>)
    ensures var u := ExpireAll(w, ms);
            u.requests == w.requests && u.delivered == w.delivered && u.nextId == w.nextId && u.replies == w.replies
            && u.handling == w.handling && u.answers == w.answers && u.status == w.status && u.attached == w.attached && u.loggedIn == w.loggedIn
  {
    if ms != [] {
      ExpireAllFrame(w, ms[..|ms| - 1]);
    }
  }

  lemma {:induction false} TakeOk(w: Wire)
    requires WireOk(w)
    ensures WireOk(Take(w)) && Grows(w, Take(w))
    ensures w.queue != [] ==> w.queue[0] in w.accepted
  {
    hide Ids, DistinctIds, Reports;
    if w.queue != [] {
      assert w.queue == [w.queue[0]] + w.queue[1..];
      assert w.delivered + w.queue == w.delivered + [w.queue[0]] + w.queue[1..];
    }
    PlainOk(w, Take(w));
  }

  lemma {:induction false} CreateOk(w: Wire)
    requires WireOk(w)
    ensures WireOk(CreateDevice(w)) && Grows(w, CreateDevice(w))
  {
    hide Ids, DistinctIds, Counted, AllExplained;
    SilentOk(w, CreateDevice(w));
  }

  lemma {:induction false} DestroyOk(w: Wire, devid: int)
    requires WireOk(w)
    ensures WireOk(DestroyDevice(w, devid)) && Grows(w, DestroyDevice(w, devid))
  {
    hide Ids, DistinctIds, Counted, AllExplained;
    SilentOk(w, DestroyDevice(w, devid));
  }
}
