/** The cache of pending requests: eng/dev_model/dm_message_cache.c. */
module MessageCache {
  import opened Messages
  import opened Text

  const CAPACITY := 50
  const AGE_LIMIT := 10000

  datatype Pending = Pending(id: int, devid: int, kind: Kind, ctime: nat)

  /** The list and the counter beside it. */
  datatype Cache = Cache(entries: seq<Pending>, size: int)

  predicate Aged(p: Pending, now: nat) {
    p.ctime + AGE_LIMIT <= now
  }

  /** A clock that went back pulls the creation time with it. */
  function Clamped(p: Pending, now: nat): Pending {
    if now < p.ctime then p.(ctime := now) else p
  }

  /** Index of the first entry with the id, or the length. */
  function Position(entries: seq<Pending>, id: int): (i: nat)
    ensures i <= |entries| && (i < |entries| ==> entries[i].id == id)
    ensures forall k :: 0 <= k < i ==> entries[k].id != id
  {
    if entries == [] || entries[0].id == id then 0 else Position(entries[1..], id) + 1
  }

  predicate Holds(entries: seq<Pending>, id: int) {
    Position(entries, id) < |entries|
  }

  function Find(c: Cache, id: int): Option<Pending> {
    if id >= 0 && Holds(c.entries, id) then Some(c.entries[Position(c.entries, id)]) else None
  }

  function Insert(c: Cache, p: Pending): Cache {
    if c.size < CAPACITY then Cache(c.entries + [p], c.size + 1) else c
  }

  function Remove(c: Cache, id: int): Cache {
    var i := Position(c.entries, id);
    if i < |c.entries| then Cache(c.entries[..i] + c.entries[i + 1..], c.size - 1) else c
  }

  function Timeout(p: Pending): Message {
    Message(p.kind, p.id, CODE_TIMEOUT, p.devid, FromExpiry)
  }

  /** What a tick leaves of an entry, and what it sends for it. */
  function Remains(p: Pending, now: nat): seq<Pending> {
    if Aged(p, now) then [] else [Clamped(p, now)]
  }

  function Announced(p: Pending, now: nat): seq<Message> {
    if Aged(p, now) then [Timeout(p)] else []
  }

  function Survivors(entries: seq<Pending>, now: nat): seq<Pending> {
    if entries == [] then [] else Remains(entries[0], now) + Survivors(entries[1..], now)
  }

  function Timeouts(entries: seq<Pending>, now: nat): seq<Message> {
    if entries == [] then [] else Announced(entries[0], now) + Timeouts(entries[1..], now)
  }

  lemma {:induction false} TickNext(entries: seq<Pending>, i: nat, now: nat, kept: seq<Pending>, sent: seq<Message>)
    requires i < |entries|
    ensures kept + Survivors(entries[i..], now) == (kept + Remains(entries[i], now)) + Survivors(entries[i + 1..], now)
    ensures sent + Timeouts(entries[i..], now) == (sent + Announced(entries[i], now)) + Timeouts(entries[i + 1..], now)
  {
    hide Remains, Announced;
    assert entries[i..][1..] == entries[i + 1..];
  }

  /** The counter is left alone: the tick unlinks without decrementing. */
  function Tick(c: Cache, now: nat): Cache {
    c.(entries := Survivors(c.entries, now))
  }

  /** dm_msg_cache_ctx_t and the operations on it. */
  class Context {
    var entries: seq<Pending>
    var listSize: int
    /** Entries aged out so far; no counter of the source tells them. */
    ghost var agedOut: nat

    ghost predicate Valid()
      reads this
    {
      listSize == |entries| + agedOut && listSize <= CAPACITY
    }

    function State(): Cache
      reads this
    {
      Cache(entries, listSize)
    }

    constructor ()
      ensures Valid() && State() == Cache([], 0) && agedOut == 0
    {
      entries, listSize, agedOut := [], 0, 0;
    }

    method InsertEntry(id: int, devid: int, kind: Kind, now: nat) returns (ok: bool)
      requires Valid()
      modifies this
      ensures Valid() && agedOut == old(agedOut)
      ensures State() == Insert(old(State()), Pending(id, devid, kind, now))
      ensures ok == (|old(entries)| + agedOut < CAPACITY)
    {
      if listSize >= CAPACITY {
        return false;
      }
      entries := entries + [Pending(id, devid, kind, now)];
      listSize := listSize + 1;
      ok := true;
    }

    method Search(id: int) returns (r: Option<Pending>)
      ensures r == Find(State(), id)
    {
      if id < 0 {
        return None;
      }
      for i := 0 to |entries|
        invariant forall k :: 0 <= k < i ==> entries[k].id != id
      {
        if entries[i].id == id {
          return Some(entries[i]);
        }
      }
      r := None;
    }

    method RemoveEntry(id: int) returns (ok: bool)
      requires Valid()
      modifies this
      ensures Valid() && agedOut == old(agedOut)
      ensures State() == Remove(old(State()), id)
      ensures ok == Holds(old(entries), id)
    {
      for i := 0 to |entries|
        invariant State() == old(State())
        invariant forall k :: 0 <= k < i ==> entries[k].id != id
      {
        if entries[i].id == id {
          entries := entries[..i] + entries[i + 1..];
          listSize := listSize - 1;
          return true;
        }
      }
      ok := false;
    }

    /** dm_msg_cache_tick; the messages are in the order they are sent to the user. */
    method TickEntries(now: nat) returns (sent: seq<Message>)
      requires Valid()
      modifies this
      ensures Valid() && State() == Tick(old(State()), now)
      ensures sent == Timeouts(old(entries), now) && agedOut == old(agedOut) + |sent|
    {
      hide Survivors, Timeouts;
      sent := [];
      var i := 0;
      while i < |entries|
        invariant 0 <= i <= |entries| && Valid() && listSize == old(listSize)
        invariant entries[..i] + Survivors(entries[i..], now) == Survivors(old(entries), now)
        invariant sent + Timeouts(entries[i..], now) == Timeouts(old(entries), now)
        invariant agedOut == old(agedOut) + |sent|
        decreases |entries| - i
      {
        var p := entries[i];
        ghost var before, rest := entries[..i], entries[i + 1..];
        TickNext(entries, i, now, before, sent);
        if now < p.ctime {
          entries := entries[i := Clamped(p, now)];
        }
        if now - entries[i].ctime >= AGE_LIMIT {
          sent := sent + [Timeout(p)];
          entries := entries[..i] + entries[i + 1..];
          agedOut := agedOut + 1;
          assert entries[..i] == before + [] && entries[i..] == rest;
        } else {
          i := i + 1;
          assert entries[..i] == before + [Clamped(p, now)] && entries[i..] == rest;
          assert sent + [] == sent;
        }
      }
      TickNothing(now);
      assert entries[..i] == entries && entries[i..] == [];
    }
  }

  lemma {:induction false} TickNothing(now: nat)
    ensures Survivors([], now) == [] && Timeouts([], now) == []
  {
  }

  // ---------------------------------------------------------------- what a tick keeps

  /** Indices, in ascending order, of the entries that have aged, or of those that have not. */
  function Where(entries: seq<Pending>, now: nat, aged: bool): (ks: seq<nat>)
    ensures forall i :: 0 <= i < |ks| ==> ks[i] < |entries| && Aged(entries[ks[i]], now) == aged
    ensures forall i, j :: 0 <= i < j < |ks| ==> ks[i] < ks[j]
    ensures forall k :: 0 <= k < |entries| && Aged(entries[k], now) == aged ==> k in ks
  {
    if entries == [] then []
    else
      var n := |entries| - 1;
      var before := Where(entries[..n], now, aged);
      if Aged(entries[n], now) == aged then before + [n] else before
  }

  lemma {:induction false} WhereCount(entries: seq<Pending>, now: nat)
    ensures |Where(entries, now, true)| + |Where(entries, now, false)| == |entries|
  {
    if entries != [] {
      WhereCount(entries[..|entries| - 1], now);
    }
  }

  lemma {:induction false} TickSplits(a: seq<Pending>, b: seq<Pending>, now: nat)
    ensures Survivors(a + b, now) == Survivors(a, now) + Survivors(b, now)
    ensures Timeouts(a + b, now) == Timeouts(a, now) + Timeouts(b, now)
  {
    hide Remains, Announced;
    if a == [] {
      assert a + b == b;
      TickNothing(now);
    } else {
      assert (a + b)[1..] == a[1..] + b;
      TickSplits(a[1..], b, now);
    }
  }

  lemma {:induction false} TickLast(entries: seq<Pending>, now: nat)
    requires entries != []
    ensures var n := |entries| - 1;
            && Survivors(entries, now) == Survivors(entries[..n], now) + Remains(entries[n], now)
            && Timeouts(entries, now) == Timeouts(entries[..n], now) + Announced(entries[n], now)
  {
    hide Survivors, Timeouts, Remains, Announced;
    var n := |entries| - 1;
    assert entries[..n] + [entries[n]] == entries;
    TickSplits(entries[..n], [entries[n]], now);
    TickOne(entries[n], now);
  }

  lemma {:induction false} TickOne(p: Pending, now: nat)
    ensures Survivors([p], now) == Remains(p, now) && Timeouts([p], now) == Announced(p, now)
  {
    hide Remains, Announced;
    assert [p][1..] == [];
  }

  /** One survivor: as before, unless the clock went back behind its creation. */
  ghost predicate Kept(p: Pending, now: nat, q: Pending) {
    && q.id == p.id && q.devid == p.devid && q.kind == p.kind
    && (p.ctime <= now ==> q.ctime == p.ctime) && (now < p.ctime ==> q.ctime == now)
  }

  /** The survivors are the entries at those indices. */
  ghost predicate KeptAt(entries: seq<Pending>, now: nat, ks: seq<nat>, kept: seq<Pending>) {
    |kept| == |ks| && forall i :: 0 <= i < |ks| ==> ks[i] < |entries| && Kept(entries[ks[i]], now, kept[i])
  }

  /** Each entry at those indices is reported with the code for a timeout. */
  ghost predicate TimeoutsAt(entries: seq<Pending>, ks: seq<nat>, sent: seq<Message>) {
    |sent| == |ks| && forall i :: 0 <= i < |ks| ==>
      && ks[i] < |entries|
      && sent[i] == Message(entries[ks[i]].kind, entries[ks[i]].id, 100000, entries[ks[i]].devid, FromExpiry)
  }

  lemma {:induction false} ClampedKept(p: Pending, now: nat)
    ensures Kept(p, now, Clamped(p, now))
  {
  }

  lemma {:induction false} KeptMore(entries: seq<Pending>, now: nat, ks: seq<nat>, kept: seq<Pending>)
    requires entries != [] && KeptAt(entries[..|entries| - 1], now, ks, kept)
    ensures var n := |entries| - 1;
            KeptAt(entries, now, ks, kept) && KeptAt(entries, now, ks + [n], kept + [Clamped(entries[n], now)])
  {
    hide Clamped;
    ClampedKept(entries[|entries| - 1], now);
    assert forall i :: 0 <= i < |ks| ==> entries[..|entries| - 1][ks[i]] == entries[ks[i]];
  }

  lemma {:induction false} TimeoutsMore(entries: seq<Pending>, ks: seq<nat>, sent: seq<Message>)
    requires entries != [] && TimeoutsAt(entries[..|entries| - 1], ks, sent)
    ensures var n := |entries| - 1;
            TimeoutsAt(entries, ks, sent) && TimeoutsAt(entries, ks + [n], sent + [Timeout(entries[n])])
  {
    assert forall i :: 0 <= i < |ks| ==> entries[..|entries| - 1][ks[i]] == entries[ks[i]];
  }

  lemma {:induction false} WhereMore(entries: seq<Pending>, now: nat, aged: bool)
    requires entries != []
    ensures var n := |entries| - 1;
            && (Aged(entries[n], now) == aged ==> Where(entries, now, aged) == Where(entries[..n], now, aged) + [n])
            && (Aged(entries[n], now) != aged ==> Where(entries, now, aged) == Where(entries[..n], now, aged))
  {
  }

  lemma {:induction false} SurvivorsExact(entries: seq<Pending>, now: nat)
    ensures KeptAt(entries, now, Where(entries, now, false), Survivors(entries, now))
  {
    hide Where, Survivors, KeptAt, Aged, Clamped;
    if entries == [] {
      NothingExact(now);
    } else {
      var n := |entries| - 1;
      var e := entries[..n];
      SurvivorsExact(e, now);
      KeptMore(entries, now, Where(e, now, false), Survivors(e, now));
      WhereMore(entries, now, false);
      TickLast(entries, now);
      assert Survivors(e, now) + [] == Survivors(e, now);
    }
  }

  lemma {:induction false} NothingExact(now: nat)
    ensures KeptAt([], now, Where([], now, false), Survivors([], now))
    ensures TimeoutsAt([], Where([], now, true), Timeouts([], now))
  {
  }

  lemma {:induction false} TimeoutsExact(entries: seq<Pending>, now: nat)
    ensures TimeoutsAt(entries, Where(entries, now, true), Timeouts(entries, now))
  {
    hide Where, Timeouts, TimeoutsAt, Aged, Timeout;
    if entries == [] {
      NothingExact(now);
    } else {
      var n := |entries| - 1;
      var e := entries[..n];
      TimeoutsExact(e, now);
      TimeoutsMore(entries, Where(e, now, true), Timeouts(e, now));
      WhereMore(entries, now, true);
      TickLast(entries, now);
      assert Timeouts(e, now) + [] == Timeouts(e, now);
    }
  }

  /** A tick keeps exactly the entries younger than 10000 ms, in their order, and reports each other one once, in order. */
  lemma {:induction false} TickExact(entries: seq<Pending>, now: nat)
    ensures forall k :: 0 <= k < |entries| ==>
              && (k in Where(entries, now, true) <==> entries[k].ctime + 10000 <= now)
              && (k in Where(entries, now, false) <==> entries[k].ctime + 10000 > now)
    ensures KeptAt(entries, now, Where(entries, now, false), Survivors(entries, now))
    ensures TimeoutsAt(entries, Where(entries, now, true), Timeouts(entries, now))
    ensures |Survivors(entries, now)| + |Timeouts(entries, now)| == |entries|
  {
    WhereAged(entries, now);
    hide Where, Survivors, Timeouts, Aged, Kept;
    SurvivorsExact(entries, now);
    TimeoutsExact(entries, now);
    WhereCount(entries, now);
  }

  lemma {:induction false} WhereAged(entries: seq<Pending>, now: nat)
    ensures forall k :: 0 <= k < |entries| ==>
              && (k in Where(entries, now, true) <==> entries[k].ctime + 10000 <= now)
              && (k in Where(entries, now, false) <==> entries[k].ctime + 10000 > now)
  {
    forall k, aged | 0 <= k < |entries|
      ensures k in Where(entries, now, aged) <==> Aged(entries[k], now) == aged
    {
      var ks := Where(entries, now, aged);
      if k in ks {
        var i :| 0 <= i < |ks| && ks[i] == k;
      }
    }
    hide Where;
  }

  /** An entry at or after its creation: unchanged below 10000 ms, reported from then on. */
  lemma {:induction false} TickEntry(entries: seq<Pending>, now: nat, p: Pending)
    requires p in entries && p.ctime <= now
    ensures now < p.ctime + 10000 ==> p in Survivors(entries, now)
    ensures now >= p.ctime + 10000 ==> Message(p.kind, p.id, 100000, p.devid, FromExpiry) in Timeouts(entries, now)
  {
    TickExact(entries, now);
    hide Where, Survivors, Timeouts;
    var k :| 0 <= k < |entries| && entries[k] == p;
    if now < p.ctime + 10000 {
      var ks, kept := Where(entries, now, false), Survivors(entries, now);
      var i :| 0 <= i < |ks| && ks[i] == k;
      assert Kept(p, now, kept[i]);
    } else {
      var ks, sent := Where(entries, now, true), Timeouts(entries, now);
      var i :| 0 <= i < |ks| && ks[i] == k;
      assert sent[i] in sent;
    }
  }

  /** No survivor is old. */
  lemma {:induction false} SurvivorsYoung(entries: seq<Pending>, now: nat)
    ensures forall q <- Survivors(entries, now) :: q.ctime <= now < q.ctime + 10000
  {
    TickExact(entries, now);
    hide Where, Survivors, Timeouts;
    var ks, kept := Where(entries, now, false), Survivors(entries, now);
    forall q | q in kept
      ensures q.ctime <= now < q.ctime + 10000
    {
      var i :| 0 <= i < |kept| && kept[i] == q;
      assert Kept(entries[ks[i]], now, q) && ks[i] in ks;
    }
  }

  // ---------------------------------------------------------------- runs

  datatype Op = InsertOp(p: Pending) | RemoveOp(id: int) | TickOp(now: nat)

  function Apply(c: Cache, op: Op): Cache {
    match op
    case InsertOp(p) => Insert(c, p)
    case RemoveOp(id) => Remove(c, id)
    case TickOp(now) => Tick(c, now)
  }

  function After(c: Cache, ops: seq<Op>): Cache
    decreases |ops|
  {
    if ops == [] then c else After(Apply(c, ops[0]), ops[1..])
  }

  /** How many entries age out on the way. */
  function AgedOut(c: Cache, ops: seq<Op>): nat
    decreases |ops|
  {
    if ops == [] then 0
    else (if ops[0].TickOp? then |Timeouts(c.entries, ops[0].now)| else 0) + AgedOut(Apply(c, ops[0]), ops[1..])
  }

  /** The operation takes nothing from the entry: it removes another id, or is a tick within 10000 ms after its creation. */
  predicate Spares(op: Op, p: Pending) {
    && (op.RemoveOp? ==> op.id != p.id)
    && (op.TickOp? ==> p.ctime <= op.now < p.ctime + 10000)
  }

  /** However many ticks there are in between, an entry that is not removed stays as it is for 10000 ms, and the first tick
      after that reports it and takes it away. */
  lemma {:induction false} TimesOutOnTime(c: Cache, ops: seq<Op>, p: Pending, now: nat)
    requires p in c.entries && forall op <- ops :: Spares(op, p)
    requires now >= p.ctime + 10000
    ensures var e := After(c, ops).entries;
            && p in e
            && Message(p.kind, p.id, 100000, p.devid, FromExpiry) in Timeouts(e, now)
            && p !in Survivors(e, now)
    decreases |ops|
  {
    if ops == [] {
      TickEntry(c.entries, now, p);
      SurvivorsYoung(c.entries, now);
    } else {
      SparedStep(c, ops[0], p);
      TimesOutOnTime(Apply(c, ops[0]), ops[1..], p, now);
    }
  }

  lemma {:induction false} SparedStep(c: Cache, op: Op, p: Pending)
    requires p in c.entries && Spares(op, p)
    ensures p in Apply(c, op).entries
  {
    match op {
      case InsertOp(q) =>
      case RemoveOp(id) =>
        var i := Position(c.entries, id);
        if i < |c.entries| {
          var k :| 0 <= k < |c.entries| && c.entries[k] == p;
          var r := c.entries[..i] + c.entries[i + 1..];
          assert r[if k < i then k else k - 1] == p;
        }
      case TickOp(now) => TickEntry(c.entries, now, p);
    }
  }

  lemma {:induction false} SizeStep(c: Cache, ops: seq<Op>, before: nat)
    requires c.size == |c.entries| + before && c.size <= CAPACITY
    ensures var d := After(c, ops);
            d.size == |d.entries| + before + AgedOut(c, ops) && d.size <= CAPACITY
    decreases |ops|
  {
    if ops != [] {
      if ops[0].TickOp? {
        TickExact(c.entries, ops[0].now);
        SizeStep(Apply(c, ops[0]), ops[1..], before + |Timeouts(c.entries, ops[0].now)|);
      } else {
        SizeStep(Apply(c, ops[0]), ops[1..], before);
      }
    }
  }

  /** In every reachable state the counter is the live entries plus the aged-out ones, and stays within the maximum. */
  lemma {:induction false} SizeOverRuns(ops: seq<Op>)
    ensures var c := After(Cache([], 0), ops);
            c.size == |c.entries| + AgedOut(Cache([], 0), ops) <= 50
  {
    SizeStep(Cache([], 0), ops, 0);
  }

  /** A request is cached exactly when the live and the aged-out entries leave room. */
  lemma {:induction false} InsertAccepted(ops: seq<Op>, p: Pending)
    ensures var c := After(Cache([], 0), ops);
            Insert(c, p).entries == c.entries + [p] <==> |c.entries| + AgedOut(Cache([], 0), ops) < 50
  {
    SizeStep(Cache([], 0), ops, 0);
  }

  lemma {:induction false} StaysFull(c: Cache, ops: seq<Op>)
    requires c.entries == [] && c.size >= CAPACITY
    ensures After(c, ops) == c
    decreases |ops|
  {
    if ops != [] {
      StaysFull(c, ops[1..]);
    }
  }

  /** Fifty requests that aged out close the cache for good, whatever happens next. */
  lemma {:induction false} FullForGood(ops: seq<Op>, more: seq<Op>)
    requires AgedOut(Cache([], 0), ops) >= 50
    ensures After(After(Cache([], 0), ops), more) == Cache([], 50)
  {
    SizeOverRuns(ops);
    StaysFull(After(Cache([], 0), ops), more);
  }

  /** Removing a fresh id right after its insertion leaves the cache as it was. */
  lemma {:induction false} RemoveUndoesInsert(c: Cache, p: Pending)
    requires c.size < CAPACITY && !Holds(c.entries, p.id)
    ensures Remove(Insert(c, p), p.id) == c
  {
    var e := c.entries + [p];
    assert Position(e, p.id) == |c.entries| by {
      assert e[|c.entries|].id == p.id;
      assert forall k :: 0 <= k < |c.entries| ==> e[k] == c.entries[k];
    }
  }
}
