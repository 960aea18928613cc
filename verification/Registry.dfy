/** The devices of a gateway: eng/dev_model/dm_manager.c. */
module Registry {
  import opened Messages
  import opened Text

  const LOCAL_ID := 0

  /** Capacities of the text fields; their values come from a header that is not part of this model. */
  datatype Limits = Limits(key: nat, secret: nat, name: nat, deviceSecret: nat)

  datatype Device = Device(
    id: int, kind: int, key: string, name: string, secret: string, deviceSecret: string, status: Status)

  /** The list in order, and global_devid. */
  datatype Devices = Devices(list: seq<Device>, next: int)

  datatype Created = New(id: int) | Existing(id: int) | Rejected

  datatype Destroyed = Gone | BadId | Unknown | NotDeletable

  /** Index of the first device with the id, or the length. */
  function IdPlace(list: seq<Device>, id: int): (i: nat)
    ensures i <= |list| && (i < |list| ==> list[i].id == id)
    ensures forall k :: 0 <= k < i ==> list[k].id != id
  {
    if list == [] || list[0].id == id then 0 else IdPlace(list[1..], id) + 1
  }

  predicate Named(d: Device, key: string, name: string) {
    d.key == key && d.name == name
  }

  /** Index of the first device with the product key and the device name, or the length. */
  function NamePlace(list: seq<Device>, key: string, name: string): (i: nat)
    ensures i <= |list| && (i < |list| ==> Named(list[i], key, name))
    ensures forall k :: 0 <= k < i ==> !Named(list[k], key, name)
  {
    if list == [] || Named(list[0], key, name) then 0 else NamePlace(list[1..], key, name) + 1
  }

  predicate Fits(lim: Limits, key: string, secret: string, name: string, deviceSecret: Option<string>) {
    |key| <= lim.key && |secret| <= lim.secret && |name| <= lim.name
    && (deviceSecret.Some? ==> |deviceSecret.value| <= lim.deviceSecret)
  }

  function Init(lim: Limits, kind: int, key: string, name: string): Devices {
    if |key| <= lim.key && |name| <= lim.name then
      Devices([Device(LOCAL_ID, kind, key, name, "", "", Unauthorized)], LOCAL_ID + 1)
    else Devices([], 0)
  }

  function Create(d: Devices, lim: Limits, kind: int, key: string, secret: string, name: string,
                  deviceSecret: Option<string>): Devices
  {
    if !Fits(lim, key, secret, name, deviceSecret) || NamePlace(d.list, key, name) < |d.list| then d
    else
      var ds := if deviceSecret.Some? then deviceSecret.value else "";
      Devices(d.list + [Device(d.next, kind, key, name, secret, ds, Authorized)], d.next + 1)
  }

  function CreateResult(d: Devices, lim: Limits, key: string, secret: string, name: string,
                        deviceSecret: Option<string>): Created
  {
    if !Fits(lim, key, secret, name, deviceSecret) then Rejected
    else
      var i := NamePlace(d.list, key, name);
      if i < |d.list| then Existing(d.list[i].id) else New(d.next)
  }

  function Destroy(d: Devices, id: int): Devices {
    var i := IdPlace(d.list, id);
    if id < 0 || i == |d.list| || id == LOCAL_ID then d else d.(list := d.list[..i] + d.list[i + 1..])
  }

  function DestroyResult(d: Devices, id: int): Destroyed {
    if id < 0 then BadId
    else if IdPlace(d.list, id) == |d.list| then Unknown
    else if id == LOCAL_ID then NotDeletable
    else Gone
  }

  function SetStatus(d: Devices, id: int, status: Status): Devices {
    var i := IdPlace(d.list, id);
    if id < 0 || i == |d.list| then d else d.(list := d.list[i := d.list[i].(status := status)])
  }

  function ByIndex(list: seq<Device>, index: int): Option<int> {
    if 0 <= index < |list| then Some(list[index].id) else None
  }

  /** The id after the first device with the given id. */
  function NextId(list: seq<Device>, id: int): Option<int> {
    var i := IdPlace(list, id);
    if id >= 0 && i + 1 < |list| then Some(list[i + 1].id) else None
  }

  /** dm_mgr_ctx and the operations on it. */
  class Manager {
    const lim: Limits
    var list: seq<Device>
    var next: int

    function State(): Devices
      reads this
    {
      Devices(list, next)
    }

    constructor (lim: Limits)
      ensures State() == Devices([], 0) && this.lim == lim
    {
      this.lim, list, next := lim, [], 0;
    }

    method SearchById(id: int) returns (i: nat)
      ensures i == IdPlace(list, id)
    {
      i := 0;
      while i < |list| && list[i].id != id
        invariant i <= |list|
        invariant forall k :: 0 <= k < i ==> list[k].id != id
      {
        i := i + 1;
      }
    }

    method SearchByName(key: string, name: string) returns (i: nat)
      ensures i == NamePlace(list, key, name)
    {
      i := 0;
      while i < |list| && !Named(list[i], key, name)
        invariant i <= |list|
        invariant forall k :: 0 <= k < i ==> !Named(list[k], key, name)
      {
        i := i + 1;
      }
    }

    /** dm_mgr_init: the local node first; an identity that does not fit leaves the context zeroed. */
    method Start(kind: int, key: string, name: string) returns (ok: bool)
      modifies this
      ensures State() == Init(lim, kind, key, name) && ok == (State().list != [])
    {
      list, next := [], LOCAL_ID + 1;
      if |key| >= lim.key + 1 || |name| >= lim.name + 1 {
        list, next := [], 0;
        return false;
      }
      list := list + [Device(LOCAL_ID, kind, key, name, "", "", Unauthorized)];
      ok := true;
    }

    /** dm_mgr_device_create. */
    method CreateDevice(kind: int, key: string, secret: string, name: string, deviceSecret: Option<string>) returns (r: Created)
      modifies this
      ensures State() == Create(old(State()), lim, kind, key, secret, name, deviceSecret)
      ensures r == CreateResult(old(State()), lim, key, secret, name, deviceSecret)
    {
      if |key| >= lim.key + 1 || |secret| >= lim.secret + 1 || |name| >= lim.name + 1 {
        return Rejected;
      }
      if deviceSecret.Some? && |deviceSecret.value| >= lim.deviceSecret + 1 {
        return Rejected;
      }
      var i := SearchByName(key, name);
      if i < |list| {
        return Existing(list[i].id);
      }
      var id := next;
      next := next + 1;
      list := list + [Device(id, kind, key, name, secret, if deviceSecret.Some? then deviceSecret.value else "", Authorized)];
      r := New(id);
    }

    /** dm_mgr_device_destroy. */
    method DestroyDevice(id: int) returns (r: Destroyed)
      modifies this
      ensures State() == Destroy(old(State()), id) && r == DestroyResult(old(State()), id)
    {
      if id < 0 {
        return BadId;
      }
      var i := SearchById(id);
      if i == |list| {
        return Unknown;
      }
      if list[i].id == LOCAL_ID {
        return NotDeletable;
      }
      list := list[..i] + list[i + 1..];
      r := Gone;
    }

    /** dm_mgr_device_number. */
    method Number() returns (n: nat)
      ensures n == |list|
    {
      n := 0;
      for i := 0 to |list|
        invariant n == i
      {
        n := n + 1;
      }
    }

    /** dm_mgr_get_devid_by_index. */
    method IdByIndex(index: int) returns (r: Option<int>)
      ensures r == ByIndex(list, index)
    {
      if index < 0 {
        return None;
      }
      var searchIndex := 0;
      for i := 0 to |list|
        invariant searchIndex == i && i <= index
      {
        if searchIndex == index {
          return Some(list[i].id);
        }
        searchIndex := searchIndex + 1;
      }
      r := None;
    }

    /** dm_mgr_get_next_devid: remembers the node with the id and returns the one that follows. */
    method NextIdAfter(id: int) returns (r: Option<int>)
      ensures r == NextId(list, id)
    {
      if id < 0 {
        return None;
      }
      var found := false;
      for i := 0 to |list|
        invariant found <==> i > 0 && list[i - 1].id == id
        invariant forall k :: 0 <= k < i - 1 ==> list[k].id != id
      {
        if found {
          return Some(list[i].id);
        }
        if list[i].id == id {
          found := true;
        }
      }
      r := None;
    }

    /** dm_mgr_set_dev_status. */
    method UpdateStatus(id: int, status: Status) returns (ok: bool)
      modifies this
      ensures State() == SetStatus(old(State()), id, status)
      ensures ok == (id >= 0 && IdPlace(old(list), id) < |old(list)|)
    {
      if id < 0 {
        return false;
      }
      var i := SearchById(id);
      if i == |list| {
        return false;
      }
      list := list[i := list[i].(status := status)];
      ok := true;
    }
  }

  // ---------------------------------------------------------------- the invariant

  ghost predicate Ascending(list: seq<Device>) {
    forall i, j :: 0 <= i < j < |list| ==> list[i].id < list[j].id
  }

  ghost predicate NamesDistinct(list: seq<Device>) {
    forall i, j :: 0 <= i < j < |list| ==> !Named(list[i], list[j].key, list[j].name)
  }

  /** The local node is first, ids ascend and lie below the next one, and no identity occurs twice. */
  ghost predicate Valid(d: Devices) {
    && d.list != [] && d.list[0].id == LOCAL_ID
    && Ascending(d.list) && NamesDistinct(d.list)
    && (forall i :: 0 <= i < |d.list| ==> d.list[i].id < d.next)
  }

  datatype Op =
    | CreateOp(kind: int, key: string, secret: string, name: string, deviceSecret: Option<string>)
    | DestroyOp(id: int)
    | StatusOp(id: int, status: Status)

  function Apply(d: Devices, lim: Limits, op: Op): Devices {
    match op
    case CreateOp(kind, key, secret, name, deviceSecret) => Create(d, lim, kind, key, secret, name, deviceSecret)
    case DestroyOp(id) => Destroy(d, id)
    case StatusOp(id, status) => SetStatus(d, id, status)
  }

  function After(d: Devices, lim: Limits, ops: seq<Op>): Devices {
    if ops == [] then d else Apply(After(d, lim, ops[..|ops| - 1]), lim, ops[|ops| - 1])
  }

  /** The ids handed out on the way. */
  function Issued(d: Devices, lim: Limits, ops: seq<Op>): seq<int> {
    if ops == [] then []
    else
      var n := |ops| - 1;
      var before := After(d, lim, ops[..n]);
      Issued(d, lim, ops[..n]) + if Apply(before, lim, ops[n]).next > before.next then [before.next] else []
  }

  /** The list after a destroy, element by element. */
  lemma {:induction false} DestroyAt(d: Devices, id: int, k: nat)
    requires DestroyResult(d, id).Gone? && k < |d.list| - 1
    ensures var u, i := Destroy(d, id).list, IdPlace(d.list, id);
            |u| == |d.list| - 1 && u[k] == d.list[if k < i then k else k + 1]
  {
  }

  lemma {:induction false} DestroyValid(d: Devices, id: int)
    requires Valid(d)
    ensures Valid(Destroy(d, id))
  {
    if DestroyResult(d, id).Gone? {
      var i, u := IdPlace(d.list, id), Destroy(d, id);
      assert i > 0 && |u.list| == |d.list| - 1;
      forall a, b | 0 <= a < b < |u.list|
        ensures u.list[a].id < u.list[b].id && !Named(u.list[a], u.list[b].key, u.list[b].name)
      {
        DestroyAt(d, id, a);
        DestroyAt(d, id, b);
      }
      forall a | 0 <= a < |u.list|
        ensures u.list[a].id < u.next && (a == 0 ==> u.list[a].id == LOCAL_ID)
      {
        DestroyAt(d, id, a);
      }
      hide Destroy, IdPlace, Named;
    }
  }

  /** Destroying an id removes that device and no other. */
  lemma {:induction false} DestroyExact(d: Devices, id: int, x: Device)
    requires Valid(d) && DestroyResult(d, id).Gone?
    ensures x in Destroy(d, id).list <==> x in d.list && x.id != id
  {
    var i, u := IdPlace(d.list, id), Destroy(d, id).list;
    if x in u {
      var k :| 0 <= k < |u| && u[k] == x;
      DestroyAt(d, id, k);
    }
    if x in d.list && x.id != id {
      var k :| 0 <= k < |d.list| && d.list[k] == x;
      DestroyAt(d, id, if k < i then k else k - 1);
    }
    hide Destroy, IdPlace, Named;
  }

  lemma {:induction false} ApplyKeeps(d: Devices, lim: Limits, op: Op)
    requires Valid(d)
    ensures Valid(Apply(d, lim, op)) && (Apply(d, lim, op).next == d.next || Apply(d, lim, op).next == d.next + 1)
  {
    match op {
      case CreateOp(kind, key, secret, name, deviceSecret) =>
      case DestroyOp(id) => DestroyValid(d, id);
      case StatusOp(id, status) =>
    }
  }

  /** Ids in ascending order from `lo` up to `hi`. */
  ghost predicate Climbing(ids: seq<int>, lo: int, hi: int) {
    && (forall i, j :: 0 <= i < j < |ids| ==> ids[i] < ids[j])
    && (forall i :: 0 <= i < |ids| ==> lo <= ids[i] < hi)
  }

  lemma {:induction false} ClimbsOn(ids: seq<int>, lo: int, hi: int)
    requires Climbing(ids, lo, hi) && lo <= hi
    ensures Climbing(ids, lo, hi + 1) && Climbing(ids + [hi], lo, hi + 1)
  {
  }

  /** Over every run: the invariant holds, and the ids handed out ascend, so that none is handed out twice. */
  lemma {:induction false} RunKeeps(d: Devices, lim: Limits, ops: seq<Op>)
    requires Valid(d)
    ensures Valid(After(d, lim, ops)) && d.next <= After(d, lim, ops).next
    ensures Climbing(Issued(d, lim, ops), d.next, After(d, lim, ops).next)
  {
    hide Valid, Apply, Climbing;
    if ops == [] {
      ClimbingNone(d.next);
    } else {
      var n := |ops| - 1;
      var before, ids := After(d, lim, ops[..n]), Issued(d, lim, ops[..n]);
      RunKeeps(d, lim, ops[..n]);
      ApplyKeeps(before, lim, ops[n]);
      ClimbsOn(ids, d.next, before.next);
      assert ids + [] == ids;
    }
  }

  lemma {:induction false} ClimbingNone(lo: int)
    ensures Climbing([], lo, lo)
  {
  }

  lemma {:induction false} InitValid(lim: Limits, kind: int, key: string, name: string)
    ensures Valid(Init(lim, kind, key, name)) <==> |key| <= lim.key && |name| <= lim.name
  {
  }

  /** After initialisation the local node is the only device, with id 0, and the next id is 1; or there is nothing. */
  lemma {:induction false} InitExact(lim: Limits, kind: int, key: string, name: string)
    ensures var d := Init(lim, kind, key, name);
            if |key| <= lim.key && |name| <= lim.name then
              && d.next == 1 && |d.list| == 1
              && d.list[0].id == 0 && d.list[0].kind == kind && d.list[0].key == key && d.list[0].name == name
              && d.list[0].secret == "" && d.list[0].deviceSecret == "" && d.list[0].status.Unauthorized?
            else d.list == []
  {
  }

  /** What destroying answers: nothing but a registered device other than the local node is destroyed. */
  lemma {:induction false} DestroyAnswers(d: Devices, id: int)
    requires Valid(d)
    ensures match DestroyResult(d, id)
            case BadId => id < 0 && Destroy(d, id) == d
            case NotDeletable => id == 0 && Destroy(d, id) == d
            case Unknown => id > 0 && (forall x <- d.list :: x.id != id) && Destroy(d, id) == d
            case Gone => id > 0 && (exists x <- d.list :: x.id == id) && |Destroy(d, id).list| == |d.list| - 1
  {
    NotFound(d.list, id);
    if IdPlace(d.list, id) < |d.list| {
      assert d.list[IdPlace(d.list, id)] in d.list;
    }
  }

  lemma {:induction false} NotFound(list: seq<Device>, id: int)
    ensures IdPlace(list, id) == |list| <==> forall x <- list :: x.id != id
  {
    if IdPlace(list, id) < |list| {
      assert list[IdPlace(list, id)] in list;
    }
  }

  lemma {:induction false} StaysGone(d: Devices, lim: Limits, op: Op, id: int)
    requires Valid(d) && id < d.next && forall x <- d.list :: x.id != id
    ensures forall x <- Apply(d, lim, op).list :: x.id != id
  {
    if op.DestroyOp? && DestroyResult(d, op.id).Gone? {
      forall x | x in Destroy(d, op.id).list
        ensures x.id != id
      {
        DestroyExact(d, op.id, x);
      }
    }
  }

  /** An id that is not registered any more never comes back. */
  lemma {:induction false} GoneForGood(d: Devices, lim: Limits, ops: seq<Op>, id: int)
    requires Valid(d) && id < d.next && IdPlace(d.list, id) == |d.list|
    ensures IdPlace(After(d, lim, ops).list, id) == |After(d, lim, ops).list|
  {
    if ops != [] {
      var n := |ops| - 1;
      var before := After(d, lim, ops[..n]);
      RunKeeps(d, lim, ops[..n]);
      GoneForGood(d, lim, ops[..n], id);
      NotFound(before.list, id);
      StaysGone(before, lim, ops[n], id);
      NotFound(Apply(before, lim, ops[n]).list, id);
    }
  }

  // ---------------------------------------------------------------- identities

  /** A create is rejected exactly when some text is longer than its field; the identity of a device decides whether it is
      there; and a new one is recorded as given, with the next id, at the end. */
  lemma {:induction false} CreateExact(d: Devices, lim: Limits, kind: int, key: string, secret: string, name: string,
                                       deviceSecret: Option<string>)
    ensures var r := CreateResult(d, lim, key, secret, name, deviceSecret);
            var u := Create(d, lim, kind, key, secret, name, deviceSecret);
            && (r.Rejected? <==> |key| > lim.key || |secret| > lim.secret || |name| > lim.name
                                 || (deviceSecret.Some? && |deviceSecret.value| > lim.deviceSecret))
            && (r.Existing? ==> exists x <- d.list :: x.id == r.id && x.key == key && x.name == name)
            && (r.New? ==> r.id == d.next && forall x <- d.list :: x.key != key || x.name != name)
            && (if r.New? then
                  && |u.list| == |d.list| + 1 && u.list[..|d.list|] == d.list && u.next == d.next + 1
                  && var x := u.list[|d.list|];
                     && x.id == r.id && x.kind == kind && x.key == key && x.name == name && x.secret == secret
                     && x.deviceSecret == (match deviceSecret case Some(s) => s case None => "") && x.status.Authorized?
                else u == d)
  {
    var i := NamePlace(d.list, key, name);
    assert i < |d.list| ==> d.list[i] in d.list;
  }

  /** A created device is found under its identity, and creating it again only returns its id. */
  lemma {:induction false} CreateFinds(d: Devices, lim: Limits, kind: int, key: string, secret: string, name: string,
                    deviceSecret: Option<string>)
    requires Valid(d) && Fits(lim, key, secret, name, deviceSecret)
    ensures var u := Create(d, lim, kind, key, secret, name, deviceSecret);
            var i, r := NamePlace(u.list, key, name), CreateResult(d, lim, key, secret, name, deviceSecret);
            && i < |u.list| && !r.Rejected? && u.list[i].id == r.id
            && Create(u, lim, kind, key, secret, name, deviceSecret) == u
            && CreateResult(u, lim, key, secret, name, deviceSecret) == Existing(r.id)
  {
    var u := Create(d, lim, kind, key, secret, name, deviceSecret);
    if u != d {
      assert Named(u.list[|d.list|], key, name);
      assert forall k :: 0 <= k < |d.list| ==> u.list[k] == d.list[k];
    }
  }

  /** After a device is destroyed its identity is free again, and no other device is touched. */
  lemma {:induction false} DestroyFrees(d: Devices, id: int, i: nat)
    requires Valid(d) && DestroyResult(d, id).Gone? && i < |d.list| && d.list[i].id == id
    ensures var u := Destroy(d, id).list;
            && |u| == |d.list| - 1
            && NamePlace(u, d.list[i].key, d.list[i].name) == |u|
            && (forall x <- d.list :: x.id != id ==> x in u)
  {
    var u := Destroy(d, id).list;
    assert i == IdPlace(d.list, id) by { IdAt(d, i); }
    forall k | 0 <= k < |u|
      ensures !Named(u[k], d.list[i].key, d.list[i].name)
    {
      DestroyAt(d, id, k);
    }
    forall x | x in d.list && x.id != id
      ensures x in u
    {
      DestroyExact(d, id, x);
    }
    DestroyAt(d, id, 0);
    hide IdPlace, Destroy, Named;
  }

  // ---------------------------------------------------------------- status

  /** The status of every registered device: what the lifecycle of requests sees of the registry. */
  function Statuses(list: seq<Device>): map<int, Status> {
    if list == [] then map[]
    else
      var n := |list| - 1;
      Statuses(list[..n])[list[n].id := list[n].status]
  }

  lemma {:induction false} StatusIds(list: seq<Device>)
    ensures forall x <- list :: x.id in Statuses(list)
    ensures forall id :: id in Statuses(list) ==> exists x <- list :: x.id == id
  {
    if list != [] {
      var n := |list| - 1;
      StatusIds(list[..n]);
      assert forall x <- list :: x in list[..n] || x == list[n];
      assert forall x <- list[..n] :: x in list;
    }
  }

  lemma {:induction false} StatusAt(list: seq<Device>, i: nat)
    requires Ascending(list) && i < |list|
    ensures list[i].id in Statuses(list) && Statuses(list)[list[i].id] == list[i].status
  {
    if i < |list| - 1 {
      StatusAt(list[..|list| - 1], i);
    }
  }

  /** A valid list is determined, as far as status goes, by what a map says at its ids. */
  lemma {:induction false} StatusesAre(list: seq<Device>, m: map<int, Status>)
    requires Ascending(list)
    requires forall x <- list :: x.id in m && m[x.id] == x.status
    requires forall id :: id in m ==> exists x <- list :: x.id == id
    ensures Statuses(list) == m
  {
    StatusIds(list);
    forall id | id in Statuses(list)
      ensures id in m
    {
      var x :| x in list && x.id == id;
    }
    forall id | id in m
      ensures id in Statuses(list) && Statuses(list)[id] == m[id]
    {
      var x :| x in list && x.id == id;
      var i :| 0 <= i < |list| && list[i] == x;
      StatusAt(list, i);
    }
  }

  /** A created device starts AUTHORIZED; no other status changes. */
  lemma {:induction false} CreateStatus(d: Devices, lim: Limits, kind: int, key: string, secret: string, name: string,
                     deviceSecret: Option<string>)
    requires Valid(d) && CreateResult(d, lim, key, secret, name, deviceSecret).New?
    ensures Statuses(Create(d, lim, kind, key, secret, name, deviceSecret).list) == Statuses(d.list)[d.next := Authorized]
  {
    var u := Create(d, lim, kind, key, secret, name, deviceSecret).list;
    assert u[..|u| - 1] == d.list;
  }

  lemma {:induction false} StatusesLast(list: seq<Device>)
    requires list != []
    ensures Statuses(list) == Statuses(list[..|list| - 1])[list[|list| - 1].id := list[|list| - 1].status]
  {
  }

  lemma {:induction false} StatusesUpdated(list: seq<Device>, i: nat, status: Status)
    requires Ascending(list) && i < |list|
    ensures Statuses(list[i := list[i].(status := status)]) == Statuses(list)[list[i].id := status]
  {
    var n := |list| - 1;
    var u := list[i := list[i].(status := status)];
    hide Statuses, Ascending;
    StatusesLast(list);
    StatusesLast(u);
    if i < n {
      AscendingInit(list, i);
      StatusesUpdated(list[..n], i, status);
      assert u[..n] == list[..n][i := list[i].(status := status)];
      OtherKey(Statuses(list[..n]), list[i].id, status, list[n].id, list[n].status);
    } else {
      assert u[..n] == list[..n];
    }
  }

  lemma {:induction false} AscendingInit(list: seq<Device>, i: nat)
    requires Ascending(list) && i < |list| - 1
    ensures Ascending(list[..|list| - 1]) && list[i].id != list[|list| - 1].id
  {
  }

  lemma {:induction false} OtherKey(m: map<int, Status>, a: int, x: Status, b: int, y: Status)
    requires a != b
    ensures m[a := x][b := y] == m[b := y][a := x]
  {
  }

  /** Setting a status sets that of the device with the id, and no other. */
  lemma {:induction false} SetStatusExact(d: Devices, id: int, status: Status)
    requires Valid(d)
    ensures Statuses(SetStatus(d, id, status).list)
         == if id in Statuses(d.list) then Statuses(d.list)[id := status] else Statuses(d.list)
  {
    var i := IdPlace(d.list, id);
    NotFound(d.list, id);
    StatusIds(d.list);
    if i < |d.list| {
      IdAt(d, i);
      StatusesUpdated(d.list, i, status);
    }
    hide Statuses;
  }

  /** Destroying forgets the status of that device, and no other. */
  lemma {:induction false} DestroyStatus(d: Devices, id: int)
    requires Valid(d) && DestroyResult(d, id).Gone?
    ensures Statuses(Destroy(d, id).list) == Statuses(d.list) - {id}
  {
    var u, m := Destroy(d, id).list, Statuses(d.list) - {id};
    DestroyValid(d, id);
    StatusIds(d.list);
    forall x | x in u
      ensures x.id in m && m[x.id] == x.status
    {
      DestroyExact(d, id, x);
      var k :| 0 <= k < |d.list| && d.list[k] == x;
      StatusAt(d.list, k);
    }
    forall k | k in m
      ensures exists x <- u :: x.id == k
    {
      var x :| x in d.list && x.id == k;
      DestroyExact(d, id, x);
    }
    hide Destroy, IdPlace;
    StatusesAre(u, m);
  }

  // ---------------------------------------------------------------- traversal

  /** Where `k` calls of get-next-devid lead from the local node. */
  function Walk(list: seq<Device>, k: nat): Option<int> {
    if k == 0 then Some(LOCAL_ID)
    else
      match Walk(list, k - 1)
      case None => None
      case Some(id) => NextId(list, id)
  }

  lemma {:induction false} IdAt(d: Devices, i: nat)
    requires Valid(d) && i < |d.list|
    ensures IdPlace(d.list, d.list[i].id) == i && d.list[i].id >= 0
  {
    var p := IdPlace(d.list, d.list[i].id);
    assert p <= i;
    assert i > 0 ==> d.list[0].id < d.list[i].id;
  }

  lemma {:induction false} NextAt(d: Devices, i: nat)
    requires Valid(d) && i < |d.list|
    ensures NextId(d.list, d.list[i].id) == ByIndex(d.list, i + 1)
  {
    IdAt(d, i);
  }

  /** The walk agrees with the index at every step; it ends after exactly as many devices as there are. */
  lemma {:induction false} WalkIsIndex(d: Devices, k: nat)
    requires Valid(d)
    ensures Walk(d.list, k) == ByIndex(d.list, k)
  {
    hide NextId, IdPlace;
    if k > 0 {
      WalkIsIndex(d, k - 1);
      if k - 1 < |d.list| {
        NextAt(d, k - 1);
      }
    }
  }

  /** Hence the walk meets every registered device, and each one once. */
  lemma {:induction false} WalkMeetsEachOnce(d: Devices, id: int, j: nat, k: nat)
    requires Valid(d)
    ensures Walk(d.list, j) == Some(id) ==> IdPlace(d.list, id) == j
    ensures IdPlace(d.list, id) < |d.list| ==> Walk(d.list, IdPlace(d.list, id)) == Some(id)
    ensures Walk(d.list, j) == Walk(d.list, k) && Walk(d.list, j).Some? ==> j == k
    ensures Walk(d.list, j).None? <==> j >= |d.list|
  {
    WalkIsIndex(d, j);
    WalkIsIndex(d, k);
    WalkIsIndex(d, IdPlace(d.list, id));
    if j < |d.list| {
      IdAt(d, j);
    }
    if k < |d.list| {
      IdAt(d, k);
    }
  }

  /** Devices created during a walk are still met: the walk only gets longer. */
  lemma {:induction false} WalkAfterCreate(d: Devices, lim: Limits, ops: seq<Op>, k: nat)
    requires Valid(d) && (forall op <- ops :: op.CreateOp?) && k < |d.list|
    ensures Walk(After(d, lim, ops).list, k) == Walk(d.list, k)
  {
    RunKeeps(d, lim, ops);
    CreatesAppend(d, lim, ops);
    WalkIsIndex(d, k);
    WalkIsIndex(After(d, lim, ops), k);
  }

  lemma {:induction false} CreatesAppend(d: Devices, lim: Limits, ops: seq<Op>)
    requires forall op <- ops :: op.CreateOp?
    ensures d.list <= After(d, lim, ops).list
  {
    if ops != [] {
      CreatesAppend(d, lim, ops[..|ops| - 1]);
    }
  }

  predicate Registered(list: seq<Device>, id: int) {
    IdPlace(list, id) < |list|
  }

  /** A walk that stands on a device when it is destroyed cannot go on, whatever devices follow. */
  lemma {:induction false} DestroyedUnderWalk(d: Devices, id: int)
    requires Valid(d) && DestroyResult(d, id).Gone?
    ensures NextId(Destroy(d, id).list, id) == None && !Registered(Destroy(d, id).list, id)
  {
    var u := Destroy(d, id).list;
    forall x | x in u
      ensures x.id != id
    {
      DestroyExact(d, id, x);
    }
    NotFound(u, id);
  }

  /** A walk that stands on any other device goes on to the next survivor. */
  lemma {:induction false} SurvivorNext(d: Devices, id: int, i: nat)
    requires Valid(d) && DestroyResult(d, id).Gone? && i < |d.list| && d.list[i].id != id
    ensures NextId(Destroy(d, id).list, d.list[i].id)
         == ByIndex(d.list, if i + 1 == IdPlace(d.list, id) then i + 2 else i + 1)
  {
    hide Destroy, NextId, Named, NamesDistinct;
    var u, p := Destroy(d, id), IdPlace(d.list, id);
    var k := if i < p then i else i - 1;
    DestroyValid(d, id);
    DestroyAt(d, id, k);
    NextAt(u, k);
    if k + 1 < |u.list| {
      DestroyAt(d, id, k + 1);
    }
  }

  /** A walk, with what happens to the registry meanwhile: `since` are the operations after it came to where it stands. */
  datatype Journey = Journey(d: Devices, at: int, met: seq<int>, since: seq<Op>)

  datatype Move = Go | Change(op: Op)

  function Moved(j: Journey, lim: Limits, m: Move): Journey {
    match m
    case Go =>
      (match NextId(j.d.list, j.at)
       case None => j
       case Some(id) => Journey(j.d, id, j.met + [id], []))
    case Change(op) => j.(d := Apply(j.d, lim, op), since := j.since + [op])
  }

  function Travel(j: Journey, lim: Limits, moves: seq<Move>): Journey {
    if moves == [] then j else Moved(Travel(j, lim, moves[..|moves| - 1]), lim, moves[|moves| - 1])
  }

  /** Every registered device between the start and where the walk stands was met, in ascending order. */
  ghost predicate OnTheWay(j: Journey, start: int) {
    && Valid(j.d) && LOCAL_ID <= start <= j.at < j.d.next
    && Climbing(j.met, start + 1, j.at + 1)
    && (forall x <- j.d.list :: start < x.id <= j.at ==> x.id in j.met)
    && (Registered(j.d.list, j.at) <==> j.at == LOCAL_ID || DestroyOp(j.at) !in j.since)
  }

  /** What get-next-devid returns: the least id beyond one that is registered, and nothing beyond one that is not. */
  lemma {:induction false} NextExact(d: Devices, id: int)
    requires Valid(d) && id >= 0
    ensures var r := NextId(d.list, id);
            && (!Registered(d.list, id) ==> r.None?)
            && (r.Some? ==> id < r.value < d.next && Registered(d.list, r.value))
            && (r.Some? ==> forall x <- d.list :: x.id <= id || x.id >= r.value)
            && (Registered(d.list, id) && r.None? ==> forall x <- d.list :: x.id <= id)
  {
    var i := IdPlace(d.list, id);
    if i < |d.list| {
      forall x | x in d.list
        ensures x.id <= id || (i + 1 < |d.list| && x.id >= d.list[i + 1].id)
      {
        var k :| 0 <= k < |d.list| && d.list[k] == x;
      }
      if i + 1 < |d.list| {
        IdAt(d, i + 1);
      }
    }
  }

  /** One operation registers only the next id, and takes away only the id that it destroys. */
  lemma {:induction false} ApplyRegisters(d: Devices, lim: Limits, op: Op, id: int)
    requires Valid(d) && id < d.next
    ensures Registered(Apply(d, lim, op).list, id) <==> Registered(d.list, id) && (id == LOCAL_ID || op != DestroyOp(id))
  {
    hide IdPlace, Valid;
    var u := Apply(d, lim, op);
    NotFound(d.list, id);
    NotFound(u.list, id);
    match op {
      case CreateOp(kind, key, secret, name, deviceSecret) => CreateRegisters(d, lim, kind, key, secret, name, deviceSecret, id);
      case DestroyOp(gone) => DestroyRegisters(d, gone, id);
      case StatusOp(of, status) => StatusRegisters(d, of, status, id);
    }
  }

  lemma {:induction false} CreateRegisters(d: Devices, lim: Limits, kind: int, key: string, secret: string, name: string,
                                           deviceSecret: Option<string>, id: int)
    requires Valid(d) && id < d.next
    ensures Registered(Create(d, lim, kind, key, secret, name, deviceSecret).list, id) <==> Registered(d.list, id)
  {
    var u := Create(d, lim, kind, key, secret, name, deviceSecret);
    NotFound(d.list, id);
    NotFound(u.list, id);
    hide IdPlace;
    assert forall x <- d.list :: x in u.list;
    assert forall x <- u.list :: x in d.list || x.id == d.next;
  }

  lemma {:induction false} DestroyRegisters(d: Devices, gone: int, id: int)
    requires Valid(d)
    ensures Registered(Destroy(d, gone).list, id) <==> Registered(d.list, id) && (id == LOCAL_ID || gone != id)
  {
    var u := Destroy(d, gone);
    NotFound(d.list, id);
    NotFound(u.list, id);
    if DestroyResult(d, gone).Gone? {
      forall x
        ensures x in u.list <==> x in d.list && x.id != gone
      {
        DestroyExact(d, gone, x);
      }
    } else {
      NotFound(d.list, gone);
      NonNegative(d, id);
    }
    hide IdPlace, Destroy;
  }

  lemma {:induction false} NonNegative(d: Devices, id: int)
    requires Valid(d)
    ensures Registered(d.list, id) ==> 0 <= id < d.next
  {
    if Registered(d.list, id) {
      IdAt(d, IdPlace(d.list, id));
    }
  }

  lemma {:induction false} StatusRegisters(d: Devices, of: int, status: Status, id: int)
    ensures Registered(SetStatus(d, of, status).list, id) <==> Registered(d.list, id)
  {
    var u := SetStatus(d, of, status);
    hide IdPlace;
    SameIds(d.list, u.list, id);
    SameIds(u.list, d.list, id);
  }

  lemma {:induction false} SameIds(a: seq<Device>, b: seq<Device>, id: int)
    requires |a| == |b| && forall k :: 0 <= k < |a| ==> a[k].id == b[k].id
    ensures Registered(a, id) ==> Registered(b, id)
  {
    if Registered(a, id) {
      assert b[IdPlace(a, id)].id == id;
    }
  }

  lemma {:induction false} Members(list: seq<Device>, ids: seq<int>, lo: int, hi: int)
    ensures (forall x <- list :: lo < x.id <= hi ==> x.id in ids)
       <==> (forall id :: Registered(list, id) && lo < id <= hi ==> id in ids)
  {
    forall id
      ensures Registered(list, id) <==> exists x <- list :: x.id == id
    {
      NotFound(list, id);
    }
  }

  lemma {:induction false} ChangeOnTheWay(j: Journey, lim: Limits, op: Op, start: int)
    requires OnTheWay(j, start)
    ensures OnTheWay(Moved(j, lim, Change(op)), start)
  {
    hide Valid, Apply, Registered, Climbing;
    var u := Moved(j, lim, Change(op));
    ApplyKeeps(j.d, lim, op);
    Members(j.d.list, j.met, start, j.at);
    Members(u.d.list, u.met, start, u.at);
    forall id | Registered(u.d.list, id) && start < id <= u.at
      ensures id in u.met
    {
      assert id < j.d.next;
      ApplyRegisters(j.d, lim, op, id);
    }
    ApplyRegisters(j.d, lim, op, j.at);
  }

  lemma {:induction false} GoOnTheWay(j: Journey, lim: Limits, start: int)
    requires OnTheWay(j, start)
    ensures OnTheWay(Moved(j, lim, Go), start)
  {
    hide Valid, Registered, NextId;
    NextExact(j.d, j.at);
  }

  /** Over any interleaving of steps of the walk with creates, destroys and status changes. */
  lemma {:induction false} TravelOnTheWay(d: Devices, lim: Limits, start: int, moves: seq<Move>)
    requires Valid(d) && Registered(d.list, start)
    ensures OnTheWay(Travel(Journey(d, start, [], []), lim, moves), start)
  {
    if moves == [] {
      NonNegative(d, start);
    } else {
      hide OnTheWay, Moved;
      var n := |moves| - 1;
      TravelOnTheWay(d, lim, start, moves[..n]);
      var j := Travel(Journey(d, start, [], []), lim, moves[..n]);
      match moves[n] {
        case Go => GoOnTheWay(j, lim, start);
        case Change(op) => ChangeOnTheWay(j, lim, op, start);
      }
    }
  }

  /** When the walk comes to its end, it has met every registered device beyond its start, exactly if the device it stands on
      was not destroyed under it or no registered device lies ahead.  What it met it met in ascending order. */
  lemma {:induction false} WalkComplete(d: Devices, lim: Limits, start: int, moves: seq<Move>)
    requires Valid(d) && Registered(d.list, start)
    requires var j := Travel(Journey(d, start, [], []), lim, moves); NextId(j.d.list, j.at).None?
    ensures var j := Travel(Journey(d, start, [], []), lim, moves);
            && ((forall x <- j.d.list :: x.id > start ==> x.id in j.met) <==>
                j.at == LOCAL_ID || DestroyOp(j.at) !in j.since || forall x <- j.d.list :: x.id <= j.at)
            && (forall a, b :: 0 <= a < b < |j.met| ==> j.met[a] < j.met[b])
  {
    TravelOnTheWay(d, lim, start, moves);
    var j := Travel(Journey(d, start, [], []), lim, moves);
    hide Travel, NextId, Valid;
    NextExact(j.d, j.at);
  }
}
