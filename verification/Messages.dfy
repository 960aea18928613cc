/** What the parts of the request lifecycle have in common: kinds of requests, messages for the user, device status. */
module Messages {
  const CODE_SUCCESS := 200
  const CODE_TIMEOUT := 100000

  /** The response types of an upstream request (iotx_dm_event_types_t, the ones a request can have). */
  datatype Kind =
    | PropertyPost | EventPost | Unregister | TopoAdd | TopoDelete
    | Register | ProxyRegister | Login | Logout

  /** How a message came about; the message itself does not say.
      FromAnswer: a reply whose id was found in the cache, and whether it set the device ATTACHED.
      FromItem: a reply handled without a look into the cache.  FromExpiry: a request that aged out. */
  datatype Origin = FromAnswer(attached: bool) | FromItem | FromExpiry

  datatype Message = Message(kind: Kind, id: int, code: int, devid: int, origin: Origin)

  /** iotx_dm_dev_status_t. */
  datatype Status = Unauthorized | Authorized | Registered | Attached | Logined | Online

  /** Replies of these kinds are handled only when the id is in the cache. */
  predicate Gated(k: Kind) {
    k.PropertyPost? || k.EventPost? || k.Unregister? || k.TopoAdd? || k.TopoDelete?
  }

  /** Messages of these kinds reach the list of waiting threads. */
  predicate Wakes(k: Kind) {
    !k.PropertyPost? && !k.EventPost? && !k.Unregister?
  }

  /** Both topology replies report the device as attached. */
  predicate Attaches(k: Kind) {
    k.TopoAdd? || k.TopoDelete?
  }

  /** Unlinking a node behind the head leaves the head in place. */
  lemma {:induction false} UnlinkLater<T>(s: seq<T>, i: nat)
    requires i + 1 < |s|
    ensures s[..i + 1] + s[i + 2..] == [s[0]] + (s[1..][..i] + s[1..][i + 1..])
  {
    assert s[..i + 1] == [s[0]] + s[1..][..i];
    assert s[i + 2..] == s[1..][i + 1..];
  }
}
