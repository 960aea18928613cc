/** The queue of messages for the user: eng/dev_model/dm_ipc.c, drained by iotx_dm_dispatch in dm_api.c. */
module MessageQueue {
  import opened Messages
  import opened Text

  /** CONFIG_DISPATCH_QUEUE_MAXLEN: both the capacity and what one dispatch delivers at most. */
  const QUEUE_MAX := 50

  function Enqueue(q: seq<Message>, m: Message): seq<Message> {
    if |q| < QUEUE_MAX then q + [m] else q
  }

  function EnqueueAll(q: seq<Message>, ms: seq<Message>): seq<Message>
    decreases |ms|
  {
    if ms == [] then q else EnqueueAll(Enqueue(q, ms[0]), ms[1..])
  }

  /** One dispatch of at most `n` messages, `callback(k)` being what the callback inserts at the k-th delivery: the messages
      delivered and the queue left. */
  function Dispatched(q: seq<Message>, callback: nat -> seq<Message>, k: nat, n: nat): (seq<Message>, seq<Message>)
    decreases n
  {
    if n == 0 || q == [] then ([], q)
    else
      var (sent, left) := Dispatched(EnqueueAll(q[1..], callback(k)), callback, k + 1, n - 1);
      ([q[0]] + sent, left)
  }

  /** What a full queue lets in of several messages: the first ones. */
  function Fitting(q: seq<Message>, ms: seq<Message>): seq<Message> {
    if |q| >= 50 then [] else if |ms| <= 50 - |q| then ms else ms[..50 - |q|]
  }

  /** What the callbacks of the deliveries k, ..., k + n - 1 inserted, in order: of each, as much as there was room for. */
  function Inserted(q: seq<Message>, callback: nat -> seq<Message>, k: nat, n: nat): seq<Message>
    decreases n
  {
    if n == 0 || q == [] then []
    else
      Fitting(q[1..], callback(k)) + Inserted(EnqueueAll(q[1..], callback(k)), callback, k + 1, n - 1)
  }

  lemma {:induction false} EnqueueAllIs(q: seq<Message>, ms: seq<Message>)
    requires |q| <= 50
    ensures EnqueueAll(q, ms) == q + Fitting(q, ms) && |EnqueueAll(q, ms)| <= 50
    decreases |ms|
  {
    if ms != [] {
      EnqueueAllIs(Enqueue(q, ms[0]), ms[1..]);
      if |q| < 50 {
        assert ms == [ms[0]] + ms[1..];
        assert q + [ms[0]] + Fitting(q + [ms[0]], ms[1..]) == q + ([ms[0]] + Fitting(q + [ms[0]], ms[1..]));
        assert [ms[0]] + Fitting(q + [ms[0]], ms[1..]) == Fitting(q, ms);
      }
    }
  }

  lemma {:induction false} DispatchedStep(q: seq<Message>, callback: nat -> seq<Message>, k: nat, n: nat)
    requires n > 0 && q != []
    ensures var rest := EnqueueAll(q[1..], callback(k));
            var (sent, left) := Dispatched(rest, callback, k + 1, n - 1);
            && Dispatched(q, callback, k, n) == ([q[0]] + sent, left)
            && Inserted(q, callback, k, n) == Fitting(q[1..], callback(k)) + Inserted(rest, callback, k + 1, n - 1)
  {
  }

  /** The rest of a dispatch after what was sent so far. */
  ghost predicate Continues(all: (seq<Message>, seq<Message>), sent: seq<Message>, rest: (seq<Message>, seq<Message>)) {
    all.0 == sent + rest.0 && all.1 == rest.1
  }

  lemma {:induction false} FirstTurn(all: (seq<Message>, seq<Message>))
    ensures Continues(all, [], all)
  {
  }

  lemma {:induction false} OneTurn(all: (seq<Message>, seq<Message>), sent: seq<Message>, q: seq<Message>,
                                   callback: nat -> seq<Message>, k: nat, n: nat)
    requires n > 0 && q != [] && Continues(all, sent, Dispatched(q, callback, k, n))
    ensures Continues(all, sent + [q[0]], Dispatched(EnqueueAll(q[1..], callback(k)), callback, k + 1, n - 1))
  {
    hide Dispatched, EnqueueAll;
    DispatchedStep(q, callback, k, n);
    var rest := Dispatched(EnqueueAll(q[1..], callback(k)), callback, k + 1, n - 1).0;
    assert sent + ([q[0]] + rest) == (sent + [q[0]]) + rest;
  }

  lemma {:induction false} LastTurn(all: (seq<Message>, seq<Message>), sent: seq<Message>, q: seq<Message>,
                                    callback: nat -> seq<Message>, n: nat)
    requires (n == 0 || q == []) && Continues(all, sent, Dispatched(q, callback, |sent|, n))
    ensures all == (sent, q)
  {
    DispatchedEnd(q, callback, |sent|, n);
    assert sent + [] == sent;
  }

  lemma {:induction false} DispatchedEnd(q: seq<Message>, callback: nat -> seq<Message>, k: nat, n: nat)
    requires n == 0 || q == []
    ensures Dispatched(q, callback, k, n) == ([], q) && Inserted(q, callback, k, n) == []
  {
  }

  /** Messages are delivered in their turn, those that a callback inserted included: what was delivered and what is left are,
      in order, the queue before and what the callbacks inserted.  At most fifty go out, and fewer only if nothing is left. */
  lemma {:induction false} DispatchedInTurn(q: seq<Message>, callback: nat -> seq<Message>, k: nat, n: nat)
    requires |q| <= 50
    ensures var (sent, left) := Dispatched(q, callback, k, n);
            && sent + left == q + Inserted(q, callback, k, n)
            && |sent| <= n && |left| <= 50 && (|sent| < n ==> left == [])
    decreases n
  {
    hide Dispatched, Inserted, EnqueueAll, Fitting;
    if n == 0 || q == [] {
      DispatchedEnd(q, callback, k, n);
    } else {
      var ms := callback(k);
      EnqueueAllIs(q[1..], ms);
      DispatchedStep(q, callback, k, n);
      var rest := EnqueueAll(q[1..], ms);
      DispatchedInTurn(rest, callback, k + 1, n - 1);
      var (sent, left) := Dispatched(rest, callback, k + 1, n - 1);
      assert ([q[0]] + sent) + left == [q[0]] + (sent + left);
      assert [q[0]] + (q[1..] + Fitting(q[1..], ms) + Inserted(rest, callback, k + 1, n - 1))
          == ([q[0]] + q[1..]) + (Fitting(q[1..], ms) + Inserted(rest, callback, k + 1, n - 1));
      assert q == [q[0]] + q[1..];
    }
  }

  /** dm_ipc_t: the list, its size field and, as history, what was accepted and what was handed out. */
  class Queue {
    var messages: seq<Message>
    var size: int
    const maxSize: int
    ghost var accepted: seq<Message>
    ghost var delivered: seq<Message>

    ghost predicate Valid()
      reads this
    {
      size == |messages| <= maxSize && accepted == delivered + messages
    }

    constructor (maxSize: int)
      requires maxSize >= 0
      ensures Valid() && messages == accepted == delivered == [] && this.maxSize == maxSize
    {
      messages, size := [], 0;
      this.maxSize := maxSize;
      accepted, delivered := [], [];
    }

    /** dm_ipc_msg_insert; a full queue refuses the message. */
    method Insert(m: Message) returns (ok: bool)
      requires Valid()
      modifies this
      ensures Valid() && delivered == old(delivered)
      ensures ok == (|old(messages)| < maxSize)
      ensures messages == if ok then old(messages) + [m] else old(messages)
      ensures accepted == if ok then old(accepted) + [m] else old(accepted)
    {
      if size >= maxSize {
        return false;
      }
      size := size + 1;
      messages := messages + [m];
      accepted := accepted + [m];
      ok := true;
    }

    /** dm_ipc_msg_next. */
    method Next() returns (r: Option<Message>)
      requires Valid()
      modifies this
      ensures Valid() && accepted == old(accepted)
      ensures r == if old(messages) == [] then None else Some(old(messages)[0])
      ensures messages == if r.Some? then old(messages)[1..] else old(messages)
      ensures delivered == if r.Some? then old(delivered) + [r.value] else old(delivered)
    {
      if messages == [] {
        return None;
      }
      r := Some(messages[0]);
      delivered := delivered + [messages[0]];
      messages := messages[1..];
      size := size - 1;
    }

    /** What the user's callback inserts while it handles one message. */
    method InsertAll(ms: seq<Message>)
      requires Valid()
      modifies this
      ensures Valid() && delivered == old(delivered) && old(messages) <= messages
      ensures maxSize == QUEUE_MAX ==> messages == EnqueueAll(old(messages), ms)
    {
      for i := 0 to |ms|
        invariant Valid() && delivered == old(delivered) && old(messages) <= messages
        invariant maxSize == QUEUE_MAX ==> EnqueueAll(messages, ms[i..]) == EnqueueAll(old(messages), ms)
      {
        assert ms[i..][1..] == ms[i + 1..];
        var _ := Insert(ms[i]);
      }
    }

    /** The loop of iotx_dm_dispatch; `callback(k)` is what the user's callback inserts at the k-th delivery. */
    method Dispatch(callback: nat -> seq<Message>) returns (sent: seq<Message>)
      requires Valid()
      modifies this
      ensures Valid() && delivered == old(delivered) + sent && |sent| <= 50
      ensures |sent| == 50 || messages == []
      ensures |old(messages)| <= 50 ==> old(messages) <= sent
      ensures maxSize == 50 ==> (sent, messages) == Dispatched(old(messages), callback, 0, 50)
    {
      hide Dispatched, EnqueueAll, Continues;
      sent := [];
      var count := 0;
      ghost var m0, all := messages, Dispatched(messages, callback, 0, 50);
      FirstTurn(all);
      while count < QUEUE_MAX
        invariant Valid() && count == |sent| <= QUEUE_MAX
        invariant delivered == old(delivered) + sent
        invariant m0 <= sent + messages
        invariant maxSize == 50 ==>
                    Continues(all, sent, Dispatched(messages, callback, count, 50 - count))
        decreases QUEUE_MAX - count
      {
        count := count + 1;
        ghost var q := messages;
        var next := Next();
        if next.None? {
          break;
        }
        if maxSize == 50 {
          OneTurn(all, sent, q, callback, count - 1, 51 - count);
        }
        assert sent + q == sent + [next.value] + messages;
        sent := sent + [next.value];
        InsertAll(callback(count - 1));
      }
      if maxSize == 50 {
        LastTurn(all, sent, messages, callback, 50 - |sent|);
      }
    }
  }

  // ---------------------------------------------------------------- runs

  datatype Op = InsertOp(m: Message) | NextOp

  function QueueAfter(q: seq<Message>, ops: seq<Op>): seq<Message>
    decreases |ops|
  {
    if ops == [] then q
    else
      QueueAfter(match ops[0] case InsertOp(m) => Enqueue(q, m) case NextOp => if q == [] then q else q[1..], ops[1..])
  }

  function Accepted(q: seq<Message>, ops: seq<Op>): seq<Message>
    decreases |ops|
  {
    if ops == [] then []
    else
      match ops[0]
      case InsertOp(m) => (if |q| < QUEUE_MAX then [m] else []) + Accepted(Enqueue(q, m), ops[1..])
      case NextOp => Accepted(if q == [] then q else q[1..], ops[1..])
  }

  function Delivered(q: seq<Message>, ops: seq<Op>): seq<Message>
    decreases |ops|
  {
    if ops == [] then []
    else
      match ops[0]
      case InsertOp(m) => Delivered(Enqueue(q, m), ops[1..])
      case NextOp => if q == [] then Delivered(q, ops[1..]) else [q[0]] + Delivered(q[1..], ops[1..])
  }

  /** First in, first out, nothing lost and nothing invented, and never more than the capacity. */
  lemma {:induction false} QueueConserves(q: seq<Message>, ops: seq<Op>)
    requires |q| <= 50
    ensures q + Accepted(q, ops) == Delivered(q, ops) + QueueAfter(q, ops)
    ensures |QueueAfter(q, ops)| <= 50
    decreases |ops|
  {
    if ops != [] {
      match ops[0] {
        case InsertOp(m) =>
          QueueConserves(Enqueue(q, m), ops[1..]);
        case NextOp =>
          if q == [] {
            QueueConserves(q, ops[1..]);
          } else {
            QueueConserves(q[1..], ops[1..]);
            var a, d, r := Accepted(q[1..], ops[1..]), Delivered(q[1..], ops[1..]), QueueAfter(q[1..], ops[1..]);
            assert q + a == [q[0]] + (q[1..] + a) && ([q[0]] + d) + r == [q[0]] + (d + r);
          }
      }
    }
  }
}
