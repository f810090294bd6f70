/** What each call of c/msg.c leaves behind, over the fields of the exchange, and who is served first. */
module MessageEffects {
  import opened Sequences
  import opened MessageModel
  import opened MessageSafety

  /** Only processes `a` and `b` differ between `x` and `y`. */
  ghost predicate OnlyParties(x: Exchange, y: Exchange, a: nat, b: nat) {
    && |y.parties| == |x.parties|
    && forall p :: 0 <= p < |x.parties| && p != a && p != b ==> y.parties[p] == x.parties[p]
  }

  /** The first bytes of `buffer` are those of `bytes`, as many as fit, and the rest is that of `before`. */
  predicate Holds(buffer: seq<byte>, bytes: seq<byte>, before: seq<byte>) {
    && |buffer| == |before|
    && forall i :: 0 <= i < |before| ==> buffer[i] == if i < |bytes| then bytes[i] else before[i]
  }

  /** The lesser of two lengths. */
  predicate IsLesser(n: nat, a: nat, b: nat) {
    n <= a && n <= b && (n == a || n == b)
  }

  // ---------------------------------------------------------------- send

  /** c/msg.c:20-28: the receiver goes on with the bytes and their number, and so does the sender. */
  lemma SendDelivers(x: Exchange, s: nat, d: nat, msg: seq<byte>)
    requires Inv(x) && CanAct(x, s) && d < |x.parties| && Accepts(x, s, d)
    ensures var (y, n) := Send(x, s, d, msg);
            && IsLesser(n, |msg|, |x.parties[d].buffer|) && OnlyParties(x, y, d, d)
            && y.parties[d].status == Free && y.parties[d].ret == n
            && Holds(y.parties[d].buffer, msg, x.parties[d].buffer)
            && y.parties[d].waiting == x.parties[d].waiting
            && y.ready == x.ready + [d, s] && y.queues == x.queues
            && Latest(y) == Delivery(|x.sent|, x.parties[d].call, msg[..n])
  {
  }

  /** c/msg.c:33-48: the sender blocks on the receiver, last in its queue, with its buffer kept; 0 is returned. */
  lemma SendBlocks(x: Exchange, s: nat, d: nat, msg: seq<byte>)
    requires Inv(x) && CanAct(x, s) && d < |x.parties| && !Accepts(x, s, d)
    ensures var (y, n) := Send(x, s, d, msg);
            && n == 0 && OnlyParties(x, y, s, s)
            && SendingTo(y, s, d) && y.parties[s].buffer == msg && y.parties[s].ret == x.parties[s].ret
            && y.queues[d] == x.queues[d] + [s]
            && (forall e :: 0 <= e < |x.queues| && e != d ==> y.queues[e] == x.queues[e])
            && y.ready == x.ready && y.delivered == x.delivered
  {
  }

  // ---------------------------------------------------------------- recv and recvAny

  /** What taking the message of the blocked sender `f` does: c/msg.c:67-83 and 109-118. */
  ghost predicate TakenFrom(x: Exchange, y: Exchange, d: nat, f: nat, n: nat, buf: seq<byte>)
    requires d < |x.parties| && f < |x.parties| && d < |x.queues|
  {
    && OnlyParties(x, y, d, f) && |y.queues| == |x.queues|
    && IsLesser(n, |x.parties[f].buffer|, |buf|)
    && y.parties[d] == x.parties[d].(buffer := y.parties[d].buffer) && Holds(y.parties[d].buffer, x.parties[f].buffer, buf)
    && y.parties[f] == x.parties[f].(status := Free, ret := n)
    && y.ready == x.ready + [f, d]
    && y.queues[d] == Without(x.queues[d], f)
    && (forall e :: 0 <= e < |x.queues| && e != d ==> y.queues[e] == x.queues[e])
    && Latest(y) == Delivery(x.parties[f].ticket, |x.received|, x.parties[f].buffer[..n])
  }

  /** The process blocks in a receive: c/msg.c:88-92 and 123-127. */
  ghost predicate BlockedIn(x: Exchange, y: Exchange, d: nat, from: int, buf: seq<byte>)
    requires d < |x.parties|
  {
    && OnlyParties(x, y, d, d)
    && y.parties[d] == x.parties[d].(status := Receiving, waiting := from, buffer := buf, call := |x.received|)
    && y.queues == x.queues && y.ready == x.ready && y.delivered == x.delivered
  }

  lemma RecvEffect(x: Exchange, d: nat, f: nat, buf: seq<byte>)
    requires Inv(x) && CanAct(x, d) && f < |x.parties|
    ensures var (y, n) := Recv(x, d, f, buf);
            if SendingTo(x, f, d) then TakenFrom(x, y, d, f, n, buf) else n == 0 && BlockedIn(x, y, d, f, buf)
  {
  }

  /** The process that has waited longest for `d` to take its message. */
  ghost predicate OldestSender(x: Exchange, d: nat, f: nat) {
    && f < |x.parties| && SendingTo(x, f, d)
    && forall s :: 0 <= s < |x.parties| && SendingTo(x, s, d) && s != f ==> x.parties[f].ticket < x.parties[s].ticket
  }

  lemma HeadIsOldest(x: Exchange, d: nat)
    requires Sized(x) && d < |x.parties| && QueueOk(x, d) && x.queues[d] != []
    ensures OldestSender(x, d, x.queues[d][0])
  {
    var q := x.queues[d];
    forall s | 0 <= s < |x.parties| && SendingTo(x, s, d) && s != q[0]
      ensures x.parties[q[0]].ticket < x.parties[s].ticket
    {
      var i :| 0 <= i < |q| && q[i] == s;
    }
  }

  lemma OldestIsHead(x: Exchange, d: nat, f: nat)
    requires Sized(x) && d < |x.parties| && QueueOk(x, d) && OldestSender(x, d, f)
    ensures x.queues[d] != [] && x.queues[d][0] == f
  {
    var q := x.queues[d];
    assert f in q;
    HeadIsOldest(x, d);
  }

  /**
   `recvAny` takes the message of the process that has been sending to it longest: that one stops
   sending, all others go on, and the buffer starts with its bytes.  It blocks when there is none.
   */
  lemma RecvAnyTakesOldest(x: Exchange, d: nat, buf: seq<byte>)
    requires Inv(x) && CanAct(x, d)
    ensures x.queues[d] != [] ==> x.queues[d][0] < |x.parties|
    ensures forall f :: OldestSender(x, d, f) ==> TakenFrom(x, RecvAny(x, d, buf).0, d, f, RecvAny(x, d, buf).1, buf)
    ensures (forall s :: 0 <= s < |x.parties| ==> !SendingTo(x, s, d)) ==>
              RecvAny(x, d, buf).1 == 0 && BlockedIn(x, RecvAny(x, d, buf).0, d, ANY, buf)
  {
    assert QueueOk(x, d);
    forall f | OldestSender(x, d, f)
      ensures TakenFrom(x, RecvAny(x, d, buf).0, d, f, RecvAny(x, d, buf).1, buf)
    {
      OldestIsHead(x, d, f);
    }
    if x.queues[d] != [] {
      HeadIsOldest(x, d);
    }
  }

  /** Of those sending to `d`, only the one that is served stops. */
  lemma OthersGoOnSending(x: Exchange, y: Exchange, d: nat, f: nat, n: nat, buf: seq<byte>, s: nat)
    requires d < |x.parties| && f < |x.parties| && d < |x.queues| && s < |x.parties|
    requires TakenFrom(x, y, d, f, n, buf) && x.parties[d].status == Free
    ensures SendingTo(y, s, d) <==> SendingTo(x, s, d) && s != f
  {
  }

  // ---------------------------------------------------------------- next

  /** c/disp.c:220-242: the head leaves the queue, the others keep their order, and nothing else changes. */
  lemma NextEffect(x: Exchange)
    ensures var y := Next(x);
            && (x.ready != [] ==> [x.ready[0]] + y.ready == x.ready)
            && (x.ready == [] ==> y.ready == [])
            && y.parties == x.parties && y.queues == x.queues
            && y.sent == x.sent && y.received == x.received && y.delivered == x.delivered
  {
  }

  // ---------------------------------------------------------------- first come, first served

  /** The receive that delivery `i` completed, and the message that it brought. */
  ghost predicate Brought(x: Exchange, i: int, d: nat, any: bool) {
    && 0 <= i < |x.delivered|
    && x.delivered[i].receive < |x.received|
    && x.received[x.delivered[i].receive].caller == d
    && (any ==> x.received[x.delivered[i].receive].from == ANY)
  }

  /**
   Whatever reaches a process after a message that it took from anyone was sent later than that one,
   and so was whatever is still waiting for it.
   */
  ghost predicate Fair(x: Exchange) {
    && (forall d: nat, i, j :: Brought(x, i, d, true) && Brought(x, j, d, false) && i < j ==>
          x.delivered[i].ticket < x.delivered[j].ticket)
    && (forall d: nat, i, s :: Brought(x, i, d, true) && d < |x.parties| && 0 <= s < |x.parties| && SendingTo(x, s, d) ==>
          x.delivered[i].ticket < x.parties[s].ticket)
  }

  /** A delivery of a message that is the newest, or the oldest waiting when it is taken from anyone. */
  lemma FairOneMore(x: Exchange, y: Exchange, v: Delivery, d: nat)
    requires Inv(x) && Inv(y) && Fair(x) && OneMore(x, y, v)
    requires v.receive < |y.received| && y.received[v.receive].caller == d
    requires forall i :: Brought(x, i, d, true) ==> x.delivered[i].ticket < v.ticket
    requires |y.parties| == |x.parties|
    requires forall s, e :: 0 <= s < |y.parties| && 0 <= e < |y.parties| && SendingTo(y, s, e) ==>
               SendingTo(x, s, e) && y.parties[s].ticket == x.parties[s].ticket
    requires y.received[v.receive].from == ANY ==>
               forall s :: 0 <= s < |y.parties| && SendingTo(y, s, d) ==> v.ticket < y.parties[s].ticket
    ensures Fair(y)
  {
    var n := |x.delivered|;
    forall e: nat, i: int, any | i < n
      ensures Brought(y, i, e, any) <==> Brought(x, i, e, any)
    {
      BroughtStays(x, y, v, i, e, any);
    }
    forall e: nat, i, j | Brought(y, i, e, true) && Brought(y, j, e, false) && i < j
      ensures y.delivered[i].ticket < y.delivered[j].ticket
    {
      assert Brought(x, i, e, true);
      if j < n {
        assert Brought(x, j, e, false);
      }
    }
    forall e: nat, i, s | Brought(y, i, e, true) && e < |y.parties| && 0 <= s < |y.parties| && SendingTo(y, s, e)
      ensures y.delivered[i].ticket < y.parties[s].ticket
    {
      if i < n {
        assert Brought(x, i, e, true) && SendingTo(x, s, e);
      }
    }
  }

  lemma BroughtStays(x: Exchange, y: Exchange, v: Delivery, i: int, e: nat, any: bool)
    requires AllGenuine(x) && OneMore(x, y, v) && i < |x.delivered|
    ensures Brought(y, i, e, any) <==> Brought(x, i, e, any)
  {
    if 0 <= i {
      assert Genuine(x, x.delivered[i]);
      var r := x.delivered[i].receive;
      assert y.received[..|x.received|][r] == y.received[r];
    }
  }

  lemma DeliveredBefore(x: Exchange, i: int, d: nat)
    requires Inv(x) && Brought(x, i, d, true)
    ensures x.delivered[i].ticket < |x.sent|
  {
    assert Genuine(x, x.delivered[i]);
  }

  lemma FairDeliver(x: Exchange, s: nat, d: nat, msg: seq<byte>)
    requires Inv(x) && Fair(x) && CanAct(x, s) && d < |x.parties| && Accepts(x, s, d)
    ensures Fair(Deliver(x, s, d, msg).0)
  {
    var y := Deliver(x, s, d, msg).0;
    var v := y.delivered[|x.delivered|];
    DeliverInv(x, s, d, msg);
    assert CallOk(x, d) && OneMore(x, y, v);
    forall i | Brought(x, i, d, true)
      ensures x.delivered[i].ticket < v.ticket
    {
      DeliveredBefore(x, i, d);
    }
    forall t, e | 0 <= t < |y.parties| && 0 <= e < |y.parties| && SendingTo(y, t, e)
      ensures SendingTo(x, t, e) && y.parties[t].ticket == x.parties[t].ticket
    {
      assert t != d;
    }
    if y.received[v.receive].from == ANY {
      forall t | 0 <= t < |y.parties|
        ensures !SendingTo(y, t, d)
      {
        assert Accepts(x, t, d);
      }
    }
    FairOneMore(x, y, v, d);
  }

  lemma FairTake(x: Exchange, d: nat, from: int, f: nat, buf: seq<byte>)
    requires Inv(x) && Fair(x) && CanAct(x, d) && f < |x.parties| && SendingTo(x, f, d) && (from == f || from == ANY)
    requires from == ANY ==> OldestSender(x, d, f)
    ensures Fair(Take(x, d, from, f, buf).0)
  {
    var y := Take(x, d, from, f, buf).0;
    var v := y.delivered[|x.delivered|];
    TakeInv(x, d, from, f, buf);
    assert OneMore(x, y, v);
    forall t, e | 0 <= t < |y.parties| && 0 <= e < |y.parties| && SendingTo(y, t, e)
      ensures SendingTo(x, t, e) && t != f && y.parties[t].ticket == x.parties[t].ticket
    {
      TakeKeepsOthers(x, d, from, f, buf, t);
    }
    FairOneMore(x, y, v, d);
  }

  lemma FairSame(x: Exchange, y: Exchange)
    requires Inv(x) && Inv(y) && Fair(x) && y.delivered == x.delivered && |y.parties| == |x.parties|
    requires |x.received| <= |y.received| && y.received[..|x.received|] == x.received
    requires forall s, e :: 0 <= s < |y.parties| && 0 <= e < |y.parties| && SendingTo(y, s, e) ==>
               (SendingTo(x, s, e) && y.parties[s].ticket == x.parties[s].ticket) || y.parties[s].ticket == |x.sent|
    ensures Fair(y)
  {
    forall e: nat, i: int, any
      ensures Brought(y, i, e, any) <==> Brought(x, i, e, any)
    {
      if 0 <= i < |x.delivered| {
        assert Genuine(x, x.delivered[i]);
        var r := x.delivered[i].receive;
        assert y.received[..|x.received|][r] == y.received[r];
      }
    }
    forall e: nat, i, j | Brought(y, i, e, true) && Brought(y, j, e, false) && i < j
      ensures y.delivered[i].ticket < y.delivered[j].ticket
    {
      assert Brought(x, i, e, true) && Brought(x, j, e, false);
    }
    forall e: nat, i, s | Brought(y, i, e, true) && e < |y.parties| && 0 <= s < |y.parties| && SendingTo(y, s, e)
      ensures y.delivered[i].ticket < y.parties[s].ticket
    {
      assert Brought(x, i, e, true);
      DeliveredBefore(x, i, e);
    }
  }

  lemma FairStep(x: Exchange, c: Call)
    requires Inv(x) && Legal(x, c) && Fair(x)
    ensures Fair(Step(x, c))
  {
    match c
    case DoSend(s, d, msg) =>
      SendInv(x, s, d, msg);
      if Accepts(x, s, d) {
        FairDeliver(x, s, d, msg);
      } else {
        FairSame(x, BlockSender(x, s, d, msg));
      }
    case DoRecv(d, f, room) =>
      RecvInv(x, d, f, room);
      if SendingTo(x, f, d) {
        FairTake(x, d, f, f, room);
      } else {
        FairSame(x, BlockReceiver(x, d, f, room));
      }
    case DoRecvAny(d, room) =>
      RecvAnyInv(x, d, room);
      assert QueueOk(x, d);
      if x.queues[d] != [] {
        HeadIsOldest(x, d);
        FairTake(x, d, ANY, x.queues[d][0], room);
      } else {
        FairSame(x, BlockReceiver(x, d, ANY, room));
      }
    case DoNext =>
      NextInv(x);
      FairSame(x, Next(x));
  }

  /** Over every run from a quiet start: the messages that a process takes from anyone come in the order of their sends. */
  lemma {:induction false} RunFair(x: Exchange, cs: seq<Call>)
    requires Inv(x) && LegalRun(x, cs) && Fair(x)
    ensures Fair(Run(x, cs))
    decreases cs
  {
    if cs != [] {
      FairStep(x, cs[0]);
      RunFair(Step(x, cs[0]), cs[1..]);
    }
  }

  lemma EveryRunIsFair(n: nat, cs: seq<Call>)
    requires LegalRun(Quiet(n), cs)
    ensures Fair(Run(Quiet(n), cs))
  {
    RunFair(Quiet(n), cs);
  }
}
