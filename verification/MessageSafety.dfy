/** What every send and receive keeps, over whole runs. */
module MessageSafety {
  import opened Sequences
  import opened MessageModel

  // ---------------------------------------------------------------- the history of one more delivery

  /** `y` has the deliveries of `x` and one more, and the history of sends and receives only grows. */
  ghost predicate OneMore(x: Exchange, y: Exchange, v: Delivery) {
    && y.delivered == x.delivered + [v]
    && |x.sent| <= |y.sent| && y.sent[..|x.sent|] == x.sent
    && |x.received| <= |y.received| && y.received[..|x.received|] == x.received
  }

  lemma GenuineStays(x: Exchange, y: Exchange, v: Delivery)
    requires OneMore(x, y, v) && AllGenuine(x) && Genuine(y, v)
    ensures AllGenuine(y)
  {
    forall i | 0 <= i < |y.delivered|
      ensures Genuine(y, y.delivered[i])
    {
      if i < |x.delivered| {
        assert Genuine(x, x.delivered[i]);
        var t, r := x.delivered[i].ticket, x.delivered[i].receive;
        assert y.sent[..|x.sent|][t] == y.sent[t] && y.received[..|x.received|][r] == y.received[r];
      }
    }
  }

  lemma ArrivedOneMore(x: Exchange, y: Exchange, v: Delivery, t: nat)
    requires OneMore(x, y, v)
    ensures Arrived(y, t) <==> Arrived(x, t) || t == v.ticket
  {
    var n := |x.delivered|;
    assert y.delivered[n] == v;
    if Arrived(x, t) {
      var i :| 0 <= i < n && x.delivered[i].ticket == t;
      assert y.delivered[i].ticket == t;
    }
  }

  lemma CompletedOneMore(x: Exchange, y: Exchange, v: Delivery, r: nat)
    requires OneMore(x, y, v)
    ensures Completed(y, r) <==> Completed(x, r) || r == v.receive
  {
    var n := |x.delivered|;
    assert y.delivered[n] == v;
    if Completed(x, r) {
      var i :| 0 <= i < n && x.delivered[i].receive == r;
      assert y.delivered[i].receive == r;
    }
  }

  /** The delivered message was pending or is new; all others are where they were. */
  lemma ConservedOneMore(x: Exchange, y: Exchange, v: Delivery)
    requires OneMore(x, y, v) && Conserved(x) && !Arrived(x, v.ticket)
    requires forall t :: 0 <= t < |y.sent| ==>
               (Pending(y, t) <==> t < |x.sent| && Pending(x, t) && t != v.ticket)
    requires |y.sent| == |x.sent| || (|y.sent| == |x.sent| + 1 && v.ticket == |x.sent|)
    ensures Conserved(y)
  {
    forall t | 0 <= t < |y.sent|
      ensures Arrived(y, t) <==> !Pending(y, t)
    {
      ArrivedOneMore(x, y, v, t);
    }
    forall i, j | 0 <= i < j < |y.delivered|
      ensures y.delivered[i].ticket != y.delivered[j].ticket
    {
      assert i < |x.delivered| && y.delivered[i] == x.delivered[i];
    }
  }

  lemma AnsweredOneMore(x: Exchange, y: Exchange, v: Delivery)
    requires OneMore(x, y, v) && Answered(x) && !Completed(x, v.receive)
    requires forall r :: 0 <= r < |y.received| ==>
               (Open(y, r) <==> r < |x.received| && Open(x, r) && r != v.receive)
    requires |y.received| == |x.received| || (|y.received| == |x.received| + 1 && v.receive == |x.received|)
    ensures Answered(y)
  {
    forall r | 0 <= r < |y.received|
      ensures Completed(y, r) <==> !Open(y, r)
    {
      CompletedOneMore(x, y, v, r);
    }
    forall i, j | 0 <= i < j < |y.delivered|
      ensures y.delivered[i].receive != y.delivered[j].receive
    {
      assert i < |x.delivered| && y.delivered[i] == x.delivered[i];
    }
  }

  /** A number that has not been given out yet names nothing in the history. */
  lemma FreshNumbers(x: Exchange)
    requires AllGenuine(x)
    ensures !Arrived(x, |x.sent|) && !Completed(x, |x.received|)
  {
    forall i | 0 <= i < |x.delivered|
      ensures x.delivered[i].ticket != |x.sent| && x.delivered[i].receive != |x.received|
    {
      assert Genuine(x, x.delivered[i]);
    }
  }

  lemma ReadyPair(ready: seq<nat>, a: nat, b: nat)
    requires NoDup(ready) && a !in ready && b !in ready && a != b
    ensures NoDup(ready + [a, b])
  {
  }

  // ---------------------------------------------------------------- a send that delivers

  lemma DeliverParties(x: Exchange, s: nat, d: nat, msg: seq<byte>)
    requires Inv(x) && CanAct(x, s) && d < |x.parties| && Accepts(x, s, d)
    ensures PartiesOk(Deliver(x, s, d, msg).0)
  {
    var y := Deliver(x, s, d, msg).0;
    forall e | 0 <= e < |y.parties|
      ensures QueueOk(y, e) && PendingOk(y, e) && CallOk(y, e)
    {
      assert QueueOk(x, e) && PendingOk(x, e) && CallOk(x, e);
    }
    forall p, e | 0 <= p < |y.parties| && 0 <= e < |y.parties| && SendingTo(y, p, e)
      ensures !Accepts(y, p, e)
    {
      assert SendingTo(x, p, e);
    }
    ReadyPair(x.ready, d, s);
  }

  lemma DeliverInv(x: Exchange, s: nat, d: nat, msg: seq<byte>)
    requires Inv(x) && CanAct(x, s) && d < |x.parties| && Accepts(x, s, d)
    ensures Inv(Deliver(x, s, d, msg).0)
  {
    var y, v := Deliver(x, s, d, msg).0, Delivery(|x.sent|, x.parties[d].call, msg[..Min(|msg|, |x.parties[d].buffer|)]);
    DeliverParties(x, s, d, msg);
    FreshNumbers(x);
    assert CallOk(x, d) && OneMore(x, y, v);
    GenuineStays(x, y, v);
    forall t | 0 <= t < |y.sent|
      ensures Pending(y, t) <==> t < |x.sent| && Pending(x, t)
    {
      assert PendingOk(x, s);
    }
    ConservedOneMore(x, y, v);
    assert Open(x, v.receive);
    AnsweredOneMore(x, y, v);
  }

  // ---------------------------------------------------------------- a send that blocks

  lemma BlockSenderQueue(x: Exchange, s: nat, d: nat, msg: seq<byte>, e: nat)
    requires Inv(x) && CanAct(x, s) && d < |x.parties| && e < |x.parties|
    ensures QueueOk(BlockSender(x, s, d, msg), e)
  {
    var y := BlockSender(x, s, d, msg);
    var q, r := x.queues[e], y.queues[e];
    assert QueueOk(x, e);
    forall i | 0 <= i < |q|
      ensures q[i] != s && x.parties[q[i]].ticket < |x.sent|
    {
      assert PendingOk(x, q[i]);
    }
    if e == d {
      assert r == q + [s];
      forall p | 0 <= p < |y.parties| && SendingTo(y, p, d)
        ensures p in r
      {
        assert p == s ==> r[|q|] == s;
        assert p != s ==> SendingTo(x, p, d);
      }
    } else {
      assert r == q;
    }
  }

  lemma BlockSenderParties(x: Exchange, s: nat, d: nat, msg: seq<byte>)
    requires Inv(x) && CanAct(x, s) && d < |x.parties| && !Accepts(x, s, d)
    ensures PartiesOk(BlockSender(x, s, d, msg))
  {
    var y := BlockSender(x, s, d, msg);
    forall e | 0 <= e < |y.parties|
      ensures QueueOk(y, e) && PendingOk(y, e) && CallOk(y, e)
    {
      BlockSenderQueue(x, s, d, msg, e);
      assert PendingOk(x, e) && CallOk(x, e);
    }
    forall p, e | 0 <= p < |y.parties| && 0 <= e < |y.parties| && SendingTo(y, p, e)
      ensures !Accepts(y, p, e)
    {
      assert p != s ==> SendingTo(x, p, e);
    }
  }

  lemma BlockSenderInv(x: Exchange, s: nat, d: nat, msg: seq<byte>)
    requires Inv(x) && CanAct(x, s) && d < |x.parties| && !Accepts(x, s, d)
    ensures Inv(BlockSender(x, s, d, msg))
  {
    var y := BlockSender(x, s, d, msg);
    BlockSenderParties(x, s, d, msg);
    FreshNumbers(x);
    forall i | 0 <= i < |y.delivered|
      ensures Genuine(y, y.delivered[i])
    {
      assert Genuine(x, x.delivered[i]);
    }
    forall t | 0 <= t < |y.sent|
      ensures Arrived(y, t) <==> !Pending(y, t)
    {
      assert Arrived(y, t) == Arrived(x, t);
      assert t < |x.sent| ==> Pending(y, t) == Pending(x, t);
    }
    forall r | 0 <= r < |y.received|
      ensures Completed(y, r) <==> !Open(y, r)
    {
      assert Completed(y, r) == Completed(x, r) && Open(y, r) == Open(x, r);
    }
  }

  // ---------------------------------------------------------------- a receive that takes

  /** A sequence without its `i`-th member. */
  function Skip(q: seq<nat>, i: nat): (r: seq<nat>)
    requires i < |q|
    ensures |r| == |q| - 1
    ensures forall j :: 0 <= j < |r| ==> r[j] == q[Past(i, j)]
  {
    q[..i] + q[i + 1..]
  }

  function Past(i: nat, j: nat): nat {
    if j < i then j else j + 1
  }

  lemma TakeKeepsOthers(x: Exchange, d: nat, from: int, f: nat, buf: seq<byte>, p: nat)
    requires Sized(x) && d < |x.parties| && f < |x.parties| && f != d && p < |x.parties|
    ensures |Take(x, d, from, f, buf).0.parties| == |x.parties|
    ensures Take(x, d, from, f, buf).0.parties[p] == x.parties[p].(
              status := if p == f then Free else x.parties[p].status,
              ret := Take(x, d, from, f, buf).0.parties[p].ret,
              buffer := if p == d then Copied(buf, x.parties[f].buffer) else x.parties[p].buffer)
  {
  }

  /** A queue stays in order when exactly one sender leaves it. */
  lemma SkipQueueOk(x: Exchange, y: Exchange, d: nat, f: nat, i: nat)
    requires Sized(x) && Sized(y) && d < |x.parties| == |y.parties| && QueueOk(x, d)
    requires i < |x.queues[d]| && x.queues[d][i] == f && y.queues[d] == Skip(x.queues[d], i)
    requires forall p :: 0 <= p < |x.parties| ==> y.parties[p].ticket == x.parties[p].ticket
    requires forall p :: 0 <= p < |x.parties| ==> (SendingTo(y, p, d) <==> SendingTo(x, p, d) && p != f)
    ensures QueueOk(y, d)
  {
    var q := x.queues[d];
    forall p | 0 <= p < |y.parties| && SendingTo(y, p, d)
      ensures p in Skip(q, i)
    {
      var j :| 0 <= j < |q| && q[j] == p;
    }
  }

  /** The receiver's own queue: the sender is gone, the others keep their order. */
  lemma TakeOwnQueue(x: Exchange, d: nat, from: int, f: nat, buf: seq<byte>, i: nat)
    requires Sized(x) && d < |x.parties| && QueueOk(x, d) && i < |x.queues[d]| && x.queues[d][i] == f && f != d
    ensures f < |x.parties|
    ensures QueueOk(Take(x, d, from, f, buf).0, d)
  {
    WithoutAt(x.queues[d], i);
    forall p | 0 <= p < |x.parties|
      ensures Take(x, d, from, f, buf).0.parties[p].ticket == x.parties[p].ticket
      ensures SendingTo(Take(x, d, from, f, buf).0, p, d) <==> SendingTo(x, p, d) && p != f
    {
      TakeKeepsOthers(x, d, from, f, buf, p);
    }
    SkipQueueOk(x, Take(x, d, from, f, buf).0, d, f, i);
  }

  lemma TakeQueue(x: Exchange, d: nat, from: int, f: nat, buf: seq<byte>, e: nat)
    requires PartiesOk(x) && CanAct(x, d) && f < |x.parties| && SendingTo(x, f, d) && e < |x.parties|
    ensures QueueOk(Take(x, d, from, f, buf).0, e)
  {
    assert QueueOk(x, e);
    if e == d {
      var i :| 0 <= i < |x.queues[d]| && x.queues[d][i] == f;
      TakeOwnQueue(x, d, from, f, buf, i);
    } else {
      assert Take(x, d, from, f, buf).0.queues[e] == x.queues[e];
    }
  }

  lemma TakeParties(x: Exchange, d: nat, from: int, f: nat, buf: seq<byte>)
    requires Inv(x) && CanAct(x, d) && f < |x.parties| && SendingTo(x, f, d)
    ensures PartiesOk(Take(x, d, from, f, buf).0)
  {
    var y := Take(x, d, from, f, buf).0;
    forall e | 0 <= e < |y.parties|
      ensures QueueOk(y, e) && PendingOk(y, e) && CallOk(y, e)
    {
      TakeQueue(x, d, from, f, buf, e);
      TakeKeepsOthers(x, d, from, f, buf, e);
      assert PendingOk(x, e) && CallOk(x, e);
    }
    forall p, e | 0 <= p < |y.parties| && 0 <= e < |y.parties| && SendingTo(y, p, e)
      ensures !Accepts(y, p, e)
    {
      TakeKeepsOthers(x, d, from, f, buf, p);
      TakeKeepsOthers(x, d, from, f, buf, e);
      assert SendingTo(x, p, e);
    }
    ReadyPair(x.ready, f, d);
    forall i | 0 <= i < |y.ready|
      ensures y.ready[i] < |y.parties| && y.parties[y.ready[i]].status == Free
    {
      assert y.ready[i] == f || y.ready[i] == d || y.ready[i] == x.ready[i];
    }
  }

  lemma TakeInv(x: Exchange, d: nat, from: int, f: nat, buf: seq<byte>)
    requires Inv(x) && CanAct(x, d) && f < |x.parties| && SendingTo(x, f, d) && (from == f || from == ANY)
    ensures Inv(Take(x, d, from, f, buf).0)
  {
    var y, p := Take(x, d, from, f, buf).0, x.parties[f];
    var v := Delivery(p.ticket, |x.received|, p.buffer[..Min(|p.buffer|, |buf|)]);
    TakeParties(x, d, from, f, buf);
    FreshNumbers(x);
    assert PendingOk(x, f) && OneMore(x, y, v);
    GenuineStays(x, y, v);
    assert Pending(x, p.ticket);
    forall t | 0 <= t < |y.sent|
      ensures Pending(y, t) <==> Pending(x, t) && t != p.ticket
    {
      if x.sent[t].from < |x.parties| {
        TakeKeepsOthers(x, d, from, f, buf, x.sent[t].from);
      }
    }
    ConservedOneMore(x, y, v);
    forall r | 0 <= r < |y.received|
      ensures Open(y, r) <==> r < |x.received| && Open(x, r)
    {
      if y.received[r].caller < |x.parties| {
        TakeKeepsOthers(x, d, from, f, buf, y.received[r].caller);
      }
    }
    AnsweredOneMore(x, y, v);
  }

  // ---------------------------------------------------------------- a receive that blocks

  lemma BlockReceiverParties(x: Exchange, d: nat, from: int, buf: seq<byte>)
    requires Inv(x) && CanAct(x, d)
    requires forall s :: 0 <= s < |x.parties| && (from == s || from == ANY) ==> !SendingTo(x, s, d)
    ensures PartiesOk(BlockReceiver(x, d, from, buf))
  {
    var y := BlockReceiver(x, d, from, buf);
    forall e | 0 <= e < |y.parties|
      ensures QueueOk(y, e) && PendingOk(y, e) && CallOk(y, e)
    {
      assert QueueOk(x, e) && PendingOk(x, e) && CallOk(x, e);
    }
    forall p, e | 0 <= p < |y.parties| && 0 <= e < |y.parties| && SendingTo(y, p, e)
      ensures !Accepts(y, p, e)
    {
      assert SendingTo(x, p, e);
    }
  }

  lemma BlockReceiverInv(x: Exchange, d: nat, from: int, buf: seq<byte>)
    requires Inv(x) && CanAct(x, d)
    requires forall s :: 0 <= s < |x.parties| && (from == s || from == ANY) ==> !SendingTo(x, s, d)
    ensures Inv(BlockReceiver(x, d, from, buf))
  {
    var y := BlockReceiver(x, d, from, buf);
    BlockReceiverParties(x, d, from, buf);
    FreshNumbers(x);
    forall i | 0 <= i < |y.delivered|
      ensures Genuine(y, y.delivered[i])
    {
      assert Genuine(x, x.delivered[i]);
    }
    forall t | 0 <= t < |y.sent|
      ensures Arrived(y, t) <==> !Pending(y, t)
    {
      assert Pending(y, t) == Pending(x, t) && Arrived(y, t) == Arrived(x, t);
    }
    forall r | 0 <= r < |y.received|
      ensures Completed(y, r) <==> !Open(y, r)
    {
      assert Completed(y, r) == Completed(x, r);
      assert r < |x.received| ==> Open(y, r) == Open(x, r);
    }
  }

  // ---------------------------------------------------------------- runs

  datatype Call =
    | DoSend(s: nat, d: nat, msg: seq<byte>)
    | DoRecv(d: nat, f: nat, room: seq<byte>)
    | DoRecvAny(d: nat, room: seq<byte>)
    | DoNext

  /** Only a process that is not blocked and not queued for the processor makes a call. */
  ghost predicate Legal(x: Exchange, c: Call) {
    match c
    case DoSend(s, d, _) => CanAct(x, s) && d < |x.parties|
    case DoRecv(d, f, _) => CanAct(x, d) && f < |x.parties|
    case DoRecvAny(d, _) => CanAct(x, d)
    case DoNext => true
  }

  ghost function Step(x: Exchange, c: Call): (y: Exchange)
    requires Inv(x) && Legal(x, c)
    ensures Inv(y)
  {
    match c
    case DoSend(s, d, msg) =>
      SendInv(x, s, d, msg);
      Send(x, s, d, msg).0
    case DoRecv(d, f, room) =>
      RecvInv(x, d, f, room);
      Recv(x, d, f, room).0
    case DoRecvAny(d, room) =>
      RecvAnyInv(x, d, room);
      RecvAny(x, d, room).0
    case DoNext =>
      NextInv(x);
      Next(x)
  }

  lemma SendInv(x: Exchange, s: nat, d: nat, msg: seq<byte>)
    requires Inv(x) && CanAct(x, s) && d < |x.parties|
    ensures Inv(Send(x, s, d, msg).0)
  {
    if Accepts(x, s, d) {
      DeliverInv(x, s, d, msg);
    } else {
      BlockSenderInv(x, s, d, msg);
    }
  }

  lemma RecvInv(x: Exchange, d: nat, f: nat, buf: seq<byte>)
    requires Inv(x) && CanAct(x, d) && f < |x.parties|
    ensures Inv(Recv(x, d, f, buf).0)
  {
    if SendingTo(x, f, d) {
      TakeInv(x, d, f, f, buf);
    } else {
      BlockReceiverInv(x, d, f, buf);
    }
  }

  /** `recvAny` takes the oldest message sent to it that is still pending, if there is one. */
  lemma RecvAnyInv(x: Exchange, d: nat, buf: seq<byte>)
    requires Inv(x) && CanAct(x, d)
    ensures x.queues[d] != [] ==> x.queues[d][0] < |x.parties|
    ensures Inv(RecvAny(x, d, buf).0)
    ensures x.queues[d] == [] <==> forall s :: 0 <= s < |x.parties| ==> !SendingTo(x, s, d)
    ensures x.queues[d] != [] ==>
              forall s :: 0 <= s < |x.parties| && SendingTo(x, s, d) ==>
                x.parties[x.queues[d][0]].ticket <= x.parties[s].ticket
  {
    assert QueueOk(x, d);
    if x.queues[d] != [] {
      TakeInv(x, d, ANY, x.queues[d][0], buf);
    } else {
      BlockReceiverInv(x, d, ANY, buf);
    }
  }

  lemma NextInv(x: Exchange)
    requires Inv(x)
    ensures Inv(Next(x))
  {
    var y := Next(x);
    if x.ready != [] {
      assert forall i :: 0 <= i < |y.ready| ==> y.ready[i] == x.ready[i + 1];
      forall e | 0 <= e < |y.parties|
        ensures QueueOk(y, e) && PendingOk(y, e) && CallOk(y, e)
      {
        assert QueueOk(x, e) && PendingOk(x, e) && CallOk(x, e);
      }
      forall p, e | 0 <= p < |y.parties| && 0 <= e < |y.parties| && SendingTo(y, p, e)
        ensures !Accepts(y, p, e)
      {
        assert SendingTo(x, p, e);
      }
      HistoryOnly(x, y);
    }
  }

  lemma HistoryOnly(x: Exchange, y: Exchange)
    requires Inv(x) && y == x.(ready := y.ready)
    ensures AllGenuine(y) && Conserved(y) && Answered(y)
  {
    forall i | 0 <= i < |y.delivered|
      ensures Genuine(y, y.delivered[i])
    {
      assert Genuine(x, x.delivered[i]);
    }
    forall t | 0 <= t < |y.sent|
      ensures Arrived(y, t) <==> !Pending(y, t)
    {
      assert Pending(y, t) == Pending(x, t) && Arrived(y, t) == Arrived(x, t);
    }
    forall r | 0 <= r < |y.received|
      ensures Completed(y, r) <==> !Open(y, r)
    {
      assert Completed(y, r) == Completed(x, r) && Open(y, r) == Open(x, r);
    }
  }

  ghost predicate LegalRun(x: Exchange, cs: seq<Call>)
    requires Inv(x)
    decreases cs
  {
    cs != [] ==> Legal(x, cs[0]) && LegalRun(Step(x, cs[0]), cs[1..])
  }

  ghost function Run(x: Exchange, cs: seq<Call>): (y: Exchange)
    requires Inv(x) && LegalRun(x, cs)
    ensures Inv(y)
    decreases cs
  {
    if cs == [] then x else Run(Step(x, cs[0]), cs[1..])
  }

  /** `n` processes, none of them blocked. */
  function Quiet(n: nat): (x: Exchange)
    ensures |x.parties| == n && Inv(x)
  {
    Exchange(seq(n, _ => Party(Free, 0, [], 0, 0, 0)), seq(n, _ => []), [], [], [], [])
  }

  /**
   Over every run from a quiet start: no rendezvous is missed; every queue holds exactly the
   blocked senders in the order they sent; every message is pending or has arrived once; every
   receive is open or was completed once; each delivery is a message for the process that made the
   receive, from the one it named or from anyone, cut to the shorter of the two lengths; and the
   ready queue holds only processes that are not blocked, each once.
   */
  lemma EveryRunIsSound(n: nat, cs: seq<Call>)
    requires LegalRun(Quiet(n), cs)
    ensures var y := Run(Quiet(n), cs);
            && NoMissedRendezvous(y)
            && AllGenuine(y) && Conserved(y) && Answered(y)
            && ReadyOk(y)
            && forall d :: 0 <= d < |y.parties| ==> QueueOk(y, d)
  {
    var y := Run(Quiet(n), cs);
  }

  function Caller(c: Call): int {
    match c
    case DoSend(s, _, _) => s
    case DoRecv(d, _, _) => d
    case DoRecvAny(d, _) => d
    case DoNext => -1
  }

  /**
   A call makes ready only its caller and processes that were blocked; whoever stops being blocked
   is made ready; and nobody else's entry changes, buffer included.
   */
  lemma OnlyTheBlockedAreWoken(x: Exchange, c: Call, p: nat)
    requires Inv(x) && Legal(x, c) && p < |x.parties|
    ensures var y := Step(x, c);
            && |y.parties| == |x.parties|
            && (p in y.ready && p !in x.ready ==> p == Caller(c) || x.parties[p].status != Free)
            && (x.parties[p].status != Free && y.parties[p].status == Free ==> p in y.ready)
            && (y.parties[p] != x.parties[p] ==> p == Caller(c) || x.parties[p].status != Free)
  {
    var y := Step(x, c);
    match c
    case DoSend(s, d, msg) =>
      assert Accepts(x, s, d) ==> y.ready == x.ready + [d, s] && y.ready[|x.ready|] == d;
    case DoRecv(d, f, room) =>
      assert SendingTo(x, f, d) ==> y.ready == x.ready + [f, d] && y.ready[|x.ready|] == f;
    case DoRecvAny(d, room) =>
      assert QueueOk(x, d);
      if x.queues[d] != [] {
        var f := x.queues[d][0];
        assert y.ready == x.ready + [f, d] && y.ready[|x.ready|] == f;
      }
    case DoNext =>
  }

  /**
   Both sides of a rendezvous report the number of bytes that arrived, the shorter of the two
   lengths, and the receiver's buffer starts with exactly those bytes.
   */
  lemma BothSidesAgree(x: Exchange, s: nat, d: nat, bytes: seq<byte>)
    requires Inv(x) && s < |x.parties| && d < |x.parties|
    ensures CanAct(x, s) && Accepts(x, s, d) ==>
              var (y, n) := Send(x, s, d, bytes);
              && n == Min(|bytes|, |x.parties[d].buffer|) == |Latest(y).data| && y.parties[d].ret == n
              && y.parties[d].buffer[..n] == Latest(y).data == bytes[..n]
              && |y.parties[d].buffer| == |x.parties[d].buffer|
    ensures CanAct(x, d) && SendingTo(x, s, d) ==>
              var (y, n) := Take(x, d, s, s, bytes);
              && n == Min(|x.parties[s].buffer|, |bytes|) == |Latest(y).data| && y.parties[s].ret == n
              && y.parties[d].buffer[..n] == Latest(y).data == x.parties[s].buffer[..n]
              && |y.parties[d].buffer| == |bytes|
  {
  }

  function Latest(x: Exchange): Delivery {
    if x.delivered == [] then Delivery(0, 0, []) else x.delivered[|x.delivered| - 1]
  }

  // ---------------------------------------------------------------- the test of send as written

  /** `d` once called `recvAny` and is not blocked in a receive now. */
  predicate Stale(x: Exchange, d: nat)
    requires d < |x.parties|
  {
    x.parties[d].waiting == ANY && x.parties[d].status != Receiving
  }

  /** A delivery to such a process answers a receive that was answered before. */
  lemma StaleDeliveryBreaks(x: Exchange, s: nat, d: nat, msg: seq<byte>)
    requires Inv(x) && CanAct(x, s) && d < |x.parties| && Stale(x, d)
    ensures !Answered(Deliver(x, s, d, msg).0)
  {
    var y, r, n := Deliver(x, s, d, msg).0, x.parties[d].call, |x.delivered|;
    assert CallOk(x, d);
    assert Completed(x, r);
    var i :| 0 <= i < n && x.delivered[i].receive == r;
    assert y.delivered[i].receive == r && y.delivered[n].receive == r;
  }

  /** `send` as C groups its test keeps the invariant if and only if the receiver has no stale -1. */
  lemma SendAsWrittenIff(x: Exchange, s: nat, d: nat, msg: seq<byte>)
    requires Inv(x) && CanAct(x, s) && d < |x.parties|
    ensures Inv(SendAsWritten(x, s, d, msg).0) <==> !Stale(x, d)
    ensures !Stale(x, d) ==> SendAsWritten(x, s, d, msg) == Send(x, s, d, msg)
  {
    if Stale(x, d) {
      StaleDeliveryBreaks(x, s, d, msg);
    } else {
      SendInv(x, s, d, msg);
    }
  }

  /** With the receiver on the ready queue, as it is unless it runs, it is then queued twice. */
  lemma StaleDeliveryQueuesTwice(x: Exchange, s: nat, d: nat, msg: seq<byte>)
    requires Inv(x) && CanAct(x, s) && d < |x.parties| && Stale(x, d) && (d in x.ready || d == s)
    ensures !NoDup(SendAsWritten(x, s, d, msg).0.ready)
  {
    var n, r := |x.ready|, SendAsWritten(x, s, d, msg).0.ready;
    assert r[n] == d && r[n + 1] == s;
    if d in x.ready {
      var i :| 0 <= i < n && x.ready[i] == d;
      assert r[i] == d;
    }
  }

  /**
   Such a receiver is reached, queued for the processor: one `recvAny`, completed by one send.  A
   second send then breaks the invariant and queues the receiver twice.
   */
  lemma StaleIsReached(a: seq<byte>, b: seq<byte>, c: seq<byte>)
    ensures var y := Step(Step(Quiet(3), DoRecvAny(0, a)), DoSend(1, 0, b));
            && CanAct(y, 2) && Stale(y, 0)
            && !Inv(SendAsWritten(y, 2, 0, c).0) && !NoDup(SendAsWritten(y, 2, 0, c).0.ready)
  {
    var y := Step(Step(Quiet(3), DoRecvAny(0, a)), DoSend(1, 0, b));
    assert y.ready[0] == 0;
    SendAsWrittenIff(y, 2, 0, c);
    StaleDeliveryQueuesTwice(y, 2, 0, c);
  }
}
