/**
 Blocking messages (c/msg.c) as a state machine on values.  Processes are named by their pid,
 0 up to the number of parties.  `sent`, `received` and `delivered` record the history: a message's
 ticket is its position in `sent`, the number of a receive its position in `received`.

 Two repairs: the match in `send` is read as "blocked receiving, and from me or from anyone"
 (c/msg.c:17-19), and a dequeued sender's `senderNext` is cleared (c/msg.c:75, 81, 117).
 */
module MessageModel {
  import opened Sequences

  newtype byte = b: int | 0 <= b < 256

  const ANY := -1

  datatype Status = Free | Sending | Receiving

  /**
   `waiting` is waitingPid; it is left stale when the process goes on.  `ticket` and `call` are the
   numbers of the send and of the receive that it blocked in last.
   */
  datatype Party = Party(status: Status, waiting: int, buffer: seq<byte>, ret: int, ticket: nat, call: nat)

  datatype Message = Message(from: nat, to: nat, bytes: seq<byte>)

  /** A call of `recv` or, with `from` ANY, of `recvAny`, into a buffer of length `room`. */
  datatype Receive = Receive(caller: nat, from: int, room: nat)

  /** The message with that ticket completed that receive; `data` is what arrived. */
  datatype Delivery = Delivery(ticket: nat, receive: nat, data: seq<byte>)

  /** `ready` is the ready queue. */
  datatype Exchange = Exchange(
    parties: seq<Party>,
    queues: seq<seq<nat>>,
    ready: seq<nat>,
    sent: seq<Message>,
    received: seq<Receive>,
    delivered: seq<Delivery>)

  function Min(a: nat, b: nat): (r: nat)
    ensures r <= a && r <= b && (r == a || r == b)
  {
    if a < b then a else b
  }

  /** The first bytes of `src` over the beginning of `dst`. */
  function Copied(dst: seq<byte>, src: seq<byte>): (r: seq<byte>)
    ensures |r| == |dst|
    ensures forall i :: 0 <= i < |dst| ==> r[i] == if i < |src| then src[i] else dst[i]
  {
    var n := Min(|src|, |dst|);
    src[..n] + dst[n..]
  }

  ghost predicate Sized(x: Exchange) {
    |x.parties| == |x.queues|
  }

  /** A process can make a call when it is neither blocked nor waiting for the processor. */
  ghost predicate CanAct(x: Exchange, p: nat) {
    p < |x.parties| && x.parties[p].status == Free && p !in x.ready
  }

  // ---------------------------------------------------------------- the operations

  /** Whether `d` is blocked in a receive that `s` can complete. */
  predicate Accepts(x: Exchange, s: nat, d: nat)
    requires d < |x.parties|
  {
    x.parties[d].status == Receiving && (x.parties[d].waiting == s || x.parties[d].waiting == ANY)
  }

  /** The test of c/msg.c:17-19 as C groups it: `&&` binds tighter than `||`. */
  predicate AcceptsAsWritten(x: Exchange, s: nat, d: nat)
    requires d < |x.parties|
  {
    (x.parties[d].status == Receiving && x.parties[d].waiting == s) || x.parties[d].waiting == ANY
  }

  /** c/msg.c:20-28. */
  function Deliver(x: Exchange, s: nat, d: nat, msg: seq<byte>): (Exchange, nat)
    requires d < |x.parties|
  {
    var q := x.parties[d];
    var n := Min(|msg|, |q.buffer|);
    (x.(parties := x.parties[d := q.(status := Free, buffer := Copied(q.buffer, msg), ret := n)],
        ready := x.ready + [d, s],
        sent := x.sent + [Message(s, d, msg)],
        delivered := x.delivered + [Delivery(|x.sent|, q.call, msg[..n])]), n)
  }

  /** c/msg.c:33-48. */
  function BlockSender(x: Exchange, s: nat, d: nat, msg: seq<byte>): Exchange
    requires Sized(x) && s < |x.parties| && d < |x.parties|
  {
    var p := x.parties[s].(status := Sending, waiting := d, buffer := msg, ticket := |x.sent|);
    x.(parties := x.parties[s := p], queues := x.queues[d := x.queues[d] + [s]], sent := x.sent + [Message(s, d, msg)])
  }

  /** `send`, c/msg.c:12-50, and its return value. */
  function Send(x: Exchange, s: nat, d: nat, msg: seq<byte>): (Exchange, nat)
    requires Sized(x) && s < |x.parties| && d < |x.parties|
  {
    if Accepts(x, s, d) then Deliver(x, s, d, msg) else (BlockSender(x, s, d, msg), 0)
  }

  /** `send` with the test as C groups it. */
  function SendAsWritten(x: Exchange, s: nat, d: nat, msg: seq<byte>): (Exchange, nat)
    requires Sized(x) && s < |x.parties| && d < |x.parties|
  {
    if AcceptsAsWritten(x, s, d) then Deliver(x, s, d, msg) else (BlockSender(x, s, d, msg), 0)
  }

  /** The two processes after `d` has copied the message of `f`. */
  function Handed(parties: seq<Party>, d: nat, f: nat, buf: seq<byte>): seq<Party>
    requires d < |parties| && f < |parties|
  {
    var p := parties[f];
    var freed := parties[f := p.(status := Free, ret := Min(|p.buffer|, |buf|))];
    freed[d := freed[d].(buffer := Copied(buf, p.buffer))]
  }

  /** `d`, receiving from `from`, takes the message of the blocked sender `f`: c/msg.c:67-83 and 109-118. */
  function Take(x: Exchange, d: nat, from: int, f: nat, buf: seq<byte>): (Exchange, nat)
    requires Sized(x) && d < |x.parties| && f < |x.parties|
  {
    var p := x.parties[f];
    var n := Min(|p.buffer|, |buf|);
    (x.(parties := Handed(x.parties, d, f, buf),
        queues := x.queues[d := Without(x.queues[d], f)],
        ready := x.ready + [f, d],
        received := x.received + [Receive(d, from, |buf|)],
        delivered := x.delivered + [Delivery(p.ticket, |x.received|, p.buffer[..n])]), n)
  }

  /** `d` blocks: c/msg.c:88-92 and 123-127. */
  function BlockReceiver(x: Exchange, d: nat, from: int, buf: seq<byte>): Exchange
    requires d < |x.parties|
  {
    var p := x.parties[d].(status := Receiving, waiting := from, buffer := buf, call := |x.received|);
    x.(parties := x.parties[d := p], received := x.received + [Receive(d, from, |buf|)])
  }

  /** `recv`, c/msg.c:60-94. */
  function Recv(x: Exchange, d: nat, f: nat, buf: seq<byte>): (Exchange, nat)
    requires Sized(x) && d < |x.parties| && f < |x.parties|
  {
    if x.parties[f].status == Sending && x.parties[f].waiting == d then Take(x, d, f, f, buf)
    else (BlockReceiver(x, d, f, buf), 0)
  }

  /** `recvAny`, c/msg.c:104-129. */
  function RecvAny(x: Exchange, d: nat, buf: seq<byte>): (Exchange, nat)
    requires Sized(x) && d < |x.parties| && (x.queues[d] != [] ==> x.queues[d][0] < |x.parties|)
  {
    if x.queues[d] != [] then Take(x, d, ANY, x.queues[d][0], buf) else (BlockReceiver(x, d, ANY, buf), 0)
  }

  /** `next`, c/disp.c:220-242: the head of the ready queue gets the processor. */
  function Next(x: Exchange): Exchange {
    if x.ready == [] then x else x.(ready := x.ready[1..])
  }

  // ---------------------------------------------------------------- the invariant

  predicate SendingTo(x: Exchange, s: nat, d: nat)
    requires s < |x.parties|
  {
    x.parties[s].status == Sending && x.parties[s].waiting == d
  }

  /** The queue of `d` is exactly the processes blocked sending to it, each once, oldest first. */
  ghost predicate QueueOk(x: Exchange, d: nat)
    requires Sized(x) && d < |x.parties|
  {
    var q := x.queues[d];
    && (forall i :: 0 <= i < |q| ==> q[i] < |x.parties| && SendingTo(x, q[i], d))
    && (forall s :: 0 <= s < |x.parties| && SendingTo(x, s, d) ==> s in q)
    && (forall i, j :: 0 <= i < j < |q| ==> x.parties[q[i]].ticket < x.parties[q[j]].ticket)
  }

  /** A blocked sender's message is the one its ticket names. */
  ghost predicate PendingOk(x: Exchange, s: nat)
    requires s < |x.parties|
  {
    var p := x.parties[s];
    p.status == Sending ==>
      && 0 <= p.waiting < |x.parties|
      && p.ticket < |x.sent|
      && x.sent[p.ticket] == Message(s, p.waiting, p.buffer)
  }

  /** A blocked receiver's call is the one its number names; a stale -1 stems from a call of its own. */
  ghost predicate CallOk(x: Exchange, d: nat)
    requires d < |x.parties|
  {
    var p := x.parties[d];
    && (p.status == Receiving ==> p.call < |x.received| && x.received[p.call] == Receive(d, p.waiting, |p.buffer|))
    && (p.waiting == ANY ==> p.call < |x.received| && x.received[p.call].caller == d)
  }

  /** Message `t` is still with its blocked sender. */
  predicate Pending(x: Exchange, t: nat)
    requires t < |x.sent|
  {
    var s := x.sent[t].from;
    s < |x.parties| && x.parties[s].status == Sending && x.parties[s].ticket == t
  }

  /** The process that made receive `r` is still blocked in it. */
  predicate Open(x: Exchange, r: nat)
    requires r < |x.received|
  {
    var d := x.received[r].caller;
    d < |x.parties| && x.parties[d].status == Receiving && x.parties[d].call == r
  }

  ghost predicate Arrived(x: Exchange, t: nat) {
    exists i :: 0 <= i < |x.delivered| && x.delivered[i].ticket == t
  }

  ghost predicate Completed(x: Exchange, r: nat) {
    exists i :: 0 <= i < |x.delivered| && x.delivered[i].receive == r
  }

  /**
   The message was sent to the process that made the receive, by the one it named or to anyone, and
   what arrived is what was sent, cut to the shorter of the two lengths.
   */
  ghost predicate Genuine(x: Exchange, v: Delivery) {
    && v.ticket < |x.sent|
    && v.receive < |x.received|
    && (var m, r := x.sent[v.ticket], x.received[v.receive];
        && m.to == r.caller
        && (r.from == ANY || r.from == m.from)
        && v.data == m.bytes[..Min(|m.bytes|, r.room)])
  }

  ghost predicate AllGenuine(x: Exchange) {
    forall i :: 0 <= i < |x.delivered| ==> Genuine(x, x.delivered[i])
  }

  /** Every message is either pending or delivered, and delivered once. */
  ghost predicate Conserved(x: Exchange) {
    && (forall t :: 0 <= t < |x.sent| ==> (Arrived(x, t) <==> !Pending(x, t)))
    && (forall i, j :: 0 <= i < j < |x.delivered| ==> x.delivered[i].ticket != x.delivered[j].ticket)
  }

  /** Every receive is either open or completed, and completed once. */
  ghost predicate Answered(x: Exchange) {
    && (forall r :: 0 <= r < |x.received| ==> (Completed(x, r) <==> !Open(x, r)))
    && (forall i, j :: 0 <= i < j < |x.delivered| ==> x.delivered[i].receive != x.delivered[j].receive)
  }

  /** The ready queue holds processes that are not blocked, each once. */
  ghost predicate ReadyOk(x: Exchange) {
    && NoDup(x.ready)
    && forall i :: 0 <= i < |x.ready| ==> x.ready[i] < |x.parties| && x.parties[x.ready[i]].status == Free
  }

  /** No sender is blocked on a receiver that is blocked ready to take its message. */
  ghost predicate NoMissedRendezvous(x: Exchange) {
    forall s, d :: 0 <= s < |x.parties| && 0 <= d < |x.parties| && SendingTo(x, s, d) ==> !Accepts(x, s, d)
  }

  ghost predicate PartiesOk(x: Exchange) {
    && Sized(x)
    && (forall d :: 0 <= d < |x.parties| ==> QueueOk(x, d))
    && (forall s :: 0 <= s < |x.parties| ==> PendingOk(x, s))
    && (forall d :: 0 <= d < |x.parties| ==> CallOk(x, d))
    && NoMissedRendezvous(x)
    && ReadyOk(x)
  }

  ghost predicate Inv(x: Exchange) {
    PartiesOk(x) && AllGenuine(x) && Conserved(x) && Answered(x)
  }
}
