/**
 The message handlers as they are written in c/msg.c, updating the process table in place.  The
 fields of the table are kept as one array each; the ghost field `x` holds the abstract state.
 */
module Messenger {
  import opened Machine
  import opened Sequences
  import opened MessageModel
  import opened MessageSafety
  import opened MessageEffects
  import opened SenderQueues

  /** The links hold the queues of `x`. */
  ghost predicate Wires(next: seq<int>, heads: seq<int>, x: Exchange) {
    |next| == |x.parties| && Threaded(next, heads, x.queues)
  }

  /** A process that is not blocked in a send is in no queue. */
  lemma FreeIsUnqueued(x: Exchange, s: nat)
    requires Inv(x) && s < |x.parties| && x.parties[s].status != Sending
    ensures forall e :: 0 <= e < |x.queues| ==> s !in x.queues[e]
  {
    forall e | 0 <= e < |x.queues|
      ensures s !in x.queues[e]
    {
      assert QueueOk(x, e);
    }
  }

  /** Where a blocked sender stands in its receiver's queue. */
  lemma QueuePosition(x: Exchange, d: nat, f: nat) returns (i: nat)
    requires Inv(x) && d < |x.parties| && f < |x.parties| && SendingTo(x, f, d)
    ensures i < |x.queues[d]| && x.queues[d][i] == f
    ensures Without(x.queues[d], f) == x.queues[d][..i] + x.queues[d][i + 1..]
  {
    assert QueueOk(x, d);
    i :| 0 <= i < |x.queues[d]| && x.queues[d][i] == f;
    WithoutAt(x.queues[d], i);
  }

  /** The bound of the loop in `memCpy` for two buffer lengths: the lesser, as a `size_t` (c/msg.c:21-24, 133). */
  function CopyCount(a: int, b: int): nat {
    U32(if a < b then a else b)
  }

  /** It is the lesser length if and only if neither is negative, and at least 2^31 otherwise. */
  lemma CopyCountIff(a: int, b: int)
    requires -HALF <= a < HALF && -HALF <= b < HALF
    ensures CopyCount(a, b) == (if a < b then a else b) <==> a >= 0 && b >= 0
    ensures a < 0 || b < 0 ==> CopyCount(a, b) >= HALF
  {
  }

  /** `memCpy`, c/msg.c:133-140, for a length that both buffers have. */
  method MemCpy(dest: seq<byte>, src: seq<byte>, n: nat) returns (r: seq<byte>)
    requires n <= |src| && n <= |dest|
    ensures r == src[..n] + dest[n..]
  {
    r := dest;
    for i := 0 to n
      invariant r == src[..i] + dest[i..]
    {
      r := r[i := src[i]];
    }
  }

  class Mail {
    const parties: array<Party>
    const senderQueue: array<int>
    const senderNext: array<int>
    var ready: seq<nat>
    var sends: nat  // these two number the calls; they only feed the history
    var receives: nat
    ghost var x: Exchange

    ghost predicate Valid()
      reads this, parties, senderQueue, senderNext
    {
      && senderQueue != senderNext
      && Inv(x)
      && parties[..] == x.parties
      && ready == x.ready && sends == |x.sent| && receives == |x.received|
      && Wires(senderNext[..], senderQueue[..], x)
    }

    constructor (n: nat)
      ensures Valid() && x == Quiet(n) && fresh(parties) && fresh(senderQueue) && fresh(senderNext)
    {
      parties := new Party[n](_ => Party(Free, 0, [], 0, 0, 0));
      senderQueue := new int[n](_ => NONE);
      senderNext := new int[n](_ => NONE);
      ready, sends, receives := [], 0, 0;
      x := Quiet(n);
    }

    /** `ready`: the process is no longer blocked. */
    method Ready(p: nat)
      requires p < parties.Length
      modifies this`ready, parties
      ensures ready == old(ready) + [p]
      ensures parties[..] == old(parties[..])[p := old(parties[..])[p].(status := Free)]
    {
      parties[p] := parties[p].(status := Free);
      ready := ready + [p];
    }

    /** c/msg.c:38-46, with `senderNext` of the new member cleared. */
    method Enqueue(s: nat, d: nat, ghost queues: seq<seq<nat>>)
      requires senderQueue != senderNext && Threaded(senderNext[..], senderQueue[..], queues)
      requires d < |queues| && s < senderNext.Length && forall e :: 0 <= e < |queues| ==> s !in queues[e]
      modifies senderQueue, senderNext
      ensures Threaded(senderNext[..], senderQueue[..], queues[d := queues[d] + [s]])
    {
      ghost var q, next := queues[d], senderNext[..];
      senderNext[s] := NONE;
      assert senderNext[..] == next[s := NONE];
      ThreadAppend(senderNext[..], senderQueue[..], queues, d, s);
      if senderQueue[d] == NONE {
        ghost var heads := senderQueue[..];
        senderQueue[d] := s;
        assert senderQueue[..] == heads[d := s];
      } else {
        var temp := FindTail(senderQueue[d], q);
        ghost var linked := senderNext[..];
        senderNext[temp] := s;
        assert senderNext[..] == linked[temp := s];
      }
    }

    /** c/msg.c:38-46 as the source has it. */
    method EnqueueAsWritten(s: nat, d: nat, ghost queues: seq<seq<nat>>)
      requires senderQueue != senderNext && Threaded(senderNext[..], senderQueue[..], queues) && d < |queues|
      modifies senderQueue, senderNext
      ensures queues[d] != [] ==> queues[d][|queues[d]| - 1] < |old(senderNext[..])|
      ensures (senderNext[..], senderQueue[..])
              == EnqueuedAsWritten(old(senderNext[..]), old(senderQueue[..]), queues[d], d, s)
    {
      ghost var q, next, heads := queues[d], senderNext[..], senderQueue[..];
      assert Chain(next, q, heads[d]);
      if senderQueue[d] == NONE {
        senderQueue[d] := s;
        assert senderQueue[..] == heads[d := s];
      } else {
        var temp := FindTail(senderQueue[d], q);
        senderNext[temp] := s;
        assert senderNext[..] == next[temp := s];
      }
    }

    /** c/msg.c:74-82 as the source has it. */
    method DequeueAsWritten(f: nat, d: nat, ghost queues: seq<seq<nat>>, ghost i: nat)
      requires senderQueue != senderNext && Threaded(senderNext[..], senderQueue[..], queues)
      requires d < |queues| && i < |queues[d]| && queues[d][i] == f
      modifies senderQueue, senderNext
      ensures forall j :: 0 <= j < |queues[d]| ==> queues[d][j] < |old(senderNext[..])|
      ensures (senderNext[..], senderQueue[..])
              == DequeuedAsWritten(old(senderNext[..]), old(senderQueue[..]), queues[d], d, i)
    {
      ghost var q, next, heads := queues[d], senderNext[..], senderQueue[..];
      assert Chain(next, q, heads[d]) && NoDup(q);
      assert next[q[i]] == senderNext[f];
      if senderQueue[d] == f {
        assert i == 0 by {
          assert q[0] == q[i];
        }
        senderQueue[d] := senderNext[f];
        assert senderQueue[..] == heads[d := next[f]];
      } else {
        assert i > 0;
        var temp := FindBefore(senderQueue[d], f, q, i);
        senderNext[temp] := senderNext[f];
        assert senderNext[..] == next[temp := next[f]];
      }
    }

    /** The loop of c/msg.c:41-44: the last member of the queue. */
    method FindTail(start: int, ghost q: seq<nat>) returns (temp: nat)
      requires Chain(senderNext[..], q, start) && q != []
      ensures temp == q[|q| - 1]
    {
      ghost var i, next := 0, senderNext[..];
      temp := start;
      assert next[q[i]] == senderNext[temp];
      while senderNext[temp] != NONE
        invariant 0 <= i < |q| && temp == q[i] && temp < senderNext.Length && next[q[i]] == senderNext[temp]
        decreases |q| - i
      {
        temp := senderNext[temp];
        i := i + 1;
        assert next[q[i]] == senderNext[temp];
      }
    }

    /** c/msg.c:74-82, with `senderNext` of the dequeued sender cleared. */
    method Dequeue(f: nat, d: nat, ghost queues: seq<seq<nat>>, ghost i: nat)
      requires senderQueue != senderNext && Threaded(senderNext[..], senderQueue[..], queues)
      requires d < |queues| && i < |queues[d]| && queues[d][i] == f
      modifies senderQueue, senderNext
      ensures Threaded(senderNext[..], senderQueue[..], queues[d := queues[d][..i] + queues[d][i + 1..]])
    {
      ghost var q, next, heads := queues[d], senderNext[..], senderQueue[..];
      assert Chain(next, q, heads[d]) && NoDup(q);
      assert next[q[i]] == senderNext[f];
      if senderQueue[d] == f {
        assert i == 0 by {
          assert q[0] == q[i];
        }
        ThreadTail(next, heads, queues, d);
        assert q[..0] + q[1..] == q[1..];
        senderQueue[d] := senderNext[f];
        senderNext[f] := NONE;
        assert senderQueue[..] == heads[d := next[f]] && senderNext[..] == next[f := NONE];
      } else {
        assert i > 0;
        ThreadUnlink(next, heads, queues, d, i);
        var temp := FindBefore(senderQueue[d], f, q, i);
        senderNext[temp] := senderNext[f];
        senderNext[f] := NONE;
        assert senderNext[..] == next[temp := next[f]][f := NONE];
      }
    }

    /** The loop of c/msg.c:77-80: the member before `f`. */
    method FindBefore(start: int, f: nat, ghost q: seq<nat>, ghost i: nat) returns (temp: nat)
      requires Chain(senderNext[..], q, start) && NoDup(q) && 0 < i < |q| && q[i] == f
      ensures temp == q[i - 1]
    {
      ghost var j, next := 0, senderNext[..];
      temp := start;
      assert next[q[j]] == senderNext[temp];
      while senderNext[temp] != f
        invariant 0 <= j < i && temp == q[j] && temp < senderNext.Length && next[q[j]] == senderNext[temp]
        decreases i - j
      {
        temp := senderNext[temp];
        j := j + 1;
        assert next[q[j]] == senderNext[temp];
      }
      assert q[j + 1] == q[i];
    }

    /** `next`, c/disp.c:220-242, on the ready queue as a list. */
    method Next() returns (p: int)
      requires Valid()
      modifies this`ready, this`x
      ensures Valid() && x == MessageModel.Next(old(x)) && p == At(old(ready), 0)
    {
      NextInv(x);
      p := NONE;
      if ready != [] {
        p, ready := ready[0], ready[1..];
      }
      x := MessageModel.Next(x);
    }

    /** c/msg.c:12-50; 0 is also the return value of a send that blocks. */
    method Send(s: nat, d: nat, msg: seq<byte>) returns (r: nat)
      requires Valid() && CanAct(x, s) && d < |x.parties|
      modifies this, parties, senderQueue, senderNext
      ensures Valid() && (x, r) == MessageModel.Send(old(x), s, d, msg)
    {
      SendInv(x, s, d, msg);
      ghost var was := parties[..];
      var q := parties[d];
      if q.status == Receiving && (q.waiting == s || q.waiting == ANY) {
        r := if |msg| < |q.buffer| then |msg| else |q.buffer|;
        var filled := MemCpy(q.buffer, msg, r);
        parties[d] := q.(buffer := filled, ret := r);
        Ready(d);
        Ready(s);
        assert parties[..] == was[d := q.(status := Free, buffer := filled, ret := r)];
        assert ready == x.ready + [d, s];
        x := MessageModel.Send(x, s, d, msg).0;
      } else {
        FreeIsUnqueued(x, s);
        Enqueue(s, d, x.queues);
        parties[s] := parties[s].(status := Sending, waiting := d, buffer := msg, ticket := sends);
        x := MessageModel.Send(x, s, d, msg).0;
        r := 0;
      }
      sends := sends + 1;
    }

    /** c/msg.c:67-72 and 109-116: copy, tell the sender the count, and let both go on. */
    method HandOver(d: nat, f: nat, buf: seq<byte>) returns (r: nat)
      requires d < parties.Length && f < parties.Length && f != d && parties[d].status == Free
      modifies this`ready, parties
      ensures parties[..] == Handed(old(parties[..]), d, f, buf) && ready == old(ready) + [f, d]
      ensures r == Min(|old(parties[..])[f].buffer|, |buf|)
    {
      ghost var was := parties[..];
      var p := parties[f];
      r := if |buf| < |p.buffer| then |buf| else |p.buffer|;
      var filled := MemCpy(buf, p.buffer, r);
      parties[d] := parties[d].(buffer := filled);
      parties[f] := p.(ret := r);
      Ready(f);
      Ready(d);
      ghost var freed := was[f := p.(status := Free, ret := r)];
      assert parties[..] == freed[d := freed[d].(buffer := filled)];
    }

    /** c/msg.c:67-83 and 109-118: `d` takes the message of the blocked sender `f`. */
    method Take(d: nat, ghost from: int, f: nat, buf: seq<byte>) returns (r: nat)
      requires Valid() && CanAct(x, d) && f < |x.parties| && SendingTo(x, f, d) && (from == f || from == ANY)
      modifies this, parties, senderQueue, senderNext
      ensures Valid() && (x, r) == MessageModel.Take(old(x), d, from, f, buf)
    {
      TakeInv(x, d, from, f, buf);
      ghost var i := QueuePosition(x, d, f);
      assert parties[..][d] == parties[d];
      r := HandOver(d, f, buf);
      Dequeue(f, d, x.queues, i);
      receives := receives + 1;
      x := MessageModel.Take(x, d, from, f, buf).0;
    }

    method BlockOn(d: nat, from: int, buf: seq<byte>)
      requires Valid() && CanAct(x, d)
      requires forall s :: 0 <= s < |x.parties| && (from == s || from == ANY) ==> !SendingTo(x, s, d)
      modifies this`x, this`receives, parties
      ensures Valid() && x == BlockReceiver(old(x), d, from, buf)
    {
      BlockReceiverInv(x, d, from, buf);
      parties[d] := parties[d].(status := Receiving, waiting := from, buffer := buf, call := receives);
      receives := receives + 1;
      x := BlockReceiver(x, d, from, buf);
    }

    /** c/msg.c:60-94. */
    method Recv(d: nat, f: nat, buf: seq<byte>) returns (r: nat)
      requires Valid() && CanAct(x, d) && f < |x.parties|
      modifies this, parties, senderQueue, senderNext
      ensures Valid() && (x, r) == MessageModel.Recv(old(x), d, f, buf)
    {
      if parties[f].status == Sending && parties[f].waiting == d {
        r := Take(d, f, f, buf);
      } else {
        BlockOn(d, f, buf);
        r := 0;
      }
    }

    /** c/msg.c:104-129; `from` is the sender, which the source assigns only to its own parameter. */
    method RecvAny(d: nat, buf: seq<byte>) returns (r: nat, from: int)
      requires Valid() && CanAct(x, d)
      modifies this, parties, senderQueue, senderNext
      ensures Valid()
      ensures old(x).queues[d] != [] ==> old(x).queues[d][0] < |old(x).parties|
      ensures (x, r) == MessageModel.RecvAny(old(x), d, buf)
      ensures from != NONE ==> from >= 0 && OldestSender(old(x), d, from) && TakenFrom(old(x), x, d, from, r, buf)
      ensures from == NONE ==> r == 0 && BlockedIn(old(x), x, d, ANY, buf)
      ensures from == NONE <==> forall s :: 0 <= s < |old(x).parties| ==> !SendingTo(old(x), s, d)
    {
      RecvAnyInv(x, d, buf);
      RecvAnyTakesOldest(x, d, buf);
      assert QueueOk(x, d);
      if x.queues[d] != [] {
        HeadIsOldest(x, d);
      }
      assert Chain(senderNext[..], x.queues[d], senderQueue[..][d]);
      from := senderQueue[d];
      if from != NONE {
        r := Take(d, ANY, from, buf);
      } else {
        BlockOn(d, ANY, buf);
        r := 0;
      }
    }
  }

}
