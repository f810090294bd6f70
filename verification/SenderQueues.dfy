/**
 The sender queues of c/msg.c: for each receiver a list of blocked senders, threaded through the
 one `senderNext` field.  `next[p]` is senderNext of process p, NONE for NULL.
 */
module SenderQueues {
  import opened Sequences

  function At(s: seq<nat>, i: nat): int {
    if i < |s| then s[i] else NONE
  }

  /** The chain from `start` runs through exactly the members of `s`. */
  ghost predicate Chain(next: seq<int>, s: seq<nat>, start: int) {
    && start == At(s, 0)
    && forall i :: 0 <= i < |s| ==> s[i] < |next| && next[s[i]] == At(s, i + 1)
  }

  lemma ChainApart(next: seq<int>, s: seq<nat>, start: int, p: nat, v: int)
    requires Chain(next, s, start) && p < |next| && p !in s
    ensures Chain(next[p := v], s, start)
  {
  }

  lemma ChainAppend(next: seq<int>, s: seq<nat>, start: int, p: nat)
    requires Chain(next, s, start) && NoDup(s) && p < |next| && p !in s && next[p] == NONE
    ensures s == [] ==> Chain(next, [p], p)
    ensures s != [] ==> Chain(next[s[|s| - 1] := p], s + [p], start)
  {
    if s != [] {
      var u, r := next[s[|s| - 1] := p], s + [p];
      forall i | 0 <= i < |r|
        ensures r[i] < |u| && u[r[i]] == At(r, i + 1)
      {
        assert i < |s| ==> r[i] == s[i];
      }
    }
  }

  lemma ChainTail(next: seq<int>, s: seq<nat>, start: int)
    requires Chain(next, s, start) && s != []
    ensures Chain(next, s[1..], next[s[0]])
  {
    assert forall i :: 0 <= i < |s[1..]| ==> s[1..][i] == s[i + 1];
  }

  lemma ChainUnlink(next: seq<int>, s: seq<nat>, start: int, i: nat)
    requires Chain(next, s, start) && NoDup(s) && 0 < i < |s|
    ensures Chain(next[s[i - 1] := next[s[i]]], s[..i] + s[i + 1..], start)
  {
    var u, r := next[s[i - 1] := next[s[i]]], s[..i] + s[i + 1..];
    forall j | 0 <= j < |r|
      ensures r[j] < |u| && u[r[j]] == At(r, j + 1)
    {
      assert r[j] == if j < i then s[j] else s[j + 1];
    }
  }

  /** One queue for every receiver, with no member in common. */
  ghost predicate Threaded(next: seq<int>, heads: seq<int>, queues: seq<seq<nat>>) {
    && |heads| == |queues|
    && (forall d :: 0 <= d < |queues| ==> Chain(next, queues[d], heads[d]) && NoDup(queues[d]))
    && (forall d, e, s :: 0 <= d < |queues| && 0 <= e < |queues| && s in queues[d] && s in queues[e] ==> d == e)
  }

  /** `p`, in no queue so far and with its link cleared, goes to the end of the queue of `d`. */
  lemma ThreadAppend(next: seq<int>, heads: seq<int>, queues: seq<seq<nat>>, d: nat, p: nat)
    requires Threaded(next, heads, queues) && d < |queues| && p < |next| && next[p] == NONE
    requires forall e :: 0 <= e < |queues| ==> p !in queues[e]
    ensures var q, more := queues[d], queues[d := queues[d] + [p]];
            && (q == [] ==> Threaded(next, heads[d := p], more))
            && (q != [] ==> q[|q| - 1] < |next| && Threaded(next[q[|q| - 1] := p], heads, more))
  {
    var q, more := queues[d], queues[d := queues[d] + [p]];
    assert Chain(next, q, heads[d]) && NoDup(q);
    ChainAppend(next, q, heads[d], p);
    forall e | 0 <= e < |more| && e != d && q != []
      ensures Chain(next[q[|q| - 1] := p], more[e], heads[e])
    {
      assert q[|q| - 1] in q;
      ChainApart(next, queues[e], heads[e], q[|q| - 1], p);
    }
    assert q == [] ==> q + [p] == [p];
  }

  /** The head of the queue of `d` is taken off and its link cleared. */
  lemma ThreadTail(next: seq<int>, heads: seq<int>, queues: seq<seq<nat>>, d: nat)
    requires Threaded(next, heads, queues) && d < |queues| && queues[d] != []
    ensures queues[d][0] < |next|
    ensures Threaded(next[queues[d][0] := NONE], heads[d := next[queues[d][0]]], queues[d := queues[d][1..]])
  {
    var q := queues[d];
    var p := q[0];
    assert Chain(next, q, heads[d]) && NoDup(q);
    ChainTail(next, q, heads[d]);
    assert p in q;
    assert p !in q[1..];
    ChainApart(next, q[1..], next[p], p, NONE);
    forall e | 0 <= e < |queues| && e != d
      ensures Chain(next[p := NONE], queues[e], heads[e])
    {
      ChainApart(next, queues[e], heads[e], p, NONE);
    }
  }

  /** The member at `i` > 0 of the queue of `d` is unlinked and its link cleared. */
  lemma ThreadUnlink(next: seq<int>, heads: seq<int>, queues: seq<seq<nat>>, d: nat, i: nat)
    requires Threaded(next, heads, queues) && d < |queues| && 0 < i < |queues[d]|
    ensures queues[d][i] < |next| && queues[d][i - 1] < |next|
    ensures Threaded(next[queues[d][i - 1] := next[queues[d][i]]][queues[d][i] := NONE], heads,
                     queues[d := queues[d][..i] + queues[d][i + 1..]])
  {
    var q := queues[d];
    var p, prev := q[i], q[i - 1];
    var u := next[prev := next[p]];
    assert Chain(next, q, heads[d]) && NoDup(q);
    ChainUnlink(next, q, heads[d], i);
    assert p in q && prev in q;
    var r := q[..i] + q[i + 1..];
    SkippedNoDup(q, i);
    ChainApart(u, r, heads[d], p, NONE);
    forall e | 0 <= e < |queues| && e != d
      ensures Chain(u[p := NONE], queues[e], heads[e])
    {
      ChainApart(next, queues[e], heads[e], prev, next[p]);
      ChainApart(u, queues[e], heads[e], p, NONE);
    }
  }

  lemma SkippedNoDup(q: seq<nat>, i: nat)
    requires NoDup(q) && i < |q|
    ensures NoDup(q[..i] + q[i + 1..])
    ensures q[i] !in q[..i] + q[i + 1..]
    ensures forall x :: x in q[..i] + q[i + 1..] ==> x in q
  {
  }

  // ---------------------------------------------------------------- the lines that are repaired

  /** c/msg.c:38-46 as written: the links after `p` is put behind the members `q` of the queue of `d`. */
  function EnqueuedAsWritten(next: seq<int>, heads: seq<int>, q: seq<nat>, d: nat, p: nat): (seq<int>, seq<int>)
    requires d < |heads| && (q != [] ==> q[|q| - 1] < |next|)
  {
    if q == [] then (next, heads[d := p]) else (next[q[|q| - 1] := p], heads)
  }

  /** c/msg.c:74-82 and 117 as written: the links after the `i`-th member of `q` is taken off. */
  function DequeuedAsWritten(next: seq<int>, heads: seq<int>, q: seq<nat>, d: nat, i: nat): (seq<int>, seq<int>)
    requires d < |heads| && i < |q| && forall j :: 0 <= j < |q| ==> q[j] < |next|
  {
    if i == 0 then (next, heads[d := next[q[0]]]) else (next[q[i - 1] := next[q[i]]], heads)
  }

  lemma MembersInTable(next: seq<int>, heads: seq<int>, queues: seq<seq<nat>>, d: nat)
    requires Threaded(next, heads, queues) && d < |queues|
    ensures forall j :: 0 <= j < |queues[d]| ==> queues[d][j] < |next|
  {
    assert Chain(next, queues[d], heads[d]);
  }

  /** The code as written puts `p` at the end of the queue of `d` and leaves the other queues alone. */
  ghost predicate JoinsAsWritten(next: seq<int>, heads: seq<int>, queues: seq<seq<nat>>, d: nat, p: nat)
    requires d < |heads| && d < |queues| && (queues[d] != [] ==> queues[d][|queues[d]| - 1] < |next|)
  {
    var (n, h) := EnqueuedAsWritten(next, heads, queues[d], d, p);
    Threaded(n, h, queues[d := queues[d] + [p]])
  }

  /**
   A sender that is in no queue is put at the end of one, on the empty queue as on any other,
   exactly when its own `senderNext` happens to be NULL.
   */
  lemma EnqueueAsWrittenIff(next: seq<int>, heads: seq<int>, queues: seq<seq<nat>>, d: nat, p: nat)
    requires Threaded(next, heads, queues) && d < |queues| && p < |next|
    requires forall e :: 0 <= e < |queues| ==> p !in queues[e]
    ensures queues[d] != [] ==> queues[d][|queues[d]| - 1] < |next|
    ensures JoinsAsWritten(next, heads, queues, d, p) <==> next[p] == NONE
  {
    MembersInTable(next, heads, queues, d);
    if next[p] == NONE {
      ThreadAppend(next, heads, queues, d, p);
    } else {
      var q, more := queues[d], queues[d := queues[d] + [p]];
      var (n, h) := EnqueuedAsWritten(next, heads, q, d, p);
      assert n[p] == next[p] && more[d][|q|] == p;
      assert At(more[d], |q| + 1) == NONE;
      assert !Chain(n, more[d], h[d]);
    }
  }

  /** The dequeue leaves the sender's `senderNext` NULL exactly when nobody was waiting behind it. */
  lemma DequeueAsWrittenIff(next: seq<int>, heads: seq<int>, queues: seq<seq<nat>>, d: nat, i: nat)
    requires Threaded(next, heads, queues) && d < |queues| && i < |queues[d]|
    ensures forall j :: 0 <= j < |queues[d]| ==> queues[d][j] < |next|
    ensures var (n, h) := DequeuedAsWritten(next, heads, queues[d], d, i);
            && Threaded(n, h, QueuesWithout(queues, d, i))
            && (n[queues[d][i]] == NONE <==> i == |queues[d]| - 1)
  {
    MembersInTable(next, heads, queues, d);
    var q := queues[d];
    var (n, h) := DequeuedAsWritten(next, heads, q, d, i);
    assert Chain(next, q, heads[d]) && NoDup(q);
    SkippedNoDup(q, i);
    if i == 0 {
      ChainTail(next, q, heads[d]);
      assert q[..0] + q[1..] == q[1..];
    } else {
      ChainUnlink(next, q, heads[d], i);
      forall e | 0 <= e < |queues| && e != d
        ensures Chain(n, queues[e], heads[e])
      {
        assert q[i - 1] in q;
        ChainApart(next, queues[e], heads[e], q[i - 1], next[q[i]]);
      }
    }
  }

  /** The `i`-th member of the queue of `d` is gone. */
  function QueuesWithout(queues: seq<seq<nat>>, d: nat, i: nat): seq<seq<nat>>
    requires d < |queues| && i < |queues[d]|
  {
    queues[d := queues[d][..i] + queues[d][i + 1..]]
  }

  lemma GoneFromAll(next: seq<int>, heads: seq<int>, queues: seq<seq<nat>>, d: nat, i: nat)
    requires Threaded(next, heads, queues) && d < |queues| && i < |queues[d]|
    ensures forall e :: 0 <= e < |queues| ==> queues[d][i] !in QueuesWithout(queues, d, i)[e]
  {
    SkippedNoDup(queues[d], i);
    assert queues[d][i] in queues[d];
  }

  /**
   So after its message was received a sender can be queued again, on any queue, exactly when it
   was the last of its queue then.
   */
  lemma ResendAsWrittenIff(next: seq<int>, heads: seq<int>, queues: seq<seq<nat>>, d: nat, i: nat, e: nat)
    requires Threaded(next, heads, queues) && d < |queues| && i < |queues[d]| && e < |queues|
    ensures forall j :: 0 <= j < |queues[d]| ==> queues[d][j] < |next|
    ensures var (n, h) := DequeuedAsWritten(next, heads, queues[d], d, i);
            var rest := QueuesWithout(queues, d, i);
            (rest[e] != [] ==> rest[e][|rest[e]| - 1] < |n|) &&
            (JoinsAsWritten(n, h, rest, e, queues[d][i]) <==> i == |queues[d]| - 1)
  {
    DequeueAsWrittenIff(next, heads, queues, d, i);
    GoneFromAll(next, heads, queues, d, i);
    var (n, h) := DequeuedAsWritten(next, heads, queues[d], d, i);
    EnqueueAsWrittenIff(n, h, QueuesWithout(queues, d, i), e, queues[d][i]);
  }

  /** Two processes that point at each other: no finite chain starts at either. */
  lemma {:induction false} StaleLinkNeverEnds(next: seq<int>, f: nat, g: nat, s: seq<nat>, start: int)
    requires f < |next| && g < |next| && next[f] == g && next[g] == f
    requires start == f || start == g
    ensures !Chain(next, s, start)
    decreases |s|
  {
    if Chain(next, s, start) {
      ChainTail(next, s, start);
      StaleLinkNeverEnds(next, f, g, s[1..], next[s[0]]);
    }
  }

  /**
   The code as written gets there: 1 sends to 0, 2 sends to 0, the message of 1 is received, and 1
   sends again.  The walk to the end of the queue (c/msg.c:42) then never ends for the next sender.
   */
  lemma StaleLinkIsReached(s: seq<nat>)
    ensures var blank := ([NONE, NONE, NONE], [NONE, NONE, NONE]);
            var one := EnqueuedAsWritten(blank.0, blank.1, [], 0, 1);
            var two := EnqueuedAsWritten(one.0, one.1, [1], 0, 2);
            var off := DequeuedAsWritten(two.0, two.1, [1, 2], 0, 0);
            var end := EnqueuedAsWritten(off.0, off.1, [2], 0, 1);
            end.0[1] == 2 && end.0[2] == 1 && end.1[0] == 2 && !Chain(end.0, s, end.1[0])
  {
    StaleLinkNeverEnds([NONE, 2, 1], 1, 2, s, 2);
  }

  /**
   And with the empty queue: 1 and 2 send, both messages are received, 1 sends again.  The queue of
   0 then leads on to 2, which is not sending, and `recvAny` would take it next.
   */
  lemma StaleHeadIsReached()
    ensures var blank := ([NONE, NONE, NONE], [NONE, NONE, NONE]);
            var one := EnqueuedAsWritten(blank.0, blank.1, [], 0, 1);
            var two := EnqueuedAsWritten(one.0, one.1, [1], 0, 2);
            var off := DequeuedAsWritten(two.0, two.1, [1, 2], 0, 0);
            var none := DequeuedAsWritten(off.0, off.1, [2], 0, 0);
            var end := EnqueuedAsWritten(none.0, none.1, [], 0, 1);
            none.1[0] == NONE && Chain(end.0, [1, 2], end.1[0])
  {
  }
}
