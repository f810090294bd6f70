/**
 The kernel as it is written in c/disp.c, c/sleep.c, c/create.c and c/signal.c, updating the
 process table and the list heads in place.

 The ghost field `k` holds the abstract state; `Wired` ties the table and the list heads to it,
 and every method is proved to take `k` to the state that `KernelModel` says.
 */
module Dispatcher {
  import opened Sequences
  import opened Machine
  import opened DeltaQueue
  import opened SleepTiming
  import opened KernelModel
  import opened KernelSafety
  import opened KernelProgress
  import opened KernelFacts
  import opened Pids
  import opened Wiring
  import S = Signals

  class System {
    const proctab: array<Pcb>
    var head: int
    var tail: int
    var sleepQ: int
    var nextpid: nat
    var running: int
    ghost var k: Kernel

    ghost predicate Wired()
      reads this, proctab
    {
      nextpid == k.nextpid && Wires(proctab[..], head, tail, sleepQ, k)
    }

    /** The blocks of the table, links apart. */
    ghost predicate Shows(procs: seq<Proc>)
      reads proctab
    {
      && proctab.Length == |procs| == MAX_PROC
      && forall i :: 0 <= i < MAX_PROC ==> proctab[i].proc == procs[i]
    }

    lemma Showing()
      requires Wired()
      ensures Shows(k.procs)
    {
      assert forall i :: 0 <= i < MAX_PROC ==> proctab[..][i] == proctab[i];
    }

    lemma BlockAt(p: nat)
      requires Wired() && p < MAX_PROC
      ensures proctab.Length == MAX_PROC && proctab[p].proc == k.procs[p]
    {
      assert proctab[..][p] == proctab[p];
    }

    /** `dispatchinit` (c/disp.c:198-203) and the static initial values. */
    constructor ()
      ensures Wired() && k == Zeroed() && running == NONE && fresh(proctab)
    {
      proctab := new Pcb[MAX_PROC](_ => Pcb(Fresh(), NONE, 0));
      head, tail, sleepQ, nextpid, running := NONE, NONE, NONE, 0, NONE;
      k := Zeroed();
    }

    // -------------------------------------------------------------- single assignments to the table

    method SetNext(x: nat, next: int)
      requires x < proctab.Length
      modifies proctab
      ensures proctab[..] == Relinked(old(proctab[..]), x, next)
    {
      proctab[x] := proctab[x].(next := next);
    }

    method SetDiff(x: nat, diff: int)
      requires x < proctab.Length
      modifies proctab
      ensures proctab[..] == Retimed(old(proctab[..]), x, diff)
    {
      proctab[x] := proctab[x].(sleepdiff := diff);
    }

    method SetBlock(x: nat, b: Pcb)
      requires x < proctab.Length
      modifies proctab
      ensures proctab[..] == old(proctab[..])[x := b]
    {
      proctab[x] := b;
    }

    // -------------------------------------------------------------- the ready queue

    /** c/disp.c:205-218. */
    method Ready(p: nat)
      requires Wired() && p < MAX_PROC
      requires p !in k.ready && p !in Slots(k.asleep)
      modifies this`head, this`tail, this`k, proctab
      ensures Wired() && k == MakeReady(old(k), p)
    {
      ghost var t := proctab[..];
      ReadyWires(t, head, tail, sleepQ, k, p);
      SetBlock(p, proctab[p].(next := NONE, proc := proctab[p].proc.(state := Status.Ready)));
      if tail != NONE {
        SetNext(tail, p);
      } else {
        head := p;
      }
      assert proctab[..] == Appended(t, tail, p);
      tail := p;
      k := MakeReady(k, p);
    }

    /** c/disp.c:220-242; NONE is the endless loop on an empty queue. */
    method Next() returns (p: int)
      requires Wired()
      modifies this`head, this`tail, this`k, proctab
      ensures Wired() && k == KernelModel.Next(old(k))
      ensures p == if k.cpu.Runs? then k.cpu.slot else NONE
    {
      p := head;
      if p != NONE {
        ghost var t := proctab[..];
        NextWires(t, head, tail, sleepQ, k);
        head := proctab[p].next;
        if head == NONE {
          tail := NONE;
        }
        SetNext(p, NONE);
        assert proctab[..] == Relinked(t, p, NONE);
      }
      k := KernelModel.Next(k);
    }

    /** c/disp.c:290-297: `prev` now leads past `p`. */
    method UnlinkReady(prev: nat, p: nat, ghost i: nat)
      requires Wired() && 0 < i < |k.ready| && p == k.ready[i] && prev == k.ready[i - 1]
      modifies this`tail, this`k, proctab
      ensures Wired() && k == Unready(old(k), p)
    {
      ghost var t := proctab[..];
      UnlinkWires(t, head, tail, sleepQ, k, i);
      assert t[p] == proctab[p];
      SetNext(prev, proctab[p].next);
      if tail == p {
        tail := prev;
      }
      SetNext(p, NONE);
      assert proctab[..] == Relinked(Relinked(t, prev, t[p].next), p, NONE);
      k := Unready(k, p);
    }

    /** c/disp.c:266-308. */
    method RemoveFromReady(p: nat)
      requires Wired() && p < MAX_PROC
      modifies this`head, this`tail, this`k, proctab
      ensures Wired() && k == Unready(old(k), p)
    {
      WithoutAbsent(k.ready, p);
      if head == NONE {
        return;
      }
      if head == p {
        DropHeadWires(proctab[..], head, tail, sleepQ, k);
        head := proctab[p].next;
        if head == NONE {
          tail := head;
        }
        k := Unready(k, p);
      } else {
        var prev, curr;
        ghost var i;
        prev, curr, i := SearchReady(p, k.ready);
        if curr == p {
          UnlinkReady(prev, p, i);
        }
      }
    }

    /** The loop of c/disp.c:288-301: `p` with the process before it, or NONE. */
    method SearchReady(p: nat, ghost s: seq<nat>) returns (prev: nat, curr: int, ghost i: nat)
      requires Chain(proctab[..], s, head) && s != [] && s[0] != p
      ensures 1 <= i <= |s| && prev == s[i - 1] && curr == Successor(s, i - 1) && p !in s[..i]
      ensures curr == NONE || curr == p
    {
      prev, i := head, 1;
      assert proctab[..][s[0]] == proctab[prev];
      curr := proctab[head].next;
      while curr != NONE && curr != p
        invariant 1 <= i <= |s| && prev == s[i - 1] && curr == Successor(s, i - 1) && p !in s[..i]
        decreases |s| - i
        modifies {}
      {
        assert proctab[..][s[i]] == proctab[curr];
        prev, curr := curr, proctab[curr].next;
        i := i + 1;
      }
    }

    // -------------------------------------------------------------- the sleep queue

    /** c/sleep.c:51-58: into an empty queue, or in front of its head. */
    method LinkFirst(p: nat, n: nat, ghost q: seq<Sleeper>)
      requires p < proctab.Length && Diffs(proctab[..], q)
      requires sleepQ == First(Slots(q)) && sleepQ != p
      modifies this`sleepQ, proctab
      ensures proctab[..] == PutToSleep(old(proctab[..]), q, 0, p, I32(n), Shortened(q, 0, n)) && sleepQ == p
    {
      SetBlock(p, Pcb(proctab[p].proc.(state := Sleeping), sleepQ, I32(n)));
      if sleepQ != NONE {
        assert proctab[..][sleepQ].sleepdiff == q[0].diff;
        SetDiff(sleepQ, I32(proctab[sleepQ].sleepdiff - n));
      }
      sleepQ := p;
    }

    /** The search of c/sleep.c:60-71: the block to go after, and the difference from it. */
    method FindSpot(p: nat, n: nat, ghost q: seq<Sleeper>) returns (tmp: nat, m: nat, ghost i: nat)
      requires SleepLinks(proctab[..], q, sleepQ) && q != [] && U32(q[0].diff) <= n < WORD
      ensures i < |q| && tmp == q[i].slot && m < WORD
      ensures Insert(q, p, n) == q[..i + 1] + Insert(q[i + 1..], p, m)
      ensures i + 1 < |q| ==> m < U32(q[i + 1].diff)
    {
      ghost var t, first := proctab[..], U32(n - q[0].diff);
      InsertSkipsHead(q, p, n);
      SpotInserts(q, p, 0, first);
      LinkAt(t, q, sleepQ, 0);
      tmp, i := sleepQ, 0;
      assert t[q[0].slot] == proctab[tmp];
      m := U32(n - proctab[tmp].sleepdiff);
      var next := proctab[tmp].next;
      while next != NONE
        invariant i < |q| && tmp == q[i].slot && m < WORD
        invariant next == SleeperAfter(q, i)
        invariant Spot(q, i, m) == Spot(q, 0, first)
        decreases |q| - i
        modifies {}
      {
        LinkAt(t, q, sleepQ, i + 1);
        assert t[q[i + 1].slot] == proctab[next];
        if m < U32(proctab[next].sleepdiff) {
          break;
        }
        m := U32(m - proctab[next].sleepdiff);
        tmp, next := next, proctab[next].next;
        i := i + 1;
      }
    }

    /** c/sleep.c:74-82: after `tmp`, taking its share off the one behind. */
    method LinkAfter(p: nat, tmp: nat, n: nat, ghost q: seq<Sleeper>, ghost i: nat)
      requires p < proctab.Length && Diffs(proctab[..], q) && i < |q|
      requires tmp == q[i].slot && p != tmp && (i + 1 < |q| ==> q[i + 1].slot != p)
      requires proctab[tmp].next == SleeperAfter(q, i)
      modifies proctab
      ensures proctab[..] == PutToSleep(old(proctab[..]), q, i + 1, p, I32(n), Shortened(q, i + 1, n))
    {
      var x := proctab[tmp].next;
      SetBlock(p, Pcb(proctab[p].proc.(state := Sleeping), x, I32(n)));
      SetNext(tmp, p);
      if x != NONE {
        assert proctab[..][x].sleepdiff == q[i + 1].diff;
        SetDiff(x, I32(proctab[x].sleepdiff - n));
      }
    }

    /** c/sleep.c:33-84. */
    method Sleep(p: nat, len: nat)
      requires Wired() && p < MAX_PROC && len < WORD
      requires p !in k.ready && p !in Slots(k.asleep)
      modifies this`head, this`tail, this`sleepQ, this`k, proctab
      ensures Wired() && k == FallAsleep(old(k), p, len)
    {
      if len < 1 {
        Ready(p);
        return;
      }
      var n := len / MILLISECONDS_TICK;
      ghost var t, q, i := proctab[..], k.asleep, 0;
      WiresSleepLinks(t, head, tail, sleepQ, k);
      SlotAt(q, p);
      if sleepQ == NONE || n < U32(proctab[sleepQ].sleepdiff) {
        SleepFirstWires(t, head, tail, sleepQ, k, p, len);
        LinkFirst(p, n, q);
      } else {
        var tmp;
        tmp, n, i := FindSpot(p, n, q);
        SleepAfterWires(t, head, tail, sleepQ, k, p, len, i, n);
        LinkAfter(p, tmp, n, q, i);
      }
      k := FallAsleep(k, p, len);
    }

    /** c/sleep.c:96-101. */
    method UnlinkFirst(p: nat, ghost q: seq<Sleeper>)
      requires SleepLinks(proctab[..], q, p) && Diffs(proctab[..], q) && q != []
      modifies this`sleepQ, proctab
      ensures proctab[..] == TakenOff(old(proctab[..]), q, 0) && sleepQ == old(proctab[..])[q[0].slot].next
    {
      ghost var t := proctab[..];
      assert t[q[0].slot] == proctab[p];
      sleepQ := proctab[p].next;
      if sleepQ != NONE {
        SetDiff(sleepQ, I32(proctab[sleepQ].sleepdiff + proctab[p].sleepdiff));
      }
    }

    /** c/sleep.c:111-115: `prev` skips `p`, and the one behind takes over its difference. */
    method UnlinkSleeper(prev: nat, p: nat, ghost q: seq<Sleeper>, ghost i: nat)
      requires Diffs(proctab[..], q) && 0 < i < |q| && prev == q[i - 1].slot && p == q[i].slot
      requires proctab[p].next == SleeperAfter(q, i)
      modifies proctab
      ensures proctab[..] == TakenOff(old(proctab[..]), q, i)
    {
      var n := proctab[p].next;
      SetNext(prev, n);
      if n != NONE {
        SetDiff(n, I32(proctab[n].sleepdiff + proctab[p].sleepdiff));
        SetNext(p, NONE);
      }
    }

    /** The loop of c/sleep.c:106-122: the block before `p`, and its position; |q| when `p` is not there. */
    method FindSleeper(p: nat, ghost q: seq<Sleeper>) returns (prev: nat, curr: int, ghost i: nat)
      requires SleepLinks(proctab[..], q, sleepQ) && q != [] && q[0].slot != p
      ensures 1 <= i <= |q| && prev == q[i - 1].slot && curr == SleeperAfter(q, i - 1)
      ensures curr == p || (curr == NONE && p !in Slots(q))
    {
      ghost var t := proctab[..];
      prev, curr, i := sleepQ, proctab[sleepQ].next, 1;
      assert t[q[0].slot] == proctab[prev];
      while curr != NONE && curr != p
        invariant 1 <= i <= |q|
        invariant prev == q[i - 1].slot && curr == SleeperAfter(q, i - 1)
        invariant forall j :: 0 <= j < i ==> q[j].slot != p
        decreases |q| - i
      {
        assert t[q[i].slot] == proctab[curr];
        prev, curr := curr, proctab[curr].next;
        i := i + 1;
      }
      SlotAt(q, p);
    }

    /** c/sleep.c:88-128. */
    method RemoveFromSleep(p: nat)
      requires Wired() && p < MAX_PROC
      modifies this`sleepQ, this`k, proctab
      ensures Wired() && k == old(k).(asleep := Remove(old(k).asleep, p))
    {
      ghost var t, q := proctab[..], k.asleep;
      if sleepQ == NONE {
        return;
      }
      WiresSleepLinks(t, head, tail, sleepQ, k);
      if sleepQ == p {
        TakenOffWires(t, head, tail, sleepQ, k, 0);
        UnlinkFirst(p, q);
      } else {
        var prev, curr;
        ghost var i;
        prev, curr, i := FindSleeper(p, q);
        if curr == p {
          TakenOffWires(t, head, tail, sleepQ, k, i);
          assert t[q[i].slot] == proctab[p];
          UnlinkSleeper(prev, p, q, i);
        } else {
          RemoveAbsent(q, p);
        }
      }
      k := k.(asleep := Remove(k.asleep, p));
    }

    /** One turn of the loop of c/sleep.c:149-156. */
    method WakeHead()
      requires Wired() && k.asleep != []
      modifies this`head, this`tail, this`sleepQ, this`k, proctab
      ensures Wired() && k == WakeFirst(old(k))
    {
      PopWires(proctab[..], head, tail, sleepQ, k);
      var tmp := sleepQ;
      sleepQ := proctab[tmp].next;
      SetNext(tmp, NONE);
      k := k.(asleep := k.asleep[1..]);
      SetProc(tmp, proctab[tmp].proc.(ctx := proctab[tmp].proc.ctx.(ret := 0)));
      Ready(tmp);
    }

    /** Assignments to the fields of a block that are not links. */
    method SetProc(p: nat, proc: Proc)
      requires Wired() && p < MAX_PROC && S.Formed(proc.ctx)
      requires proc.state == k.procs[p].state || (p !in k.ready && p !in Slots(k.asleep))
      modifies this`k, proctab
      ensures Wired() && k == WithProc(old(k), p, proc)
    {
      WriteWires(proctab[..], head, tail, sleepQ, k, p, proc);
      SetBlock(p, proctab[p].(proc := proc));
      k := WithProc(k, p, proc);
    }

    /** What the head of the sleep queue tells. */
    lemma SleepHead()
      requires Wired()
      ensures sleepQ == NONE <==> k.asleep == []
      ensures k.asleep != [] ==> 0 <= sleepQ < proctab.Length && proctab[sleepQ].sleepdiff == k.asleep[0].diff
    {
      WiresSleepLinks(proctab[..], head, tail, sleepQ, k);
      if k.asleep != [] {
        assert proctab[..][k.asleep[0].slot] == proctab[sleepQ];
      }
    }

    /** The first part of the loop header of c/sleep.c:148. */
    method Decrement(x: nat)
      requires x < proctab.Length
      modifies proctab
      ensures proctab[..] == Lowered(old(proctab[..]), x)
    {
      assert proctab[..][x] == proctab[x];
      SetDiff(x, I32(proctab[x].sleepdiff - 1));
    }

    /** It takes one tick off the head, and the queues stay intact. */
    method CountDown()
      requires Wired() && k.asleep != []
      modifies this`k, proctab
      ensures Wired() && k == OneTickLess(old(k))
    {
      CountDownWires(proctab[..], head, tail, sleepQ, k);
      Decrement(sleepQ);
      k := OneTickLess(k);
    }

    /** c/sleep.c:139-158. */
    method Tick()
      requires Wired()
      modifies this`head, this`tail, this`sleepQ, this`k, proctab
      ensures Wired() && k == TickAll(old(k))
    {
      SleepHead();
      if sleepQ == NONE {
        return;
      }
      ghost var goal := TickAll(k);
      CountDown();
      SleepHead();
      while sleepQ != NONE && proctab[sleepQ].sleepdiff == 0
        invariant Wired() && DrainAll(k) == goal
        invariant k.asleep != [] ==> 0 <= sleepQ < proctab.Length && proctab[sleepQ].sleepdiff == k.asleep[0].diff
        invariant sleepQ == NONE <==> k.asleep == []
        decreases |k.asleep|
      {
        DrainTurn(k);
        WakeHead();
        SleepHead();
      }
    }

    // -------------------------------------------------------------- kill and signal

    /** c/disp.c:244-256. */
    method FindPCB(pid: nat, ghost procs: seq<Proc>) returns (r: int)
      requires Shows(procs)
      ensures r == if FirstWith(procs, pid) < MAX_PROC then FirstWith(procs, pid) else NONE
    {
      for i := 0 to MAX_PROC
        invariant forall j :: 0 <= j < i ==> procs[j].pid != pid
      {
        if proctab[i].proc.pid == pid {
          return i;
        }
      }
      return NONE;
    }

    /** c/sleep.c:130-137. */
    method KillInSleep(p: nat, ghost q: seq<Sleeper>) returns (r: int)
      requires SleepLinks(proctab[..], q, sleepQ) && p in Slots(q)
      ensures r == SleepTiming.KillInSleep(q, Position(q, p))
    {
      ghost var t := proctab[..];
      KillLinks(t, q, sleepQ, p);
      assert t[p] == proctab[p] && t[sleepQ] == proctab[sleepQ];
      if p == sleepQ {
        r := I32(proctab[p].sleepdiff * MILLISECONDS_TICK);
      } else {
        r := I32((proctab[p].sleepdiff + proctab[sleepQ].sleepdiff) * MILLISECONDS_TICK);
      }
    }

    /**
     c/disp.c:337-345.  The source calls `ready` on a sleeping target without taking it off the
     sleep queue; here it is taken off first.
     */
    method UnblockTarget(t: nat)
      requires Wired() && t < MAX_PROC
      requires k.procs[t].state == Sleeping ==> t in Slots(k.asleep)
      modifies this`head, this`tail, this`sleepQ, this`k, proctab
      ensures Wired() && k == Unblock(old(k), t)
    {
      NotQueued(k, t);
      assert proctab[..][t] == proctab[t];
      if proctab[t].proc.state == Waiting {
        SetProc(t, proctab[t].proc.(ctx := proctab[t].proc.ctx.(ret := -666)));
        Ready(t);
      } else if proctab[t].proc.state == Sleeping {
        WiresSleepLinks(proctab[..], head, tail, sleepQ, k);
        var left := KillInSleep(t, k.asleep);
        SetProc(t, proctab[t].proc.(ctx := proctab[t].proc.ctx.(ret := left)));
        RemovedShape(k, t);
        RemoveFromSleep(t);
        Ready(t);
      }
    }

    /**
     c/disp.c:337-345 as the source has it.  It does the work of `UnblockTarget` exactly when the
     target is not asleep; for a sleeping target no kernel state is represented any more, because
     the sleep queue still leads to a process whose state is READY, and ends there.
     */
    method UnblockAsWritten(t: nat)
      requires Wired() && t < MAX_PROC
      requires k.procs[t].state == Sleeping ==> t in Slots(k.asleep)
      modifies this`head, this`tail, this`k, proctab
      ensures old(k).procs[t].state != Sleeping ==> Wired() && k == Unblock(old(k), t)
      ensures old(k).procs[t].state == Sleeping ==> forall m :: !Wires(proctab[..], head, tail, sleepQ, m)
    {
      NotQueued(k, t);
      assert proctab[..][t] == proctab[t];
      if proctab[t].proc.state == Waiting {
        SetProc(t, proctab[t].proc.(ctx := proctab[t].proc.ctx.(ret := -666)));
        Ready(t);
      } else if proctab[t].proc.state == Sleeping {
        WiresSleepLinks(proctab[..], head, tail, sleepQ, k);
        var left := KillInSleep(t, k.asleep);
        SetProc(t, proctab[t].proc.(ctx := proctab[t].proc.ctx.(ret := left)));
        ReadyUnchecked(t);
      }
    }

    /** The body of `ready` (c/disp.c:205-218) applied to a process that is still on the sleep queue. */
    method ReadyUnchecked(p: nat)
      requires Wired() && p < MAX_PROC && p in Slots(k.asleep)
      modifies this`head, this`tail, proctab
      ensures forall m :: !Wires(proctab[..], head, tail, sleepQ, m)
    {
      ghost var t, i, tail0 := proctab[..], Position(k.asleep, p), tail;
      assert tail < |t|;
      SetBlock(p, proctab[p].(next := NONE, proc := proctab[p].proc.(state := Status.Ready)));
      if tail != NONE {
        SetNext(tail, p);
      } else {
        head := p;
      }
      tail := p;
      forall m
        ensures !Wires(proctab[..], head, tail, sleepQ, m)
      {
        CutIsUnrepresentable(t, old(head), tail0, sleepQ, k, i, head, tail, m);
      }
    }

    /** c/disp.c:356-359. */
    method ReleaseIfWaiting(i: nat, pid: nat)
      requires Wired() && i < MAX_PROC
      modifies this`head, this`tail, this`k, proctab
      ensures Wired() && k == ReleaseSlot(old(k), pid, i)
    {
      assert proctab[..][i] == proctab[i];
      if proctab[i].proc.state == Waiting && proctab[i].proc.waitpid == pid {
        NotQueued(k, i);
        Ready(i);
        assert proctab[..][i] == proctab[i];
        SetProc(i, proctab[i].proc.(waitpid := 0));
      }
    }

    /** c/disp.c:354-360. */
    method ReleaseWaiters(pid: nat)
      requires Wired()
      modifies this`head, this`tail, this`k, proctab
      ensures Wired() && k == Release(old(k), pid, |old(k).procs|)
    {
      for i := 0 to MAX_PROC
        invariant Wired() && k == Release(old(k), pid, i)
      {
        ReleaseIfWaiting(i, pid);
      }
    }

    /** c/signal.c:12-43. */
    method Signal(p: nat, signum: nat)
      requires Wired() && p < MAX_PROC && signum < S.MAX_SIG
      modifies this`k, proctab
      ensures Wired() && k == WithContext(old(k), p, S.Signal(old(k).procs[p].ctx, signum))
    {
      assert proctab[..][p] == proctab[p];
      var c := PushSignal(proctab[p].proc.ctx, signum);
      SetProc(p, proctab[p].proc.(ctx := c));
    }

    /** The assignments of c/signal.c:13-37 to the block and the stack of a process. */
    static method PushSignal(c: S.Context, signum: nat) returns (r: S.Context)
      requires S.Formed(c) && signum < S.MAX_SIG
      ensures r == S.Signal(c, signum)
    {
      r := c;
      if c.table[signum] != 0 {
        r := r.(mask := r.mask + {signum});
        if signum > r.level {
          r := r.(frames := r.frames + [S.Frame(r.esp, r.ret, r.level)]);
          r := r.(level := signum, esp := r.esp - S.SIGNAL_FRAME_BYTES - S.CONTEXT_FRAME_BYTES);
        }
      }
    }

    /** c/disp.c:321-364. */
    method Kill(pid: nat, signum: int) returns (r: int)
      requires Wired() && SleepersQueued(k)
      modifies this`head, this`tail, this`sleepQ, this`k, proctab
      ensures Wired() && (k, r) == KernelModel.Kill(old(k), pid, signum)
    {
      if signum < 0 || signum > 31 {
        return -1;
      }
      Showing();
      var t := FindPCB(pid, k.procs);
      if t == NONE {
        return -999;
      }
      assert proctab[..][t] == proctab[t];
      if signum in proctab[t].proc.ctx.mask {
        return 0;
      }
      UnblockTarget(t);
      if signum == 31 {
        assert proctab[..][t] == proctab[t];
        ghost var u := k;
        var target := proctab[t].proc.pid;
        if proctab[t].proc.state == Status.Ready {
          RemoveFromReady(t);
        }
        ReleaseWaiters(target);
        assert k == Terminate(u, t);
      }
      Signal(t, signum);
      return 0;
    }

    // -------------------------------------------------------------- create

    /** The probe of c/create.c:38-45: the free slot, NONE when there is none. */
    method FindFree(ghost procs: seq<Proc>) returns (s: int)
      requires Shows(procs) && nextpid < WORD
      modifies this`nextpid
      ensures var (pid, found) := Probe(procs, old(nextpid), |procs|);
              nextpid == pid < WORD && s == if found then pid % MAX_PROC else NONE
    {
      for i := 0 to MAX_PROC
        invariant nextpid < WORD
        invariant Probe(procs, nextpid, |procs| - i) == Probe(procs, old(nextpid), |procs|)
      {
        ProbeStep(procs, nextpid, |procs| - i);
        nextpid := U32(nextpid + 1);
        s := nextpid % MAX_PROC;
        if proctab[s].proc.state == Stopped {
          return;
        }
      }
      s := NONE;
    }

    /** c/create.c:15-92; `frame` is the stack pointer of the new process, 0 when `kmalloc` failed. */
    method Create(frame: nat) returns (r: int)
      requires Wired()
      modifies this`head, this`tail, this`nextpid, this`k, proctab
      ensures Wired() && (k, r) == KernelModel.Create(old(k), frame)
    {
      ProbeFinds(k.procs, k.nextpid, |k.procs|);
      Showing();
      var s := FindFree(k.procs);
      k := k.(nextpid := nextpid);
      if s == NONE {
        return -1;
      }
      if frame == 0 {
        return -1;
      }
      NotQueued(k, s);
      assert proctab[..][s] == proctab[s];
      SetProc(s, proctab[s].proc.(pid := nextpid, ctx := proctab[s].proc.ctx.(esp := frame)));
      Ready(s);
      r := I32(nextpid);
    }

    // -------------------------------------------------------------- the dispatcher

    ghost predicate Valid()
      reads this, proctab
    {
      Wired() && Inv(k) && running == if k.cpu.Runs? then k.cpu.slot else NONE
    }

    /** c/init.c:100-113: the idle process, the first program, and the first `next` of `dispatch`. */
    method Start(idleFrame: nat, initFrame: nat)
      requires Wired() && k == Zeroed() && idleFrame > 0 && initFrame > 0
      modifies this, proctab
      ensures Valid() && k == Boot(idleFrame, initFrame)
    {
      CreateTwo(idleFrame, initFrame);
      running := Next();
      BootInv(idleFrame, initFrame);
    }

    /** c/init.c:100-109. */
    method CreateTwo(idleFrame: nat, initFrame: nat)
      requires Wired()
      modifies this`head, this`tail, this`nextpid, this`k, proctab
      ensures Wired() && k == KernelModel.Create(KernelModel.Create(old(k), idleFrame).0, initFrame).0
    {
      var r := Create(idleFrame);
      r := Create(initFrame);
    }

    method SetRet(p: nat, ret: int)
      requires Wired() && p < MAX_PROC
      modifies this`k, proctab
      ensures Wired() && k == WithRet(old(k), p, ret)
    {
      assert proctab[..][p] == proctab[p];
      SetProc(p, proctab[p].proc.(ctx := proctab[p].proc.ctx.(ret := ret)));
    }

    /** c/disp.c:89. */
    method ChargeTime(p: nat)
      requires Wired() && p < MAX_PROC
      modifies this`k, proctab
      ensures Wired() && k == Charge(old(k), p)
    {
      BlockAt(p);
      SetProc(p, proctab[p].proc.(cpuTime := proctab[p].proc.cpuTime + 1));
    }

    /** c/disp.c:86-90. */
    method ServeTimer(p: nat)
      requires Wired() && p < MAX_PROC
      requires p !in TickAll(k).ready && p !in Slots(TickAll(k).asleep)
      modifies this`head, this`tail, this`sleepQ, this`k, proctab
      ensures Wired() && k == Preempt(old(k), p)
    {
      Tick();
      ChargeTime(p);
      Ready(p);
    }

    /** c/disp.c:129-142; whether the process is now blocked. */
    method ServeWait(p: nat, pid: nat) returns (blocked: bool)
      requires Wired() && p < MAX_PROC && p !in k.ready && p !in Slots(k.asleep)
      modifies this`k, proctab
      ensures Wired() && blocked == (pid != 0 && FindSlot(old(k), pid) != MAX_PROC)
      ensures k == if blocked then Block(old(k), p, pid) else WithRet(old(k), p, -1)
    {
      Showing();
      var t := FindPCB(pid, k.procs);
      if pid == 0 || t == NONE {
        SetRet(p, -1);
        return false;
      }
      assert proctab[..][p] == proctab[p];
      SetProc(p, proctab[p].proc.(state := Waiting));
      SetRet(p, 0);
      assert proctab[..][p] == proctab[p];
      SetProc(p, proctab[p].proc.(waitpid := pid));
      blocked := true;
    }

    /** The guard of c/syscall.c:80 and the case of c/disp.c:94-109. */
    method SetHandler(p: nat, number: int, handler: nat, inRange: bool)
      requires Wired() && p < MAX_PROC
      modifies this`k, proctab
      ensures Wired() && k == WithContext(old(k), p, S.Register(old(k).procs[p].ctx, number, handler, inRange))
    {
      assert proctab[..][p] == proctab[p];
      var c := proctab[p].proc.ctx;
      if 0 <= number < 31 {
        if inRange {
          c := c.(ret := c.table[number]);
          c := c.(table := c.table[number := handler]);
        } else {
          c := c.(ret := 0);
        }
      }
      SetProc(p, proctab[p].proc.(ctx := c));
    }

    /** c/disp.c:110-128. */
    method SigReturn(p: nat, saved: S.Frame)
      requires Wired() && p < MAX_PROC
      modifies this`k, proctab
      ensures Wired() && k == WithContext(old(k), p, S.SigReturn(old(k).procs[p].ctx, saved))
    {
      assert proctab[..][p] == proctab[p];
      var c := PopSignal(proctab[p].proc.ctx, saved);
      SetProc(p, proctab[p].proc.(ctx := c));
    }

    /** The loop of c/disp.c:116-123; `first` is the value that `i` starts from. */
    static method ClearMask(mask: set<nat>, first: int) returns (r: set<nat>)
      ensures r == S.Cleared(mask, first)
    {
      r := mask;
      var i := first;
      while i > 1
        invariant r == mask && S.Cleared(mask, i) == S.Cleared(mask, first)
        decreases i
      {
        if S.BitOf(i) in r {
          r := r - {S.BitOf(i)};
          break;
        }
        i := i / 2;
      }
    }

    /** c/disp.c:115-127. */
    static method PopSignal(c: S.Context, saved: S.Frame) returns (r: S.Context)
      ensures r == S.SigReturn(c, saved)
    {
      var mask := ClearMask(c.mask, S.FIRST_BIT);
      r := c.(mask := mask);
      r := r.(esp := saved.oldSp, frames := if r.frames == [] then [] else r.frames[..|r.frames| - 1]);
      r := r.(level := saved.level);
      r := r.(ret := saved.oldRet);
    }

    /** A case of c/disp.c:46-144, and whether it goes on to call `next`. */
    method ServeRequest(p: nat, e: Request) returns (again: bool)
      requires Wired() && SleepersQueued(k) && (e.SysSleep? ==> e.len < WORD)
      requires p < MAX_PROC && p !in k.ready && p !in Slots(k.asleep)
      requires p !in TickAll(k).ready && p !in Slots(TickAll(k).asleep)
      modifies this`head, this`tail, this`sleepQ, this`nextpid, this`k, proctab
      ensures Wired() && k == Serve(old(k), p, e) && again == Reschedules(old(k), e)
    {
      assert proctab[..][p] == proctab[p];
      again := true;
      match e {
        case SysCreate(frame) =>
          var r := Create(frame);
          SetRet(p, r);
          again := false;
        case SysYield => Ready(p);
        case SysStop => SetProc(p, proctab[p].proc.(state := Stopped));
        case SysKill(pid, signum) =>
          var r := Kill(pid, signum);
          SetRet(p, r);
          again := false;
        case SysSleep(len) => Sleep(p, len);
        case SysTimer => ServeTimer(p);
        case SysWait(pid) => again := ServeWait(p, pid);
        case SysSigHandler(number, handler, inRange) =>
          SetHandler(p, number, handler, inRange);
          again := false;
        case SysSigReturn(saved) =>
          SigReturn(p, saved);
          again := false;
      }
    }

    /**
     One turn of the loop of c/disp.c:42-190: whatever the running process asks for, the table and
     the two linked queues go exactly where the state machine says.
     */
    method Dispatch(e: Request)
      requires Valid() && (e.SysSleep? ==> e.len < WORD)
      modifies this, proctab
      ensures Valid() && k == Step(old(k), e)
    {
      if running == NONE {
        return;
      }
      RunnerOffQueues(k, running);
      TurnTaken(k, running, e);
      var again := ServeRequest(running, e);
      if again {
        running := Next();
      }
    }

    // -------------------------------------------------------------- getCPUtimes

    /** c/disp.c:400-411: one entry for each slot in use; the caller's is reported as running. */
    method GetCPUtimes(p: nat, ghost procs: seq<Proc>, pid: array<nat>, status: array<Report>, cpuTime: array<nat>)
      returns (last: int)
      requires Shows(procs) && p < MAX_PROC
      requires pid.Length == status.Length == cpuTime.Length == MAX_PROC && pid != cpuTime
      modifies pid, status, cpuTime
      ensures last == |InUse(procs, |procs|)| - 1
      ensures forall i :: 0 <= i <= last ==>
                IsEntry(procs, p, InUse(procs, |procs|)[i], pid[i], status[i], cpuTime[i])
    {
      last := NONE;
      for i := 0 to MAX_PROC
        invariant last == |InUse(procs, i)| - 1 < i
        invariant forall j :: 0 <= j <= last ==> IsEntry(procs, p, InUse(procs, i)[j], pid[j], status[j], cpuTime[j])
      {
        var q := proctab[i].proc;
        if q.state != Stopped {
          last := last + 1;
          pid[last] := q.pid;
          status[last] := if proctab[p].proc.pid == q.pid then Running else InState(q.state);
          cpuTime[last] := q.cpuTime * MILLISECONDS_TICK;
        }
      }
    }
  }

  /** The `status` that getCPUtimes reports: a stored state, or STATE_RUNNING. */
  datatype Report = Running | InState(state: Status)

  /** The entry of slot `s` in a report to process `p`. */
  predicate IsEntry(procs: seq<Proc>, p: nat, s: nat, pid: nat, status: Report, cpuTime: nat)
    requires p < |procs|
  {
    && s < |procs|
    && pid == procs[s].pid
    && status == (if procs[s].pid == procs[p].pid then Running else InState(procs[s].state))
    && cpuTime == procs[s].cpuTime * MILLISECONDS_TICK
  }

  /** The slots below `n` that are not STOPPED, in slot order. */
  function InUse(procs: seq<Proc>, n: nat): (r: seq<nat>)
    requires n <= |procs|
    ensures |r| <= n
  {
    if n == 0 then [] else if procs[n - 1].state == Stopped then InUse(procs, n - 1) else InUse(procs, n - 1) + [n - 1]
  }

  /** It lists exactly those, each once, in slot order. */
  lemma {:induction false} InUseMembers(procs: seq<Proc>, n: nat, s: nat)
    requires n <= |procs|
    ensures s in InUse(procs, n) <==> s < n && procs[s].state != Stopped
    ensures forall i, j :: 0 <= i < j < |InUse(procs, n)| ==> InUse(procs, n)[i] < InUse(procs, n)[j] < n
  {
    if n > 0 {
      InUseMembers(procs, n - 1, s);
      InUseBelow(procs, n - 1);
    }
  }

  lemma {:induction false} InUseBelow(procs: seq<Proc>, n: nat)
    requires n <= |procs|
    ensures forall i :: 0 <= i < |InUse(procs, n)| ==> InUse(procs, n)[i] < n
  {
    if n > 0 {
      InUseBelow(procs, n - 1);
    }
  }

  /**
   What the caller reads: exactly one entry has status RUNNING, its own; every other has the state
   of its process; and every entry has its process's pid and ten times its ticks.
   */
  lemma OnlyTheCallerRuns(k: Kernel, p: nat, s: nat, pid: nat, status: Report, cpuTime: nat)
    requires Inv(k) && k.cpu == Runs(p) && s < MAX_PROC
    ensures p in InUse(k.procs, |k.procs|)
    ensures s in InUse(k.procs, |k.procs|) && IsEntry(k.procs, p, s, pid, status, cpuTime) ==>
              && (status == Running <==> s == p)
              && (s != p ==> status == InState(k.procs[s].state))
              && pid == k.procs[s].pid && cpuTime == k.procs[s].cpuTime * 10
  {
    InUseMembers(k.procs, |k.procs|, p);
    InUseMembers(k.procs, |k.procs|, s);
    if s in InUse(k.procs, |k.procs|) && s != p {
      LivePidsDistinct(k, if s < p then s else p, if s < p then p else s);
    }
  }

  lemma ProbeStep(procs: seq<Proc>, nextpid: nat, steps: nat)
    requires |procs| == MAX_PROC && steps > 0
    ensures var pid := U32(nextpid + 1);
            Probe(procs, nextpid, steps) ==
            if procs[pid % MAX_PROC].state == Stopped then (pid, true) else Probe(procs, pid, steps - 1)
  {
  }

  lemma TurnTaken(k: Kernel, p: nat, e: Request)
    requires Inv(k) && k.cpu == Runs(p)
    ensures Step(k, e) == if Reschedules(k, e) then Next(Serve(k, p, e)) else Serve(k, p, e)
    ensures Serve(k, p, e).cpu == k.cpu && Inv(Step(k, e))
  {
    ServeKeepsCpu(k, p, e);
  }

  lemma RunnerOffQueues(k: Kernel, p: nat)
    requires Inv(k) && k.cpu == Runs(p)
    ensures p < MAX_PROC && p !in k.ready && p !in Slots(k.asleep)
    ensures p !in TickAll(k).ready && p !in Slots(TickAll(k).asleep)
  {
    NotQueued(k, p);
    TickKeepsRunner(k, p);
  }
}
