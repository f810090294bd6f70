/**
 How the ready queue and the sleep queue are threaded through the one `next` field of the
 process table, as predicates on the contents of the table.  A `pcb *` is an index into the
 table, NONE for NULL.
 */
module Wiring {
  import opened Sequences
  import opened Machine
  import opened DeltaQueue
  import opened KernelModel
  import opened KernelSafety
  import S = Signals

  /** h/xeroskernel.h:131-151, with `proc` for the fields that are not list links. */
  datatype Pcb = Pcb(proc: Proc, next: int, sleepdiff: int)

  function First(s: seq<nat>): int {
    if s == [] then NONE else s[0]
  }

  function Last(s: seq<nat>): int {
    if s == [] then NONE else s[|s| - 1]
  }

  /** What `next` of the `i`-th member should be. */
  function Successor(s: seq<nat>, i: nat): int {
    if i + 1 < |s| then s[i + 1] else NONE
  }

  /** The chain of `next` indices from `start` runs through exactly the slots of `s`. */
  ghost predicate Chain(t: seq<Pcb>, s: seq<nat>, start: int) {
    && start == First(s)
    && forall i :: 0 <= i < |s| ==> s[i] < |t| && t[s[i]].next == Successor(s, i)
  }

  ghost predicate Mirrors(t: seq<Pcb>, k: Kernel) {
    && |t| == |k.procs| == MAX_PROC
    && forall i :: 0 <= i < MAX_PROC ==> t[i].proc == k.procs[i]
  }

  ghost predicate Diffs(t: seq<Pcb>, q: seq<Sleeper>) {
    forall i :: 0 <= i < |q| ==> q[i].slot < |t| && t[q[i].slot].sleepdiff == q[i].diff
  }

  /** The table and the three list heads represent `k`. */
  ghost predicate Wires(t: seq<Pcb>, head: int, tail: int, sleepQ: int, k: Kernel) {
    && Shape(k)
    && Mirrors(t, k)
    && Chain(t, k.ready, head)
    && tail == Last(k.ready)
    && Chain(t, Slots(k.asleep), sleepQ)
    && Diffs(t, k.asleep)
  }

  function Relinked(t: seq<Pcb>, x: nat, next: int): seq<Pcb>
    requires x < |t|
  {
    t[x := t[x].(next := next)]
  }

  function Retimed(t: seq<Pcb>, x: nat, diff: int): seq<Pcb>
    requires x < |t|
  {
    t[x := t[x].(sleepdiff := diff)]
  }

  // ---------------------------------------------------------------- chains

  /** A chain that avoids the slot written to is untouched. */
  lemma ChainApart(t: seq<Pcb>, s: seq<nat>, start: int, x: nat, b: Pcb)
    requires Chain(t, s, start) && x < |t| && (x !in s || b.next == t[x].next)
    ensures Chain(t[x := b], s, start)
  {
  }

  lemma DiffsApart(t: seq<Pcb>, q: seq<Sleeper>, x: nat, b: Pcb)
    requires Diffs(t, q) && x < |t| && (x !in Slots(q) || b.sleepdiff == t[x].sleepdiff)
    ensures Diffs(t[x := b], q)
  {
    SlotAt(q, x);
  }

  /** The list with `p` after the member at `i`. */
  function After(s: seq<nat>, i: nat, p: nat): (r: seq<nat>)
    requires i < |s|
    ensures |r| == |s| + 1
    ensures forall j :: 0 <= j <= i ==> r[j] == s[j]
    ensures r[i + 1] == p
    ensures forall j :: i + 1 < j < |r| ==> r[j] == s[j - 1]
  {
    s[..i + 1] + [p] + s[i + 1..]
  }

  /** Taking the head: its successor starts the rest. */
  lemma ChainTail(t: seq<Pcb>, s: seq<nat>, start: int)
    requires Chain(t, s, start) && s != []
    ensures Chain(t, s[1..], t[s[0]].next)
  {
    var r := s[1..];
    forall i | 0 <= i < |r|
      ensures r[i] < |t| && t[r[i]].next == Successor(r, i)
    {
      assert r[i] == s[i + 1];
    }
  }

  /** Unlinking the member at `i` > 0: its predecessor skips it. */
  lemma ChainUnlink(t: seq<Pcb>, s: seq<nat>, start: int, i: nat)
    requires Chain(t, s, start) && NoDup(s) && 0 < i < |s|
    ensures Chain(Relinked(t, s[i - 1], t[s[i]].next), s[..i] + s[i + 1..], start)
  {
    var u := Relinked(t, s[i - 1], t[s[i]].next);
    var r := s[..i] + s[i + 1..];
    forall j | 0 <= j < |r|
      ensures r[j] < |u| && u[r[j]].next == Successor(r, j)
    {
      if j < i {
        assert r[j] == s[j];
      } else {
        assert r[j] == s[j + 1];
      }
    }
  }

  // ---------------------------------------------------------------- what each operation does to the table

  /** The table after `ready(p)`. */
  function Appended(t: seq<Pcb>, tail: int, p: nat): seq<Pcb>
    requires p < |t| && tail < |t|
  {
    var u := t[p := t[p].(next := NONE, proc := t[p].proc.(state := Ready))];
    if tail < 0 then u else Relinked(u, tail, p)
  }

  lemma ReadyWires(t: seq<Pcb>, head: int, tail: int, sleepQ: int, k: Kernel, p: nat)
    requires Wires(t, head, tail, sleepQ, k) && p < MAX_PROC
    requires p !in k.ready && p !in Slots(k.asleep)
    ensures tail < |t|
    ensures Wires(Appended(t, tail, p), if tail < 0 then p else head, p, sleepQ, MakeReady(k, p))
  {
    AppendedChain(t, k.ready, head, tail, p);
    AppendedKeepsAsleep(t, head, tail, sleepQ, k, p);
    MakeReadyShape(k, p);
  }

  lemma AppendedChain(t: seq<Pcb>, s: seq<nat>, start: int, tail: int, p: nat)
    requires Chain(t, s, start) && NoDup(s) && p < |t| && p !in s && tail == Last(s)
    ensures tail < |t| && Chain(Appended(t, tail, p), s + [p], if tail < 0 then p else start)
  {
    var r := s + [p];
    forall i | 0 <= i < |r|
      ensures r[i] < |t| && Appended(t, tail, p)[r[i]].next == Successor(r, i)
    {
      assert i < |s| ==> r[i] == s[i];
      assert s != [] ==> s[|s| - 1] == tail;
    }
    assert First(r) == if tail < 0 then p else start;
  }

  lemma AppendedKeepsAsleep(t: seq<Pcb>, head: int, tail: int, sleepQ: int, k: Kernel, p: nat)
    requires Wires(t, head, tail, sleepQ, k) && p < MAX_PROC && p !in Slots(k.asleep)
    ensures Chain(Appended(t, tail, p), Slots(k.asleep), sleepQ) && Diffs(Appended(t, tail, p), k.asleep)
  {
    var b := t[p].(next := NONE, proc := t[p].proc.(state := Ready));
    var u := t[p := b];
    ChainApart(t, Slots(k.asleep), sleepQ, p, b);
    DiffsApart(t, k.asleep, p, b);
    if tail >= 0 {
      assert k.ready[|k.ready| - 1] == tail;
      NotQueued(k, tail);
      ChainApart(u, Slots(k.asleep), sleepQ, tail, u[tail].(next := p));
      DiffsApart(u, k.asleep, tail, u[tail].(next := p));
    }
  }

  lemma NextWires(t: seq<Pcb>, head: int, tail: int, sleepQ: int, k: Kernel)
    requires Wires(t, head, tail, sleepQ, k) && k.ready != []
    ensures 0 <= head < |t|
    ensures Wires(Relinked(t, head, NONE), t[head].next, if t[head].next < 0 then NONE else tail, sleepQ, Next(k))
  {
    NotQueued(k, head);
    ChainTail(t, k.ready, head);
    var b := t[head].(next := NONE);
    ChainApart(t, k.ready[1..], t[head].next, head, b);
    ChainApart(t, Slots(k.asleep), sleepQ, head, b);
    DiffsApart(t, k.asleep, head, b);
  }

  /** `removeFromReady` of the head. */
  lemma DropHeadWires(t: seq<Pcb>, head: int, tail: int, sleepQ: int, k: Kernel)
    requires Wires(t, head, tail, sleepQ, k) && k.ready != []
    ensures 0 <= head < |t|
    ensures Wires(t, t[head].next, if t[head].next < 0 then NONE else tail, sleepQ, Unready(k, head))
  {
    ChainTail(t, k.ready, head);
  }

  /** Relinking a member of the ready queue does not touch the sleep queue. */
  lemma RelinkReady(t: seq<Pcb>, k: Kernel, sleepQ: int, x: nat, next: int)
    requires Shape(k) && Chain(t, Slots(k.asleep), sleepQ) && Diffs(t, k.asleep) && |t| == MAX_PROC
    requires x < MAX_PROC && k.procs[x].state == Ready
    ensures Chain(Relinked(t, x, next), Slots(k.asleep), sleepQ) && Diffs(Relinked(t, x, next), k.asleep)
  {
    NotQueued(k, x);
    ChainApart(t, Slots(k.asleep), sleepQ, x, t[x].(next := next));
    DiffsApart(t, k.asleep, x, t[x].(next := next));
  }

  lemma LastWithout(s: seq<nat>, i: nat)
    requires NoDup(s) && 0 < i < |s|
    ensures Last(Without(s, s[i])) == if Last(s) == s[i] then s[i - 1] else Last(s)
  {
    WithoutAt(s, i);
  }

  lemma UnlinkChain(t: seq<Pcb>, s: seq<nat>, start: int, i: nat)
    requires Chain(t, s, start) && NoDup(s) && 0 < i < |s|
    ensures Chain(Relinked(Relinked(t, s[i - 1], t[s[i]].next), s[i], NONE), Without(s, s[i]), start)
  {
    var u, w := Relinked(t, s[i - 1], t[s[i]].next), s[..i] + s[i + 1..];
    ChainUnlink(t, s, start, i);
    SkippedAbsent(s, i);
    ChainApart(u, w, start, s[i], u[s[i]].(next := NONE));
    WithoutAt(s, i);
  }

  /** `removeFromReady` of the member at `i` > 0. */
  lemma UnlinkWires(t: seq<Pcb>, head: int, tail: int, sleepQ: int, k: Kernel, i: nat)
    requires Wires(t, head, tail, sleepQ, k) && 0 < i < |k.ready|
    ensures var p, prev := k.ready[i], k.ready[i - 1];
            Wires(Relinked(Relinked(t, prev, t[p].next), p, NONE), head, if tail == p then prev else tail, sleepQ, Unready(k, p))
  {
    var p, prev := k.ready[i], k.ready[i - 1];
    UnlinkChain(t, k.ready, head, i);
    LastWithout(k.ready, i);
    RelinkReady(t, k, sleepQ, prev, t[p].next);
    RelinkReady(Relinked(t, prev, t[p].next), k, sleepQ, p, NONE);
    UnreadyShape(k, p);
  }

  lemma UnreadyShape(k: Kernel, p: nat)
    requires Shape(k)
    ensures Shape(Unready(k, p))
  {
    WithoutFacts(k.ready, p);
    var r := Without(k.ready, p);
    forall i | 0 <= i < |r|
      ensures r[i] in k.ready
    {
      assert r[i] in r;
    }
  }

  // ---------------------------------------------------------------- the sleep queue

  /** The queue from position `j` on, with the difference at `j` replaced. */
  function Adjusted(q: seq<Sleeper>, j: nat, diff: int): seq<Sleeper>
    requires j <= |q|
  {
    if j < |q| then [q[j].(diff := diff)] + q[j + 1..] else []
  }

  function Placed(q: seq<Sleeper>, j: nat, p: nat, diff: int, after: int): seq<Sleeper>
    requires j <= |q|
  {
    q[..j] + [Sleeper(p, diff)] + Adjusted(q, j, after)
  }

  /** The difference at position `j` once a sleeper with `n` more ticks than its predecessor goes before it. */
  function Shortened(q: seq<Sleeper>, j: nat, n: nat): int
    requires j <= |q|
  {
    if j < |q| then I32(q[j].diff - n) else 0
  }

  lemma AdjustedSlots(q: seq<Sleeper>, j: nat, diff: int)
    requires j <= |q|
    ensures Slots(Adjusted(q, j, diff)) == Slots(q)[j..]
  {
  }

  lemma PlacedSlots(q: seq<Sleeper>, j: nat, p: nat, diff: int, after: int)
    requires j <= |q|
    ensures Slots(Placed(q, j, p, diff, after)) == Slots(q)[..j] + [p] + Slots(q)[j..]
  {
    AdjustedSlots(q, j, after);
  }

  /** The table after `p` has been put to sleep before position `j`. */
  function PutToSleep(t: seq<Pcb>, q: seq<Sleeper>, j: nat, p: nat, diff: int, after: int): seq<Pcb>
    requires j <= |q| && p < |t| && Diffs(t, q)
  {
    var a := t[p := Pcb(t[p].proc.(state := Sleeping), if j < |q| then q[j].slot else NONE, diff)];
    var b := if j > 0 then Relinked(a, q[j - 1].slot, p) else a;
    if j < |q| then Retimed(b, q[j].slot, after) else b
  }

  lemma PlacedAt(q: seq<Sleeper>, j: nat, p: nat, diff: int, after: int, i: nat)
    requires j <= |q| && i <= |q|
    ensures |Placed(q, j, p, diff, after)| == |q| + 1
    ensures Placed(q, j, p, diff, after)[i] ==
            if i < j then q[i]
            else if i == j then Sleeper(p, diff)
            else if i == j + 1 then q[j].(diff := after)
            else q[i - 1]
  {
  }

  lemma PutToSleepDiff(t: seq<Pcb>, q: seq<Sleeper>, j: nat, p: nat, diff: int, after: int, x: nat)
    requires j <= |q| && p < |t| && Diffs(t, q) && x < |t|
    ensures |PutToSleep(t, q, j, p, diff, after)| == |t|
    ensures PutToSleep(t, q, j, p, diff, after)[x].sleepdiff ==
            if j < |q| && x == q[j].slot then after else if x == p then diff else t[x].sleepdiff
  {
  }

  lemma PlacedDiffs(t: seq<Pcb>, q: seq<Sleeper>, j: nat, p: nat, diff: int, after: int)
    requires j <= |q| && p < |t| && Diffs(t, q) && NoDup(Slots(q)) && p !in Slots(q)
    ensures Diffs(PutToSleep(t, q, j, p, diff, after), Placed(q, j, p, diff, after))
  {
    var u, r := PutToSleep(t, q, j, p, diff, after), Placed(q, j, p, diff, after);
    SlotAt(q, p);
    PlacedAt(q, j, p, diff, after, 0);
    forall i | 0 <= i < |r|
      ensures r[i].slot < |u| && u[r[i].slot].sleepdiff == r[i].diff
    {
      PlacedAt(q, j, p, diff, after, i);
      PutToSleepDiff(t, q, j, p, diff, after, r[i].slot);
      if i < j {
        assert j < |q| ==> Slots(q)[i] != Slots(q)[j];
      } else if i > j + 1 {
        assert Slots(q)[j] != Slots(q)[i - 1];
      }
    }
  }

  lemma PlacedFirst(t: seq<Pcb>, s: seq<nat>, start: int, p: nat, b: Pcb)
    requires Chain(t, s, start) && p < |t| && p !in s && b.next == start
    ensures Chain(t[p := b], s[..0] + [p] + s[0..], p)
  {
    ChainApart(t, s, start, p, b);
    assert s[..0] + [p] + s[0..] == [p] + s;
  }

  lemma PlacedAfter(t: seq<Pcb>, s: seq<nat>, start: int, i: nat, p: nat, b: Pcb)
    requires Chain(t, s, start) && NoDup(s) && i < |s| && p < |t| && p !in s && b.next == Successor(s, i)
    ensures Chain(Relinked(t[p := b], s[i], p), s[..i + 1] + [p] + s[i + 1..], start)
  {
    ChainApart(t, s, start, p, b);
    assert t[p := b][s[i]].next == Successor(s, i);
    assert s[..i + 1] + [p] + s[i + 1..] == After(s, i, p);
  }

  lemma PlacedChain(t: seq<Pcb>, q: seq<Sleeper>, start: int, j: nat, p: nat, diff: int, after: int)
    requires j <= |q| && p < |t| && Diffs(t, q) && NoDup(Slots(q)) && p !in Slots(q)
    requires Chain(t, Slots(q), start)
    ensures Chain(PutToSleep(t, q, j, p, diff, after), Slots(Placed(q, j, p, diff, after)), if j == 0 then p else start)
  {
    var s := Slots(q);
    var c := Pcb(t[p].proc.(state := Sleeping), if j < |q| then q[j].slot else NONE, diff);
    var b := if j > 0 then Relinked(t[p := c], q[j - 1].slot, p) else t[p := c];
    var r, first := s[..j] + [p] + s[j..], if j == 0 then p else start;
    assert Chain(b, r, first) by {
      if j == 0 {
        PlacedFirst(t, s, start, p, c);
      } else {
        assert s[j - 1] == q[j - 1].slot && c.next == Successor(s, j - 1);
        PlacedAfter(t, s, start, j - 1, p, c);
      }
    }
    if j < |q| {
      ChainApart(b, r, first, q[j].slot, b[q[j].slot].(sleepdiff := after));
    }
    PlacedSlots(q, j, p, diff, after);
  }

  /** What putting `p` to sleep writes does not concern the ready queue. */
  lemma SleepKeepsReady(t: seq<Pcb>, k: Kernel, head: int, j: nat, p: nat, diff: int, after: int)
    requires Shape(k) && Mirrors(t, k) && Chain(t, k.ready, head) && Diffs(t, k.asleep)
    requires j <= |k.asleep| && p < MAX_PROC && p !in k.ready
    ensures Chain(PutToSleep(t, k.asleep, j, p, diff, after), k.ready, head)
    ensures Mirrors(PutToSleep(t, k.asleep, j, p, diff, after), WithState(k, p, Sleeping))
  {
    var q := k.asleep;
    var a := t[p := Pcb(t[p].proc.(state := Sleeping), if j < |q| then q[j].slot else NONE, diff)];
    ChainApart(t, k.ready, head, p, a[p]);
    var b := if j > 0 then Relinked(a, q[j - 1].slot, p) else a;
    if j > 0 {
      NotQueued(k, q[j - 1].slot);
      ChainApart(a, k.ready, head, q[j - 1].slot, b[q[j - 1].slot]);
    }
    if j < |q| {
      ChainApart(b, k.ready, head, q[j].slot, b[q[j].slot].(sleepdiff := after));
    }
  }

  lemma SleepWires(t: seq<Pcb>, head: int, tail: int, sleepQ: int, k: Kernel, j: nat, p: nat, diff: int, after: int)
    requires Wires(t, head, tail, sleepQ, k) && j <= |k.asleep|
    requires p < MAX_PROC && p !in k.ready && p !in Slots(k.asleep)
    requires Shape(WithState(k, p, Sleeping).(asleep := Placed(k.asleep, j, p, diff, after)))
    ensures Wires(PutToSleep(t, k.asleep, j, p, diff, after), head, tail, if j == 0 then p else sleepQ,
                  WithState(k, p, Sleeping).(asleep := Placed(k.asleep, j, p, diff, after)))
  {
    PlacedDiffs(t, k.asleep, j, p, diff, after);
    PlacedChain(t, k.asleep, sleepQ, j, p, diff, after);
    SleepKeepsReady(t, k, head, j, p, diff, after);
  }

  /** The difference of the member after `i` once `i` is gone. */
  function Merged(q: seq<Sleeper>, i: nat): int
    requires i < |q|
  {
    if i + 1 < |q| then I32(q[i + 1].diff + q[i].diff) else 0
  }

  lemma TakeCons(q: seq<Sleeper>, i: nat, rest: seq<Sleeper>)
    requires 0 < i <= |q|
    ensures [q[0]] + (q[1..][..i - 1] + rest) == q[..i] + rest
  {
  }

  lemma TailNoDup(q: seq<Sleeper>, i: nat)
    requires NoDup(Slots(q)) && 0 < i < |q|
    ensures NoDup(Slots(q[1..])) && q[0].slot != q[i].slot
  {
    assert Slots(q)[0] != Slots(q)[i];
    assert q == [q[0]] + q[1..];
    SlotsCons(q[0], q[1..]);
    NoDupCons(q[0].slot, Slots(q[1..]));
  }

  lemma {:induction false} RemoveAt(q: seq<Sleeper>, i: nat)
    requires NoDup(Slots(q)) && i < |q|
    ensures Remove(q, q[i].slot) == q[..i] + Adjusted(q, i + 1, Merged(q, i))
  {
    if i > 0 {
      var r := q[1..];
      TailNoDup(q, i);
      RemoveAt(r, i - 1);
      assert r[i - 1] == q[i] && Merged(r, i - 1) == Merged(q, i);
      TakeCons(q, i, Adjusted(q, i + 1, Merged(q, i)));
    }
  }

  lemma {:induction false} RemoveAbsent(q: seq<Sleeper>, slot: nat)
    requires slot !in Slots(q)
    ensures Remove(q, slot) == q
  {
    if q != [] {
      assert q == [q[0]] + q[1..];
      SlotsCons(q[0], q[1..]);
      RemoveAbsent(q[1..], slot);
    }
  }

  /** The member at `i` is passed over by its predecessor. */
  function PassedOver(t: seq<Pcb>, q: seq<Sleeper>, i: nat): seq<Pcb>
    requires i < |q| && Diffs(t, q)
  {
    if i > 0 then Relinked(t, q[i - 1].slot, t[q[i].slot].next) else t
  }

  /** The writes that follow, when there is a member behind: it is given the difference. */
  function PassedOn(a: seq<Pcb>, q: seq<Sleeper>, i: nat): seq<Pcb>
    requires i < |q| && forall j :: 0 <= j < |q| ==> q[j].slot < |a|
  {
    if i + 1 == |q| then a
    else
      var p, n := q[i].slot, q[i + 1].slot;
      var b := Retimed(a, n, I32(a[n].sleepdiff + a[p].sleepdiff));
      if i > 0 then Relinked(b, p, NONE) else b
  }

  /** The table after `removeFromSleep` of the member at `i`. */
  function TakenOff(t: seq<Pcb>, q: seq<Sleeper>, i: nat): seq<Pcb>
    requires i < |q| && Diffs(t, q)
  {
    PassedOn(PassedOver(t, q, i), q, i)
  }

  /** The two writes after the unlinking: neither is to a `next` field of a member. */
  lemma MergedChain(a: seq<Pcb>, w: seq<nat>, first: int, n: nat, p: nat, diff: int)
    requires Chain(a, w, first) && n < |a| && p < |a| && p !in w
    ensures Chain(Retimed(a, n, diff), w, first)
    ensures Chain(Relinked(Retimed(a, n, diff), p, NONE), w, first)
  {
    var b := Retimed(a, n, diff);
    ChainApart(a, w, first, n, b[n]);
    ChainApart(b, w, first, p, b[p].(next := NONE));
  }

  lemma SkippedChain(t: seq<Pcb>, s: seq<nat>, start: int, i: nat)
    requires Chain(t, s, start) && NoDup(s) && i < |s|
    ensures i > 0 ==> Chain(Relinked(t, s[i - 1], t[s[i]].next), s[..i] + s[i + 1..], start)
    ensures i == 0 ==> Chain(t, s[..i] + s[i + 1..], t[s[0]].next)
  {
    if i > 0 {
      ChainUnlink(t, s, start, i);
    } else {
      ChainTail(t, s, start);
      assert s[..0] + s[1..] == s[1..];
    }
  }

  lemma SkippedAbsent(s: seq<nat>, i: nat)
    requires NoDup(s) && i < |s|
    ensures s[i] !in s[..i] + s[i + 1..]
  {
  }

  /** Where the list starts once the member at `i` is off it. */
  function StartWithout(t: seq<Pcb>, q: seq<Sleeper>, start: int, i: nat): int
    requires i < |q| && Diffs(t, q)
  {
    if i == 0 then t[q[0].slot].next else start
  }

  lemma PassedOverChain(t: seq<Pcb>, q: seq<Sleeper>, start: int, i: nat)
    requires i < |q| && Diffs(t, q) && NoDup(Slots(q)) && Chain(t, Slots(q), start)
    ensures Chain(PassedOver(t, q, i), Slots(q)[..i] + Slots(q)[i + 1..], StartWithout(t, q, start, i))
  {
    SkippedChain(t, Slots(q), start, i);
  }

  lemma PassedOnChain(a: seq<Pcb>, q: seq<Sleeper>, i: nat, w: seq<nat>, first: int)
    requires i < |q| && forall j :: 0 <= j < |q| ==> q[j].slot < |a|
    requires Chain(a, w, first) && q[i].slot !in w
    ensures Chain(PassedOn(a, q, i), w, first)
  {
    if i + 1 < |q| {
      var p, n := q[i].slot, q[i + 1].slot;
      MergedChain(a, w, first, n, p, I32(a[n].sleepdiff + a[p].sleepdiff));
    }
  }

  lemma TakenOffChain(t: seq<Pcb>, q: seq<Sleeper>, start: int, i: nat)
    requires i < |q| && Diffs(t, q) && NoDup(Slots(q)) && Chain(t, Slots(q), start)
    ensures Chain(TakenOff(t, q, i), Slots(q)[..i] + Slots(q)[i + 1..], StartWithout(t, q, start, i))
  {
    PassedOverChain(t, q, start, i);
    SkippedAbsent(Slots(q), i);
    PassedOnChain(PassedOver(t, q, i), q, i, Slots(q)[..i] + Slots(q)[i + 1..], StartWithout(t, q, start, i));
  }

  lemma TakenOffDiffs(t: seq<Pcb>, q: seq<Sleeper>, i: nat)
    requires i < |q| && Diffs(t, q) && NoDup(Slots(q))
    ensures Diffs(TakenOff(t, q, i), q[..i] + Adjusted(q, i + 1, Merged(q, i)))
  {
    var u, s := TakenOff(t, q, i), Slots(q);
    var r := q[..i] + Adjusted(q, i + 1, Merged(q, i));
    forall j | 0 <= j < |r|
      ensures r[j].slot < |u| && u[r[j].slot].sleepdiff == r[j].diff
    {
      if j < i {
        assert r[j] == q[j];
        assert i + 1 < |q| ==> s[j] != s[i + 1];
      } else if j > i {
        assert r[j] == q[j + 1];
        assert s[i + 1] != s[j + 1];
      } else {
        assert s[i] != s[i + 1];
      }
    }
  }

  lemma TakenOffApart(t: seq<Pcb>, q: seq<Sleeper>, i: nat, x: nat)
    requires i < |q| && Diffs(t, q) && x < |t|
    ensures |TakenOff(t, q, i)| == |t|
    ensures TakenOff(t, q, i)[x].proc == t[x].proc
    ensures x !in Slots(q) ==> TakenOff(t, q, i)[x] == t[x]
  {
    assert Slots(q)[i] == q[i].slot;
    assert i > 0 ==> Slots(q)[i - 1] == q[i - 1].slot;
    assert i + 1 < |q| ==> Slots(q)[i + 1] == q[i + 1].slot;
  }

  lemma TakenOffKeepsReady(t: seq<Pcb>, k: Kernel, head: int, i: nat)
    requires Shape(k) && Mirrors(t, k) && Chain(t, k.ready, head) && Diffs(t, k.asleep) && i < |k.asleep|
    ensures Chain(TakenOff(t, k.asleep, i), k.ready, head)
    ensures Mirrors(TakenOff(t, k.asleep, i), k)
  {
    var q, u := k.asleep, TakenOff(t, k.asleep, i);
    TakenOffApart(t, q, i, q[i].slot);
    forall j | 0 <= j < |k.ready|
      ensures u[k.ready[j]].next == t[k.ready[j]].next
    {
      NotQueued(k, k.ready[j]);
      TakenOffApart(t, q, i, k.ready[j]);
    }
    forall x | 0 <= x < MAX_PROC
      ensures u[x].proc == t[x].proc
    {
      TakenOffApart(t, q, i, x);
    }
  }

  lemma RemovedSlots(q: seq<Sleeper>, i: nat)
    requires NoDup(Slots(q)) && i < |q|
    ensures Slots(Remove(q, q[i].slot)) == Slots(q)[..i] + Slots(q)[i + 1..]
  {
    var tail := Adjusted(q, i + 1, Merged(q, i));
    RemoveAt(q, i);
    AdjustedSlots(q, i + 1, Merged(q, i));
    SlotsConcat(q[..i], tail);
    SlotsTake(q, i);
  }

  lemma SlotsConcat(a: seq<Sleeper>, b: seq<Sleeper>)
    ensures Slots(a + b) == Slots(a) + Slots(b)
  {
  }

  lemma SlotsTake(q: seq<Sleeper>, i: nat)
    requires i <= |q|
    ensures Slots(q[..i]) == Slots(q)[..i]
  {
  }

  lemma RemovedLinks(t: seq<Pcb>, q: seq<Sleeper>, start: int, i: nat)
    requires i < |q| && Diffs(t, q) && NoDup(Slots(q)) && Chain(t, Slots(q), start)
    ensures Chain(TakenOff(t, q, i), Slots(Remove(q, q[i].slot)), StartWithout(t, q, start, i))
    ensures Diffs(TakenOff(t, q, i), Remove(q, q[i].slot))
  {
    assert Chain(TakenOff(t, q, i), Slots(Remove(q, q[i].slot)), StartWithout(t, q, start, i)) by {
      RemovedSlots(q, i);
      TakenOffChain(t, q, start, i);
    }
    RemoveAt(q, i);
    TakenOffDiffs(t, q, i);
  }

  /** `removeFromSleep` of the member at `i`. */
  lemma TakenOffWires(t: seq<Pcb>, head: int, tail: int, sleepQ: int, k: Kernel, i: nat)
    requires Wires(t, head, tail, sleepQ, k) && i < |k.asleep|
    ensures Wires(TakenOff(t, k.asleep, i), head, tail, if i == 0 then t[k.asleep[0].slot].next else sleepQ,
                  k.(asleep := Remove(k.asleep, k.asleep[i].slot)))
  {
    RemovedLinks(t, k.asleep, sleepQ, i);
    TakenOffKeepsReady(t, k, head, i);
    RemovedShape(k, k.asleep[i].slot);
  }

  // ---------------------------------------------------------------- the other fields

  /** Writing the fields that are not links: the state may change only off both queues. */
  lemma WriteWires(t: seq<Pcb>, head: int, tail: int, sleepQ: int, k: Kernel, p: nat, proc: Proc)
    requires Wires(t, head, tail, sleepQ, k) && p < MAX_PROC && S.Formed(proc.ctx)
    requires proc.state == k.procs[p].state || (p !in k.ready && p !in Slots(k.asleep))
    ensures Wires(t[p := t[p].(proc := proc)], head, tail, sleepQ, WithProc(k, p, proc))
  {
    var b := t[p].(proc := proc);
    ChainApart(t, k.ready, head, p, b);
    ChainApart(t, Slots(k.asleep), sleepQ, p, b);
    DiffsApart(t, k.asleep, p, b);
    SlotAt(k.asleep, p);
  }

  function CountedDown(q: seq<Sleeper>): seq<Sleeper>
    requires q != []
  {
    [q[0].(diff := I32(q[0].diff - 1))] + q[1..]
  }

  /** The kernel with one tick taken off the head of the sleep queue. */
  function OneTickLess(k: Kernel): Kernel
    requires k.asleep != []
  {
    k.(asleep := CountedDown(k.asleep))
  }

  /** The table with one tick taken off slot `x`. */
  function Lowered(t: seq<Pcb>, x: nat): seq<Pcb>
    requires x < |t|
  {
    Retimed(t, x, I32(t[x].sleepdiff - 1))
  }

  /** The first write of `tick`: the head's difference goes down by one. */
  lemma CountDownWires(t: seq<Pcb>, head: int, tail: int, sleepQ: int, k: Kernel)
    requires Wires(t, head, tail, sleepQ, k) && k.asleep != []
    ensures 0 <= sleepQ < |t|
    ensures Wires(Lowered(t, sleepQ), head, tail, sleepQ, OneTickLess(k))
  {
    HeadListed(t, head, tail, sleepQ, k);
    CountDownLinks(t, k.asleep, sleepQ);
    LoweredChain(t, k.ready, head, sleepQ);
    LoweredMirrors(t, k, sleepQ);
    CountDownShape(k);
  }

  lemma LoweredChain(t: seq<Pcb>, s: seq<nat>, start: int, x: nat)
    requires Chain(t, s, start) && x < |t|
    ensures Chain(Lowered(t, x), s, start)
  {
    RetimedChain(t, s, start, x, I32(t[x].sleepdiff - 1));
  }

  lemma LoweredMirrors(t: seq<Pcb>, k: Kernel, x: nat)
    requires Mirrors(t, k) && x < |t| && k.asleep != []
    ensures Mirrors(Lowered(t, x), OneTickLess(k))
  {
  }

  lemma HeadListed(t: seq<Pcb>, head: int, tail: int, sleepQ: int, k: Kernel)
    requires Wires(t, head, tail, sleepQ, k) && k.asleep != []
    ensures 0 <= sleepQ < |t|
  {
    assert sleepQ == Slots(k.asleep)[0];
  }

  lemma CountDownLinks(t: seq<Pcb>, q: seq<Sleeper>, sleepQ: int)
    requires Diffs(t, q) && NoDup(Slots(q)) && Chain(t, Slots(q), sleepQ) && q != [] && 0 <= sleepQ < |t|
    ensures Chain(Lowered(t, sleepQ), Slots(CountedDown(q)), sleepQ) && Diffs(Lowered(t, sleepQ), CountedDown(q))
  {
    assert sleepQ == Slots(q)[0] == q[0].slot;
    CountDownDiffs(t, q);
    LoweredChain(t, Slots(q), sleepQ, sleepQ);
  }

  /** A write to `sleepdiff` leaves every chain alone. */
  lemma RetimedChain(t: seq<Pcb>, s: seq<nat>, start: int, x: nat, diff: int)
    requires Chain(t, s, start) && x < |t|
    ensures Chain(Retimed(t, x, diff), s, start)
  {
  }

  lemma CountDownShape(k: Kernel)
    requires Shape(k) && k.asleep != []
    ensures Shape(OneTickLess(k))
  {
    var q, r := k.asleep, CountedDown(k.asleep);
    assert Slots(r) == Slots(q);
    assert forall i :: 0 <= i < |r| ==> r[i].slot == q[i].slot;
  }

  lemma CountDownDiffs(t: seq<Pcb>, q: seq<Sleeper>)
    requires Diffs(t, q) && NoDup(Slots(q)) && q != []
    ensures Slots(CountedDown(q)) == Slots(q)
    ensures Diffs(Lowered(t, q[0].slot), CountedDown(q))
  {
    assert forall i :: 1 <= i < |q| ==> Slots(q)[0] != Slots(q)[i];
  }

  /** One turn of the draining loop of `tick` before it calls `ready`. */
  lemma PopWires(t: seq<Pcb>, head: int, tail: int, sleepQ: int, k: Kernel)
    requires Wires(t, head, tail, sleepQ, k) && k.asleep != []
    ensures var w := k.asleep[0].slot;
            && w == sleepQ && w !in k.ready && w !in Slots(k.asleep[1..])
            && Wires(Relinked(t, w, NONE), head, tail, t[w].next, k.(asleep := k.asleep[1..]))
  {
    var q, w := k.asleep, k.asleep[0].slot;
    assert q == [q[0]] + q[1..];
    SlotsCons(q[0], q[1..]);
    NoDupCons(w, Slots(q[1..]));
    NotQueued(k, w);
    ChainTail(t, Slots(q), sleepQ);
    assert Slots(q)[1..] == Slots(q[1..]);
    var b := t[w].(next := NONE);
    ChainApart(t, k.ready, head, w, b);
    ChainApart(t, Slots(q[1..]), t[w].next, w, b);
    DiffsApart(t, q[1..], w, b);
  }

  // ---------------------------------------------------------------- the search loop of sleep

  lemma InsertShape(k: Kernel, p: nat, ticks: nat)
    requires Shape(k) && p < MAX_PROC && p !in k.ready && p !in Slots(k.asleep)
    ensures Shape(WithState(k, p, Sleeping).(asleep := Insert(k.asleep, p, ticks)))
  {
    InsertSlots(k.asleep, p, ticks);
    var q := Insert(k.asleep, p, ticks);
    forall i | 0 <= i < |q|
      ensures q[i].slot < MAX_PROC && (q[i].slot == p || k.procs[q[i].slot].state == Sleeping)
    {
      assert Slots(q)[i] == q[i].slot;
      SlotAt(k.asleep, q[i].slot);
    }
  }

  /** Where the search stops: at the end, or before a larger difference. */
  lemma InsertStops(q: seq<Sleeper>, j: nat, p: nat, ticks: nat)
    requires j <= |q| && (j < |q| ==> ticks < U32(q[j].diff))
    ensures q[..j] + Insert(q[j..], p, ticks)
            == Placed(q, j, p, I32(ticks), Shortened(q, j, ticks))
  {
    var x, after := [Sleeper(p, I32(ticks))], Adjusted(q, j, Shortened(q, j, ticks));
    if j < |q| {
      assert q[j..][1..] == q[j + 1..];
    }
    assert Insert(q[j..], p, ticks) == x + after;
    assert q[..j] + (x + after) == q[..j] + x + after;
  }

  /** One turn of the search. */
  lemma InsertSkips(q: seq<Sleeper>, j: nat, p: nat, ticks: nat)
    requires j < |q| && ticks >= U32(q[j].diff)
    ensures q[..j] + Insert(q[j..], p, ticks) == q[..j + 1] + Insert(q[j + 1..], p, U32(ticks - q[j].diff))
  {
    assert q[j..][1..] == q[j + 1..];
    var r := Insert(q[j + 1..], p, U32(ticks - q[j].diff));
    assert q[..j] + ([q[j]] + r) == q[..j + 1] + r;
  }

  /** The first turn. */
  lemma InsertSkipsHead(q: seq<Sleeper>, p: nat, ticks: nat)
    requires q != [] && ticks >= U32(q[0].diff)
    ensures Insert(q, p, ticks) == q[..1] + Insert(q[1..], p, U32(ticks - q[0].diff))
  {
    assert q[..1] == [q[0]];
  }

  // ---------------------------------------------------------------- chains are determined by the table

  lemma {:induction false} ChainUnique(t: seq<Pcb>, a: seq<nat>, b: seq<nat>, start: int)
    requires Chain(t, a, start) && Chain(t, b, start)
    ensures a == b
  {
    if a == [] || b == [] {
    } else {
      ChainTail(t, a, start);
      ChainTail(t, b, start);
      ChainUnique(t, a[1..], b[1..], t[a[0]].next);
      assert a == [a[0]] + a[1..] && b == [b[0]] + b[1..];
    }
  }

  function SleeperAfter(q: seq<Sleeper>, i: nat): int {
    if i + 1 < |q| then q[i + 1].slot else NONE
  }

  /** The sleep queue read off the table, node by node. */
  ghost predicate SleepLinks(t: seq<Pcb>, q: seq<Sleeper>, start: int) {
    && start == (if q == [] then NONE else q[0].slot)
    && forall i :: 0 <= i < |q| ==>
         && q[i].slot < |t|
         && t[q[i].slot].next == SleeperAfter(q, i)
         && t[q[i].slot].sleepdiff == q[i].diff
  }

  lemma LinkAt(t: seq<Pcb>, q: seq<Sleeper>, start: int, i: nat)
    requires SleepLinks(t, q, start) && i < |q|
    ensures q[i].slot < |t| && t[q[i].slot].next == SleeperAfter(q, i) && t[q[i].slot].sleepdiff == q[i].diff
    ensures start == q[0].slot
  {
  }

  /** Where `killInSleep` finds the two differences. */
  lemma KillLinks(t: seq<Pcb>, q: seq<Sleeper>, start: int, p: nat)
    requires SleepLinks(t, q, start) && p in Slots(q)
    ensures var i := Position(q, p);
            && i < |q| && q[i].slot == p < |t| && t[p].sleepdiff == q[i].diff
            && 0 <= start < |t| && t[start].sleepdiff == q[0].diff && (p == start <==> i == 0)
  {
    LinkAt(t, q, start, Position(q, p));
    LinkAt(t, q, start, 0);
  }

  /**
   The search of `sleep` from position `i` on, with difference `m` left: where it stops, and what is
   left there.
   */
  function Spot(q: seq<Sleeper>, i: nat, m: nat): (nat, nat)
    decreases |q| - i
  {
    if i + 1 < |q| && m >= U32(q[i + 1].diff) then Spot(q, i + 1, U32(m - q[i + 1].diff)) else (i, m)
  }

  /** The first `j` members, and the rest with `p` inserted at distance `m`. */
  function Reached(q: seq<Sleeper>, p: nat, j: nat, m: nat): seq<Sleeper> {
    if j <= |q| then q[..j] + Insert(q[j..], p, m) else []
  }

  lemma ReachedSkips(q: seq<Sleeper>, p: nat, j: nat, m: nat)
    requires j < |q| && m >= U32(q[j].diff)
    ensures Reached(q, p, j, m) == Reached(q, p, j + 1, U32(m - q[j].diff))
  {
    InsertSkips(q, j, p, m);
  }

  /** What no turn of the search changes is the same where it stops. */
  lemma {:induction false} SpotKeeps(q: seq<Sleeper>, reached: (nat, nat) -> seq<Sleeper>, i: nat, m: nat)
    requires i < |q| && m < WORD
    requires forall j: nat, x: nat :: j < |q| && x >= U32(q[j].diff) ==> reached(j, x) == reached(j + 1, U32(x - q[j].diff))
    ensures var (j, r) := Spot(q, i, m);
            && j < |q| && r < WORD && reached(i + 1, m) == reached(j + 1, r)
            && (j + 1 < |q| ==> r < U32(q[j + 1].diff))
    decreases |q| - i
  {
    if i + 1 < |q| && m >= U32(q[i + 1].diff) {
      SpotKeeps(q, reached, i + 1, U32(m - q[i + 1].diff));
    }
  }

  /** The abstract insertion goes on from where the search stops. */
  lemma SpotInserts(q: seq<Sleeper>, p: nat, i: nat, m: nat)
    requires i < |q| && m < WORD
    ensures var (j, r) := Spot(q, i, m);
            && j < |q| && r < WORD && Reached(q, p, i + 1, m) == Reached(q, p, j + 1, r)
            && (j + 1 < |q| ==> r < U32(q[j + 1].diff))
  {
    forall j: nat, x: nat | j < |q| && x >= U32(q[j].diff)
      ensures Reached(q, p, j, x) == Reached(q, p, j + 1, U32(x - q[j].diff))
    {
      ReachedSkips(q, p, j, x);
    }
    SpotKeeps(q, (j: nat, x: nat) => Reached(q, p, j, x), i, m);
  }

  lemma WiresSleepLinks(t: seq<Pcb>, head: int, tail: int, sleepQ: int, k: Kernel)
    requires Wires(t, head, tail, sleepQ, k)
    ensures SleepLinks(t, k.asleep, sleepQ)
  {
    assert forall i :: 0 <= i < |k.asleep| ==> Slots(k.asleep)[i] == k.asleep[i].slot;
  }

  /** `sleep` in front of the head. */
  lemma SleepFirstWires(t: seq<Pcb>, head: int, tail: int, sleepQ: int, k: Kernel, p: nat, len: nat)
    requires Wires(t, head, tail, sleepQ, k) && p < MAX_PROC && 1 <= len
    requires p !in k.ready && p !in Slots(k.asleep)
    requires k.asleep != [] ==> len / MILLISECONDS_TICK < U32(k.asleep[0].diff)
    ensures var n := len / MILLISECONDS_TICK;
            Wires(PutToSleep(t, k.asleep, 0, p, I32(n), Shortened(k.asleep, 0, n)), head, tail, p, FallAsleep(k, p, len))
  {
    var n, q := len / MILLISECONDS_TICK, k.asleep;
    InsertShape(k, p, n);
    InsertStops(q, 0, p, n);
    assert q[..0] + Insert(q[0..], p, n) == Insert(q, p, n);
    SleepWires(t, head, tail, sleepQ, k, 0, p, I32(n), Shortened(q, 0, n));
  }

  /** `sleep` behind position `i`, where the search has stopped with `n` ticks left. */
  lemma SleepAfterWires(t: seq<Pcb>, head: int, tail: int, sleepQ: int, k: Kernel, p: nat, len: nat, i: nat, n: nat)
    requires Wires(t, head, tail, sleepQ, k) && p < MAX_PROC && 1 <= len
    requires p !in k.ready && p !in Slots(k.asleep) && i < |k.asleep|
    requires Insert(k.asleep, p, len / MILLISECONDS_TICK) == k.asleep[..i + 1] + Insert(k.asleep[i + 1..], p, n)
    requires i + 1 < |k.asleep| ==> n < U32(k.asleep[i + 1].diff)
    ensures Wires(PutToSleep(t, k.asleep, i + 1, p, I32(n), Shortened(k.asleep, i + 1, n)), head, tail, sleepQ, FallAsleep(k, p, len))
  {
    var q := k.asleep;
    InsertShape(k, p, len / MILLISECONDS_TICK);
    InsertStops(q, i + 1, p, n);
    SleepWires(t, head, tail, sleepQ, k, i + 1, p, I32(n), Shortened(q, i + 1, n));
  }

  // ---------------------------------------------------------------- the draining loop of tick

  lemma DrainInTable(q: seq<Sleeper>)
    requires InTable(q)
    ensures forall i :: 0 <= i < |Drain(q).0| ==> Drain(q).0[i] < MAX_PROC
  {
    DrainSlots(q);
    assert forall i :: 0 <= i < |Drain(q).0| ==> Drain(q).0[i] == Slots(q)[i];
  }

  /** What the loop has still to do. */
  ghost function DrainAll(k: Kernel): Kernel
    requires Sized(k) && InTable(k.asleep)
  {
    DrainInTable(k.asleep);
    WakeAll(k.(asleep := Drain(k.asleep).1), Drain(k.asleep).0)
  }

  /** One sleeper taken off, its `ret` cleared, and made ready. */
  function WakeFirst(k: Kernel): (r: Kernel)
    requires Sized(k) && InTable(k.asleep) && k.asleep != []
    ensures Sized(r)
  {
    var w := k.asleep[0].slot;
    MakeReady(WithRet(k.(asleep := k.asleep[1..]), w, 0), w)
  }

  lemma DrainTurn(k: Kernel)
    requires Sized(k) && InTable(k.asleep) && k.asleep != [] && k.asleep[0].diff == 0
    ensures DrainAll(k) == DrainAll(WakeFirst(k))
  {
    var q := k.asleep;
    DrainInTable(q[1..]);
    var (ws, rest) := Drain(q[1..]);
    assert ([q[0].slot] + ws)[1..] == ws;
  }

  // ---------------------------------------------------------------- ready() on a sleeper

  /** Afterwards the table represents no kernel state at all. */
  lemma CutIsUnrepresentable(t: seq<Pcb>, head: int, tail: int, sleepQ: int, k: Kernel, i: nat, head': int, tail': int, k': Kernel)
    requires Wires(t, head, tail, sleepQ, k) && i < |k.asleep| && tail < |t|
    ensures !Wires(Appended(t, tail, k.asleep[i].slot), head', tail', sleepQ, k')
  {
    var p := k.asleep[i].slot;
    var u, r := Appended(t, tail, p), Slots(k.asleep)[..i + 1];
    assert r[i] == p && u[p].proc.state == Ready;
    if Wires(u, head', tail', sleepQ, k') {
      ChainUnique(u, r, Slots(k'.asleep), sleepQ);
      assert false;
    }
  }
}
