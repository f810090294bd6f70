/** Pid allocation: the probe of `create` (c/create.c) and the lookup of `findPCB` (c/disp.c). */
module Pids {
  import opened Machine
  import opened KernelModel
  import opened KernelSafety

  /** 64 divides 2^32, so wrapping the counter does not disturb the residue. */
  lemma WrapKeepsResidue(x: nat)
    ensures U32(x) % MAX_PROC == x % MAX_PROC
  {
    var k := U32Turns(x);
    SameResidue(U32(x), 0x400_0000 * k);
  }

  lemma SameResidue(r: int, q: int)
    ensures (r + MAX_PROC * q) % MAX_PROC == r % MAX_PROC
  {
  }

  /** The slot that step `d` of the probe looks at. */
  function Visited(nextpid: nat, d: nat): (s: nat)
    ensures s < MAX_PROC
  {
    (nextpid + d) % MAX_PROC
  }

  /** A probe that finds nothing has seen no free slot. */
  lemma {:induction false} ProbeMisses(procs: seq<Proc>, nextpid: nat, steps: nat, d: nat)
    requires |procs| == MAX_PROC && !Probe(procs, nextpid, steps).1 && 0 < d <= steps
    ensures procs[Visited(nextpid, d)].state != Stopped
    decreases steps
  {
    if d == 1 {
      WrapKeepsResidue(nextpid + 1);
    } else {
      ProbeMisses(procs, U32(nextpid + 1), steps - 1, d - 1);
      ShiftVisited(nextpid, d - 1);
    }
  }

  lemma ShiftVisited(nextpid: nat, i: nat)
    ensures Visited(U32(nextpid + 1), i) == Visited(nextpid, i + 1)
  {
    WrapKeepsResidue(nextpid + 1);
  }

  /** From any starting counter the 64 steps visit every slot, each exactly once. */
  lemma ProbeVisitsEverySlotOnce(nextpid: nat, s: nat) returns (d: nat)
    requires s < MAX_PROC
    ensures 1 <= d <= MAX_PROC && Visited(nextpid, d) == s
    ensures forall e :: 1 <= e <= MAX_PROC && Visited(nextpid, e) == s ==> e == d
  {
    d := (s + 2 * MAX_PROC - 1 - nextpid % MAX_PROC) % MAX_PROC + 1;
    var r := nextpid % MAX_PROC;
    assert nextpid == MAX_PROC * (nextpid / MAX_PROC) + r;
    assert forall e: nat :: Visited(nextpid, e) == (r + e) % MAX_PROC;
  }

  /** Step `d` of the probe is the first to meet a free slot. */
  ghost predicate FirstFreeAt(k: Kernel, d: nat) {
    && |k.procs| == MAX_PROC
    && 1 <= d <= MAX_PROC
    && k.procs[Visited(k.nextpid, d)].state == Stopped
    && forall e :: 1 <= e < d ==> k.procs[Visited(k.nextpid, e)].state != Stopped
  }

  lemma FirstFreeUnique(k: Kernel, d: nat)
    requires FirstFreeAt(k, d)
    ensures forall e: nat :: FirstFreeAt(k, e) ==> e == d
  {
    forall e: nat | FirstFreeAt(k, e)
      ensures e == d
    {
      assert !(e < d) && !(d < e);
    }
  }

  lemma WrapAdds(x: nat, d: nat)
    requires x < WORD && d < MAX_PROC
    ensures U32(U32(x + 1) + d) == U32(x + 1 + d)
  {
  }

  lemma {:induction false} ProbeStopsAt(procs: seq<Proc>, nextpid: nat, steps: nat, d: nat)
    requires |procs| == MAX_PROC && nextpid < WORD && 1 <= d <= steps <= MAX_PROC
    requires procs[Visited(nextpid, d)].state == Stopped
    requires forall e :: 1 <= e < d ==> procs[Visited(nextpid, e)].state != Stopped
    ensures Probe(procs, nextpid, steps) == (U32(nextpid + d), true)
    decreases steps
  {
    var next := U32(nextpid + 1);
    ShiftVisited(nextpid, 0);
    if d > 1 {
      assert procs[Visited(nextpid, 1)].state != Stopped;
      forall e | 1 <= e <= d - 1
        ensures Visited(next, e) == Visited(nextpid, e + 1)
      {
        ShiftVisited(nextpid, e);
      }
      ProbeStopsAt(procs, next, steps - 1, d - 1);
      WrapAdds(nextpid, d - 1);
    }
  }

  lemma {:induction false} ProbeFails(procs: seq<Proc>, nextpid: nat, steps: nat)
    requires |procs| == MAX_PROC && nextpid < WORD && steps <= MAX_PROC
    requires forall s :: 0 <= s < MAX_PROC ==> procs[s].state != Stopped
    ensures Probe(procs, nextpid, steps) == (U32(nextpid + steps), false)
    decreases steps
  {
    if steps > 0 {
      ProbeFails(procs, U32(nextpid + 1), steps - 1);
      WrapAdds(nextpid, steps - 1);
    }
  }

  /** Some step of the probe meets a free slot when there is one. */
  lemma FirstFreeExists(k: Kernel, s: nat) returns (d: nat)
    requires |k.procs| == MAX_PROC && s < MAX_PROC && k.procs[s].state == Stopped
    ensures FirstFreeAt(k, d)
  {
    var last := ProbeVisitsEverySlotOnce(k.nextpid, s);
    d := 1;
    while k.procs[Visited(k.nextpid, d)].state != Stopped
      invariant 1 <= d <= last
      invariant forall e :: 1 <= e < d ==> k.procs[Visited(k.nextpid, e)].state != Stopped
      decreases last - d
    {
      d := d + 1;
    }
  }

  /**
   `create` makes a process exactly when some slot is STOPPED and the stack was allocated, and it
   takes such a slot.  It returns CREATE_FAILURE exactly when it made none or the new pid is 2^32 - 1.
   */
  lemma CreateSucceedsIff(k: Kernel, frame: nat)
    requires Inv(k)
    ensures var (m, ret) := Create(k, frame);
            var made := frame != 0 && exists s :: 0 <= s < MAX_PROC && k.procs[s].state == Stopped;
            && (made ==> exists s :: 0 <= s < MAX_PROC && k.procs[s].state == Stopped
                                  && m.procs[s].state == Ready && m.procs[s].pid == m.nextpid
                                  && m.nextpid % MAX_PROC == s && m.ready == k.ready + [s])
            && (!made ==> m.procs == k.procs && m.ready == k.ready)
            && (ret == -1 <==> !made || m.nextpid == WORD - 1)
  {
    ProbeFinds(k.procs, k.nextpid, |k.procs|);
    var (pid, found) := Probe(k.procs, k.nextpid, |k.procs|);
    if !found {
      forall s | 0 <= s < MAX_PROC
        ensures k.procs[s].state != Stopped
      {
        var e := ProbeVisitsEverySlotOnce(k.nextpid, s);
        ProbeMisses(k.procs, k.nextpid, |k.procs|, e);
      }
    }
  }

  /** Live processes have distinct pids. */
  lemma LivePidsDistinct(k: Kernel, i: nat, j: nat)
    requires Inv(k) && i < j < MAX_PROC
    requires k.procs[i].state != Stopped && k.procs[j].state != Stopped
    ensures k.procs[i].pid != k.procs[j].pid
  {
    assert k.procs[i].pid % MAX_PROC == i;
  }

  /** For q != 0 the linear scan of `findPCB` equals one test of slot q mod 64. */
  lemma FindIsOneTest(k: Kernel, q: nat)
    requires Inv(k) && q != 0
    ensures FindSlot(k, q) == if k.procs[q % MAX_PROC].pid == q then q % MAX_PROC else MAX_PROC
  {
    var r := FindSlot(k, q);
    if r < MAX_PROC {
      assert k.procs[r].pid % MAX_PROC == r;
    }
  }
}
