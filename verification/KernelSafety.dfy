/** Every step of the dispatcher keeps the invariant of `KernelModel`. */
module KernelSafety {
  import opened Sequences
  import opened Machine
  import opened DeltaQueue
  import opened KernelModel
  import S = Signals

  // ---------------------------------------------------------------- the sleep queue as slots

  /** Inserting puts the new slot somewhere among the others and keeps their order. */
  lemma {:induction false} InsertSlotsAt(q: seq<Sleeper>, slot: nat, ticks: nat) returns (i: nat)
    ensures i <= |q|
    ensures Slots(Insert(q, slot, ticks)) == Slots(q)[..i] + [slot] + Slots(q)[i..]
  {
    if q == [] {
      i := 0;
    } else if ticks < U32(q[0].diff) {
      i := 0;
      assert Slots(Insert(q, slot, ticks)) == [slot] + Slots(q);
    } else {
      var r := Insert(q[1..], slot, U32(ticks - q[0].diff));
      var j := InsertSlotsAt(q[1..], slot, U32(ticks - q[0].diff));
      i := j + 1;
      assert q == [q[0]] + q[1..];
      SlotsCons(q[0], q[1..]);
      SlotsCons(q[0], r);
      InsertedBehind(q[0].slot, Slots(q[1..]), j, slot);
    }
  }

  lemma InsertedBehind(x: nat, s: seq<nat>, j: nat, y: nat)
    requires j <= |s|
    ensures [x] + (s[..j] + [y] + s[j..]) == ([x] + s)[..j + 1] + [y] + ([x] + s)[j + 1..]
  {
  }

  lemma InsertSlots(q: seq<Sleeper>, slot: nat, ticks: nat)
    requires NoDup(Slots(q)) && slot !in Slots(q)
    ensures NoDup(Slots(Insert(q, slot, ticks)))
    ensures forall y :: y in Slots(Insert(q, slot, ticks)) <==> y == slot || y in Slots(q)
  {
    var i := InsertSlotsAt(q, slot, ticks);
    var s := Slots(q);
    assert s == s[..i] + s[i..];
  }

  lemma {:induction false} RemoveSlots(q: seq<Sleeper>, slot: nat)
    ensures Slots(Remove(q, slot)) == Without(Slots(q), slot)
  {
    if q != [] {
      assert q == [q[0]] + q[1..];
      SlotsCons(q[0], q[1..]);
      assert Slots(q)[1..] == Slots(q[1..]);
      if q[0].slot != slot {
        RemoveSlots(q[1..], slot);
        SlotsCons(q[0], Remove(q[1..], slot));
      } else {
        RemoveFirstSlots(q);
      }
    }
  }

  lemma RemoveFirstSlots(q: seq<Sleeper>)
    requires q != []
    ensures Slots(Remove(q, q[0].slot)) == Slots(q[1..])
  {
  }

  /** Membership of a slot in the sleep queue, by index. */
  lemma SlotAt(q: seq<Sleeper>, s: nat)
    ensures s in Slots(q) <==> exists i :: 0 <= i < |q| && q[i].slot == s
  {
    if s in Slots(q) {
      var i :| 0 <= i < |q| && Slots(q)[i] == s;
    }
    if i :| 0 <= i < |q| && q[i].slot == s {
      assert Slots(q)[i] == s;
    }
  }

  // ---------------------------------------------------------------- operations

  lemma MakeReadyShape(k: Kernel, s: nat)
    requires Shape(k) && s < MAX_PROC && s !in k.ready && s !in Slots(k.asleep)
    ensures Shape(MakeReady(k, s))
  {
    SlotAt(k.asleep, s);
  }

  lemma MakeReadySettled(k: Kernel, s: nat)
    requires Settled(k) && s < MAX_PROC && s !in k.ready && s !in Slots(k.asleep)
    requires k.procs[s].pid % MAX_PROC == s
    ensures Settled(MakeReady(k, s))
  {
    MakeReadyShape(k, s);
  }

  lemma NextInv(k: Kernel)
    requires Settled(k)
    ensures Inv(Next(k))
  {
    if k.ready != [] {
      var r := k.ready[1..];
      assert forall i :: 0 <= i < |r| ==> r[i] == k.ready[i + 1];
      assert k.ready[0] !in r;
    }
  }

  lemma NotQueued(k: Kernel, s: nat)
    requires Shape(k) && s < MAX_PROC
    ensures k.procs[s].state != Ready ==> s !in k.ready
    ensures k.procs[s].state != Sleeping ==> s !in Slots(k.asleep)
  {
    SlotAt(k.asleep, s);
  }

  lemma FallAsleepSettled(k: Kernel, s: nat, len: nat)
    requires Inv(k) && k.cpu == Runs(s)
    ensures Settled(FallAsleep(k, s, len))
  {
    NotQueued(k, s);
    if len < 1 {
      MakeReadySettled(k, s);
    } else {
      var q := Insert(k.asleep, s, len / MILLISECONDS_TICK);
      InsertSlots(k.asleep, s, len / MILLISECONDS_TICK);
      forall i | 0 <= i < |q|
        ensures q[i].slot == s || q[i].slot in Slots(k.asleep)
      {
        assert Slots(q)[i] == q[i].slot;
      }
    }
  }

  /** What the draining loop of `tick` does: the woken join the ready queue in their order. */
  lemma {:induction false} WakeAllEffect(k: Kernel, ws: seq<nat>)
    requires Sized(k) && forall i :: 0 <= i < |ws| ==> ws[i] < MAX_PROC
    ensures WakeAll(k, ws).ready == k.ready + ws
    ensures WakeAll(k, ws).asleep == k.asleep && WakeAll(k, ws).cpu == k.cpu
    ensures forall s :: 0 <= s < MAX_PROC ==>
              && WakeAll(k, ws).procs[s].state == (if s in ws then Ready else k.procs[s].state)
              && WakeAll(k, ws).procs[s].pid == k.procs[s].pid
              && WakeAll(k, ws).procs[s].waitpid == k.procs[s].waitpid
    decreases ws
  {
    if ws != [] {
      var m := MakeReady(WithRet(k, ws[0], 0), ws[0]);
      WakeAllEffect(m, ws[1..]);
      assert ws == [ws[0]] + ws[1..];
      assert (k.ready + [ws[0]]) + ws[1..] == k.ready + ws;
    }
  }

  lemma NoDupConcat(s: seq<nat>, t: seq<nat>)
    requires NoDup(s) && NoDup(t) && forall x :: x in s ==> x !in t
    ensures NoDup(s + t)
  {
    forall i, j | 0 <= i < j < |s + t|
      ensures (s + t)[i] != (s + t)[j]
    {
      if i < |s| <= j {
        assert s[i] in s;
      }
    }
  }

  lemma WakeAllSettled(k: Kernel, ws: seq<nat>)
    requires Shape(k) && PidsInSlots(k) && NoDup(ws)
    requires forall i :: 0 <= i < |ws| ==>
               ws[i] < MAX_PROC && k.procs[ws[i]].state == Sleeping && ws[i] !in Slots(k.asleep)
    requires forall s :: 0 <= s < MAX_PROC && k.procs[s].state == Sleeping ==> s in Slots(k.asleep) || s in ws
    ensures Settled(WakeAll(k, ws))
  {
    WakeAllEffect(k, ws);
    NoDupConcat(k.ready, ws);
    forall i | 0 <= i < |k.asleep|
      ensures k.asleep[i].slot !in ws
    {
      assert Slots(k.asleep)[i] == k.asleep[i].slot;
    }
  }

  lemma TickSplit(q: seq<Sleeper>)
    requires NoDup(Slots(q))
    ensures NoDup(Tick(q).0) && NoDup(Slots(Tick(q).1))
    ensures forall s :: s in Slots(q) <==> s in Tick(q).0 || s in Slots(Tick(q).1)
    ensures forall s :: s in Tick(q).0 ==> s !in Slots(Tick(q).1)
  {
    TickSlots(q);
    var all, ws, rest := Slots(q), Tick(q).0, Slots(Tick(q).1);
    assert forall i :: 0 <= i < |ws| ==> ws[i] == all[i];
    assert forall i :: 0 <= i < |rest| ==> rest[i] == all[|ws| + i];
  }

  lemma TickSettled(k: Kernel)
    requires Settled(k)
    ensures Settled(TickAll(k))
    ensures TickAll(k).ready == k.ready + Tick(k.asleep).0
    ensures TickAll(k).asleep == Tick(k.asleep).1 && TickAll(k).cpu == k.cpu
    ensures forall s :: 0 <= s < MAX_PROC && k.procs[s].state != Sleeping ==> TickAll(k).procs[s].state == k.procs[s].state
  {
    TickSlots(k.asleep);
    TickSplit(k.asleep);
    var (ws, rest) := Tick(k.asleep);
    forall i | 0 <= i < |ws|
      ensures ws[i] < MAX_PROC && k.procs[ws[i]].state == Sleeping && ws[i] !in Slots(rest)
    {
      assert ws[i] in Slots(k.asleep);
      SlotAt(k.asleep, ws[i]);
    }
    forall i | 0 <= i < |rest|
      ensures rest[i].slot < MAX_PROC && k.procs[rest[i].slot].state == Sleeping
    {
      assert Slots(rest)[i] in Slots(k.asleep);
      SlotAt(k.asleep, rest[i].slot);
    }
    WakeAllEffect(k.(asleep := rest), ws);
    WakeAllSettled(k.(asleep := rest), ws);
    forall s | 0 <= s < MAX_PROC && k.procs[s].state != Sleeping
      ensures s !in ws
    {
    }
  }

  lemma RemovedShape(k: Kernel, t: nat)
    requires Shape(k)
    ensures Shape(k.(asleep := Remove(k.asleep, t)))
    ensures forall s :: s in Slots(Remove(k.asleep, t)) <==> s in Slots(k.asleep) && s != t
  {
    RemoveSlots(k.asleep, t);
    WithoutFacts(Slots(k.asleep), t);
    var q := Remove(k.asleep, t);
    forall i | 0 <= i < |q|
      ensures q[i].slot < MAX_PROC && k.procs[q[i].slot].state == Sleeping
    {
      assert Slots(q)[i] in Slots(k.asleep);
      SlotAt(k.asleep, q[i].slot);
    }
  }

  lemma UnblockInv(k: Kernel, t: nat)
    requires Inv(k) && t < MAX_PROC
    ensures Inv(Unblock(k, t))
  {
    NotQueued(k, t);
    if k.procs[t].state == Waiting {
      MakeReadySettled(WithRet(k, t, -666), t);
    } else if k.procs[t].state == Sleeping {
      RemovedShape(k, t);
      var m := WithRet(k, t, TimeLeft(k, t)).(asleep := Remove(k.asleep, t));
      assert Shape(m);
      MakeReadyShape(m, t);
    }
  }

  lemma UnreadyInv(k: Kernel, t: nat)
    requires Inv(k)
    ensures Inv(Unready(k, t))
  {
    WithoutFacts(k.ready, t);
    var r := Without(k.ready, t);
    forall i | 0 <= i < |r|
      ensures r[i] in k.ready
    {
      assert r[i] in r;
    }
  }

  lemma {:induction false} ReleaseInv(k: Kernel, pid: nat, n: nat)
    requires Inv(k) && n <= MAX_PROC
    ensures Inv(Release(k, pid, n))
    decreases n
  {
    if n > 0 {
      ReleaseInv(k, pid, n - 1);
      var m := Release(k, pid, n - 1);
      if m.procs[n - 1].state == Waiting {
        NotQueued(m, n - 1);
        MakeReadySettled(m, n - 1);
      }
    }
  }

  lemma ContextInv(k: Kernel, s: nat, ctx: S.Context)
    requires Inv(k) && s < MAX_PROC && S.Formed(ctx)
    ensures Inv(WithContext(k, s, ctx))
  {
  }

  lemma StruckInv(k: Kernel, t: nat, signum: nat)
    requires Inv(k) && t < MAX_PROC
    ensures Inv(Struck(k, t, signum))
  {
    UnblockInv(k, t);
    if signum == 31 {
      var u := Unblock(k, t);
      UnreadyInv(u, t);
      ReleaseInv(if u.procs[t].state == Ready then Unready(u, t) else u, u.procs[t].pid, |u.procs|);
    }
  }

  lemma KillInv(k: Kernel, pid: nat, signum: int)
    requires Inv(k)
    ensures Inv(Kill(k, pid, signum).0)
  {
    var t := FindSlot(k, pid);
    if 0 <= signum <= 31 && t < MAX_PROC && signum !in k.procs[t].ctx.mask {
      StruckInv(k, t, signum);
      var v := Struck(k, t, signum);
      ContextInv(v, t, S.Signal(v.procs[t].ctx, signum));
    }
  }

  lemma {:induction false} ProbeFinds(procs: seq<Proc>, nextpid: nat, steps: nat)
    requires |procs| == MAX_PROC && nextpid < WORD
    ensures var (pid, found) := Probe(procs, nextpid, steps);
            pid < WORD && (found ==> procs[pid % MAX_PROC].state == Stopped)
    decreases steps
  {
    if steps > 0 {
      ProbeFinds(procs, U32(nextpid + 1), steps - 1);
    }
  }

  lemma SpawnInv(k: Kernel, pid: nat, frame: nat)
    requires Inv(k) && pid < WORD && k.procs[pid % MAX_PROC].state == Stopped
    ensures Inv(Spawn(k, pid, frame))
  {
    var s := pid % MAX_PROC;
    NotQueued(k, s);
    var p := k.procs[s].(pid := pid, ctx := k.procs[s].ctx.(esp := frame));
    MakeReadySettled(k.(nextpid := pid, procs := k.procs[s := p]), s);
  }

  lemma CreateInv(k: Kernel, frame: nat)
    requires Inv(k)
    ensures Inv(Create(k, frame).0)
  {
    ProbeFinds(k.procs, k.nextpid, |k.procs|);
    var (pid, found) := Probe(k.procs, k.nextpid, |k.procs|);
    if found && frame != 0 {
      SpawnInv(k, pid, frame);
    }
  }

  lemma RetInv(k: Kernel, s: nat, ret: int)
    requires Inv(k) && s < MAX_PROC
    ensures Inv(WithRet(k, s, ret))
  {
  }

  lemma TickKeepsRunner(k: Kernel, p: nat)
    requires Inv(k) && k.cpu == Runs(p)
    ensures Settled(TickAll(k))
    ensures TickAll(k).ready == k.ready + Tick(k.asleep).0 && TickAll(k).asleep == Tick(k.asleep).1
    ensures TickAll(k).procs[p].state == Ready
    ensures p !in TickAll(k).ready && p !in Slots(TickAll(k).asleep)
  {
    TickSettled(k);
    NotQueued(k, p);
    TickSplit(k.asleep);
    assert p !in Tick(k.asleep).0;
    NotQueued(TickAll(k), p);
  }

  lemma TimerSettled(k: Kernel, p: nat)
    requires Inv(k) && k.cpu == Runs(p)
    ensures Settled(Serve(k, p, SysTimer))
    ensures Serve(k, p, SysTimer).ready == k.ready + Tick(k.asleep).0 + [p]
    ensures Serve(k, p, SysTimer).asleep == Tick(k.asleep).1
  {
    TickKeepsRunner(k, p);
    MakeReadySettled(Charge(TickAll(k), p), p);
  }

  lemma RescheduleSettled(k: Kernel, p: nat, e: Request)
    requires Inv(k) && k.cpu == Runs(p) && Reschedules(k, e)
    ensures Settled(Serve(k, p, e))
  {
    match e
    case SysYield =>
      NotQueued(k, p);
      MakeReadySettled(k, p);
    case SysStop =>
    case SysSleep(len) => FallAsleepSettled(k, p, len);
    case SysTimer => TimerSettled(k, p);
    case SysWait(pid) =>
  }

  lemma ServeInv(k: Kernel, p: nat, e: Request)
    requires Inv(k) && k.cpu == Runs(p) && !Reschedules(k, e)
    ensures Inv(Serve(k, p, e))
  {
    match e
    case SysCreate(frame) =>
      CreateInv(k, frame);
      RetInv(Create(k, frame).0, p, Create(k, frame).1);
    case SysKill(pid, signum) =>
      KillInv(k, pid, signum);
      RetInv(Kill(k, pid, signum).0, p, Kill(k, pid, signum).1);
    case SysWait(pid) => RetInv(k, p, -1);
    case SysSigHandler(number, handler, inRange) =>
      ContextInv(k, p, S.Register(k.procs[p].ctx, number, handler, inRange));
    case SysSigReturn(saved) =>
      ContextInv(k, p, S.SigReturn(k.procs[p].ctx, saved));
  }

  /**
   Every turn of the dispatcher keeps the invariant: no process is on two queues or twice on one,
   queue members carry the state of their queue, and the running process is on neither.
   */
  lemma TurnInv(k: Kernel, p: nat, e: Request)
    requires Inv(k) && k.cpu == Runs(p)
    ensures Inv(Turn(k, p, e))
  {
    if Reschedules(k, e) {
      RescheduleSettled(k, p, e);
      NextInv(Serve(k, p, e));
    } else {
      ServeInv(k, p, e);
    }
  }

  /** A kernel with nobody running makes no more steps. */
  function Step(k: Kernel, e: Request): (r: Kernel)
    requires Inv(k)
    ensures Inv(r)
  {
    if k.cpu.Nobody? then k
    else
      TurnInv(k, k.cpu.slot, e);
      Turn(k, k.cpu.slot, e)
  }

  /** The state after a run. */
  function Run(k: Kernel, es: seq<Request>): (r: Kernel)
    requires Inv(k)
    ensures Inv(r)
    decreases es
  {
    if es == [] then k else Run(Step(k, es[0]), es[1..])
  }
}
