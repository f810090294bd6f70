/**
 The dispatcher of c/disp.c as a state machine on values: process table, ready queue, sleep
 queue, running process and pid counter.  Each case of the switch in `dispatch` is one step.
 Processes are named by their slot in `proctab`.
 */
module KernelModel {
  import opened Sequences
  import opened Machine
  import opened DeltaQueue
  import opened SleepTiming
  import S = Signals

  const MAX_PROC := 64

  /** STATE_RUNNING is only ever reported, never stored (c/disp.c:406): the running process is `Ready`. */
  datatype Status = Stopped | Ready | Waiting | Sleeping

  datatype Proc = Proc(state: Status, pid: nat, waitpid: nat, cpuTime: nat, ctx: S.Context)

  /** `Nobody`: before the first `next`, and in its endless loop on an empty ready queue (c/disp.c:232-236). */
  datatype Cpu = Runs(slot: nat) | Nobody

  datatype Kernel = Kernel(procs: seq<Proc>, ready: seq<nat>, asleep: seq<Sleeper>, cpu: Cpu, nextpid: nat)

  // ---------------------------------------------------------------- queue operations

  ghost predicate Sized(k: Kernel) {
    && |k.procs| == MAX_PROC
    && k.nextpid < WORD
    && forall i :: 0 <= i < MAX_PROC ==> S.Formed(k.procs[i].ctx)
  }

  function WithProc(k: Kernel, s: nat, proc: Proc): (r: Kernel)
    requires Sized(k) && s < MAX_PROC && S.Formed(proc.ctx)
    ensures Sized(r)
  {
    k.(procs := k.procs[s := proc])
  }

  function WithState(k: Kernel, s: nat, state: Status): (r: Kernel)
    requires Sized(k) && s < MAX_PROC
    ensures Sized(r)
  {
    WithProc(k, s, k.procs[s].(state := state))
  }

  function WithContext(k: Kernel, s: nat, ctx: S.Context): (r: Kernel)
    requires Sized(k) && s < MAX_PROC && S.Formed(ctx)
    ensures Sized(r)
  {
    WithProc(k, s, k.procs[s].(ctx := ctx))
  }

  function WithRet(k: Kernel, s: nat, ret: int): (r: Kernel)
    requires Sized(k) && s < MAX_PROC
    ensures Sized(r)
  {
    WithContext(k, s, k.procs[s].ctx.(ret := ret))
  }

  /** `ready`, c/disp.c:205-218. */
  function MakeReady(k: Kernel, s: nat): (r: Kernel)
    requires Sized(k) && s < MAX_PROC
    ensures Sized(r)
  {
    WithState(k, s, Ready).(ready := k.ready + [s])
  }

  /** `next`, c/disp.c:220-242. */
  function Next(k: Kernel): Kernel {
    if k.ready == [] then k.(cpu := Nobody) else k.(cpu := Runs(k.ready[0]), ready := k.ready[1..])
  }

  /** `removeFromReady`, c/disp.c:266-308. */
  function Unready(k: Kernel, s: nat): Kernel {
    k.(ready := Without(k.ready, s))
  }

  /** `sleep`, c/sleep.c:33-84. */
  function FallAsleep(k: Kernel, s: nat, len: nat): (r: Kernel)
    requires Sized(k) && s < MAX_PROC
    ensures Sized(r)
  {
    if len < 1 then MakeReady(k, s)
    else WithState(k, s, Sleeping).(asleep := Insert(k.asleep, s, len / MILLISECONDS_TICK))
  }

  /** The body of the draining loop for each process it takes off the sleep queue, c/sleep.c:152-156. */
  function WakeAll(k: Kernel, slots: seq<nat>): (r: Kernel)
    requires Sized(k) && forall i :: 0 <= i < |slots| ==> slots[i] < MAX_PROC
    ensures Sized(r)
    decreases slots
  {
    if slots == [] then k
    else WakeAll(MakeReady(WithRet(k, slots[0], 0), slots[0]), slots[1..])
  }

  ghost predicate InTable(q: seq<Sleeper>) {
    forall i :: 0 <= i < |q| ==> q[i].slot < MAX_PROC
  }

  lemma SlotsCons(x: Sleeper, q: seq<Sleeper>)
    ensures Slots([x] + q) == [x.slot] + Slots(q)
  {
  }

  lemma {:induction false} DrainSlots(q: seq<Sleeper>)
    ensures Slots(q) == Drain(q).0 + Slots(Drain(q).1)
  {
    if q != [] && q[0].diff == 0 {
      var r := q[1..];
      DrainSlots(r);
      SlotsCons(q[0], r);
      assert q == [q[0]] + r;
      ConsConcat(q[0].slot, Drain(r).0, Slots(Drain(r).1));
    }
  }

  lemma TickSlots(q: seq<Sleeper>)
    ensures Slots(q) == Tick(q).0 + Slots(Tick(q).1)
    ensures InTable(q) ==> forall i :: 0 <= i < |Tick(q).0| ==> Tick(q).0[i] < MAX_PROC
  {
    if q != [] {
      var p := [q[0].(diff := I32(q[0].diff - 1))] + q[1..];
      assert Slots(p) == Slots(q);
      DrainSlots(p);
    }
    assert InTable(q) ==> forall i :: 0 <= i < |Tick(q).0| ==> Tick(q).0[i] == Slots(q)[i];
  }

  /** `tick`, c/sleep.c:139-158. */
  function TickAll(k: Kernel): (r: Kernel)
    requires Sized(k) && InTable(k.asleep)
    ensures Sized(r)
  {
    TickSlots(k.asleep);
    WakeAll(k.(asleep := Tick(k.asleep).1), Tick(k.asleep).0)
  }

  /** c/disp.c:89. */
  function Charge(k: Kernel, s: nat): (r: Kernel)
    requires Sized(k) && s < MAX_PROC
    ensures Sized(r)
  {
    WithProc(k, s, k.procs[s].(cpuTime := k.procs[s].cpuTime + 1))
  }

  // ---------------------------------------------------------------- pids

  /** The first position that holds `pid`, |procs| if none does. */
  function FirstWith(procs: seq<Proc>, pid: nat): (r: nat)
    ensures r <= |procs|
    ensures r < |procs| ==> procs[r].pid == pid
    ensures forall j :: 0 <= j < r ==> procs[j].pid != pid
  {
    if procs == [] || procs[0].pid == pid then 0 else 1 + FirstWith(procs[1..], pid)
  }

  /** `findPCB`, c/disp.c:244-256; MAX_PROC stands for NULL. */
  function FindSlot(k: Kernel, pid: nat): (r: nat)
    ensures r <= |k.procs|
    ensures r < |k.procs| ==> k.procs[r].pid == pid
    ensures r == |k.procs| <==> forall j :: 0 <= j < |k.procs| ==> k.procs[j].pid != pid
  {
    FirstWith(k.procs, pid)
  }

  /**
   The probe of c/create.c:38-45: the value of nextpid when it stops, and whether it stopped at
   a free slot.
   */
  function Probe(procs: seq<Proc>, nextpid: nat, steps: nat): (nat, bool)
    requires |procs| == MAX_PROC
    decreases steps
  {
    if steps == 0 then (nextpid, false)
    else
      var pid := U32(nextpid + 1);
      if procs[pid % MAX_PROC].state == Stopped then (pid, true) else Probe(procs, pid, steps - 1)
  }

  lemma {:induction false} ProbeRange(procs: seq<Proc>, nextpid: nat, steps: nat)
    requires |procs| == MAX_PROC && nextpid < WORD
    ensures Probe(procs, nextpid, steps).0 < WORD
    decreases steps
  {
    if steps > 0 {
      ProbeRange(procs, U32(nextpid + 1), steps - 1);
    }
  }

  /** c/create.c:77-89: the free slot of `pid` becomes a ready process with stack pointer `frame`. */
  function Spawn(k: Kernel, pid: nat, frame: nat): (r: Kernel)
    requires Sized(k) && pid < WORD
    ensures Sized(r)
  {
    var s := pid % MAX_PROC;
    var p := k.procs[s].(pid := pid, ctx := k.procs[s].ctx.(esp := frame));
    MakeReady(WithProc(k.(nextpid := pid), s, p), s)
  }

  /** `create`, c/create.c:15-92; `frame` is the new stack pointer, 0 when `kmalloc` failed. */
  function Create(k: Kernel, frame: nat): (r: (Kernel, int))
    requires Sized(k)
    ensures Sized(r.0)
  {
    ProbeRange(k.procs, k.nextpid, |k.procs|);
    var (pid, found) := Probe(k.procs, k.nextpid, |k.procs|);
    if !found || frame == 0 then (k.(nextpid := pid), -1) else (Spawn(k, pid, frame), I32(pid))
  }

  // ---------------------------------------------------------------- kill

  /** One turn of the loop of c/disp.c:354-360. */
  function ReleaseSlot(k: Kernel, pid: nat, s: nat): (r: Kernel)
    requires Sized(k) && s < MAX_PROC
    ensures Sized(r)
  {
    if k.procs[s].state == Waiting && k.procs[s].waitpid == pid then
      var w := MakeReady(k, s);
      WithProc(w, s, w.procs[s].(waitpid := 0))
    else k
  }

  /** The loop for the slots below `n`: every process waiting for `pid` becomes ready. */
  function Release(k: Kernel, pid: nat, n: nat): (r: Kernel)
    requires Sized(k) && n <= MAX_PROC
    ensures Sized(r)
    decreases n
  {
    if n == 0 then k else ReleaseSlot(Release(k, pid, n - 1), pid, n - 1)
  }

  /** Position of a slot on the sleep queue; its length when absent. */
  function Position(q: seq<Sleeper>, s: nat): (i: nat)
    ensures i <= |q|
    ensures i < |q| ==> q[i].slot == s
    ensures i == |q| <==> s !in Slots(q)
  {
    if q == [] then 0
    else if q[0].slot == s then assert Slots(q)[0] == s; 0
    else
      assert q == [q[0]] + q[1..];
      SlotsCons(q[0], q[1..]);
      1 + Position(q[1..], s)
  }

  /** The value `kill` leaves in `ret` of a sleeping target. */
  function TimeLeft(k: Kernel, s: nat): int {
    var i := Position(k.asleep, s);
    if i < |k.asleep| then KillInSleep(k.asleep, i) else 0
  }

  /**
   c/disp.c:337-345: a blocked target becomes ready.  A sleeping target is taken off the sleep
   queue first; the source omits that call (c/disp.c:342-345).
   */
  function Unblock(k: Kernel, t: nat): (r: Kernel)
    requires Sized(k) && t < MAX_PROC
    ensures Sized(r)
  {
    if k.procs[t].state == Waiting then MakeReady(WithRet(k, t, -666), t)
    else if k.procs[t].state == Sleeping then
      MakeReady(WithRet(k, t, TimeLeft(k, t)).(asleep := Remove(k.asleep, t)), t)
    else k
  }

  /** c/disp.c:348-361. */
  function Terminate(k: Kernel, t: nat): (r: Kernel)
    requires Sized(k) && t < MAX_PROC
    ensures Sized(r)
  {
    Release(if k.procs[t].state == Ready then Unready(k, t) else k, k.procs[t].pid, |k.procs|)
  }

  /** c/disp.c:337-361: everything `kill` does before it calls `signal`. */
  function Struck(k: Kernel, t: nat, signum: nat): (r: Kernel)
    requires Sized(k) && t < MAX_PROC
    ensures Sized(r)
  {
    if signum == 31 then Terminate(Unblock(k, t), t) else Unblock(k, t)
  }

  /** `kill`, c/disp.c:321-364. */
  function Kill(k: Kernel, pid: nat, signum: int): (r: (Kernel, int))
    requires Sized(k)
    ensures Sized(r.0)
  {
    if signum < 0 || signum > 31 then (k, -1)
    else
      var t := FindSlot(k, pid);
      if t == MAX_PROC then (k, -999)
      else if signum in k.procs[t].ctx.mask then (k, 0)
      else
        var v := Struck(k, t, signum);
        (WithContext(v, t, S.Signal(v.procs[t].ctx, signum)), 0)
  }

  // ---------------------------------------------------------------- the switch of dispatch

  datatype Request =
    | SysCreate(frame: nat)
    | SysYield
    | SysStop
    | SysKill(pid: nat, signum: int)
    | SysSleep(len: nat)
    | SysTimer
    | SysWait(pid: nat)
    | SysSigHandler(number: int, handler: nat, inRange: bool)
    | SysSigReturn(saved: S.Frame)

  /** c/disp.c:86-90. */
  function Preempt(k: Kernel, p: nat): (r: Kernel)
    requires Sized(k) && InTable(k.asleep) && p < MAX_PROC
    ensures Sized(r)
  {
    MakeReady(Charge(TickAll(k), p), p)
  }

  /** c/disp.c:138-140. */
  function Block(k: Kernel, p: nat, pid: nat): (r: Kernel)
    requires Sized(k) && p < MAX_PROC
    ensures Sized(r)
  {
    var m := WithRet(WithState(k, p, Waiting), p, 0);
    WithProc(m, p, m.procs[p].(waitpid := pid))
  }

  /** The case of c/disp.c:46-144 for `e`, made by process `p`, up to but not including its call of `next`. */
  function Serve(k: Kernel, p: nat, e: Request): (r: Kernel)
    requires Sized(k) && InTable(k.asleep) && p < MAX_PROC
    ensures Sized(r)
  {
    match e
    case SysCreate(frame) => var (m, ret) := Create(k, frame); WithRet(m, p, ret)
    case SysYield => MakeReady(k, p)
    case SysStop => WithState(k, p, Stopped)
    case SysKill(pid, signum) => var (m, ret) := Kill(k, pid, signum); WithRet(m, p, ret)
    case SysSleep(len) => FallAsleep(k, p, len)
    case SysTimer => Preempt(k, p)
    case SysWait(pid) =>
      if pid == 0 || FindSlot(k, pid) == MAX_PROC then WithRet(k, p, -1)
      else Block(k, p, pid)
    case SysSigHandler(number, handler, inRange) =>
      WithContext(k, p, S.Register(k.procs[p].ctx, number, handler, inRange))
    case SysSigReturn(saved) => WithContext(k, p, S.SigReturn(k.procs[p].ctx, saved))
  }

  /** Whether the case ends with `p = next()`. */
  predicate Reschedules(k: Kernel, e: Request) {
    match e
    case SysYield => true
    case SysStop => true
    case SysSleep(_) => true
    case SysTimer => true
    case SysWait(pid) => pid != 0 && FindSlot(k, pid) != |k.procs|
    case _ => false
  }

  /** One turn of the loop of c/disp.c:42-190. */
  function Turn(k: Kernel, p: nat, e: Request): (r: Kernel)
    requires Sized(k) && InTable(k.asleep) && p < MAX_PROC
    ensures Sized(r)
  {
    if Reschedules(k, e) then Next(Serve(k, p, e)) else Serve(k, p, e)
  }

  // ---------------------------------------------------------------- the invariant

  /** The two queues are duplicate-free and their members carry the state of their queue. */
  ghost predicate Shape(k: Kernel) {
    && Sized(k)
    && NoDup(k.ready)
    && NoDup(Slots(k.asleep))
    && (forall i :: 0 <= i < |k.ready| ==> k.ready[i] < MAX_PROC && k.procs[k.ready[i]].state == Ready)
    && (forall i :: 0 <= i < |k.asleep| ==> k.asleep[i].slot < MAX_PROC && k.procs[k.asleep[i].slot].state == Sleeping)
  }

  /** Every slot holds 0 or a pid of its own residue, and a live slot holds the latter. */
  ghost predicate PidsInSlots(k: Kernel) {
    && |k.procs| == MAX_PROC
    && forall i :: 0 <= i < MAX_PROC ==>
         && k.procs[i].pid < WORD
         && (k.procs[i].pid == 0 || k.procs[i].pid % MAX_PROC == i)
         && (k.procs[i].state != Stopped ==> k.procs[i].pid % MAX_PROC == i)
  }

  /** Every sleeping process is on the sleep queue. */
  ghost predicate SleepersQueued(k: Kernel) {
    |k.procs| == MAX_PROC && forall s :: 0 <= s < MAX_PROC && k.procs[s].state == Sleeping ==> s in Slots(k.asleep)
  }

  /** Both queues and the pids are in order, and every sleeping process is on the sleep queue. */
  ghost predicate Settled(k: Kernel) {
    && Shape(k)
    && PidsInSlots(k)
    && SleepersQueued(k)
  }

  /** Additionally, the running process is in state `Ready` and on neither queue. */
  ghost predicate Inv(k: Kernel) {
    && Settled(k)
    && (k.cpu.Runs? ==> k.cpu.slot < MAX_PROC && k.procs[k.cpu.slot].state == Ready && k.cpu.slot !in k.ready)
  }
}
