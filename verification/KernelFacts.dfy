/** Which processes signal 31 loses, whom it releases, and the state the kernel boots into. */
module KernelFacts {
  import opened Sequences
  import opened Machine
  import opened DeltaQueue
  import opened KernelModel
  import opened KernelSafety
  import opened KernelProgress
  import S = Signals

  // ---------------------------------------------------------------- READY means queued or running

  predicate AtLarge(k: Kernel, s: nat) {
    s in k.ready || k.cpu == Runs(s)
  }

  /** Every process in state READY is running or on the ready queue. */
  ghost predicate Accounted(k: Kernel) {
    && |k.procs| == MAX_PROC
    && forall s :: 0 <= s < MAX_PROC && k.procs[s].state == Ready ==> AtLarge(k, s)
  }

  /** A signal 31 that takes a live process, other than the one running, off the ready queue. */
  predicate Loses(k: Kernel, e: Request, s: nat)
    requires |k.procs| == MAX_PROC
  {
    Evicts(k, e, s) && k.procs[s].state != Stopped && k.cpu != Runs(s)
  }

  lemma {:induction false} WaitersMembers(procs: seq<Proc>, pid: nat, n: nat, j: nat)
    requires n <= |procs|
    ensures j in Waiters(procs, pid, n) <==> j < n && procs[j].state == Waiting && procs[j].waitpid == pid
  {
    if n > 0 {
      WaitersMembers(procs, pid, n - 1, j);
    }
  }

  /** Who is on the ready queue after a `kill` that strikes `t`. */
  lemma KillReady(k: Kernel, pid: nat, signum: int, t: nat, s: nat)
    requires Inv(k) && Strikes(k, SysKill(pid, signum), t) && s < MAX_PROC
    ensures s in Kill(k, pid, signum).0.ready <==>
            if s == t then signum != 31 && (t in k.ready || k.procs[t].state in {Waiting, Sleeping})
            else s in k.ready || Releases(k, pid, signum, s)
  {
    KillEffect(k, pid, signum, t);
    NotQueued(k, t);
    var u := Unblock(k, t);
    if signum == 31 {
      UnblockInv(k, t);
      WithoutFacts(u.ready, t);
      NotQueued(u, t);
      WaitersMembers(u.procs, pid, |u.procs|, s);
    }
  }

  lemma KillAccounted(k: Kernel, p: nat, pid: nat, signum: int, s: nat)
    requires Inv(k) && k.cpu == Runs(p) && Accounted(k) && s < MAX_PROC
    requires Kill(k, pid, signum).0.procs[s].state == Ready
    ensures s in Kill(k, pid, signum).0.ready <==> !Loses(k, SysKill(pid, signum), s) && s != p
  {
    NotQueued(k, s);
    var t := FindSlot(k, pid);
    if Strikes(k, SysKill(pid, signum), t) {
      KillEffect(k, pid, signum, t);
      KillReady(k, pid, signum, t, s);
    }
  }

  lemma CreateAccounted(k: Kernel, p: nat, frame: nat, s: nat)
    requires Inv(k) && k.cpu == Runs(p) && Accounted(k) && s < MAX_PROC
    requires Create(k, frame).0.procs[s].state == Ready
    ensures s in Create(k, frame).0.ready <==> s != p
  {
    ProbeFinds(k.procs, k.nextpid, |k.procs|);
  }

  /** One process and one request: READY processes stay accounted for unless signal 31 loses them. */
  lemma ServeAccounted(k: Kernel, p: nat, e: Request, s: nat)
    requires Inv(k) && k.cpu == Runs(p) && Accounted(k) && s < MAX_PROC
    requires Serve(k, p, e).procs[s].state == Ready
    ensures s in Serve(k, p, e).ready <==> !Loses(k, e, s) && (s != p || Reschedules(k, e))
  {
    match e
    case SysCreate(frame) => CreateAccounted(k, p, frame, s);
    case SysKill(pid, signum) => KillAccounted(k, p, pid, signum, s);
    case SysTimer => TimerAccounted(k, p, s);
    case SysYield =>
    case SysSleep(len) =>
    case _ =>
  }

  lemma TimerAccounted(k: Kernel, p: nat, s: nat)
    requires Inv(k) && k.cpu == Runs(p) && Accounted(k) && s < MAX_PROC
    requires Serve(k, p, SysTimer).procs[s].state == Ready
    ensures s in Serve(k, p, SysTimer).ready
  {
    TimerSettled(k, p);
    TimerEffect(k, p, s);
  }

  lemma NextAtLarge(k: Kernel, s: nat)
    ensures AtLarge(Next(k), s) <==> s in k.ready
  {
    if k.ready != [] {
      assert k.ready == [k.ready[0]] + k.ready[1..];
    }
  }

  lemma SlotAccountedIff(k: Kernel, e: Request, s: nat)
    requires Inv(k) && k.cpu.Runs? && Accounted(k) && s < MAX_PROC
    ensures Step(k, e).procs[s].state == Ready ==> (AtLarge(Step(k, e), s) <==> !Loses(k, e, s))
    ensures Loses(k, e, s) ==> Step(k, e).procs[s].state == Ready
  {
    var p := k.cpu.slot;
    var m := Serve(k, p, e);
    ServeKeepsCpu(k, p, e);
    if Loses(k, e, s) {
      KillEffect(k, e.pid, e.signum, s);
    }
    if m.procs[s].state == Ready {
      ServeAccounted(k, p, e, s);
      NextAtLarge(m, s);
    }
  }

  /** A step keeps every READY process accounted for exactly when it is not a signal 31 that loses one. */
  lemma StepAccountedIff(k: Kernel, e: Request)
    requires Inv(k) && k.cpu.Runs? && Accounted(k)
    ensures Accounted(Step(k, e)) <==> forall s :: 0 <= s < MAX_PROC ==> !Loses(k, e, s)
  {
    forall s | 0 <= s < MAX_PROC
      ensures Step(k, e).procs[s].state == Ready ==> (AtLarge(Step(k, e), s) <==> !Loses(k, e, s))
      ensures Loses(k, e, s) ==> Step(k, e).procs[s].state == Ready
    {
      SlotAccountedIff(k, e, s);
    }
  }

  // ---------------------------------------------------------------- a lost process never runs again

  ghost predicate Lost(k: Kernel, s: nat) {
    s < |k.procs| && k.procs[s].state == Ready && !AtLarge(k, s)
  }

  lemma LostServe(k: Kernel, p: nat, e: Request, s: nat)
    requires Inv(k) && k.cpu == Runs(p) && Lost(k, s)
    ensures Serve(k, p, e).procs[s].state == Ready && s !in Serve(k, p, e).ready
  {
    match e
    case SysCreate(frame) => ProbeFinds(k.procs, k.nextpid, |k.procs|);
    case SysKill(pid, signum) => LostKill(k, pid, signum, s);
    case SysTimer => LostTimer(k, p, s);
    case _ =>
  }

  lemma LostKill(k: Kernel, pid: nat, signum: int, s: nat)
    requires Inv(k) && Lost(k, s)
    ensures Kill(k, pid, signum).0.procs[s].state == Ready && s !in Kill(k, pid, signum).0.ready
  {
    var t := FindSlot(k, pid);
    if Strikes(k, SysKill(pid, signum), t) {
      KillEffect(k, pid, signum, t);
      KillReady(k, pid, signum, t, s);
    }
  }

  lemma LostTimer(k: Kernel, p: nat, s: nat)
    requires Inv(k) && k.cpu == Runs(p) && Lost(k, s)
    ensures Preempt(k, p).procs[s].state == Ready && s !in Preempt(k, p).ready
  {
    TimerSettled(k, p);
    TimerEffect(k, p, s);
    NotQueued(k, s);
    TickSplit(k.asleep);
  }

  lemma LostStep(k: Kernel, e: Request, s: nat)
    requires Inv(k) && Lost(k, s)
    ensures Lost(Step(k, e), s)
  {
    if k.cpu.Runs? {
      var p := k.cpu.slot;
      LostServe(k, p, e, s);
      ServeKeepsCpu(k, p, e);
      NextAtLarge(Serve(k, p, e), s);
    }
  }

  /**
   Signal 31 is final: once its target is off the queue, no run ever gives it the processor
   again, and its slot is never free for `create`.
   */
  lemma {:induction false} LostForever(k: Kernel, es: seq<Request>, s: nat)
    requires Inv(k) && Lost(k, s)
    ensures Lost(Run(k, es), s) && !Selected(k, es, s)
    decreases es
  {
    if es != [] {
      LostStep(k, es[0], s);
      LostForever(Step(k, es[0]), es[1..], s);
    }
  }

  /** Some step of the run loses a process. */
  ghost predicate SomeStepLoses(k: Kernel, es: seq<Request>)
    requires Inv(k)
    decreases es
  {
    && es != []
    && ((k.cpu.Runs? && exists s :: 0 <= s < MAX_PROC && Loses(k, es[0], s))
        || SomeStepLoses(Step(k, es[0]), es[1..]))
  }

  /** A whole run keeps every READY process running or queued if and only if none of its steps loses one. */
  lemma {:induction false} RunAccountedIff(k: Kernel, es: seq<Request>)
    requires Inv(k) && Accounted(k)
    ensures Accounted(Run(k, es)) <==> !SomeStepLoses(k, es)
    decreases es
  {
    if es != [] {
      var n := Step(k, es[0]);
      if k.cpu.Runs? {
        StepAccountedIff(k, es[0]);
      }
      if s :| 0 <= s < MAX_PROC && k.cpu.Runs? && Loses(k, es[0], s) {
        SlotAccountedIff(k, es[0], s);
        LostForever(n, es[1..], s);
      } else {
        RunAccountedIff(n, es[1..]);
      }
    }
  }

  // ---------------------------------------------------------------- signal 31 releases the waiters

  /**
   kill(pid, 31) leaves nobody waiting for `pid` and changes no other waiting process, its target
   apart.
   */
  lemma TerminationReleasesWaiters(k: Kernel, pid: nat, t: nat, j: nat)
    requires Inv(k) && Evicts(k, SysKill(pid, 31), t) && j < MAX_PROC
    ensures Kill(k, pid, 31).0.procs[j].state == Waiting <==>
            j != t && k.procs[j].state == Waiting && k.procs[j].waitpid != pid
    ensures j != t && k.procs[j].state == Waiting ==>
              Kill(k, pid, 31).0.procs[j] ==
              if k.procs[j].waitpid == pid then k.procs[j].(state := Ready, waitpid := 0) else k.procs[j]
  {
    KillEffect(k, pid, 31, t);
  }

  /** It takes the target off the ready queue and appends exactly those waiters, in slot order. */
  lemma TerminationQueuesWaiters(k: Kernel, pid: nat, t: nat)
    requires Inv(k) && Evicts(k, SysKill(pid, 31), t)
    ensures Kill(k, pid, 31).0.ready == Without(k.ready, t) + Waiters(Unblock(k, t).procs, pid, |k.procs|)
  {
    KillEffect(k, pid, 31, t);
    NotQueued(k, t);
    WithoutAbsent(k.ready, t);
    WithoutAppended(k.ready, t);
  }

  lemma {:induction false} WithoutAppended(s: seq<nat>, x: nat)
    ensures x !in s ==> Without(s + [x], x) == s
  {
    if s != [] {
      assert (s + [x])[1..] == s[1..] + [x];
      WithoutAppended(s[1..], x);
      assert s == [s[0]] + s[1..];
    }
  }

  // ---------------------------------------------------------------- only kill ends a wait

  ghost predicate WaitsFor(k: Kernel, s: nat, pid: nat) {
    s < |k.procs| && k.procs[s].state == Waiting && k.procs[s].waitpid == pid
  }

  /** `e` is a kill of `s` itself, or signal 31 to the process it waits for, that gets past the mask test. */
  predicate EndsWait(k: Kernel, e: Request, s: nat, pid: nat) {
    k.cpu.Runs? && (Strikes(k, e, s) || (e.SysKill? && e.pid == pid && Evicts(k, e, FindSlot(k, pid))))
  }

  lemma KillOnWaiter(k: Kernel, pid: nat, signum: int, s: nat, awaited: nat)
    requires Inv(k) && k.cpu.Runs? && WaitsFor(k, s, awaited)
    ensures WaitsFor(Kill(k, pid, signum).0, s, awaited) <==> !EndsWait(k, SysKill(pid, signum), s, awaited)
    ensures Kill(k, pid, signum).0.procs[s].state != Waiting <==> EndsWait(k, SysKill(pid, signum), s, awaited)
  {
    var t := FindSlot(k, pid);
    if Strikes(k, SysKill(pid, signum), t) {
      KillEffect(k, pid, signum, t);
    }
  }

  /** A timer interrupt changes no process in STATE_WAIT. */
  lemma TimerOnWaiter(k: Kernel, p: nat, s: nat, awaited: nat)
    requires Inv(k) && k.cpu == Runs(p) && WaitsFor(k, s, awaited)
    ensures WaitsFor(Serve(k, p, SysTimer), s, awaited)
  {
    NotQueued(k, s);
    TickSplit(k.asleep);
    TimerEffect(k, p, s);
  }

  /** Nothing but a kill changes a process in STATE_WAIT. */
  lemma ServeOnWaiter(k: Kernel, p: nat, e: Request, s: nat, awaited: nat)
    requires Inv(k) && k.cpu == Runs(p) && WaitsFor(k, s, awaited) && !e.SysKill?
    ensures WaitsFor(Serve(k, p, e), s, awaited)
  {
    match e
    case SysTimer => TimerOnWaiter(k, p, s, awaited);
    case SysCreate(frame) => ProbeFinds(k.procs, k.nextpid, |k.procs|);
    case _ =>
  }

  lemma WaiterStep(k: Kernel, e: Request, s: nat, pid: nat)
    requires Inv(k) && WaitsFor(k, s, pid)
    ensures WaitsFor(Step(k, e), s, pid) <==> !EndsWait(k, e, s, pid)
    ensures Step(k, e).procs[s].state != Waiting <==> EndsWait(k, e, s, pid)
  {
    if k.cpu.Runs? {
      if e.SysKill? {
        KillOnWaiter(k, e.pid, e.signum, s, pid);
      } else {
        ServeOnWaiter(k, k.cpu.slot, e, s, pid);
      }
    }
  }

  /** In every state of the run `s` waits for `pid`. */
  ghost predicate WaitsThroughout(k: Kernel, es: seq<Request>, s: nat, pid: nat)
    requires Inv(k)
    decreases es
  {
    WaitsFor(k, s, pid) && (es != [] ==> WaitsThroughout(Step(k, es[0]), es[1..], s, pid))
  }

  /** Some step of the run is a kill that ends the wait. */
  ghost predicate SomeKillEndsWait(k: Kernel, es: seq<Request>, s: nat, pid: nat)
    requires Inv(k)
    decreases es
  {
    es != [] && (EndsWait(k, es[0], s, pid) || SomeKillEndsWait(Step(k, es[0]), es[1..], s, pid))
  }

  /**
   A wait lasts until a kill ends it and no longer.  The end of the awaited process by SYS_STOP,
   which releases nobody (c/disp.c:57-60), is not such a step, nor is anything that happens later
   to its slot.
   */
  lemma {:induction false} WaitEndsIff(k: Kernel, es: seq<Request>, s: nat, pid: nat)
    requires Inv(k) && WaitsFor(k, s, pid)
    ensures WaitsThroughout(k, es, s, pid) <==> !SomeKillEndsWait(k, es, s, pid)
    decreases es
  {
    if es != [] {
      WaiterStep(k, es[0], s, pid);
      if !EndsWait(k, es[0], s, pid) {
        WaitEndsIff(Step(k, es[0]), es[1..], s, pid);
      }
    }
  }

  /** Every slot's signal state is nested; in particular bit 31 of its mask is clear. */
  ghost predicate SignalsNested(k: Kernel) {
    forall s :: 0 <= s < |k.procs| ==> S.Nested(k.procs[s].ctx)
  }

  /** A sigreturn that carries the values of the newest frame, as `sigtramp` does. */
  predicate Honest(k: Kernel, e: Request)
    requires k.cpu.Runs? ==> k.cpu.slot < |k.procs|
  {
    e.SysSigReturn? && k.cpu.Runs? ==>
      var fs := k.procs[k.cpu.slot].ctx.frames;
      fs != [] && e.saved == fs[|fs| - 1]
  }

  lemma {:induction false} WakeAllContexts(k: Kernel, ws: seq<nat>, s: nat)
    requires Sized(k) && s < MAX_PROC && forall i :: 0 <= i < |ws| ==> ws[i] < MAX_PROC
    ensures WakeAll(k, ws).procs[s].ctx in {k.procs[s].ctx, k.procs[s].ctx.(ret := 0)}
    decreases ws
  {
    if ws != [] {
      WakeAllContexts(MakeReady(WithRet(k, ws[0], 0), ws[0]), ws[1..], s);
    }
  }

  lemma KillNested(k: Kernel, pid: nat, signum: int, s: nat)
    requires Sized(k) && s < MAX_PROC && S.Nested(k.procs[s].ctx)
    ensures S.Nested(Kill(k, pid, signum).0.procs[s].ctx)
  {
    var t := FindSlot(k, pid);
    if Strikes(k, SysKill(pid, signum), t) {
      StruckEffect(k, t, signum);
      if s == t {
        S.NestedStep(Struck(k, t, signum).procs[t].ctx, S.Sent(signum));
      }
    }
  }

  lemma TimerNested(k: Kernel, p: nat, s: nat)
    requires Inv(k) && p < MAX_PROC && s < MAX_PROC && S.Nested(k.procs[s].ctx)
    ensures S.Nested(Preempt(k, p).procs[s].ctx)
  {
    TickSlots(k.asleep);
    WakeAllContexts(k.(asleep := Tick(k.asleep).1), Tick(k.asleep).0, s);
  }

  /** The calls that leave every signal context alone but for the return value. */
  lemma QuietNested(k: Kernel, p: nat, e: Request, s: nat)
    requires Sized(k) && InTable(k.asleep) && p < MAX_PROC && s < MAX_PROC && S.Nested(k.procs[s].ctx)
    requires e.SysCreate? || e.SysYield? || e.SysStop? || e.SysSleep? || e.SysWait?
    ensures S.Nested(Serve(k, p, e).procs[s].ctx)
  {
  }

  lemma ServeNested(k: Kernel, p: nat, e: Request, s: nat)
    requires Inv(k) && k.cpu == Runs(p) && Honest(k, e)
    requires s < MAX_PROC && S.Nested(k.procs[s].ctx)
    ensures S.Nested(Serve(k, p, e).procs[s].ctx)
  {
    match e
    case SysKill(pid, signum) => KillNested(k, pid, signum, s);
    case SysTimer => TimerNested(k, p, s);
    case SysSigHandler(number, handler, inRange) =>
      S.NestedStep(k.procs[s].ctx, S.Registered(number, handler, inRange));
    case SysSigReturn(saved) => S.NestedStep(k.procs[s].ctx, S.Returned);
    case _ => QuietNested(k, p, e, s);
  }

  /** Through every run with honest sigreturns all slots stay nested, so bit 31 of every mask stays clear. */
  lemma {:induction false} RunNested(k: Kernel, es: seq<Request>)
    requires Inv(k) && SignalsNested(k) && HonestRun(k, es)
    ensures SignalsNested(Run(k, es))
    ensures forall s :: 0 <= s < MAX_PROC ==> 31 !in Run(k, es).procs[s].ctx.mask
    decreases es
  {
    if es != [] {
      if k.cpu.Runs? {
        forall s | 0 <= s < MAX_PROC
          ensures S.Nested(Step(k, es[0]).procs[s].ctx)
        {
          ServeNested(k, k.cpu.slot, es[0], s);
        }
      }
      RunNested(Step(k, es[0]), es[1..]);
    }
  }

  ghost predicate HonestRun(k: Kernel, es: seq<Request>)
    requires Inv(k)
    decreases es
  {
    es != [] ==> Honest(k, es[0]) && HonestRun(Step(k, es[0]), es[1..])
  }

  // ---------------------------------------------------------------- boot

  /** A zeroed slot of the process table. */
  function Fresh(): (p: Proc)
    ensures p.state == Stopped && p.pid == 0 && p.waitpid == 0 && p.cpuTime == 0
    ensures S.Nested(p.ctx) && p.ctx.frames == [] && p.ctx.mask == {} && p.ctx.level == 0 && p.ctx.esp == 0 && p.ctx.ret == 0
    ensures forall i :: 0 <= i < S.MAX_SIG ==> p.ctx.table[i] == 0
  {
    Proc(Stopped, 0, 0, 0, S.Context(0, 0, 0, {}, seq(S.MAX_SIG, _ => 0), []))
  }

  /** `dispatchinit` (c/disp.c:198-203) and the static initial values. */
  function Zeroed(): (k: Kernel)
    ensures Inv(k) && SignalsNested(k) && Accounted(k)
    ensures k.ready == [] && k.asleep == [] && k.nextpid == 0 && k.cpu == Nobody
    ensures forall i :: 0 <= i < MAX_PROC ==> k.procs[i] == Fresh()
  {
    Kernel(seq(MAX_PROC, _ => Fresh()), [], [], Nobody, 0)
  }

  /** The two creations of c/init.c:100-109 and the first `next` of `dispatch`. */
  function Boot(idleFrame: nat, initFrame: nat): Kernel {
    Next(Create(Create(Zeroed(), idleFrame).0, initFrame).0)
  }

  lemma ProbeAtOnce(procs: seq<Proc>, nextpid: nat, steps: nat)
    requires |procs| == MAX_PROC && steps > 0
    requires nextpid + 1 < MAX_PROC && procs[nextpid + 1].state == Stopped
    ensures Probe(procs, nextpid, steps) == (nextpid + 1, true)
  {
  }

  /** When the first slot probed is free. */
  lemma CreateAtOnce(k: Kernel, frame: nat)
    requires Sized(k) && frame > 0
    requires k.nextpid + 1 < MAX_PROC && k.procs[k.nextpid + 1].state == Stopped
    ensures Create(k, frame).0 == Spawn(k, k.nextpid + 1, frame)
  {
    ProbeAtOnce(k.procs, k.nextpid, |k.procs|);
  }

  /** The kernel boots into the invariant, with the idle process (slot 1, pid 1) running first. */
  lemma BootsIntoInvariant(idleFrame: nat, initFrame: nat)
    requires idleFrame > 0 && initFrame > 0
    ensures var k := Boot(idleFrame, initFrame);
            && IdleAround(k, 1, 1) && k.cpu == Runs(1) && k.ready == [2]
            && Accounted(k) && SignalsNested(k) && k.asleep == [] && k.nextpid == 2
            && k.procs[1] == Fresh().(state := Ready, pid := 1, ctx := Fresh().ctx.(esp := idleFrame))
            && k.procs[2] == Fresh().(state := Ready, pid := 2, ctx := Fresh().ctx.(esp := initFrame))
            && forall s :: 0 <= s < MAX_PROC && s != 1 && s != 2 ==> k.procs[s] == Fresh()
  {
    var z := Zeroed();
    CreateAtOnce(z, idleFrame);
    SpawnInv(z, 1, idleFrame);
    var a := Spawn(z, 1, idleFrame);
    assert a.ready == [1] && a.nextpid == 1 && a.procs[2].state == Stopped;
    CreateAtOnce(a, initFrame);
    SpawnInv(a, 2, initFrame);
    var b := Spawn(a, 2, initFrame);
    assert b.ready == [1, 2] && b.asleep == [];
    NextInv(b);
    SpawnedFacts(idleFrame, initFrame);
  }

  lemma BootInv(idleFrame: nat, initFrame: nat)
    requires idleFrame > 0 && initFrame > 0
    ensures Inv(Boot(idleFrame, initFrame)) && Boot(idleFrame, initFrame).cpu == Runs(1)
  {
    BootsIntoInvariant(idleFrame, initFrame);
  }

  lemma SpawnedFacts(idleFrame: nat, initFrame: nat)
    ensures var k := Next(Spawn(Spawn(Zeroed(), 1, idleFrame), 2, initFrame));
            Accounted(k) && SignalsNested(k) && k.procs[1].pid == 1
  {
    var b := Spawn(Spawn(Zeroed(), 1, idleFrame), 2, initFrame);
    assert b.ready == [1, 2];
  }
}
