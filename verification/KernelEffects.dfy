/**
 What each request leaves behind, over the fields of the kernel: the caller, everybody else, the two
 queues, the pid counter and the processor.
 */
module KernelEffects {
  import opened Machine
  import opened Sequences
  import opened DeltaQueue
  import opened SleepTiming
  import opened KernelModel
  import opened KernelSafety
  import opened KernelProgress
  import opened KernelFacts
  import opened Pids
  import S = Signals

  /** No process but `p` differs between `k` and `n`. */
  ghost predicate OnlyProc(k: Kernel, n: Kernel, p: nat) {
    && |n.procs| == |k.procs|
    && forall j :: 0 <= j < |k.procs| && j != p ==> n.procs[j] == k.procs[j]
  }

  /** The caller goes on: neither queue changes, nor the processor. */
  ghost predicate GoesOn(k: Kernel, n: Kernel) {
    n.ready == k.ready && n.asleep == k.asleep && n.cpu == k.cpu
  }

  /** `next` was called with the ready queue `q`: its first process runs, nobody when it is empty. */
  ghost predicate HandsOver(n: Kernel, q: seq<nat>) {
    if q == [] then n.cpu == Nobody && n.ready == [] else n.cpu == Runs(q[0]) && [q[0]] + n.ready == q
  }

  lemma NextHandsOver(m: Kernel)
    ensures HandsOver(Next(m), m.ready)
    ensures Next(m).procs == m.procs && Next(m).asleep == m.asleep && Next(m).nextpid == m.nextpid
  {
  }

  // ---------------------------------------------------------------- yield, stop, sleep, timer

  /** c/disp.c:53-56. */
  lemma YieldStep(k: Kernel, p: nat)
    requires Inv(k) && k.cpu == Runs(p)
    ensures var n := Step(k, SysYield);
            && n.procs == k.procs && n.asleep == k.asleep && n.nextpid == k.nextpid
            && HandsOver(n, k.ready + [p])
  {
    NextHandsOver(Serve(k, p, SysYield));
    assert k.procs[p] == k.procs[p].(state := Ready);
  }

  /** c/disp.c:57-60: the caller is STOPPED, on neither queue, and without the processor. */
  lemma StopStep(k: Kernel, p: nat)
    requires Inv(k) && k.cpu == Runs(p)
    ensures var n := Step(k, SysStop);
            && n.procs[p] == k.procs[p].(state := Stopped) && OnlyProc(k, n, p)
            && n.asleep == k.asleep && n.nextpid == k.nextpid
            && HandsOver(n, k.ready)
            && p !in n.ready && p !in Slots(n.asleep) && n.cpu != Runs(p)
  {
    NotQueued(k, p);
    NextHandsOver(Serve(k, p, SysStop));
  }

  /** c/disp.c:80-84 and c/sleep.c:39-57. */
  lemma SleepStep(k: Kernel, p: nat, len: nat)
    requires Inv(k) && k.cpu == Runs(p)
    ensures var n := Step(k, SysSleep(len));
            && n.nextpid == k.nextpid && OnlyProc(k, n, p)
            && (len == 0 ==> n.procs[p] == k.procs[p] && n.asleep == k.asleep && HandsOver(n, k.ready + [p]))
            && (len >= 1 ==> n.procs[p] == k.procs[p].(state := Sleeping)
                             && n.asleep == Insert(k.asleep, p, len / 10) && HandsOver(n, k.ready))
  {
    NextHandsOver(Serve(k, p, SysSleep(len)));
    assert k.procs[p] == k.procs[p].(state := Ready);
  }

  lemma {:induction false} WokenProcs(k: Kernel, ws: seq<nat>)
    requires Sized(k) && forall i :: 0 <= i < |ws| ==> ws[i] < MAX_PROC
    ensures |WakeAll(k, ws).procs| == MAX_PROC && WakeAll(k, ws).nextpid == k.nextpid
    ensures forall s :: 0 <= s < MAX_PROC ==>
              WakeAll(k, ws).procs[s] ==
              if s in ws then k.procs[s].(state := Ready, ctx := k.procs[s].ctx.(ret := 0)) else k.procs[s]
    decreases ws
  {
    if ws != [] {
      WokenProcs(MakeReady(WithRet(k, ws[0], 0), ws[0]), ws[1..]);
      assert ws == [ws[0]] + ws[1..];
    }
  }

  /**
   c/disp.c:86-90 and c/sleep.c:148-157: the woken answer 0 and are queued in order, before the
   caller, which is charged one tick.
   */
  lemma TimerStep(k: Kernel, p: nat, s: nat)
    requires Inv(k) && k.cpu == Runs(p) && s < MAX_PROC
    ensures var n, woken := Step(k, SysTimer), Tick(k.asleep).0;
            && n.asleep == Tick(k.asleep).1 && n.nextpid == k.nextpid
            && p !in woken
            && n.procs[s] == (if s == p then k.procs[p].(cpuTime := k.procs[p].cpuTime + 1)
                              else if s in woken then k.procs[s].(state := Ready, ctx := k.procs[s].ctx.(ret := 0))
                              else k.procs[s])
            && HandsOver(n, k.ready + woken + [p])
  {
    TickSplit(k.asleep);
    TickSlots(k.asleep);
    NotQueued(k, p);
    WokenProcs(k.(asleep := Tick(k.asleep).1), Tick(k.asleep).0);
    TimerSettled(k, p);
    NextHandsOver(Serve(k, p, SysTimer));
  }

  // ---------------------------------------------------------------- wait

  /**
   c/disp.c:129-142: with the pid of some slot the caller waits for it and answers 0; with any other
   it goes on and answers -1.
   */
  lemma WaitStep(k: Kernel, p: nat, pid: nat)
    requires Inv(k) && k.cpu == Runs(p)
    ensures var n, c := Step(k, SysWait(pid)), k.procs[p].ctx;
            && OnlyProc(k, n, p) && n.asleep == k.asleep && n.nextpid == k.nextpid
            && (if pid != 0 && exists j :: 0 <= j < MAX_PROC && k.procs[j].pid == pid then
                  && n.procs[p] == k.procs[p].(state := Waiting, waitpid := pid, ctx := c.(ret := 0))
                  && WaitsFor(n, p, pid)
                  && HandsOver(n, k.ready)
                else
                  n.procs[p] == k.procs[p].(ctx := c.(ret := -1)) && GoesOn(k, n))
  {
    NextHandsOver(Serve(k, p, SysWait(pid)));
  }

  /** And so the wait lasts until a kill strikes the caller or sends 31 to the process it waits for. */
  lemma WaitsUntilKill(k: Kernel, p: nat, pid: nat, es: seq<Request>)
    requires Inv(k) && k.cpu == Runs(p)
    requires pid != 0 && exists j :: 0 <= j < MAX_PROC && k.procs[j].pid == pid
    ensures var n := Step(k, SysWait(pid));
            WaitsThroughout(n, es, p, pid) <==> !SomeKillEndsWait(n, es, p, pid)
  {
    WaitStep(k, p, pid);
    WaitEndsIff(Step(k, SysWait(pid)), es, p, pid);
  }

  // ---------------------------------------------------------------- signals

  /** c/syscall.c:80 and c/disp.c:94-109. */
  lemma SigHandlerStep(k: Kernel, p: nat, number: int, handler: nat, inRange: bool)
    requires Inv(k) && k.cpu == Runs(p)
    ensures var n := Step(k, SysSigHandler(number, handler, inRange));
            var c, d := k.procs[p].ctx, n.procs[p].ctx;
            && OnlyProc(k, n, p) && GoesOn(k, n) && n.nextpid == k.nextpid
            && n.procs[p] == k.procs[p].(ctx := d)
            && d.mask == c.mask && d.level == c.level && d.esp == c.esp && d.frames == c.frames
            && |d.table| == |c.table| == 32
            && (forall i :: 0 <= i < 32 && i != number ==> d.table[i] == c.table[i])
            && (if !(0 <= number < 31) then d == c
                else if inRange then d.table[number] == handler && d.ret == c.table[number]
                else d.table == c.table && d.ret == 0)
  {
    S.RegisteredEffect(k.procs[p].ctx, number, handler, inRange);
  }

  /** c/disp.c:110-128. */
  lemma SigReturnStep(k: Kernel, p: nat, saved: S.Frame)
    requires Inv(k) && k.cpu == Runs(p)
    ensures var n := Step(k, SysSigReturn(saved));
            var c, d := k.procs[p].ctx, n.procs[p].ctx;
            && OnlyProc(k, n, p) && GoesOn(k, n) && n.nextpid == k.nextpid
            && n.procs[p] == k.procs[p].(ctx := d)
            && d.esp == saved.oldSp && d.ret == saved.oldRet && d.level == saved.level
            && d.mask == c.mask && d.table == c.table
            && d.frames == if c.frames == [] then [] else c.frames[..|c.frames| - 1]
  {
    S.SigReturnEffect(k.procs[p].ctx, saved);
  }

  // ---------------------------------------------------------------- kill

  /** What a struck target answers when it runs again, before the signal (c/disp.c:337-345). */
  ghost predicate AnswersStruck(k: Kernel, t: nat, ret: int)
    requires t < |k.procs|
  {
    match k.procs[t].state
    case Waiting => ret == -666
    case Sleeping => forall i :: 0 <= i < |k.asleep| && k.asleep[i].slot == t ==> ret == KillInSleep(k.asleep, i)
    case _ => ret == k.procs[t].ctx.ret
  }

  /** The context `d` after signal `signum` was sent to one in context `c` whose answer is `r0`. */
  ghost predicate Signalled(c: S.Context, d: S.Context, signum: nat, r0: int)
    requires |c.table| == 32 && signum < 32
  {
    && d.ret == r0 && d.table == c.table
    && (if c.table[signum] == 0 then d.mask == c.mask else d.mask == c.mask + {signum})
    && (if c.table[signum] != 0 && signum > c.level then
          d.level == signum && d.esp == c.esp - 68 && d.frames == c.frames + [S.Frame(c.esp, r0, c.level)]
        else d.level == c.level && d.esp == c.esp && d.frames == c.frames)
  }

  lemma UnblockAnswers(k: Kernel, t: nat)
    requires Shape(k) && t < MAX_PROC && (k.procs[t].state == Sleeping ==> t in Slots(k.asleep))
    ensures var c, d := k.procs[t].ctx, Unblock(k, t).procs[t].ctx;
            d == c.(ret := d.ret) && AnswersStruck(k, t, d.ret)
    ensures Unblock(k, t).procs[t] == k.procs[t].(
              state := if k.procs[t].state == Stopped then Stopped else Ready, ctx := Unblock(k, t).procs[t].ctx)
    ensures Unblock(k, t).ready == if k.procs[t].state == Waiting || k.procs[t].state == Sleeping then k.ready + [t] else k.ready
    ensures Unblock(k, t).nextpid == k.nextpid
    ensures forall j :: 0 <= j < MAX_PROC && j != t ==> Unblock(k, t).procs[j] == k.procs[j]
  {
    if k.procs[t].state == Sleeping {
      forall i | 0 <= i < |k.asleep| && k.asleep[i].slot == t
        ensures i == Position(k.asleep, t)
      {
        assert Slots(k.asleep)[i] == t == Slots(k.asleep)[Position(k.asleep, t)];
      }
    }
  }

  lemma {:induction false} ReleaseKeepsCounter(k: Kernel, pid: nat, n: nat)
    requires Sized(k) && n <= MAX_PROC
    ensures Release(k, pid, n).nextpid == k.nextpid
  {
    if n > 0 {
      ReleaseKeepsCounter(k, pid, n - 1);
    }
  }

  /** The process struck: unblocked, with its answer, and with the signal sent to it (c/disp.c:337-362). */
  lemma KillTarget(k: Kernel, pid: nat, signum: int, t: nat)
    requires Inv(k) && Strikes(k, SysKill(pid, signum), t)
    ensures var m := Kill(k, pid, signum).0;
            var d := m.procs[t].ctx;
            && m.procs[t] == k.procs[t].(state := if k.procs[t].state == Stopped then Stopped else Ready, ctx := d)
            && AnswersStruck(k, t, d.ret)
            && Signalled(k.procs[t].ctx, d, signum, d.ret)
            && m.nextpid == k.nextpid
  {
    UnblockAnswers(k, t);
    StruckEffect(k, t, signum);
    var u := Unblock(k, t);
    if signum == 31 {
      ReleaseKeepsCounter(if u.procs[t].state == Ready then Unready(u, t) else u, u.procs[t].pid, |u.procs|);
    }
    S.SentEffect(u.procs[t].ctx, signum);
  }

  /** The ready queue of a kill that strikes `t`. */
  lemma KillQueues(k: Kernel, pid: nat, signum: int, t: nat)
    requires Inv(k) && Strikes(k, SysKill(pid, signum), t)
    ensures var m, blocked := Kill(k, pid, signum).0, k.procs[t].state == Waiting || k.procs[t].state == Sleeping;
            && (signum != 31 ==> m.ready == if blocked then k.ready + [t] else k.ready)
            && (signum == 31 ==> m.ready == Without(k.ready, t) + OtherWaiters(k.procs, pid, t, |k.procs|))
            && m.asleep == if k.procs[t].state == Sleeping then Remove(k.asleep, t) else k.asleep
  {
    KillEffect(k, pid, signum, t);
    UnblockAnswers(k, t);
    NotQueued(k, t);
    WithoutAbsent(k.ready, t);
    WithoutAppended(k.ready, t);
    if signum == 31 {
      var u := Unblock(k, t);
      OthersWait(k.procs, u.procs, pid, t, |k.procs|);
    }
  }

  /** The slots below `n`, other than `t`, that wait for `pid`. */
  function OtherWaiters(procs: seq<Proc>, pid: nat, t: nat, n: nat): seq<nat>
    requires n <= |procs|
    decreases n
  {
    if n == 0 then []
    else
      var r := OtherWaiters(procs, pid, t, n - 1);
      if n - 1 != t && procs[n - 1].state == Waiting && procs[n - 1].waitpid == pid then r + [n - 1] else r
  }

  /** It lists exactly those, each once, in slot order. */
  lemma {:induction false} OtherWaitersListed(procs: seq<Proc>, pid: nat, t: nat, n: nat)
    requires n <= |procs|
    ensures forall s: nat :: s in OtherWaiters(procs, pid, t, n) <==>
              s < n && s != t && procs[s].state == Waiting && procs[s].waitpid == pid
    ensures forall i, j :: 0 <= i < j < |OtherWaiters(procs, pid, t, n)| ==>
              OtherWaiters(procs, pid, t, n)[i] < OtherWaiters(procs, pid, t, n)[j]
  {
    if n > 0 {
      OtherWaitersListed(procs, pid, t, n - 1);
      var r := OtherWaiters(procs, pid, t, n - 1);
      assert forall i :: 0 <= i < |r| ==> r[i] in r;
    }
  }

  lemma {:induction false} OthersWait(procs: seq<Proc>, after: seq<Proc>, pid: nat, t: nat, n: nat)
    requires n <= |procs| == |after| && t < |procs| && after[t].state != Waiting
    requires forall j :: 0 <= j < |procs| && j != t ==> after[j] == procs[j]
    ensures Waiters(after, pid, n) == OtherWaiters(procs, pid, t, n)
  {
    if n > 0 {
      OthersWait(procs, after, pid, t, n - 1);
    }
  }

  /** What `kill` returns, and that it does nothing else when it strikes nobody (c/disp.c:324-335). */
  lemma KillReturns(k: Kernel, pid: nat, signum: int)
    requires Inv(k)
    ensures var (m, ret) := Kill(k, pid, signum);
            && (!(0 <= signum <= 31) ==> ret == -1)
            && (0 <= signum <= 31 ==>
                  ret == if exists j :: 0 <= j < MAX_PROC && k.procs[j].pid == pid then 0 else -999)
            && (!Strikes(k, SysKill(pid, signum), FindSlot(k, pid)) ==> m == k)
  {
  }

  /** SYS_KILL: the caller goes on with that answer; `KillTarget`, `KillQueues` and the release of the waiters. */
  lemma KillStep(k: Kernel, p: nat, pid: nat, signum: int, s: nat)
    requires Inv(k) && k.cpu == Runs(p) && s < MAX_PROC
    ensures var n, m, ret := Step(k, SysKill(pid, signum)), Kill(k, pid, signum).0, Kill(k, pid, signum).1;
            && n.ready == m.ready && n.asleep == m.asleep && n.cpu == k.cpu && n.nextpid == k.nextpid
            && n.procs[s] == if s == p then m.procs[p].(ctx := m.procs[p].ctx.(ret := ret)) else m.procs[s]
  {
    ServeKeepsCpu(k, p, SysKill(pid, signum));
    var t := FindSlot(k, pid);
    if Strikes(k, SysKill(pid, signum), t) {
      KillTarget(k, pid, signum, t);
    } else {
      KillReturns(k, pid, signum);
    }
  }

  /** From the call to the handler: a struck process with a handler above its level finds it on its stack. */
  lemma KillIsDelivered(k: Kernel, p: nat, pid: nat, signum: nat, t: nat)
    requires Inv(k) && k.cpu == Runs(p) && signum < 31 && Strikes(k, SysKill(pid, signum), t)
    requires k.procs[t].ctx.table[signum] != 0 && signum > k.procs[t].ctx.level
    ensures var c, d := k.procs[t].ctx, Step(k, SysKill(pid, signum)).procs[t].ctx;
            && signum in d.mask && d.level == signum && d.esp == c.esp - 68
            && |d.frames| == |c.frames| + 1 && d.frames[..|c.frames|] == c.frames
            && d.frames[|c.frames|].oldSp == c.esp && d.frames[|c.frames|].level == c.level
            && AnswersStruck(k, t, d.frames[|c.frames|].oldRet)
  {
    KillTarget(k, pid, signum, t);
    KillStep(k, p, pid, signum, t);
  }

  // ---------------------------------------------------------------- create

  lemma CreateOutcome(k: Kernel, frame: nat, d: nat)
    requires Inv(k) && FirstFreeAt(k, d)
    ensures var pid, s := U32(k.nextpid + d), Visited(k.nextpid, d);
            && pid % MAX_PROC == s
            && Create(k, frame) == if frame == 0 then (k.(nextpid := pid), -1) else (Spawn(k, pid, frame), I32(pid))
  {
    ProbeStopsAt(k.procs, k.nextpid, |k.procs|, d);
    WrapKeepsResidue(k.nextpid + d);
  }

  /**
   SYS_CREATE with a free slot, the first that the probe meets (c/create.c:38-91): the counter stops
   there; with a stack, a new process is ready in that slot, last in the queue, and the caller is
   told its pid as an `int`; without, the caller is told -1.
   */
  lemma CreateStep(k: Kernel, p: nat, frame: nat, d: nat)
    requires Inv(k) && k.cpu == Runs(p) && FirstFreeAt(k, d)
    ensures var n, pid, s := Step(k, SysCreate(frame)), U32(k.nextpid + d), Visited(k.nextpid, d);
            && n.nextpid == pid && n.asleep == k.asleep && n.cpu == k.cpu && s != p
            && (forall j :: 0 <= j < MAX_PROC && j != p && j != s ==> n.procs[j] == k.procs[j])
            && n.procs[p] == k.procs[p].(ctx := k.procs[p].ctx.(ret := if frame == 0 then -1 else I32(pid)))
            && (frame == 0 ==> n.procs[s] == k.procs[s] && n.ready == k.ready)
            && (frame != 0 ==>
                  && n.procs[s] == k.procs[s].(state := Ready, pid := pid, ctx := k.procs[s].ctx.(esp := frame))
                  && n.ready == k.ready + [s])
  {
    CreateOutcome(k, frame, d);
  }

  /** SYS_CREATE without a free slot: the caller is told -1, and the counter has gone once around. */
  lemma CreateFailsStep(k: Kernel, p: nat, frame: nat)
    requires Inv(k) && k.cpu == Runs(p) && forall s :: 0 <= s < MAX_PROC ==> k.procs[s].state != Stopped
    ensures var n := Step(k, SysCreate(frame));
            && n.nextpid == U32(k.nextpid + 64) && GoesOn(k, n) && OnlyProc(k, n, p)
            && n.procs[p] == k.procs[p].(ctx := k.procs[p].ctx.(ret := -1))
  {
    CreateFails(k, frame);
  }

  lemma CreateFails(k: Kernel, frame: nat)
    requires Sized(k) && forall s :: 0 <= s < MAX_PROC ==> k.procs[s].state != Stopped
    ensures Create(k, frame) == (k.(nextpid := U32(k.nextpid + 64)), -1)
  {
    ProbeFails(k.procs, k.nextpid, |k.procs|);
  }

  // ---------------------------------------------------------------- a stopped process

  /** `e` creates a process in slot `s`. */
  ghost predicate TakesSlot(k: Kernel, e: Request, s: nat) {
    k.cpu.Runs? && e.SysCreate? && e.frame != 0 && exists d :: FirstFreeAt(k, d) && Visited(k.nextpid, d) == s
  }

  lemma StoppedCreate(k: Kernel, p: nat, frame: nat, s: nat)
    requires Inv(k) && k.cpu == Runs(p) && s < MAX_PROC && k.procs[s].state == Stopped
    ensures Step(k, SysCreate(frame)).procs[s].state == Stopped <==> !TakesSlot(k, SysCreate(frame), s)
  {
    var d := FirstFreeExists(k, s);
    CreateStep(k, p, frame, d);
    FirstFreeUnique(k, d);
  }

  lemma StoppedStep(k: Kernel, e: Request, s: nat)
    requires Inv(k) && s < MAX_PROC && k.procs[s].state == Stopped
    ensures Step(k, e).procs[s].state == Stopped <==> !TakesSlot(k, e, s)
    ensures !TakesSlot(k, e, s) ==> Step(k, e).cpu != Runs(s)
  {
    if k.cpu.Runs? {
      var p := k.cpu.slot;
      match e {
        case SysCreate(frame) => StoppedCreate(k, p, frame, s);
        case SysYield => YieldStep(k, p);
        case SysStop => StopStep(k, p);
        case SysKill(pid, signum) =>
          KillStep(k, p, pid, signum, s);
          StoppedKill(k, pid, signum, s);
        case SysSleep(len) => SleepStep(k, p, len);
        case SysTimer => StoppedTimer(k, p, s);
        case SysWait(pid) => WaitStep(k, p, pid);
        case SysSigHandler(number, handler, inRange) => SigHandlerStep(k, p, number, handler, inRange);
        case SysSigReturn(saved) => SigReturnStep(k, p, saved);
      }
    }
  }

  lemma StoppedKill(k: Kernel, pid: nat, signum: int, s: nat)
    requires Inv(k) && s < MAX_PROC && k.procs[s].state == Stopped
    ensures Kill(k, pid, signum).0.procs[s].state == Stopped
  {
    var t := FindSlot(k, pid);
    if Strikes(k, SysKill(pid, signum), t) {
      KillEffect(k, pid, signum, t);
    }
  }

  lemma StoppedTimer(k: Kernel, p: nat, s: nat)
    requires Inv(k) && k.cpu == Runs(p) && s < MAX_PROC && k.procs[s].state == Stopped
    ensures Step(k, SysTimer).procs[s].state == Stopped
  {
    TimerStep(k, p, s);
    NotQueued(k, s);
    TickSplit(k.asleep);
  }

  ghost predicate SomeCreateTakes(k: Kernel, es: seq<Request>, s: nat)
    requires Inv(k)
    decreases es
  {
    es != [] && (TakesSlot(k, es[0], s) || SomeCreateTakes(Step(k, es[0]), es[1..], s))
  }

  ghost predicate StaysStopped(k: Kernel, es: seq<Request>, s: nat)
    requires Inv(k)
    decreases es
  {
    && s < |k.procs| && k.procs[s].state == Stopped
    && (es != [] ==> StaysStopped(Step(k, es[0]), es[1..], s))
  }

  /**
   Over every run a STOPPED slot stays so if and only if no create takes it, and until then it is
   never given the processor.
   */
  lemma {:induction false} StaysStoppedIff(k: Kernel, es: seq<Request>, s: nat)
    requires Inv(k) && s < MAX_PROC && k.procs[s].state == Stopped
    ensures StaysStopped(k, es, s) <==> !SomeCreateTakes(k, es, s)
    ensures !SomeCreateTakes(k, es, s) ==> !Selected(k, es, s)
    decreases es
  {
    if es != [] {
      StoppedStep(k, es[0], s);
      if !TakesSlot(k, es[0], s) {
        StaysStoppedIff(Step(k, es[0]), es[1..], s);
      }
    }
  }

  /** In particular the process that called `sysstop`, whose slot the next create may have. */
  lemma StopIsFinal(k: Kernel, p: nat, es: seq<Request>)
    requires Inv(k) && k.cpu == Runs(p)
    ensures var n := Step(k, SysStop);
            && (StaysStopped(n, es, p) <==> !SomeCreateTakes(n, es, p))
            && (!SomeCreateTakes(n, es, p) ==> !Selected(n, es, p))
            && exists d :: FirstFreeAt(n, d)
  {
    StopStep(k, p);
    var n := Step(k, SysStop);
    StaysStoppedIff(n, es, p);
    var d := FirstFreeExists(n, p);
  }
}
