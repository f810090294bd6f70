/** The signal contexts inside the dispatcher: along its runs each slot follows the events of `Signals`. */
module SignalRuns {
  import opened Machine
  import opened Sequences
  import opened DeltaQueue
  import opened KernelModel
  import opened KernelSafety
  import opened KernelProgress
  import opened KernelFacts
  import opened KernelEffects
  import Pids
  import S = Signals

  /**
   What one request means for the context of slot `s`.  The answers are whatever the request gives
   (see `KernelEffects`); that it means nothing else for the context is the point.
   */
  ghost function Meant(k: Kernel, e: Request, s: nat): seq<S.Event>
    requires Inv(k) && k.cpu.Runs? && s < MAX_PROC
  {
    var p := k.cpu.slot;
    var answer := if s == p then [S.Answered(Step(k, e).procs[s].ctx.ret)] else [];
    match e
    case SysCreate(frame) => if TakesSlot(k, e, s) then [S.Runs(frame, k.procs[s].ctx.ret)] else answer
    case SysKill(pid, signum) =>
      (if Strikes(k, e, s) then [S.Answered(Kill(k, pid, signum).0.procs[s].ctx.ret), S.Sent(signum)] else []) + answer
    case SysTimer => if s in Tick(k.asleep).0 then [S.Answered(0)] else []
    case SysWait(pid) => answer
    case SysSigHandler(number, handler, inRange) => if s == p then [S.Registered(number, handler, inRange)] else []
    case SysSigReturn(saved) => if s == p then [S.Returned] else []
    case _ => []
  }

  lemma RunOne(c: S.Context, e: S.Event)
    requires S.Formed(c)
    ensures S.Run(c, [e]) == S.Step(c, e)
  {
    assert [e][1..] == [];
  }

  lemma MeantKill(k: Kernel, p: nat, pid: nat, signum: int, s: nat)
    requires Inv(k) && k.cpu == Runs(p) && s < MAX_PROC
    ensures S.Run(k.procs[s].ctx, Meant(k, SysKill(pid, signum), s)) == Step(k, SysKill(pid, signum)).procs[s].ctx
  {
    var e, c, m := SysKill(pid, signum), k.procs[s].ctx, Kill(k, pid, signum).0;
    KillStep(k, p, pid, signum, s);
    var answer := if s == p then [S.Answered(Step(k, e).procs[s].ctx.ret)] else [];
    var struck := if Strikes(k, e, s) then [S.Answered(m.procs[s].ctx.ret), S.Sent(signum)] else [];
    S.RunConcat(c, struck, answer);
    MeantStruck(k, pid, signum, s);
    if s == p {
      RunOne(m.procs[s].ctx, answer[0]);
    }
  }

  lemma MeantStruck(k: Kernel, pid: nat, signum: int, s: nat)
    requires Inv(k) && s < MAX_PROC
    ensures var m := Kill(k, pid, signum).0;
            S.Run(k.procs[s].ctx,
                  if Strikes(k, SysKill(pid, signum), s) then [S.Answered(m.procs[s].ctx.ret), S.Sent(signum)] else [])
            == m.procs[s].ctx
  {
    var t := FindSlot(k, pid);
    if Strikes(k, SysKill(pid, signum), s) {
      KillTarget(k, pid, signum, s);
      var c, r := k.procs[s].ctx, Kill(k, pid, signum).0.procs[s].ctx.ret;
      var es := [S.Answered(r), S.Sent(signum)];
      assert es[1..] == [S.Sent(signum)];
      RunOne(c.(ret := r), S.Sent(signum));
      S.SentEffect(c.(ret := r), signum);
    } else if Strikes(k, SysKill(pid, signum), t) {
      KillEffect(k, pid, signum, t);
    } else {
      KillReturns(k, pid, signum);
    }
  }

  lemma MeantCreate(k: Kernel, p: nat, frame: nat, s: nat)
    requires Inv(k) && k.cpu == Runs(p) && s < MAX_PROC
    ensures S.Run(k.procs[s].ctx, Meant(k, SysCreate(frame), s)) == Step(k, SysCreate(frame)).procs[s].ctx
  {
    var e, c := SysCreate(frame), k.procs[s].ctx;
    RunOne(c, S.Runs(frame, c.ret));
    RunOne(c, S.Answered(Step(k, e).procs[s].ctx.ret));
    CreatedContext(k, p, frame, s);
  }

  /** What create does to the context of a slot. */
  lemma CreatedContext(k: Kernel, p: nat, frame: nat, s: nat)
    requires Inv(k) && k.cpu == Runs(p) && s < MAX_PROC
    ensures var c, d := k.procs[s].ctx, Step(k, SysCreate(frame)).procs[s].ctx;
            && (TakesSlot(k, SysCreate(frame), s) ==> d == c.(esp := frame) && s != p)
            && (!TakesSlot(k, SysCreate(frame), s) ==> d == if s == p then c.(ret := d.ret) else c)
  {
    if free :| 0 <= free < MAX_PROC && k.procs[free].state == Stopped {
      var d := Pids.FirstFreeExists(k, free);
      CreateStep(k, p, frame, d);
      Pids.FirstFreeUnique(k, d);
    } else {
      CreateFailsStep(k, p, frame);
    }
  }

  lemma MeantStep(k: Kernel, e: Request, s: nat)
    requires Inv(k) && k.cpu.Runs? && s < MAX_PROC && Honest(k, e)
    ensures S.Run(k.procs[s].ctx, Meant(k, e, s)) == Step(k, e).procs[s].ctx
  {
    var p, c := k.cpu.slot, k.procs[s].ctx;
    match e
    case SysCreate(frame) => MeantCreate(k, p, frame, s);
    case SysYield => YieldStep(k, p);
    case SysStop => StopStep(k, p);
    case SysKill(pid, signum) => MeantKill(k, p, pid, signum, s);
    case SysSleep(len) => SleepStep(k, p, len);
    case SysTimer =>
      TimerStep(k, p, s);
      RunOne(c, S.Answered(0));
    case SysWait(pid) =>
      WaitStep(k, p, pid);
      RunOne(c, S.Answered(Step(k, e).procs[s].ctx.ret));
    case SysSigHandler(number, handler, inRange) =>
      RunOne(c, S.Registered(number, handler, inRange));
    case SysSigReturn(saved) => RunOne(c, S.Returned);
  }

  /** What a run means for slot `s`. */
  ghost function MeantBy(k: Kernel, es: seq<Request>, s: nat): seq<S.Event>
    requires Inv(k) && s < MAX_PROC
    decreases es
  {
    if es == [] then []
    else (if k.cpu.Runs? then Meant(k, es[0], s) else []) + MeantBy(Step(k, es[0]), es[1..], s)
  }

  /**
   Along every dispatcher run with honest sigreturns the context of each slot is what the events of
   `Signals` that the requests mean for it make of it.
   */
  lemma {:induction false} RunContexts(k: Kernel, es: seq<Request>, s: nat)
    requires Inv(k) && HonestRun(k, es) && s < MAX_PROC
    ensures S.Run(k.procs[s].ctx, MeantBy(k, es, s)) == Run(k, es).procs[s].ctx
    decreases es
  {
    if es != [] {
      var xs, n := if k.cpu.Runs? then Meant(k, es[0], s) else [], Step(k, es[0]);
      if k.cpu.Runs? {
        MeantStep(k, es[0], s);
      }
      RunContexts(n, es[1..], s);
      S.RunConcat(k.procs[s].ctx, xs, MeantBy(n, es[1..], s));
    }
  }

  /** So each signal is delivered at most once to a slot, in every such run of the dispatcher. */
  lemma DispatcherDeliversOnce(k: Kernel, es: seq<Request>, s: nat, signum: nat)
    requires Inv(k) && HonestRun(k, es) && s < MAX_PROC
    ensures S.Deliveries(k.procs[s].ctx, MeantBy(k, es, s), signum) <= 1
    ensures signum in k.procs[s].ctx.mask ==>
              S.Deliveries(k.procs[s].ctx, MeantBy(k, es, s), signum) == 0 && signum in Run(k, es).procs[s].ctx.mask
  {
    RunContexts(k, es, s);
    S.DeliveredAtMostOnce(k.procs[s].ctx, MeantBy(k, es, s), signum);
    if signum in k.procs[s].ctx.mask {
      S.MarkedIsFinal(k.procs[s].ctx, MeantBy(k, es, s), signum);
    }
  }

  /**
   A handler registered by one request is called by another: nothing but a registration of the same
   number, a mark or a higher level in between keeps a later kill from pushing its frame.
   */
  lemma RegisteredIsCalled(k: Kernel, p: nat, number: nat, handler: nat, es: seq<Request>, killer: nat, pid: nat)
    requires Inv(k) && k.cpu == Runs(p) && number < 31 && handler != 0
    requires var m := Run(Step(k, SysSigHandler(number, handler, true)), es);
             && m.cpu == Runs(killer) && Strikes(m, SysKill(pid, number), p)
             && number > m.procs[p].ctx.level
             && m.procs[p].ctx.table[number] == Step(k, SysSigHandler(number, handler, true)).procs[p].ctx.table[number]
    ensures var m := Run(Step(k, SysSigHandler(number, handler, true)), es);
            var d := Step(m, SysKill(pid, number)).procs[p].ctx;
            d.level == number && number in d.mask && |d.frames| == |m.procs[p].ctx.frames| + 1 && d.table[number] == handler
  {
    SigHandlerStep(k, p, number, handler, true);
    var m := Run(Step(k, SysSigHandler(number, handler, true)), es);
    KillIsDelivered(m, killer, pid, number, p);
    KillTarget(m, pid, number, p);
    KillStep(m, killer, pid, number, p);
  }
}
