/** Whole runs of the dispatcher: who gets the processor, and when. */
module KernelProgress {
  import opened Sequences
  import opened Machine
  import opened DeltaQueue
  import opened SleepTiming
  import opened KernelModel
  import opened KernelSafety

  // ---------------------------------------------------------------- positions in the ready queue

  function Index(s: seq<nat>, x: nat): nat {
    if s == [] || s[0] == x then 0 else 1 + Index(s[1..], x)
  }

  lemma {:induction false} IndexAt(s: seq<nat>, x: nat)
    requires x in s
    ensures Index(s, x) < |s| && s[Index(s, x)] == x
  {
    if s[0] != x {
      assert s == [s[0]] + s[1..];
      IndexAt(s[1..], x);
    }
  }

  lemma {:induction false} IndexAppend(s: seq<nat>, t: seq<nat>, x: nat)
    requires x in s
    ensures Index(s + t, x) == Index(s, x)
  {
    if s[0] != x {
      assert s == [s[0]] + s[1..];
      assert (s + t)[1..] == s[1..] + t;
      IndexAppend(s[1..], t, x);
    }
  }

  lemma {:induction false} IndexWithout(s: seq<nat>, y: nat, x: nat)
    requires x in s && x != y
    ensures x in Without(s, y) && Index(Without(s, y), x) <= Index(s, x)
  {
    assert s == [s[0]] + s[1..];
    if s[0] != y && s[0] != x {
      IndexWithout(s[1..], y, x);
      assert Without(s, y)[1..] == Without(s[1..], y);
    }
  }

  // ---------------------------------------------------------------- what a turn does to the ready queue

  /** The processes waiting for `pid` among the first `n` slots, in slot order. */
  function Waiters(procs: seq<Proc>, pid: nat, n: nat): seq<nat>
    requires n <= |procs|
  {
    if n == 0 then []
    else if procs[n - 1].state == Waiting && procs[n - 1].waitpid == pid then Waiters(procs, pid, n - 1) + [n - 1]
    else Waiters(procs, pid, n - 1)
  }

  /** The release loop of `kill` appends exactly the waiters and touches no other process. */
  lemma {:induction false} ReleaseEffect(k: Kernel, pid: nat, n: nat)
    requires Sized(k) && n <= MAX_PROC
    ensures Release(k, pid, n).ready == k.ready + Waiters(k.procs, pid, n)
    ensures Release(k, pid, n).asleep == k.asleep && Release(k, pid, n).cpu == k.cpu
    ensures forall j :: 0 <= j < MAX_PROC ==>
              Release(k, pid, n).procs[j] ==
              if j < n && k.procs[j].state == Waiting && k.procs[j].waitpid == pid
              then k.procs[j].(state := Ready, waitpid := 0) else k.procs[j]
  {
    if n > 0 {
      ReleaseEffect(k, pid, n - 1);
    }
  }

  /** A `kill` that reaches line 337 of c/disp.c. */
  predicate Strikes(k: Kernel, e: Request, s: nat) {
    && e.SysKill?
    && 0 <= e.signum <= 31
    && s < |k.procs|
    && FindSlot(k, e.pid) == s
    && e.signum !in k.procs[s].ctx.mask
  }

  /** Signal 31 takes its target off the ready queue. */
  predicate Evicts(k: Kernel, e: Request, s: nat) {
    Strikes(k, e, s) && e.signum == 31
  }

  /** Whether `kill` releases process `j`, another process than its target. */
  predicate Releases(k: Kernel, pid: nat, signum: int, j: nat)
    requires j < |k.procs|
  {
    signum == 31 && k.procs[j].state == Waiting && k.procs[j].waitpid == pid
  }

  /** The ready queue after `kill` has struck `t`. */
  function ReadyAfter(k: Kernel, t: nat, signum: nat): seq<nat>
    requires Sized(k) && t < MAX_PROC
  {
    var u := Unblock(k, t);
    if signum != 31 then u.ready
    else (if u.procs[t].state == Ready then Without(u.ready, t) else u.ready)
         + Waiters(u.procs, u.procs[t].pid, |u.procs|)
  }

  lemma TerminateEffect(k: Kernel, t: nat)
    requires Sized(k) && t < MAX_PROC && k.procs[t].state != Waiting
    ensures Terminate(k, t).cpu == k.cpu && Terminate(k, t).asleep == k.asleep
    ensures Terminate(k, t).ready ==
            (if k.procs[t].state == Ready then Without(k.ready, t) else k.ready) + Waiters(k.procs, k.procs[t].pid, |k.procs|)
    ensures Terminate(k, t).procs[t] == k.procs[t]
    ensures forall j :: 0 <= j < MAX_PROC ==>
              Terminate(k, t).procs[j] ==
              if Releases(k, k.procs[t].pid, 31, j) then k.procs[j].(state := Ready, waitpid := 0) else k.procs[j]
  {
    ReleaseEffect(if k.procs[t].state == Ready then Unready(k, t) else k, k.procs[t].pid, |k.procs|);
  }

  lemma StruckEffect(k: Kernel, t: nat, signum: nat)
    requires Sized(k) && t < MAX_PROC
    ensures Struck(k, t, signum).cpu == k.cpu
    ensures Struck(k, t, signum).asleep == if k.procs[t].state == Sleeping then Remove(k.asleep, t) else k.asleep
    ensures Struck(k, t, signum).ready == ReadyAfter(k, t, signum)
    ensures Struck(k, t, signum).procs[t] == Unblock(k, t).procs[t]
    ensures forall j :: 0 <= j < MAX_PROC && j != t ==>
              Struck(k, t, signum).procs[j] ==
              if Releases(k, k.procs[t].pid, signum, j) then k.procs[j].(state := Ready, waitpid := 0) else k.procs[j]
  {
    if signum == 31 {
      TerminateEffect(Unblock(k, t), t);
    }
  }

  /** Everything a `kill` that strikes slot `t` does to the queues, the states and the other processes. */
  lemma KillEffect(k: Kernel, pid: nat, signum: int, t: nat)
    requires Sized(k) && Strikes(k, SysKill(pid, signum), t)
    ensures Kill(k, pid, signum).0.cpu == k.cpu
    ensures Kill(k, pid, signum).0.ready == ReadyAfter(k, t, signum)
    ensures Kill(k, pid, signum).0.asleep == if k.procs[t].state == Sleeping then Remove(k.asleep, t) else k.asleep
    ensures Kill(k, pid, signum).0.procs[t].pid == pid == k.procs[t].pid
    ensures Kill(k, pid, signum).0.procs[t].state == if k.procs[t].state == Stopped then Stopped else Ready
    ensures forall j :: 0 <= j < MAX_PROC && j != t ==>
              Kill(k, pid, signum).0.procs[j] ==
              if Releases(k, pid, signum, j) then k.procs[j].(state := Ready, waitpid := 0) else k.procs[j]
  {
    StruckEffect(k, t, signum);
  }

  lemma KillKeepsPlace(k: Kernel, pid: nat, signum: int, s: nat)
    requires Sized(k) && s in k.ready && !Evicts(k, SysKill(pid, signum), s)
    ensures s in Kill(k, pid, signum).0.ready
    ensures Index(Kill(k, pid, signum).0.ready, s) <= Index(k.ready, s)
  {
    var t := FindSlot(k, pid);
    if Strikes(k, SysKill(pid, signum), t) {
      KillEffect(k, pid, signum, t);
      var u := Unblock(k, t);
      IndexAppend(k.ready, [t], s);
      if signum == 31 {
        IndexWithout(u.ready, t, s);
        var r := if u.procs[t].state == Ready then Without(u.ready, t) else u.ready;
        IndexAppend(r, Waiters(u.procs, pid, |u.procs|), s);
      }
    }
  }

  lemma ServeKeepsPlace(k: Kernel, p: nat, e: Request, s: nat)
    requires Inv(k) && k.cpu == Runs(p) && s in k.ready && !Evicts(k, e, s)
    ensures s in Serve(k, p, e).ready
    ensures Index(Serve(k, p, e).ready, s) <= Index(k.ready, s)
  {
    match e
    case SysCreate(frame) => IndexAppend(k.ready, [Probe(k.procs, k.nextpid, |k.procs|).0 % MAX_PROC], s);
    case SysYield => IndexAppend(k.ready, [p], s);
    case SysStop =>
    case SysKill(pid, signum) => KillKeepsPlace(k, pid, signum, s);
    case SysSleep(len) => IndexAppend(k.ready, [p], s);
    case SysTimer =>
      TimerSettled(k, p);
      assert k.ready + Tick(k.asleep).0 + [p] == k.ready + (Tick(k.asleep).0 + [p]);
      IndexAppend(k.ready, Tick(k.asleep).0 + [p], s);
    case SysWait(pid) =>
    case SysSigHandler(number, handler, inRange) =>
    case SysSigReturn(saved) =>
  }

  // ---------------------------------------------------------------- bounded waiting

  /** How often a run calls `next`. */
  ghost function NextCalls(k: Kernel, es: seq<Request>): nat
    requires Inv(k)
    decreases es
  {
    if es == [] then 0
    else
      (if k.cpu.Runs? && Reschedules(k, es[0]) then 1 else 0) + NextCalls(Step(k, es[0]), es[1..])
  }

  /** At some point of the run `s` is given the processor. */
  ghost predicate Selected(k: Kernel, es: seq<Request>, s: nat)
    requires Inv(k)
    decreases es
  {
    es != [] &&
    (Step(k, es[0]).cpu == Runs(s) || Selected(Step(k, es[0]), es[1..], s))
  }

  /** No step of the run evicts `s` from the ready queue. */
  ghost predicate NeverEvicted(k: Kernel, es: seq<Request>, s: nat)
    requires Inv(k)
    decreases es
  {
    es != [] ==>
      (!Evicts(k, es[0], s) && NeverEvicted(Step(k, es[0]), es[1..], s))
  }

  /**
   A process at position i of the ready queue has the processor by the (i + 1)-th later call of
   `next`, unless it is evicted.
   */
  lemma {:induction false} BoundedWaiting(k: Kernel, es: seq<Request>, s: nat)
    requires Inv(k) && k.cpu.Runs? && s in k.ready
    requires NeverEvicted(k, es, s)
    ensures NextCalls(k, es) > Index(k.ready, s) ==> Selected(k, es, s)
    decreases es
  {
    if es != [] {
      var e, p := es[0], k.cpu.slot;
      ServeKeepsPlace(k, p, e, s);
      var m, n := Serve(k, p, e), Step(k, e);
      if Reschedules(k, e) {
        assert m.ready == [m.ready[0]] + m.ready[1..];
        if m.ready[0] != s {
          BoundedWaiting(n, es[1..], s);
        }
      } else {
        ServeKeepsCpu(k, p, e);
        BoundedWaiting(n, es[1..], s);
      }
    }
  }

  lemma ServeKeepsCpu(k: Kernel, p: nat, e: Request)
    requires Inv(k) && k.cpu == Runs(p)
    ensures Serve(k, p, e).cpu == k.cpu
  {
    match e
    case SysKill(pid, signum) =>
      if Strikes(k, e, FindSlot(k, pid)) {
        KillEffect(k, pid, signum, FindSlot(k, pid));
      }
    case SysTimer => TickSettled(k);
    case _ =>
  }

  lemma {:induction false} PigeonHole(s: seq<nat>, n: nat)
    requires NoDup(s) && forall i :: 0 <= i < |s| ==> s[i] < n
    ensures |s| <= n
    decreases n
  {
    if n == 0 {
    } else {
      WithoutFacts(s, n - 1);
      WithoutLength(s, n - 1);
      var r := Without(s, n - 1);
      forall i | 0 <= i < |r|
        ensures r[i] < n - 1
      {
        assert r[i] in r;
      }
      PigeonHole(r, n - 1);
    }
  }

  lemma {:induction false} WithoutLength(s: seq<nat>, x: nat)
    ensures |Without(s, x)| >= |s| - 1
  {
    if s != [] {
      WithoutLength(s[1..], x);
    }
  }

  /** Hence every queued process runs within MAX_PROC - 1 calls of `next`. */
  lemma WaitsLessThanMaxProc(k: Kernel, es: seq<Request>, s: nat)
    requires Inv(k) && k.cpu.Runs? && s in k.ready
    requires NeverEvicted(k, es, s)
    ensures NextCalls(k, es) >= MAX_PROC - 1 ==> Selected(k, es, s)
  {
    NoDupCons(k.cpu.slot, k.ready);
    var all := [k.cpu.slot] + k.ready;
    PigeonHole(all, |k.procs|);
    IndexAt(k.ready, s);
    BoundedWaiting(k, es, s);
  }

  // ---------------------------------------------------------------- the idle process

  /** What a timer interrupt does to process `s`. */
  lemma TimerEffect(k: Kernel, p: nat, s: nat)
    requires Inv(k) && k.cpu == Runs(p) && s < MAX_PROC
    ensures Serve(k, p, SysTimer).procs[s].pid == k.procs[s].pid
    ensures Serve(k, p, SysTimer).procs[s].waitpid == k.procs[s].waitpid
    ensures Serve(k, p, SysTimer).procs[s].state == if s in Tick(k.asleep).0 then Ready else k.procs[s].state
  {
    TickSlots(k.asleep);
    WakeAllEffect(k.(asleep := Tick(k.asleep).1), Tick(k.asleep).0);
  }

  lemma KillKeepsPid(k: Kernel, pid: nat, signum: int, s: nat)
    requires Sized(k) && s < MAX_PROC
    ensures Kill(k, pid, signum).0.procs[s].pid == k.procs[s].pid
  {
    var t := FindSlot(k, pid);
    if Strikes(k, SysKill(pid, signum), t) {
      KillEffect(k, pid, signum, t);
    }
  }

  lemma CreateKeepsPid(k: Kernel, frame: nat, s: nat)
    requires Sized(k) && s < MAX_PROC && k.procs[s].state != Stopped
    ensures Create(k, frame).0.procs[s].pid == k.procs[s].pid
  {
    ProbeFinds(k.procs, k.nextpid, |k.procs|);
  }

  /** Only a Stopped slot, taken by `create`, changes its pid. */
  lemma ServeKeepsPid(k: Kernel, p: nat, e: Request, s: nat)
    requires Inv(k) && k.cpu == Runs(p) && s < MAX_PROC && k.procs[s].state != Stopped
    ensures Serve(k, p, e).procs[s].pid == k.procs[s].pid
  {
    match e
    case SysCreate(frame) => CreateKeepsPid(k, frame, s);
    case SysKill(pid, signum) => KillKeepsPid(k, pid, signum, s);
    case SysTimer => TimerEffect(k, p, s);
    case _ =>
  }

  /** The idle process has the processor or waits for it. */
  ghost predicate IdleAround(k: Kernel, idle: nat, pid: nat) {
    && Inv(k)
    && idle < MAX_PROC
    && k.procs[idle].pid == pid
    && (k.cpu == Runs(idle) || (k.cpu.Runs? && idle in k.ready))
  }

  /** The idle process only yields or is preempted (c/init.c:20-26), and nobody sends it signal 31. */
  ghost predicate Idles(k: Kernel, es: seq<Request>, idle: nat, pid: nat)
    requires Inv(k)
    decreases es
  {
    es != [] ==>
      && (k.cpu == Runs(idle) ==> es[0].SysYield? || es[0].SysTimer?)
      && (es[0].SysKill? && es[0].signum == 31 ==> es[0].pid != pid)
      && (Idles(Step(k, es[0]), es[1..], idle, pid))
  }

  /** Whatever is served, the idle process is queued afterwards or keeps the processor's place. */
  lemma IdleServed(k: Kernel, e: Request, idle: nat, pid: nat)
    requires IdleAround(k, idle, pid)
    requires k.cpu == Runs(idle) ==> e.SysYield? || e.SysTimer?
    requires e.SysKill? && e.signum == 31 ==> e.pid != pid
    ensures idle in Serve(k, k.cpu.slot, e).ready
  {
    var p := k.cpu.slot;
    var m := Serve(k, p, e);
    if p == idle {
      if e.SysTimer? {
        TimerSettled(k, p);
      }
      assert m.ready[|m.ready| - 1] == idle;
    } else {
      ServeKeepsPlace(k, p, e, idle);
    }
  }

  lemma IdleStep(k: Kernel, e: Request, idle: nat, pid: nat)
    requires IdleAround(k, idle, pid)
    requires k.cpu == Runs(idle) ==> e.SysYield? || e.SysTimer?
    requires e.SysKill? && e.signum == 31 ==> e.pid != pid
    ensures IdleAround(Step(k, e), idle, pid)
  {
    var p := k.cpu.slot;
    ServeKeepsPid(k, p, e, idle);
    ServeKeepsCpu(k, p, e);
    IdleServed(k, e, idle, pid);
    NextServes(Serve(k, p, e), idle);
  }

  /** A queued process is given the processor by `next` or stays queued. */
  lemma NextServes(m: Kernel, s: nat)
    requires s in m.ready
    ensures Next(m).cpu.Runs? && (Next(m).cpu == Runs(s) || s in Next(m).ready)
    ensures Next(m).procs == m.procs
  {
    assert m.ready == [m.ready[0]] + m.ready[1..];
  }

  /** With such an idle process `next` never meets an empty queue: in every run somebody is running. */
  lemma {:induction false} NeverHangs(k: Kernel, es: seq<Request>, idle: nat, pid: nat)
    requires IdleAround(k, idle, pid) && Idles(k, es, idle, pid)
    ensures Run(k, es).cpu.Runs? && IdleAround(Run(k, es), idle, pid)
    decreases es
  {
    if es != [] {
      IdleStep(k, es[0], idle, pid);
      NeverHangs(Step(k, es[0]), es[1..], idle, pid);
    }
  }

  // ---------------------------------------------------------------- sleepers

  /** A length is an `unsigned int`, and a timer interrupt does not find the head's difference run out. */
  predicate Smoothly(k: Kernel, e: Request) {
    && (e.SysSleep? ==> e.len < WORD)
    && (e.SysTimer? ==> Ticking(k.asleep))
  }

  /** What one request does to the sleep queue. */
  function AsleepAfter(k: Kernel, p: nat, e: Request): seq<Sleeper>
  {
    match e
    case SysSleep(len) => if len < 1 then k.asleep else Insert(k.asleep, p, len / MILLISECONDS_TICK)
    case SysTimer => Tick(k.asleep).1
    case SysKill(pid, signum) =>
      var t := FindSlot(k, pid);
      if Strikes(k, e, t) && k.procs[t].state == Sleeping then Remove(k.asleep, t) else k.asleep
    case _ => k.asleep
  }

  lemma ServeAsleep(k: Kernel, p: nat, e: Request)
    requires Inv(k) && k.cpu == Runs(p)
    ensures Serve(k, p, e).asleep == AsleepAfter(k, p, e)
  {
    match e
    case SysKill(pid, signum) =>
      if Strikes(k, e, FindSlot(k, pid)) {
        KillEffect(k, pid, signum, FindSlot(k, pid));
      }
    case SysTimer => TimerSettled(k, p);
    case _ =>
  }

  lemma StepBounded(k: Kernel, e: Request)
    requires Inv(k) && Bounded(k.asleep) && Smoothly(k, e)
    ensures Bounded(Step(k, e).asleep)
  {
    if k.cpu.Runs? {
      var p := k.cpu.slot;
      ServeAsleep(k, p, e);
      match e
      case SysSleep(len) => InsertKeepsBounds(k.asleep, p, len / MILLISECONDS_TICK);
      case SysTimer => TickKeepsBounds(k.asleep);
      case SysKill(pid, _) => RemoveKeepsBounds(k.asleep, FindSlot(k, pid));
      case _ =>
    }
  }

  lemma WokenGetsReady(k: Kernel, s: nat)
    requires Inv(k) && k.cpu.Runs?
    ensures Step(k, SysTimer).cpu.Runs?
    ensures s in Tick(k.asleep).0 ==> Step(k, SysTimer).cpu == Runs(s) || s in Step(k, SysTimer).ready
  {
    TimerSettled(k, k.cpu.slot);
    var r := Serve(k, k.cpu.slot, SysTimer).ready;
    assert r == [r[0]] + r[1..];
    assert s in Tick(k.asleep).0 ==> s in r;
  }

  /** What a request other than a timer interrupt does to the remaining time of a sleeper: nothing. */
  lemma SleeperSleepsOn(k: Kernel, p: nat, e: Request, s: nat)
    requires Shape(k) && Bounded(k.asleep) && p < MAX_PROC && k.procs[p].state == Ready
    requires Has(k.asleep, s) && !Strikes(k, e, s) && !e.SysTimer? && (e.SysSleep? ==> e.len < WORD)
    ensures Has(AsleepAfter(k, p, e), s) && Remaining(AsleepAfter(k, p, e), s) == Remaining(k.asleep, s)
  {
    match e
    case SysSleep(len) =>
      NotQueued(k, p);
      HasSlots(k.asleep, p);
      RemainingInsert(k.asleep, p, len / MILLISECONDS_TICK, s);
    case SysKill(pid, _) =>
      if Strikes(k, e, FindSlot(k, pid)) {
        RemainingRemove(k.asleep, FindSlot(k, pid), s);
      }
    case _ =>
  }

  /** One step seen by a sleeper that is not struck by `kill`. */
  lemma SleeperStep(k: Kernel, e: Request, s: nat)
    requires Inv(k) && Bounded(k.asleep) && Smoothly(k, e)
    requires k.cpu.Runs? && Has(k.asleep, s) && !Strikes(k, e, s)
    ensures !e.SysTimer? ==> Has(Step(k, e).asleep, s) && Remaining(Step(k, e).asleep, s) == Remaining(k.asleep, s)
    ensures e.SysTimer? && Remaining(k.asleep, s) > 1 ==>
              Has(Step(k, e).asleep, s) && Remaining(Step(k, e).asleep, s) == Remaining(k.asleep, s) - 1
    ensures e.SysTimer? && Remaining(k.asleep, s) <= 1 ==>
              Step(k, e).cpu == Runs(s) || (Step(k, e).cpu.Runs? && s in Step(k, e).ready)
  {
    StepAsleep(k, e);
    if e.SysTimer? {
      RemainingTick(k.asleep, s);
      WokenGetsReady(k, s);
    } else {
      SleeperSleepsOn(k, k.cpu.slot, e, s);
    }
  }

  lemma StepAsleep(k: Kernel, e: Request)
    requires Inv(k) && k.cpu.Runs?
    ensures Step(k, e).asleep == AsleepAfter(k, k.cpu.slot, e)
  {
    ServeAsleep(k, k.cpu.slot, e);
  }

  /** How many timer interrupts a run serves. */
  ghost function TimerTurns(k: Kernel, es: seq<Request>): nat
    requires Inv(k)
    decreases es
  {
    if es == [] then 0
    else
      (if k.cpu.Runs? && es[0].SysTimer? then 1 else 0) + TimerTurns(Step(k, es[0]), es[1..])
  }

  /** No `kill` strikes `s`, and no timer interrupt finds the head of the sleep queue run out. */
  ghost predicate Undisturbed(k: Kernel, es: seq<Request>, s: nat)
    requires Inv(k)
    decreases es
  {
    es != [] ==>
      && (k.cpu.Runs? ==> Smoothly(k, es[0]))
      && !Strikes(k, es[0], s)
      && (Undisturbed(Step(k, es[0]), es[1..], s))
  }

  /** Before its last tick a sleeper stays asleep, and its remaining time falls by one a timer interrupt. */
  lemma {:induction false} SleeperCountsDown(k: Kernel, es: seq<Request>, s: nat)
    requires Inv(k) && Bounded(k.asleep) && Has(k.asleep, s) && Undisturbed(k, es, s)
    requires TimerTurns(k, es) < Remaining(k.asleep, s)
    ensures Bounded(Run(k, es).asleep) && Has(Run(k, es).asleep, s)
    ensures Remaining(Run(k, es).asleep, s) == Remaining(k.asleep, s) - TimerTurns(k, es)
    decreases es
  {
    if es != [] {
      if k.cpu.Runs? {
        StepBounded(k, es[0]);
        SleeperStep(k, es[0], s);
      }
      SleeperCountsDown(Step(k, es[0]), es[1..], s);
    }
  }

  /**
   A sleeper with n ticks left is ready after exactly the n-th timer interrupt, and has the
   processor within MAX_PROC - 1 further calls of `next` unless it is evicted.
   */
  lemma SleeperGetsTheProcessor(k: Kernel, es: seq<Request>, more: seq<Request>, s: nat)
    requires Inv(k) && Bounded(k.asleep) && Has(k.asleep, s) && Undisturbed(k, es, s)
    requires TimerTurns(k, es) == Remaining(k.asleep, s) - 1 && Run(k, es).cpu.Runs? && Ticking(Run(k, es).asleep)
    requires NeverEvicted(Step(Run(k, es), SysTimer), more, s)
    ensures Remaining(Run(k, es).asleep, s) == 1
    ensures var woken := Step(Run(k, es), SysTimer);
            || woken.cpu == Runs(s)
            || (s in woken.ready && (NextCalls(woken, more) >= MAX_PROC - 1 ==> Selected(woken, more, s)))
  {
    SleeperCountsDown(k, es, s);
    var m := Run(k, es);
    SleeperStep(m, SysTimer, s);
    var n := Step(m, SysTimer);
    if n.cpu != Runs(s) {
      WaitsLessThanMaxProc(n, more, s);
    }
  }
}
