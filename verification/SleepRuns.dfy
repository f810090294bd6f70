/** The sleep queue inside the dispatcher: its runs are runs of `SleepRefinement`. */
module SleepRuns {
  import opened Machine
  import opened Sequences
  import opened DeltaQueue
  import opened AlarmClock
  import opened SleepRefinement
  import opened SleepTiming
  import opened SleepDelay
  import opened KernelModel
  import opened KernelSafety
  import opened KernelProgress

  /** What one request of the running process `p` means for the sleep queue. */
  function Seen(k: Kernel, p: nat, e: Request): seq<Event> {
    match e
    case SysSleep(len) => [SleepFor(p, len)]
    case SysTimer => [Ticked]
    case SysKill(pid, _) =>
      var t := FindSlot(k, pid);
      if Strikes(k, e, t) && k.procs[t].state == Sleeping then [Cancelled(t)] else []
    case _ => []
  }

  /** What a run of the dispatcher means for the sleep queue. */
  ghost function Events(k: Kernel, es: seq<Request>): seq<Event>
    requires Inv(k)
    decreases es
  {
    if es == [] then []
    else (if k.cpu.Runs? then Seen(k, k.cpu.slot, es[0]) else []) + Events(Step(k, es[0]), es[1..])
  }

  /** Lengths are `unsigned int`s. */
  predicate InWords(es: seq<Request>) {
    forall i :: 0 <= i < |es| && es[i].SysSleep? ==> es[i].len < WORD
  }

  lemma {:induction false} ReplayConcat(t: Timeline, xs: seq<Event>, ys: seq<Event>)
    ensures Replay(t, xs + ys) == Replay(Replay(t, xs), ys)
    ensures LegalRun(t, xs) && LegalRun(Replay(t, xs), ys) ==> LegalRun(t, xs + ys)
    decreases xs
  {
    if xs == [] {
      assert xs + ys == ys;
    } else {
      assert (xs + ys)[0] == xs[0] && (xs + ys)[1..] == xs[1..] + ys;
      ReplayConcat(Happen(t, xs[0]), xs[1..], ys);
    }
  }

  lemma SeenReplays(k: Kernel, e: Request, t: Timeline)
    requires Inv(k) && k.cpu.Runs? && t.queue == k.asleep && (e.SysSleep? ==> e.len < WORD)
    ensures Replay(t, Seen(k, k.cpu.slot, e)).queue == Step(k, e).asleep
    ensures LegalRun(t, Seen(k, k.cpu.slot, e))
  {
    var p := k.cpu.slot;
    ServeAsleep(k, p, e);
    NotQueued(k, p);
    var xs := Seen(k, p, e);
    if xs != [] {
      assert xs == [xs[0]] && xs[1..] == [];
      assert Replay(t, xs) == Happen(t, xs[0]);
    }
  }

  /** In every run of the dispatcher the sleep queue is the replayed one, and the replay is legal. */
  lemma {:induction false} RunIsReplay(k: Kernel, es: seq<Request>, t: Timeline)
    requires Inv(k) && t.queue == k.asleep && InWords(es)
    ensures Replay(t, Events(k, es)).queue == Run(k, es).asleep
    ensures LegalRun(t, Events(k, es))
    decreases es
  {
    if es != [] {
      var xs, m := if k.cpu.Runs? then Seen(k, k.cpu.slot, es[0]) else [], Step(k, es[0]);
      if k.cpu.Runs? {
        SeenReplays(k, es[0], t);
      }
      RunIsReplay(m, es[1..], Replay(t, xs));
      ReplayConcat(t, xs, Events(m, es[1..]));
    }
  }

  /** The results about single queues hold of every sleep queue that the dispatcher reaches. */
  lemma DispatcherQueues(k: Kernel, es: seq<Request>)
    requires Inv(k) && k.asleep == [] && InWords(es)
    ensures Words(Run(k, es).asleep) && NoDup(Slots(Run(k, es).asleep))
  {
    RunIsReplay(k, es, BOOT);
    RunWords(BOOT, Events(k, es));
  }

  /**
   So in every run of the dispatcher that starts with nobody asleep, the wakes agree with the alarm
   clock, tick by tick and in order, if and only if no timer interrupt finds the head run out.
   */
  lemma DispatcherWakesOnTimeIff(k: Kernel, es: seq<Request>)
    requires Inv(k) && k.asleep == [] && InWords(es)
    ensures SameLog(Replay(BOOT, Events(k, es)).woken, Reference(UNSET, Events(k, es)).rung)
            <==> NeverStuck(BOOT, Events(k, es))
    ensures NeverStuck(BOOT, Events(k, es)) ==> Bounded(Run(k, es).asleep)
    ensures NeverStuck(BOOT, Events(k, es)) ==>
              var rung := Reference(UNSET, Events(k, es)).rung;
              forall i, j :: 0 <= i < j < |rung| ==> Before(rung[i], rung[j])
  {
    var xs := Events(k, es);
    RunIsReplay(k, es, BOOT);
    assert Refines(BOOT, UNSET);
    RunRefinesIff(BOOT, UNSET, xs);
    if NeverStuck(BOOT, xs) {
      SmoothRefines(xs);
      WakeOrderIsStable(xs);
    }
  }
}
