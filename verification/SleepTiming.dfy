/** What the delta queue of c/sleep.c means for one process: when it wakes, and when it does not. */
module SleepTiming {
  import opened Machine
  import opened DeltaQueue
  import opened AlarmClock
  import opened SleepRefinement

  // ---------------------------------------------------------------- one sleeper over a whole run

  lemma {:induction false} FitsConcat(c: Clock, xs: seq<Event>, ys: seq<Event>)
    requires FitsRun(c, xs + ys)
    ensures FitsRun(c, xs) && FitsRun(Reference(c, xs), ys)
    ensures Reference(c, xs).now == c.now + Ticks(xs)
    ensures Reference(c, xs + ys) == Reference(Reference(c, xs), ys)
    decreases xs
  {
    if xs == [] {
      assert xs + ys == ys;
    } else {
      assert (xs + ys)[1..] == xs[1..] + ys;
      FitsConcat(Keeps(c, xs[0]), xs[1..], ys);
    }
  }

  const BOOT := Timeline(0, [], [])
  const UNSET := Clock(0, 0, [], [])

  /** A run of the source from boot in which no tick finds the head's difference run out. */
  ghost predicate Smooth(es: seq<Event>) {
    LegalRun(BOOT, es) && NeverStuck(BOOT, es)
  }

  lemma SmoothRefines(es: seq<Event>)
    requires Smooth(es)
    ensures FitsRun(UNSET, es) && Refines(Replay(BOOT, es), Reference(UNSET, es))
  {
    RunRefines(BOOT, UNSET, es);
  }

  /** An alarm set by the run `xs` and followed over the run `ys`. */
  lemma AlarmFate(xs: seq<Event>, ys: seq<Event>, a: Alarm)
    requires FitsRun(UNSET, xs + ys)
    requires a in Reference(UNSET, xs).asleep && Cancelled(a.slot) !in ys && Ticks(xs) < a.due
    ensures Ticks(xs) + Ticks(ys) < a.due ==> a in Reference(UNSET, xs + ys).asleep
    ensures Ticks(xs) + Ticks(ys) >= a.due ==> a in Reference(UNSET, xs + ys).rung
  {
    FitsConcat(UNSET, xs, ys);
    ClockRun(UNSET, xs);
    AlarmRingsWhenDue(Reference(UNSET, xs), ys, a);
  }

  lemma RungIsPast(es: seq<Event>)
    requires FitsRun(UNSET, es)
    ensures forall i :: 0 <= i < |Reference(UNSET, es).rung| ==> Reference(UNSET, es).rung[i].due <= Ticks(es)
  {
    ClockRun(UNSET, es);
    assert es + [] == es;
    FitsConcat(UNSET, es, []);
    var c := Reference(UNSET, es);
    assert forall i :: 0 <= i < |c.rung| ==> c.rung[i] in c.rung;
  }

  lemma LogIsPast(es: seq<Event>)
    requires Smooth(es)
    ensures SameLog(Replay(BOOT, es).woken, Reference(UNSET, es).rung)
    ensures forall i :: 0 <= i < |Replay(BOOT, es).woken| ==> Replay(BOOT, es).woken[i].tick <= Ticks(es)
  {
    SmoothRefines(es);
    RungIsPast(es);
  }

  lemma AsleepIsQueued(es: seq<Event>, a: Alarm)
    requires Smooth(es) && a in Reference(UNSET, es).asleep
    ensures a.slot in Slots(Replay(BOOT, es).queue)
  {
    SmoothRefines(es);
    var s := Reference(UNSET, es).asleep;
    SortedFacts(s);
    TracksSlots(Replay(BOOT, es).queue, Replay(BOOT, es).now, Sorted(s));
  }

  lemma RungIsLogged(woken: seq<Wake>, rung: seq<Alarm>, a: Alarm)
    requires SameLog(woken, rung) && a in rung
    ensures a.due >= 0 && Wake(a.slot, a.due) in woken
  {
    var i :| 0 <= i < |rung| && rung[i] == a;
    assert woken[i] == Wake(a.slot, a.due);
  }

  /** An alarm set by the run `xs` wakes its process at its due tick, and no tick sooner. */
  lemma WakesWhenDue(xs: seq<Event>, ys: seq<Event>, a: Alarm)
    requires Smooth(xs + ys)
    requires a in Reference(UNSET, xs).asleep && Cancelled(a.slot) !in ys && Ticks(xs) < a.due
    ensures Wake(a.slot, a.due) in Replay(BOOT, xs + ys).woken <==> Ticks(xs) + Ticks(ys) >= a.due
    ensures Ticks(xs) + Ticks(ys) < a.due ==> a.slot in Slots(Replay(BOOT, xs + ys).queue)
  {
    SmoothRefines(xs + ys);
    AlarmFate(xs, ys, a);
    LogIsPast(xs + ys);
    TicksConcat(xs, ys);
    if Ticks(xs) + Ticks(ys) >= a.due {
      RungIsLogged(Replay(BOOT, xs + ys).woken, Reference(UNSET, xs + ys).rung, a);
    } else {
      AsleepIsQueued(xs + ys, a);
    }
  }

  lemma {:induction false} TicksConcat(xs: seq<Event>, ys: seq<Event>)
    ensures Ticks(xs + ys) == Ticks(xs) + Ticks(ys)
  {
    if xs == [] {
      assert xs + ys == ys;
    } else {
      assert (xs + ys)[1..] == xs[1..] + ys;
      TicksConcat(xs[1..], ys);
    }
  }

  lemma SleepSetsAlarm(before: seq<Event>, slot: nat, len: nat)
    requires FitsRun(UNSET, before + [SleepFor(slot, len)]) && len >= MILLISECONDS_TICK
    ensures Ticks(before + [SleepFor(slot, len)]) == Ticks(before)
    ensures Alarm(slot, Ticks(before) + len / MILLISECONDS_TICK, Reference(UNSET, before).calls)
            in Reference(UNSET, before + [SleepFor(slot, len)]).asleep
  {
    var e := SleepFor(slot, len);
    FitsConcat(UNSET, before, [e]);
    TicksConcat(before, [e]);
    var c, d := Reference(UNSET, before), Reference(UNSET, before + [e]);
    assert d == Keeps(c, e) by {
      assert [e][1..] == [];
    }
    assert d.asleep[|c.asleep|] == Alarm(slot, c.now + len / MILLISECONDS_TICK, c.calls);
  }

  /**
   A process that calls `sleep(len)`, len >= 10, and is not taken off the queue is woken on exactly
   the (len / 10)-th tick after the call, whatever else happens, as long as no tick finds the head
   run out.
   */
  lemma SleeperWakesOnTime(before: seq<Event>, slot: nat, len: nat, after: seq<Event>)
    requires Smooth(before + [SleepFor(slot, len)] + after)
    requires len >= MILLISECONDS_TICK && Cancelled(slot) !in after
    ensures Wake(slot, Ticks(before) + len / MILLISECONDS_TICK)
              in Replay(BOOT, before + [SleepFor(slot, len)] + after).woken
            <==> Ticks(after) >= len / MILLISECONDS_TICK
    ensures Ticks(after) < len / MILLISECONDS_TICK ==>
              slot in Slots(Replay(BOOT, before + [SleepFor(slot, len)] + after).queue)
  {
    var xs, due := before + [SleepFor(slot, len)], Ticks(before) + len / MILLISECONDS_TICK;
    SmoothRefines(xs + after);
    FitsConcat(UNSET, xs, after);
    SleepSetsAlarm(before, slot, len);
    WakesWhenDue(xs, after, Alarm(slot, due, Reference(UNSET, before).calls));
  }

  /**
   Wake order is stable over whole runs: the log is sorted by deadline, and processes with the
   same deadline are woken in the order of their calls.  Each is woken at its own deadline.
   */
  lemma WakeOrderIsStable(es: seq<Event>)
    requires Smooth(es)
    ensures var t, rung := Replay(BOOT, es), Reference(UNSET, es).rung;
            && SameLog(t.woken, rung)
            && (forall i, j :: 0 <= i < j < |rung| ==> Before(rung[i], rung[j]))
  {
    SmoothRefines(es);
    ClockRun(UNSET, es);
  }

  /**
   The bound behind the 32-bit arithmetic: in every queue reached without a stuck tick no sum
   leaves `int`, and the head's difference is at least 1 unless somebody asleep is due already,
   which takes a sleep of 1..9 ms since the last tick.
   */
  lemma ReachableQueuesAreBounded(es: seq<Event>, i: nat)
    requires Smooth(es)
    requires i <= |Replay(BOOT, es).queue|
    ensures var q := Replay(BOOT, es).queue;
            && NonNegative(q)
            && 0 <= Sum(q[..i]) <= MAX_TICKS < HALF
            && (Ticking(q) <==> forall a :: a in Reference(UNSET, es).asleep ==> a.due > Ticks(es))
  {
    SmoothRefines(es);
    var t := Replay(BOOT, es);
    PrefixSum(t.queue, i);
    TickingIff(t.queue, t.now, Reference(UNSET, es).asleep);
    assert es + [] == es;
    FitsConcat(UNSET, es, []);
  }

  lemma {:induction false} PrefixSum(q: seq<Sleeper>, i: nat)
    requires NonNegative(q) && i <= |q|
    ensures 0 <= Sum(q[..i]) <= Sum(q)
  {
    SumNonNegative(q);
    if i > 0 {
      assert q[..i][1..] == q[1..][..i - 1];
      PrefixSum(q[1..], i - 1);
    }
  }

  // ---------------------------------------------------------------- stuck ticks in terms of the calls

  /** A sleep that becomes 0 ticks. */
  predicate Short(e: Event) {
    e.SleepFor? && 1 <= e.len < MILLISECONDS_TICK
  }

  ghost predicate CancelledBetween(es: seq<Event>, slot: nat, i: int, j: int) {
    exists k :: i <= k < j && 0 <= k < |es| && es[k] == Cancelled(slot)
  }

  /** Before every tick after a short sleep the sleeper was taken off the queue. */
  ghost predicate ShortSleepsCancelled(es: seq<Event>) {
    forall i, j :: 0 <= i < j < |es| && Short(es[i]) && es[j].Ticked? ==> CancelledBetween(es, es[i].slot, i + 1, j)
  }

  /** The same for those in `owed`, who sleep already. */
  ghost predicate OwedCancelled(owed: set<nat>, es: seq<Event>) {
    forall s, j :: s in owed && 0 <= j < |es| && es[j].Ticked? ==> CancelledBetween(es, s, 0, j)
  }

  lemma BetweenTail(es: seq<Event>, slot: nat, i: int, j: int)
    requires es != [] && i >= 0
    ensures CancelledBetween(es, slot, i + 1, j + 1) <==> CancelledBetween(es[1..], slot, i, j)
  {
    if k :| i + 1 <= k < j + 1 && 0 <= k < |es| && es[k] == Cancelled(slot) {
      assert es[1..][k - 1] == Cancelled(slot);
    }
    if k :| i <= k < j && 0 <= k < |es[1..]| && es[1..][k] == Cancelled(slot) {
      assert es[k + 1] == Cancelled(slot);
    }
  }

  lemma BetweenHead(es: seq<Event>, slot: nat, j: nat)
    requires es != []
    ensures CancelledBetween(es, slot, 0, j + 1) <==> es[0] == Cancelled(slot) || CancelledBetween(es[1..], slot, 0, j)
  {
    BetweenTail(es, slot, 0, j);
    if es[0] == Cancelled(slot) {
      assert CancelledBetween(es, slot, 0, j + 1);
    }
  }

  lemma OwedStep(owed: set<nat>, es: seq<Event>)
    requires es != []
    ensures OwedCancelled(owed, es)
            <==> (es[0].Ticked? ==> owed == {})
                 && OwedCancelled(if es[0].Cancelled? then owed - {es[0].slot} else owed, es[1..])
  {
    var r, rest := es[1..], if es[0].Cancelled? then owed - {es[0].slot} else owed;
    if OwedCancelled(owed, es) {
      assert forall s :: s in owed && es[0].Ticked? ==> CancelledBetween(es, s, 0, 0);
      forall s, j | s in rest && 0 <= j < |r| && r[j].Ticked?
        ensures CancelledBetween(r, s, 0, j)
      {
        assert es[j + 1] == r[j];
        BetweenHead(es, s, j);
      }
    }
    if (es[0].Ticked? ==> owed == {}) && OwedCancelled(rest, r) {
      forall s, j | s in owed && 0 <= j < |es| && es[j].Ticked?
        ensures CancelledBetween(es, s, 0, j)
      {
        assert j > 0 && es[j] == r[j - 1];
        BetweenHead(es, s, j - 1);
      }
    }
  }

  lemma ShortStep(es: seq<Event>)
    requires es != []
    ensures ShortSleepsCancelled(es)
            <==> ShortSleepsCancelled(es[1..]) && (Short(es[0]) ==> OwedCancelled({es[0].slot}, es[1..]))
  {
    var r := es[1..];
    if ShortSleepsCancelled(es) {
      forall i, j | 0 <= i < j < |r| && Short(r[i]) && r[j].Ticked?
        ensures CancelledBetween(r, r[i].slot, i + 1, j)
      {
        assert es[i + 1] == r[i] && es[j + 1] == r[j];
        BetweenTail(es, r[i].slot, i + 1, j);
      }
      if Short(es[0]) {
        forall j | 0 <= j < |r| && r[j].Ticked?
          ensures CancelledBetween(r, es[0].slot, 0, j)
        {
          assert es[j + 1] == r[j];
          BetweenTail(es, es[0].slot, 0, j);
        }
      }
    }
    if ShortSleepsCancelled(r) && (Short(es[0]) ==> OwedCancelled({es[0].slot}, r)) {
      forall i, j | 0 <= i < j < |es| && Short(es[i]) && es[j].Ticked?
        ensures CancelledBetween(es, es[i].slot, i + 1, j)
      {
        assert es[j] == r[j - 1] && (i > 0 ==> es[i] == r[i - 1]);
        BetweenTail(es, es[i].slot, i, j - 1);
      }
    }
  }

  lemma OwedUnion(a: set<nat>, b: set<nat>, es: seq<Event>)
    ensures OwedCancelled(a + b, es) <==> OwedCancelled(a, es) && OwedCancelled(b, es)
  {
  }

  /** Those whose alarm is due already: they sleep 0 ticks. */
  ghost predicate DueAlready(c: Clock, owed: set<nat>) {
    forall s :: s in owed <==> exists a :: a in c.asleep && a.slot == s && a.due <= c.now
  }

  lemma DueAfterStep(t: Timeline, c: Clock, e: Event, owed: set<nat>)
    requires Refines(t, c) && Legal(t, e) && (e.Ticked? ==> Ticking(t.queue)) && DueAlready(c, owed)
    ensures DueAlready(Keeps(c, e),
                       if Short(e) then owed + {e.slot} else if e.Cancelled? then owed - {e.slot} else owed)
  {
    var d := Keeps(c, e);
    match e
    case SleepFor(slot, len) =>
      if len >= 1 {
        assert d.asleep == c.asleep + [Alarm(slot, c.now + len / MILLISECONDS_TICK, c.calls)];
        assert d.asleep[|c.asleep|] in d.asleep;
      }
    case Cancelled(slot) => KeepMembers(c.asleep, NotSlot(slot));
    case Ticked =>
      TickingIff(t.queue, t.now, c.asleep);
      KeepMembers(c.asleep, DueAfter(c.now + 1));
  }

  lemma TickingOwesNobody(t: Timeline, c: Clock, owed: set<nat>)
    requires Refines(t, c) && DueAlready(c, owed)
    ensures Ticking(t.queue) <==> owed == {}
  {
    TickingIff(t.queue, t.now, c.asleep);
    assert owed == {} ==> forall a :: a in c.asleep && a.due <= c.now ==> a.slot in owed;
  }

  lemma {:induction false} NeverStuckByCalls(t: Timeline, c: Clock, es: seq<Event>, owed: set<nat>)
    requires Refines(t, c) && LegalRun(t, es) && DueAlready(c, owed)
    ensures NeverStuck(t, es) <==> OwedCancelled(owed, es) && ShortSleepsCancelled(es)
    decreases es
  {
    if es != [] {
      var e, r := es[0], es[1..];
      OwedStep(owed, es);
      ShortStep(es);
      TickingOwesNobody(t, c, owed);
      if !(e.Ticked? && !Ticking(t.queue)) {
        StepRefines(t, c, e);
        DueAfterStep(t, c, e, owed);
        if Short(e) {
          OwedUnion(owed, {e.slot}, r);
        }
        NeverStuckByCalls(Happen(t, e), Keeps(c, e), r,
                          if Short(e) then owed + {e.slot} else if e.Cancelled? then owed - {e.slot} else owed);
      }
    }
  }

  /**
   From boot no tick is ever stuck if and only if every process that sleeps 1..9 ms is taken off
   the queue again before the next tick.
   */
  lemma NeverStuckIff(es: seq<Event>)
    requires LegalRun(BOOT, es)
    ensures NeverStuck(BOOT, es) <==> ShortSleepsCancelled(es)
  {
    NeverStuckByCalls(BOOT, UNSET, es, {});
  }

  // ---------------------------------------------------------------- remaining time of one sleeper

  predicate Has(q: seq<Sleeper>, slot: nat) {
    q != [] && (q[0].slot == slot || Has(q[1..], slot))
  }

  /** The sum of the differences up to and including the sleeper's own. */
  function Remaining(q: seq<Sleeper>, slot: nat): int {
    if q == [] then 0
    else if q[0].slot == slot then q[0].diff
    else q[0].diff + Remaining(q[1..], slot)
  }

  lemma {:induction false} HasSlots(q: seq<Sleeper>, slot: nat)
    ensures Has(q, slot) <==> slot in Slots(q)
  {
    if q != [] {
      HasSlots(q[1..], slot);
      assert Slots(q) == [q[0].slot] + Slots(q[1..]);
    }
  }

  lemma {:induction false} RemainingInsert(q: seq<Sleeper>, slot: nat, ticks: nat, other: nat)
    requires Bounded(q) && ticks <= MAX_TICKS
    requires !Has(q, slot)
    ensures Has(Insert(q, slot, ticks), slot) && Remaining(Insert(q, slot, ticks), slot) == ticks
    ensures other != slot ==>
              && Has(Insert(q, slot, ticks), other) == Has(q, other)
              && (Has(q, other) ==> Remaining(Insert(q, slot, ticks), other) == Remaining(q, other))
  {
    if q == [] {
    } else {
      SumNonNegative(q[1..]);
      var r := Insert(q, slot, ticks);
      if ticks < U32(q[0].diff) {
        assert r[1..][1..] == q[1..];
      } else {
        RemainingInsert(q[1..], slot, ticks - q[0].diff, other);
        assert r[1..] == Insert(q[1..], slot, ticks - q[0].diff);
      }
    }
  }

  lemma {:induction false} RemainingRemove(q: seq<Sleeper>, slot: nat, other: nat)
    requires Bounded(q)
    requires other != slot
    ensures Has(Remove(q, slot), other) == Has(q, other)
    ensures Has(q, other) ==> Remaining(Remove(q, slot), other) == Remaining(q, other)
  {
    if q == [] {
    } else {
      SumNonNegative(q[1..]);
      var r := Remove(q, slot);
      if q[0].slot != slot {
        RemainingRemove(q[1..], slot, other);
        assert r[1..] == Remove(q[1..], slot);
      } else if |q| > 1 {
        SumNonNegative(q[1..][1..]);
        assert q[1..][1..] == q[2..];
        assert r[1..] == q[2..];
      }
    }
  }

  lemma {:induction false} RemainingDrain(q: seq<Sleeper>, slot: nat)
    requires NonNegative(q) && Has(q, slot)
    ensures Remaining(q, slot) >= 0
    ensures Remaining(q, slot) == 0 ==> slot in Drain(q).0
    ensures Remaining(q, slot) > 0 ==> Has(Drain(q).1, slot) && Remaining(Drain(q).1, slot) == Remaining(q, slot)
  {
    if q[0].slot != slot {
      RemainingDrain(q[1..], slot);
    }
  }

  lemma RemainingTick(q: seq<Sleeper>, slot: nat)
    requires Bounded(q) && Ticking(q) && Has(q, slot)
    ensures Remaining(q, slot) >= 1
    ensures Remaining(q, slot) == 1 ==> slot in Tick(q).0
    ensures Remaining(q, slot) > 1 ==> Has(Tick(q).1, slot) && Remaining(Tick(q).1, slot) == Remaining(q, slot) - 1
  {
    SumNonNegative(q[1..]);
    var p := [q[0].(diff := I32(q[0].diff - 1))] + q[1..];
    assert p[1..] == q[1..];
    RemainingDrain(p, slot);
  }

  // ---------------------------------------------------------------- killInSleep

  /** c/sleep.c:130-137 for the sleeper at position `i`. */
  function KillInSleep(q: seq<Sleeper>, i: nat): int
    requires i < |q|
  {
    if i == 0 then I32(q[0].diff * MILLISECONDS_TICK)
    else I32((q[i].diff + q[0].diff) * MILLISECONDS_TICK)
  }
}
