/** The delta queue refines the alarm clock, over single operations and over whole runs. */
module SleepRefinement {
  import opened Machine
  import opened DeltaQueue
  import opened AlarmClock

  // ---------------------------------------------------------------- single operations

  /** The queue holds the slots of `s`, in that order, and its prefix sums are their due times. */
  ghost predicate Tracks(q: seq<Sleeper>, now: int, s: seq<Alarm>) {
    if q == [] then s == []
    else
      && s != []
      && s[0].slot == q[0].slot
      && s[0].due == now + q[0].diff
      && Tracks(q[1..], now + q[0].diff, s[1..])
  }

  lemma InsertFrontTracks(q: seq<Sleeper>, now: int, s: seq<Alarm>, slot: nat, ticks: nat, ticket: nat)
    requires Tracks(q, now, s) && q != [] && ticks < q[0].diff <= MAX_TICKS
    ensures Tracks(Insert(q, slot, ticks), now, [Alarm(slot, now + ticks, ticket)] + s)
  {
    var r, a := Insert(q, slot, ticks), [Alarm(slot, now + ticks, ticket)] + s;
    assert r[1..][1..] == q[1..];
    assert a[1..] == s;
    assert Tracks(r[1..], now + ticks, s);
  }

  lemma InsertBehindTracks(q: seq<Sleeper>, now: int, s: seq<Alarm>, slot: nat, ticks: nat, ticket: nat)
    requires Tracks(q, now, s) && q != [] && 0 <= q[0].diff <= ticks <= MAX_TICKS
    requires Tracks(Insert(q[1..], slot, ticks - q[0].diff), now + q[0].diff, Place(s[1..], Alarm(slot, now + ticks, ticket)))
    ensures Tracks(Insert(q, slot, ticks), now, Place(s, Alarm(slot, now + ticks, ticket)))
  {
    var a := Alarm(slot, now + ticks, ticket);
    InsertBehind(q, slot, ticks);
    assert Place(s, a)[1..] == Place(s[1..], a);
  }

  lemma {:induction false} InsertTracks(q: seq<Sleeper>, now: int, s: seq<Alarm>, slot: nat, ticks: nat, ticket: nat)
    requires Tracks(q, now, s)
    requires Bounded(q) && ticks <= MAX_TICKS
    ensures Tracks(Insert(q, slot, ticks), now, Place(s, Alarm(slot, now + ticks, ticket)))
  {
    if q == [] {
    } else {
      SumNonNegative(q[1..]);
      if ticks < U32(q[0].diff) {
        InsertFrontTracks(q, now, s, slot, ticks, ticket);
      } else {
        InsertTracks(q[1..], now + q[0].diff, s[1..], slot, ticks - q[0].diff, ticket);
        InsertBehindTracks(q, now, s, slot, ticks, ticket);
      }
    }
  }

  lemma {:induction false} RemoveTracks(q: seq<Sleeper>, now: int, s: seq<Alarm>, slot: nat)
    requires Tracks(q, now, s) && DistinctSlots(s)
    requires Bounded(q)
    ensures Tracks(Remove(q, slot), now, Keep(s, NotSlot(slot)))
  {
    if q == [] {
    } else {
      SumNonNegative(q[1..]);
      if q[0].slot != slot {
        RemoveTracks(q[1..], now + q[0].diff, s[1..], slot);
        assert Remove(q, slot)[1..] == Remove(q[1..], slot);
        assert Keep(s, NotSlot(slot))[1..] == Keep(s[1..], NotSlot(slot));
      } else {
        KeepAll(s[1..], NotSlot(slot));
        if |q| > 1 {
          SumNonNegative(q[1..][1..]);
          assert q[1..][1..] == q[2..];
          var r := Remove(q, slot);
          assert r[1..] == q[2..];
          assert Tracks(q[1..], now + q[0].diff, s[1..]);
          assert Tracks(r, now, s[1..]);
        }
      }
    }
  }

  lemma {:induction false} DrainTracks(q: seq<Sleeper>, now: int, s: seq<Alarm>)
    requires Tracks(q, now, s) && InOrder(s) && NonNegative(q)
    ensures Drain(q).0 == Who(Keep(s, DueBy(now)))
    ensures Tracks(Drain(q).1, now, Keep(s, DueAfter(now)))
  {
    if q == [] {
    } else if q[0].diff == 0 {
      DrainTracks(q[1..], now, s[1..]);
      assert Drain(q).1 == Drain(q[1..]).1;
    } else {
      KeepAll(s, DueAfter(now));
      KeepNone(s, DueBy(now));
    }
  }

  lemma TickTracksSorted(q: seq<Sleeper>, now: int, s: seq<Alarm>)
    requires Tracks(q, now, s) && InOrder(s) && Bounded(q) && Ticking(q)
    ensures Tick(q).0 == Who(Keep(s, DueBy(now + 1)))
    ensures Tracks(Tick(q).1, now + 1, Keep(s, DueAfter(now + 1)))
  {
    if q != [] {
      SumNonNegative(q[1..]);
      var p := [q[0].(diff := I32(q[0].diff - 1))] + q[1..];
      assert p[1..] == q[1..];
      DrainTracks(p, now + 1, s);
    }
  }

  lemma {:induction false} TracksNotBefore(q: seq<Sleeper>, now: int, s: seq<Alarm>)
    requires Tracks(q, now, s) && NonNegative(q)
    ensures forall a :: a in s ==> a.due >= now
  {
    if q != [] {
      TracksNotBefore(q[1..], now + q[0].diff, s[1..]);
      assert s == [s[0]] + s[1..];
    }
  }

  /** The head's difference has run out exactly when some alarm is due already. */
  lemma TickingIff(q: seq<Sleeper>, now: int, s: seq<Alarm>)
    requires Tracks(q, now, Sorted(s)) && NonNegative(q)
    ensures Ticking(q) <==> forall a :: a in s ==> a.due > now
  {
    SortedFacts(s);
    if q != [] {
      TracksNotBefore(q[1..], now + q[0].diff, Sorted(s)[1..]);
      assert Sorted(s) == [Sorted(s)[0]] + Sorted(s)[1..];
      assert Sorted(s)[0] in s;
    }
  }

  /** One tick wakes exactly the sleepers due at the new time, in the order their alarms were set. */
  lemma TickTracks(q: seq<Sleeper>, now: int, s: seq<Alarm>)
    requires Tracks(q, now, Sorted(s)) && Bounded(q) && Ticking(q)
    ensures Tick(q).0 == Who(Keep(s, DueBy(now + 1)))
    ensures Tracks(Tick(q).1, now + 1, Sorted(Keep(s, DueAfter(now + 1))))
  {
    assert InOrder(Sorted(s)) by {
      SortedFacts(s);
    }
    TickTracksSorted(q, now, Sorted(s));
    KeepSorted(s, DueAfter(now + 1));
    KeepSorted(s, DueBy(now + 1));
    assert Sorted(Keep(s, DueBy(now + 1))) == Keep(s, DueBy(now + 1)) by {
      TickingIff(q, now, s);
      KeepMembers(s, DueBy(now + 1));
      SortedSameDue(Keep(s, DueBy(now + 1)), now + 1);
    }
  }

  // ---------------------------------------------------------------- whole runs

  datatype Event = SleepFor(slot: nat, len: nat) | Cancelled(slot: nat) | Ticked

  datatype Wake = Wake(slot: nat, tick: nat)

  /** The queue with a tick counter and a log of who was woken at which tick. */
  datatype Timeline = Timeline(now: nat, queue: seq<Sleeper>, woken: seq<Wake>)

  function Stamp(slots: seq<nat>, now: nat): (r: seq<Wake>)
    ensures |r| == |slots|
    ensures forall i :: 0 <= i < |r| ==> r[i] == Wake(slots[i], now)
  {
    seq(|slots|, i requires 0 <= i < |slots| => Wake(slots[i], now))
  }

  function Happen(t: Timeline, e: Event): Timeline {
    match e
    case SleepFor(slot, len) =>
      if len < 1 then t else t.(queue := Insert(t.queue, slot, len / MILLISECONDS_TICK))
    case Cancelled(slot) => t.(queue := Remove(t.queue, slot))
    case Ticked =>
      var (woken, rest) := Tick(t.queue);
      Timeline(t.now + 1, rest, t.woken + Stamp(woken, t.now + 1))
  }

  function Replay(t: Timeline, es: seq<Event>): Timeline
    decreases es
  {
    if es == [] then t else Replay(Happen(t, es[0]), es[1..])
  }

  function Keeps(c: Clock, e: Event): Clock {
    match e
    case SleepFor(slot, len) => if len < 1 then c else SetAlarm(c, slot, len / MILLISECONDS_TICK)
    case Cancelled(slot) => Cancel(c, slot)
    case Ticked => Advance(c)
  }

  function Reference(c: Clock, es: seq<Event>): Clock
    decreases es
  {
    if es == [] then c else Reference(Keeps(c, es[0]), es[1..])
  }

  /** The caller of `sleep` is not asleep already, and the length is an `unsigned int`. */
  ghost predicate Legal(t: Timeline, e: Event) {
    e.SleepFor? ==> e.len < WORD && e.slot !in Slots(t.queue)
  }

  ghost predicate LegalRun(t: Timeline, es: seq<Event>)
    decreases es
  {
    es != [] ==> Legal(t, es[0]) && LegalRun(Happen(t, es[0]), es[1..])
  }

  /** No tick finds the head's difference run out. */
  predicate NeverStuck(t: Timeline, es: seq<Event>)
    decreases es
  {
    es != [] ==> (es[0].Ticked? ==> Ticking(t.queue)) && NeverStuck(Happen(t, es[0]), es[1..])
  }

  /** The same two conditions seen from the clock. */
  ghost predicate Fits(c: Clock, e: Event) {
    match e
    case SleepFor(slot, len) => len < WORD && forall a :: a in c.asleep ==> a.slot != slot
    case Cancelled(_) => true
    case Ticked => forall a :: a in c.asleep ==> c.now < a.due
  }

  ghost predicate FitsRun(c: Clock, es: seq<Event>)
    decreases es
  {
    es != [] ==> Fits(c, es[0]) && FitsRun(Keeps(c, es[0]), es[1..])
  }

  /** The log agrees, tick by tick, with the alarms that have rung. */
  ghost predicate SameLog(woken: seq<Wake>, rung: seq<Alarm>) {
    && |woken| == |rung|
    && forall i :: 0 <= i < |woken| ==> woken[i].slot == rung[i].slot && woken[i].tick == rung[i].due
  }

  ghost predicate Refines(t: Timeline, c: Clock) {
    && t.now == c.now
    && Bounded(t.queue)
    && DistinctSlots(c.asleep)
    && Tracks(t.queue, t.now, Sorted(c.asleep))
    && SameLog(t.woken, c.rung)
  }

  lemma {:induction false} KeepDistinct(s: seq<Alarm>, p: Pick)
    requires DistinctSlots(s)
    ensures DistinctSlots(Keep(s, p))
  {
    if s != [] {
      KeepDistinct(s[1..], p);
      KeepMembers(s[1..], p);
      assert forall a :: a in Keep(s[1..], p) ==> a in s[1..] && a.slot != s[0].slot;
    }
  }

  lemma {:induction false} PlaceDistinct(s: seq<Alarm>, a: Alarm)
    requires DistinctSlots(s) && InOrder(s)
    requires forall b :: b in s ==> b.slot != a.slot
    ensures DistinctSlots(Place(s, a))
  {
    if s == [] {
    } else if a.due < s[0].due {
    } else {
      PlaceDistinct(s[1..], a);
      PlaceFacts(s[1..], a);
      assert forall b :: b in Place(s[1..], a) ==> b.slot != s[0].slot;
    }
  }

  lemma {:induction false} SortedDistinct(s: seq<Alarm>)
    requires DistinctSlots(s)
    ensures DistinctSlots(Sorted(s))
  {
    if s != [] {
      var n := |s| - 1;
      SortedDistinct(s[..n]);
      SortedFacts(s[..n]);
      PlaceDistinct(Sorted(s[..n]), s[n]);
    }
  }

  /** The slots on the queue are those of the alarms. */
  lemma {:induction false} TracksSlots(q: seq<Sleeper>, now: int, s: seq<Alarm>)
    requires Tracks(q, now, s)
    ensures forall x :: x in Slots(q) <==> exists a :: a in s && a.slot == x
  {
    if q != [] {
      TracksSlots(q[1..], now + q[0].diff, s[1..]);
      assert s == [s[0]] + s[1..];
      assert Slots(q) == [q[0].slot] + Slots(q[1..]);
      assert s[0] in s;
    }
  }

  lemma LegalFits(t: Timeline, c: Clock, e: Event)
    requires Refines(t, c) && Legal(t, e) && (e.Ticked? ==> Ticking(t.queue))
    ensures Fits(c, e)
  {
    SortedFacts(c.asleep);
    TracksSlots(t.queue, t.now, Sorted(c.asleep));
    TickingIff(t.queue, t.now, c.asleep);
  }

  lemma SleepRefines(t: Timeline, c: Clock, e: Event)
    requires e.SleepFor? && Refines(t, c) && Fits(c, e)
    ensures Refines(Happen(t, e), Keeps(c, e))
  {
    if e.len >= 1 {
      var n := e.len / MILLISECONDS_TICK;
      InsertKeepsBounds(t.queue, e.slot, n);
      InsertTracks(t.queue, t.now, Sorted(c.asleep), e.slot, n, c.calls);
      var s := Keeps(c, e).asleep;
      assert s[..|s| - 1] == c.asleep;
    }
  }

  lemma CancelRefines(t: Timeline, c: Clock, slot: nat)
    requires Refines(t, c)
    ensures Refines(Happen(t, Cancelled(slot)), Keeps(c, Cancelled(slot)))
  {
    RemoveKeepsBounds(t.queue, slot);
    SortedDistinct(c.asleep);
    RemoveTracks(t.queue, t.now, Sorted(c.asleep), slot);
    KeepSorted(c.asleep, NotSlot(slot));
    KeepDistinct(c.asleep, NotSlot(slot));
  }

  lemma TickRefines(t: Timeline, c: Clock)
    requires Refines(t, c) && Ticking(t.queue)
    ensures Refines(Happen(t, Ticked), Keeps(c, Ticked))
  {
    TickKeepsBounds(t.queue);
    TickTracks(t.queue, t.now, c.asleep);
    KeepDistinct(c.asleep, DueAfter(t.now + 1));
    TickLogs(t, c);
  }

  lemma TickLogs(t: Timeline, c: Clock)
    requires Refines(t, c) && Ticking(t.queue) && Tick(t.queue).0 == Who(Keep(c.asleep, DueBy(c.now + 1)))
    ensures SameLog(Happen(t, Ticked).woken, Keeps(c, Ticked).rung)
  {
    var k := Keep(c.asleep, DueBy(c.now + 1));
    forall i | 0 <= i < |k|
      ensures k[i].due == c.now + 1
    {
      TickingIff(t.queue, t.now, c.asleep);
      KeepMembers(c.asleep, DueBy(c.now + 1));
      assert k[i] in k;
    }
  }

  lemma StepRefines(t: Timeline, c: Clock, e: Event)
    requires Refines(t, c) && Legal(t, e) && (e.Ticked? ==> Ticking(t.queue))
    ensures Fits(c, e) && Refines(Happen(t, e), Keeps(c, e))
  {
    LegalFits(t, c, e);
    match e
    case SleepFor(_, _) => SleepRefines(t, c, e);
    case Cancelled(slot) => CancelRefines(t, c, slot);
    case Ticked => TickRefines(t, c);
  }

  /**
   Over every run in which no tick finds the head run out, the delta queue wakes the same
   processes at the same ticks and in the same order as the alarm clock.
   */
  lemma {:induction false} RunRefines(t: Timeline, c: Clock, es: seq<Event>)
    requires Refines(t, c) && LegalRun(t, es) && NeverStuck(t, es)
    ensures FitsRun(c, es) && Refines(Replay(t, es), Reference(c, es))
    decreases es
  {
    if es != [] {
      StepRefines(t, c, es[0]);
      RunRefines(Happen(t, es[0]), Keeps(c, es[0]), es[1..]);
    }
  }

  // ---------------------------------------------------------------- and only in those runs

  lemma {:induction false} LogGrows(t: Timeline, es: seq<Event>)
    ensures |t.woken| <= |Replay(t, es).woken|
    ensures forall i :: 0 <= i < |t.woken| ==> Replay(t, es).woken[i] == t.woken[i]
    ensures forall i :: |t.woken| <= i < |Replay(t, es).woken| ==> Replay(t, es).woken[i].tick > t.now
    decreases es
  {
    if es != [] {
      LogGrows(Happen(t, es[0]), es[1..]);
    }
  }

  lemma {:induction false} RungGrows(c: Clock, es: seq<Event>)
    ensures |c.rung| <= |Reference(c, es).rung|
    ensures forall i :: 0 <= i < |c.rung| ==> Reference(c, es).rung[i] == c.rung[i]
    decreases es
  {
    if es != [] {
      RungGrows(Keeps(c, es[0]), es[1..]);
    }
  }

  /** A tick that finds the head run out wakes nobody, while an alarm rings: the logs have parted. */
  lemma StuckTickParts(t: Timeline, c: Clock, es: seq<Event>)
    requires Refines(t, c) && !Ticking(t.queue)
    ensures !SameLog(Replay(Happen(t, Ticked), es).woken, Reference(Keeps(c, Ticked), es).rung)
  {
    TickingIff(t.queue, t.now, c.asleep);
    var k := Keep(c.asleep, DueBy(c.now + 1));
    KeepMembers(c.asleep, DueBy(c.now + 1));
    var a :| a in c.asleep && a.due <= c.now;
    assert a in k;
    assert k[0] in k && Keeps(c, Ticked).rung[|c.rung|] == k[0];
    assert Tick(t.queue).0 == [];
    LogGrows(Happen(t, Ticked), es);
    RungGrows(Keeps(c, Ticked), es);
  }

  /**
   For every run: the delta queue wakes whom the alarm clock rings, at the same ticks in the same
   order, exactly when no tick finds the head's difference run out.
   */
  lemma {:induction false} RunRefinesIff(t: Timeline, c: Clock, es: seq<Event>)
    requires Refines(t, c) && LegalRun(t, es)
    ensures SameLog(Replay(t, es).woken, Reference(c, es).rung) <==> NeverStuck(t, es)
    decreases es
  {
    if es != [] {
      if es[0].Ticked? && !Ticking(t.queue) {
        StuckTickParts(t, c, es[1..]);
      } else {
        StepRefines(t, c, es[0]);
        RunRefinesIff(Happen(t, es[0]), Keeps(c, es[0]), es[1..]);
      }
    }
  }

  // ---------------------------------------------------------------- what the alarm clock promises

  ghost predicate ClockOk(c: Clock) {
    && (forall a :: a in c.asleep ==> c.now <= a.due && a.ticket < c.calls)
    && (forall i, j :: 0 <= i < j < |c.asleep| ==> c.asleep[i].ticket < c.asleep[j].ticket)
    && (forall a :: a in c.rung ==> a.due <= c.now)
    && (forall i, j :: 0 <= i < j < |c.rung| ==> Before(c.rung[i], c.rung[j]))
  }

  /** Earlier deadline first; for equal deadlines, the earlier call of `sleep`. */
  predicate Before(a: Alarm, b: Alarm) {
    a.due < b.due || (a.due == b.due && a.ticket < b.ticket)
  }

  lemma {:induction false} KeepTickets(s: seq<Alarm>, p: Pick)
    requires forall i, j :: 0 <= i < j < |s| ==> s[i].ticket < s[j].ticket
    ensures forall i, j :: 0 <= i < j < |Keep(s, p)| ==> Keep(s, p)[i].ticket < Keep(s, p)[j].ticket
  {
    if s != [] {
      KeepTickets(s[1..], p);
      KeepMembers(s[1..], p);
      assert forall a :: a in Keep(s[1..], p) ==> a in s[1..] && s[0].ticket < a.ticket;
    }
  }

  lemma ClockStep(c: Clock, e: Event)
    requires ClockOk(c) && Fits(c, e)
    ensures ClockOk(Keeps(c, e))
  {
    match e
    case SleepFor(_, _) =>
    case Cancelled(slot) =>
      KeepTickets(c.asleep, NotSlot(slot));
      KeepMembers(c.asleep, NotSlot(slot));
    case Ticked => AdvanceOk(c);
  }

  /** The alarms that ring now go behind all that rang before. */
  lemma RungInOrder(c: Clock)
    requires ClockOk(c) && Fits(c, Ticked)
    ensures forall i, j :: 0 <= i < j < |Advance(c).rung| ==> Before(Advance(c).rung[i], Advance(c).rung[j])
  {
    var k := Keep(c.asleep, DueBy(c.now + 1));
    KeepMembers(c.asleep, DueBy(c.now + 1));
    KeepTickets(c.asleep, DueBy(c.now + 1));
    assert forall i :: 0 <= i < |k| ==> k[i] in k && k[i].due == c.now + 1;
    assert forall i :: 0 <= i < |c.rung| ==> c.rung[i] in c.rung && c.rung[i].due <= c.now;
  }

  lemma AdvanceOk(c: Clock)
    requires ClockOk(c) && Fits(c, Ticked)
    ensures ClockOk(Advance(c))
  {
    RungInOrder(c);
    KeepMembers(c.asleep, DueBy(c.now + 1));
    KeepMembers(c.asleep, DueAfter(c.now + 1));
    KeepTickets(c.asleep, DueAfter(c.now + 1));
  }

  lemma {:induction false} ClockRun(c: Clock, es: seq<Event>)
    requires ClockOk(c) && FitsRun(c, es)
    ensures ClockOk(Reference(c, es))
    decreases es
  {
    if es != [] {
      ClockStep(c, es[0]);
      ClockRun(Keeps(c, es[0]), es[1..]);
    }
  }

  function Ticks(es: seq<Event>): nat {
    if es == [] then 0 else (if es[0].Ticked? then 1 else 0) + Ticks(es[1..])
  }

  /** An alarm that is never cancelled is asleep before its due tick and has rung from that tick on. */
  lemma {:induction false} AlarmRingsWhenDue(c: Clock, es: seq<Event>, a: Alarm)
    requires ClockOk(c) && FitsRun(c, es) && a in c.asleep && c.now < a.due
    requires Cancelled(a.slot) !in es
    ensures Reference(c, es).now == c.now + Ticks(es)
    ensures c.now + Ticks(es) < a.due ==> a in Reference(c, es).asleep && a !in Reference(c, es).rung
    ensures c.now + Ticks(es) >= a.due ==> a !in Reference(c, es).asleep && a in Reference(c, es).rung
    decreases es
  {
    ClockRun(c, es);
    if es != [] {
      var d := Keeps(c, es[0]);
      ClockStep(c, es[0]);
      match es[0] {
        case SleepFor(_, _) =>
        case Cancelled(slot) => KeepMembers(c.asleep, NotSlot(slot));
        case Ticked =>
          KeepMembers(c.asleep, DueBy(c.now + 1));
          KeepMembers(c.asleep, DueAfter(c.now + 1));
      }
      if a in d.asleep {
        AlarmRingsWhenDue(d, es[1..], a);
      } else {
        RungStays(d, es[1..], a);
      }
    }
  }

  lemma {:induction false} RungStays(c: Clock, es: seq<Event>, a: Alarm)
    requires ClockOk(c) && FitsRun(c, es) && a in c.rung && a !in c.asleep && a.ticket < c.calls
    ensures Reference(c, es).now == c.now + Ticks(es)
    ensures a in Reference(c, es).rung && a !in Reference(c, es).asleep
    decreases es
  {
    if es != [] {
      ClockStep(c, es[0]);
      if es[0].Cancelled? {
        KeepMembers(c.asleep, NotSlot(es[0].slot));
      }
      KeepMembers(c.asleep, DueAfter(c.now + 1));
      RungStays(Keeps(c, es[0]), es[1..], a);
    }
  }
}
