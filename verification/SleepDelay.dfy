/**
 When the sleep queue of c/sleep.c wakes a process, for every queue that 32-bit differences can
 hold and for every length, the lengths of 1..9 ms included that become 0 ticks (c/sleep.c:46).
 */
module SleepDelay {
  import opened Machine
  import opened Sequences
  import opened DeltaQueue
  import opened SleepRefinement
  import opened SleepTiming

  // ---------------------------------------------------------------- a queue left to itself

  /** Everyone woken by `n` ticks with nothing else happening. */
  function WokenBy(q: seq<Sleeper>, n: nat): seq<nat>
    decreases n
  {
    if n == 0 then [] else Tick(q).0 + WokenBy(Tick(q).1, n - 1)
  }

  /** Every difference is an `int`. */
  ghost predicate Words(q: seq<Sleeper>) {
    forall i :: 0 <= i < |q| ==> -HALF <= q[i].diff < HALF
  }

  /** Ticks until the head is drained: c/sleep.c:148 decrements before it compares with 0. */
  function Wait(diff: int): int {
    if diff >= 1 then diff else diff + WORD
  }

  /** Ticks until `slot` is drained, counted from when everyone before `q` has been. */
  function Lag(q: seq<Sleeper>, slot: nat): int {
    if q == [] then 0
    else U32(q[0].diff) + if q[0].slot == slot then 0 else Lag(q[1..], slot)
  }

  function WakeTick(q: seq<Sleeper>, slot: nat): int {
    if q == [] then 0
    else Wait(q[0].diff) + if q[0].slot == slot then 0 else Lag(q[1..], slot)
  }

  lemma {:induction false} DrainLag(q: seq<Sleeper>, slot: nat)
    requires Words(q) && Has(q, slot)
    ensures Lag(q, slot) >= 0 && Words(Drain(q).1)
    ensures slot in Drain(q).0 <==> Lag(q, slot) == 0
    ensures Lag(q, slot) > 0 ==> Has(Drain(q).1, slot) && WakeTick(Drain(q).1, slot) == Lag(q, slot)
  {
    if q[0].slot != slot {
      DrainLag(q[1..], slot);
    }
    if q[0].diff == 0 {
      DrainWords(q[1..]);
    }
  }

  lemma {:induction false} DrainWords(q: seq<Sleeper>)
    requires Words(q)
    ensures Words(Drain(q).1)
  {
    if q != [] && q[0].diff == 0 {
      DrainWords(q[1..]);
    }
  }

  lemma TickWait(q: seq<Sleeper>, slot: nat)
    requires Words(q) && Has(q, slot)
    ensures WakeTick(q, slot) >= 1 && Words(Tick(q).1)
    ensures slot in Tick(q).0 <==> WakeTick(q, slot) == 1
    ensures WakeTick(q, slot) > 1 ==> Has(Tick(q).1, slot) && WakeTick(Tick(q).1, slot) == WakeTick(q, slot) - 1
  {
    var p := [q[0].(diff := I32(q[0].diff - 1))] + q[1..];
    assert p[1..] == q[1..];
    DrainLag(p, slot);
  }

  /** On every queue and for every number of ticks: a sleeper is woken by tick `WakeTick` and not before. */
  lemma {:induction false} WakesExactlyAt(q: seq<Sleeper>, slot: nat, n: nat)
    requires Words(q) && Has(q, slot)
    ensures slot in WokenBy(q, n) <==> n >= WakeTick(q, slot)
    decreases n
  {
    TickWait(q, slot);
    if n > 0 && WakeTick(q, slot) > 1 {
      WakesExactlyAt(Tick(q).1, slot, n - 1);
    }
  }

  // ---------------------------------------------------------------- on time or not

  /** No difference up to and including the sleeper's own is negative. */
  predicate NoneOverdue(q: seq<Sleeper>, slot: nat) {
    q != [] ==> q[0].diff >= 0 && (q[0].slot == slot || NoneOverdue(q[1..], slot))
  }

  lemma {:induction false} LagOnTime(q: seq<Sleeper>, slot: nat)
    requires Words(q)
    ensures Lag(q, slot) >= Remaining(q, slot)
    ensures NoneOverdue(q, slot) ==> Lag(q, slot) == Remaining(q, slot)
    ensures !NoneOverdue(q, slot) ==> Lag(q, slot) >= Remaining(q, slot) + WORD
  {
    if q != [] && q[0].slot != slot {
      LagOnTime(q[1..], slot);
    }
  }

  /**
   The sleeper wakes when its differences add up to the elapsed ticks if and only if the head's
   difference has not run out and none before it is negative; otherwise it is late by 2^32 ticks
   at least.
   */
  lemma OnTimeIff(q: seq<Sleeper>, slot: nat)
    requires Words(q) && Has(q, slot)
    ensures WakeTick(q, slot) == Remaining(q, slot) <==> Ticking(q) && NoneOverdue(q, slot)
    ensures !(Ticking(q) && NoneOverdue(q, slot)) ==> WakeTick(q, slot) >= Remaining(q, slot) + WORD
  {
    LagOnTime(q[1..], slot);
  }

  // ---------------------------------------------------------------- a call of sleep

  lemma {:induction false} InsertWords(q: seq<Sleeper>, slot: nat, ticks: nat)
    requires Words(q) && ticks < HALF
    ensures Words(Insert(q, slot, ticks))
  {
    if q == [] {
    } else if ticks < U32(q[0].diff) {
      InsertFront(q, slot, ticks);
    } else {
      InsertWords(q[1..], slot, ticks - q[0].diff);
      InsertBehind(q, slot, ticks);
    }
  }

  lemma {:induction false} InsertLag(q: seq<Sleeper>, slot: nat, ticks: nat, other: nat)
    requires Words(q) && !Has(q, slot) && ticks < HALF && other != slot
    ensures Has(Insert(q, slot, ticks), slot) && Has(Insert(q, slot, ticks), other) == Has(q, other)
    ensures Lag(Insert(q, slot, ticks), slot) == ticks
    ensures Has(q, other) ==> Lag(Insert(q, slot, ticks), other) == Lag(q, other)
  {
    if q == [] {
    } else if ticks < U32(q[0].diff) {
      InsertFrontLag(q, slot, ticks, other);
    } else {
      InsertLag(q[1..], slot, ticks - q[0].diff, other);
      InsertBehind(q, slot, ticks);
    }
  }

  lemma InsertFrontLag(q: seq<Sleeper>, slot: nat, ticks: nat, other: nat)
    requires Words(q) && q != [] && ticks < U32(q[0].diff) && ticks < HALF && q[0].slot != slot && other != slot
    ensures Words(Insert(q, slot, ticks)) && Has(Insert(q, slot, ticks), slot)
    ensures Lag(Insert(q, slot, ticks), slot) == ticks
    ensures Has(Insert(q, slot, ticks), other) == Has(q, other)
    ensures Has(q, other) ==> Lag(Insert(q, slot, ticks), other) == Lag(q, other)
  {
    InsertFront(q, slot, ticks);
    var r := Insert(q, slot, ticks);
    assert Has(r, other) == Has(r[1..], other);
    assert Lag(r, other) == ticks + Lag(r[1..], other);
  }

  lemma InsertFront(q: seq<Sleeper>, slot: nat, ticks: nat)
    requires Words(q) && q != [] && ticks < U32(q[0].diff) && ticks < HALF
    ensures var r := Insert(q, slot, ticks);
            && Words(r) && |r| > 1 && r[0] == Sleeper(slot, ticks)
            && r[1..][0].slot == q[0].slot && U32(r[1..][0].diff) == U32(q[0].diff) - ticks
            && r[1..][1..] == q[1..]
  {
    var r := Insert(q, slot, ticks);
    assert r[1..][1..] == q[1..];
  }

  /** Whether the new sleeper is 2^32 ticks late: it sleeps 0 ticks, or queues behind one that does. */
  predicate Stuck(q: seq<Sleeper>, ticks: nat) {
    ticks == 0 || (q != [] && q[0].diff == 0)
  }

  /** Whether everyone else is held up for 2^32 more ticks: 0 ticks go in front of a running head. */
  predicate HoldsUp(q: seq<Sleeper>, ticks: nat) {
    ticks == 0 && q != [] && q[0].diff != 0
  }

  lemma InsertFrontWake(q: seq<Sleeper>, slot: nat, ticks: nat, other: nat)
    requires Words(q) && q != [] && ticks < U32(q[0].diff) && ticks < HALF && q[0].slot != slot && other != slot
    ensures var r := Insert(q, slot, ticks);
            && WakeTick(r, slot) == Wait(ticks)
            && Has(r, other) == Has(q, other)
            && (Has(q, other) ==> WakeTick(r, other) == Wait(ticks) - ticks + WakeTick(q, other))
  {
    InsertFront(q, slot, ticks);
    var r := Insert(q, slot, ticks);
    assert Has(r, other) == Has(r[1..], other);
    assert Wait(q[0].diff) == U32(q[0].diff);
  }

  lemma InsertWakeTick(q: seq<Sleeper>, slot: nat, ticks: nat, other: nat)
    requires Words(q) && !Has(q, slot) && ticks < HALF && other != slot
    ensures var r := Insert(q, slot, ticks);
            && Words(r) && Has(r, slot) && Has(r, other) == Has(q, other)
            && WakeTick(r, slot) == ticks + (if Stuck(q, ticks) then WORD else 0)
            && (Has(q, other) ==> WakeTick(r, other) == WakeTick(q, other) + if HoldsUp(q, ticks) then WORD else 0)
  {
    InsertWords(q, slot, ticks);
    InsertLag(q, slot, ticks, other);
    if q == [] {
    } else if ticks < U32(q[0].diff) {
      InsertFrontWake(q, slot, ticks, other);
    } else {
      InsertLag(q[1..], slot, ticks - q[0].diff, other);
      InsertBehind(q, slot, ticks);
    }
  }

  /**
   The exact effect of `sleep(len)` on every queue.  Left to itself afterwards, the caller is woken
   by len/10 ticks and not before, if and only if len >= 10 and the head's difference is not 0;
   otherwise 2^32 ticks later.
   */
  lemma SleepEndsOnTimeIff(q: seq<Sleeper>, slot: nat, len: nat, n: nat)
    requires Words(q) && !Has(q, slot) && 1 <= len < WORD
    ensures slot in WokenBy(Insert(q, slot, len / MILLISECONDS_TICK), n)
            <==> n >= len / MILLISECONDS_TICK
                      + if len >= MILLISECONDS_TICK && (q == [] || q[0].diff != 0) then 0 else WORD
  {
    InsertWakeTick(q, slot, len / MILLISECONDS_TICK, slot + 1);
    WakesExactlyAt(Insert(q, slot, len / MILLISECONDS_TICK), slot, n);
  }

  /**
   Who else is held up: everyone on the queue, for 2^32 ticks, if and only if len is 1..9 and the
   head's difference is not 0; nobody otherwise.
   */
  lemma ShortSleepHoldsUpIff(q: seq<Sleeper>, slot: nat, len: nat, other: nat, n: nat)
    requires Words(q) && !Has(q, slot) && Has(q, other) && 1 <= len < WORD
    ensures other in WokenBy(Insert(q, slot, len / MILLISECONDS_TICK), n)
            <==> n >= WakeTick(q, other) + if len < MILLISECONDS_TICK && q[0].diff != 0 then WORD else 0
  {
    assert other != slot;
    InsertWakeTick(q, slot, len / MILLISECONDS_TICK, other);
    WakesExactlyAt(Insert(q, slot, len / MILLISECONDS_TICK), other, n);
  }

  // ---------------------------------------------------------------- a removal

  /** `slot` stands before `other`. */
  predicate Precedes(q: seq<Sleeper>, slot: nat, other: nat) {
    q != [] && q[0].slot != other && (q[0].slot == slot || Precedes(q[1..], slot, other))
  }

  /** What those behind `slot` gain when its difference is merged into the next: a whole turn or nothing. */
  function LagGain(q: seq<Sleeper>, slot: nat): int {
    if |q| < 2 then 0
    else if q[0].slot != slot then LagGain(q[1..], slot)
    else if U32(q[0].diff) + U32(q[1].diff) >= WORD then WORD
    else 0
  }

  function WakeGain(q: seq<Sleeper>, slot: nat): int {
    if |q| < 2 then 0
    else if q[0].slot != slot then LagGain(q[1..], slot)
    else if Wait(q[0].diff) + U32(q[1].diff) > WORD then WORD
    else 0
  }

  lemma RemoveHead(q: seq<Sleeper>, slot: nat)
    requires Words(q) && |q| > 1 && q[0].slot == slot
    ensures var r := Remove(q, slot);
            && Words(r) && r != [] && r[0].slot == q[1].slot && r[1..] == q[1..][1..]
            && U32(r[0].diff) == U32(q[0].diff) + U32(q[1].diff) - LagGain(q, slot)
            && Wait(r[0].diff) == Wait(q[0].diff) + U32(q[1].diff) - WakeGain(q, slot)
  {
    var r := Remove(q, slot);
    assert r[1..] == q[2..] == q[1..][1..];
    assert forall i :: 1 <= i < |r| ==> r[i] == q[i + 1];
  }

  lemma {:induction false} RemoveLag(q: seq<Sleeper>, slot: nat, other: nat)
    requires Words(q) && other != slot && Has(q, other)
    ensures Words(Remove(q, slot)) && Has(Remove(q, slot), other)
    ensures Lag(Remove(q, slot), other) == Lag(q, other) - if Precedes(q, slot, other) then LagGain(q, slot) else 0
  {
    if q[0].slot == slot {
      RemoveHead(q, slot);
    } else {
      RemoveWords(q[1..], slot);
      if q[0].slot != other {
        RemoveLag(q[1..], slot, other);
      }
      assert Remove(q, slot)[1..] == Remove(q[1..], slot);
    }
  }

  lemma {:induction false} RemoveWords(q: seq<Sleeper>, slot: nat)
    requires Words(q)
    ensures Words(Remove(q, slot))
  {
    if |q| > 0 && q[0].slot != slot {
      RemoveWords(q[1..], slot);
    } else if |q| > 1 {
      RemoveHead(q, slot);
    }
  }

  /**
   A removal on any queue: those before the removed sleeper wake when they would have, and those
   behind it then too or 2^32 ticks sooner, never later.
   */
  lemma RemoveWakeTick(q: seq<Sleeper>, slot: nat, other: nat)
    requires Words(q) && other != slot && Has(q, other)
    ensures Words(Remove(q, slot)) && Has(Remove(q, slot), other)
    ensures WakeTick(Remove(q, slot), other)
            == WakeTick(q, other) - if Precedes(q, slot, other) then WakeGain(q, slot) else 0
  {
    RemoveLag(q, slot, other);
    if q[0].slot == slot {
      RemoveHead(q, slot);
    } else {
      if q[0].slot != other {
        RemoveLag(q[1..], slot, other);
      }
      assert Remove(q, slot)[1..] == Remove(q[1..], slot);
    }
  }

  // ---------------------------------------------------------------- the time that kill reports

  /** A lag on time is at least the last difference, and equal when all others are 0; else it is 2^31. */
  lemma {:induction false} LagAt(q: seq<Sleeper>, j: nat)
    requires Words(q) && j < |q| && forall k :: 0 <= k < j ==> q[k].slot != q[j].slot
    ensures NoneOverdue(q, q[j].slot) ==>
              && Lag(q, q[j].slot) >= q[j].diff >= 0
              && (Lag(q, q[j].slot) == q[j].diff <==> forall k :: 0 <= k < j ==> q[k].diff == 0)
    ensures !NoneOverdue(q, q[j].slot) ==> Lag(q, q[j].slot) >= HALF
  {
    if j > 0 {
      var r := q[1..];
      assert forall k :: 0 <= k < j - 1 ==> r[k] == q[k + 1];
      LagAt(r, j - 1);
      assert (forall k :: 0 <= k < j ==> q[k].diff == 0)
        <==> q[0].diff == 0 && forall k :: 0 <= k < j - 1 ==> r[k].diff == 0 by {
        assert forall k :: 0 < k < j ==> q[k] == r[k - 1];
      }
      LagNonNegative(r, q[j].slot);
    }
  }

  lemma {:induction false} LagNonNegative(q: seq<Sleeper>, slot: nat)
    ensures Lag(q, slot) >= 0
  {
    if q != [] && q[0].slot != slot {
      LagNonNegative(q[1..], slot);
    }
  }

  /** The sleeper at position `i` of a queue without duplicates. */
  lemma WakeTickAt(q: seq<Sleeper>, i: nat)
    requires Words(q) && NoDup(Slots(q)) && i < |q|
    ensures Has(q, q[i].slot)
    ensures var slot := q[i].slot;
            && (i == 0 ==> WakeTick(q, slot) == Wait(q[0].diff))
            && (Ticking(q) && NoneOverdue(q, slot) && i > 0 ==>
                  && WakeTick(q, slot) >= q[0].diff + q[i].diff >= 1
                  && (WakeTick(q, slot) == q[0].diff + q[i].diff <==> forall j :: 0 < j < i ==> q[j].diff == 0))
            && (!(Ticking(q) && NoneOverdue(q, slot)) ==> WakeTick(q, slot) >= HALF)
  {
    HasSlots(q, q[i].slot);
    assert Slots(q)[i] == q[i].slot;
    if i > 0 {
      var r := q[1..];
      assert Slots(q)[0] != Slots(q)[i];
      forall k | 0 <= k < i - 1
        ensures r[k].slot != r[i - 1].slot
      {
        assert Slots(q)[k + 1] != Slots(q)[i];
      }
      LagAt(r, i - 1);
      LagNonNegative(r, q[i].slot);
      assert (forall j :: 0 < j < i ==> q[j].diff == 0) <==> forall k :: 0 <= k < i - 1 ==> r[k].diff == 0 by {
        assert forall k :: 0 <= k < i - 1 ==> r[k] == q[k + 1];
        assert forall j :: 0 < j < i ==> q[j] == r[j - 1];
      }
    }
  }

  /**
   On every queue: the value reported for a killed sleeper is the time that it would still have
   slept if and only if it is on time, every difference strictly between the head and it is 0, and
   the milliseconds fit an `int`.  It never overstates.
   */
  lemma KillInSleepIsExactIff(q: seq<Sleeper>, i: nat)
    requires Words(q) && NoDup(Slots(q)) && i < |q|
    ensures var slot, ms := q[i].slot, WakeTick(q, q[i].slot) * MILLISECONDS_TICK;
            && (KillInSleep(q, i) == ms
                <==> Ticking(q) && NoneOverdue(q, slot) && (forall j :: 0 < j < i ==> q[j].diff == 0)
                     && Remaining(q, slot) * MILLISECONDS_TICK < HALF)
            && KillInSleep(q, i) <= ms
  {
    WakeTickAt(q, i);
    OnTimeIff(q, q[i].slot);
  }

  // ---------------------------------------------------------------- whole runs, every length

  lemma TickWords(q: seq<Sleeper>)
    requires Words(q)
    ensures Words(Tick(q).1)
  {
    if q != [] {
      DrainWords([q[0].(diff := I32(q[0].diff - 1))] + q[1..]);
    }
  }

  /** Every run of the source keeps every difference an `int`. */
  lemma {:induction false} RunWords(t: Timeline, es: seq<Event>)
    requires Words(t.queue) && LegalRun(t, es)
    ensures Words(Replay(t, es).queue)
    decreases es
  {
    if es != [] {
      match es[0] {
        case SleepFor(slot, len) =>
          HasSlots(t.queue, slot);
          InsertWords(t.queue, slot, len / MILLISECONDS_TICK);
        case Cancelled(slot) => RemoveWords(t.queue, slot);
        case Ticked => TickWords(t.queue);
      }
      RunWords(Happen(t, es[0]), es[1..]);
    }
  }

  predicate Turns(a: int, b: int, k: int) {
    a == b + WORD * k
  }

  /** Equal up to whole turns of a 32-bit counter. */
  ghost predicate Congruent(a: int, b: int) {
    exists k: int :: Turns(a, b, k)
  }

  lemma CongruentSum(a: int, b: int, c: int, d: int)
    requires Congruent(a, b) && Congruent(c, d)
    ensures Congruent(a + c, b + d)
  {
    var k: int :| Turns(a, b, k);
    var m: int :| Turns(c, d, m);
    assert Turns(a + c, b + d, k + m);
  }

  lemma CongruentTrans(a: int, b: int, c: int)
    requires Congruent(a, b) && Congruent(b, c)
    ensures Congruent(a, c)
  {
    CongruentSum(a, b, b, c);
    var k: int :| Turns(a + b, b + c, k);
    assert Turns(a, c, k);
  }

  lemma Wrapped(x: int)
    ensures Congruent(I32(x), x) && Congruent(U32(x), x)
  {
    var k := U32Turns(x);
    assert Turns(U32(x), x, -k);
    assert Turns(I32(x), x, -k) || Turns(I32(x), x, -k - 1);
  }

  lemma Same(x: int)
    ensures Congruent(x, x)
  {
    assert Turns(x, x, 0);
  }

  lemma InsertFrontCongruent(q: seq<Sleeper>, slot: nat, ticks: nat, other: nat)
    requires q != [] && ticks < U32(q[0].diff) && q[0].slot != slot && other != slot
    ensures var r := Insert(q, slot, ticks);
            && Has(r, slot) && Congruent(Remaining(r, slot), ticks)
            && Has(r, other) == Has(q, other)
            && Congruent(Remaining(r, other), Remaining(q, other))
  {
    var r, d := Insert(q, slot, ticks), q[0].diff;
    assert r[1..][1..] == q[1..];
    Wrapped(ticks);
    Wrapped(d - ticks);
    CongruentSum(I32(ticks), ticks, I32(d - ticks), d - ticks);
    var rest := if q[0].slot == other then 0 else Remaining(q[1..], other);
    Same(rest);
    CongruentSum(I32(ticks) + I32(d - ticks), d, rest, rest);
    assert Remaining(r, other) == I32(ticks) + Remaining(r[1..], other);
    assert Has(r, other) == Has(r[1..], other);
  }

  lemma {:induction false} InsertCongruent(q: seq<Sleeper>, slot: nat, ticks: nat, other: nat)
    requires !Has(q, slot) && other != slot
    ensures Has(Insert(q, slot, ticks), slot) && Congruent(Remaining(Insert(q, slot, ticks), slot), ticks)
    ensures Has(Insert(q, slot, ticks), other) == Has(q, other)
    ensures Has(q, other) ==> Congruent(Remaining(Insert(q, slot, ticks), other), Remaining(q, other))
  {
    if q == [] {
      Wrapped(ticks);
    } else if ticks < U32(q[0].diff) {
      InsertFrontCongruent(q, slot, ticks, other);
    } else {
      var d, u := q[0].diff, U32(ticks - q[0].diff);
      var r, s := q[1..], Insert(q[1..], slot, u);
      assert Insert(q, slot, ticks)[1..] == s;
      InsertCongruent(r, slot, u, other);
      Same(d);
      Wrapped(ticks - d);
      CongruentTrans(Remaining(s, slot), u, ticks - d);
      CongruentSum(d, d, Remaining(s, slot), ticks - d);
      if Has(r, other) {
        CongruentSum(d, d, Remaining(s, other), Remaining(r, other));
      }
    }
  }

  lemma {:induction false} RemoveCongruent(q: seq<Sleeper>, slot: nat, other: nat)
    requires other != slot && Has(q, other)
    ensures Has(Remove(q, slot), other)
    ensures Congruent(Remaining(Remove(q, slot), other), Remaining(q, other))
  {
    Same(Remaining(q, other));
    if q[0].slot != slot {
      if q[0].slot != other {
        RemoveCongruent(q[1..], slot, other);
        Same(q[0].diff);
        CongruentSum(q[0].diff, q[0].diff, Remaining(Remove(q[1..], slot), other), Remaining(q[1..], other));
      }
      assert Remove(q, slot)[1..] == Remove(q[1..], slot);
    } else {
      var r, d := Remove(q, slot), q[1].diff + q[0].diff;
      assert r[1..] == q[2..] == q[1..][1..];
      Wrapped(d);
      var rest := if q[1].slot == other then 0 else Remaining(q[2..], other);
      Same(rest);
      CongruentSum(I32(d), d, rest, rest);
    }
  }

  lemma {:induction false} DrainRemaining(q: seq<Sleeper>, slot: nat)
    requires Has(q, slot)
    ensures slot in Drain(q).0 ==> Remaining(q, slot) == 0
    ensures slot !in Drain(q).0 ==> Has(Drain(q).1, slot) && Remaining(Drain(q).1, slot) == Remaining(q, slot)
  {
    if q[0].diff == 0 && q[0].slot != slot {
      DrainRemaining(q[1..], slot);
    }
  }

  lemma TickCongruent(q: seq<Sleeper>, slot: nat)
    requires Has(q, slot)
    ensures slot in Tick(q).0 ==> Congruent(Remaining(q, slot), 1)
    ensures slot !in Tick(q).0 ==>
              Has(Tick(q).1, slot) && Congruent(Remaining(Tick(q).1, slot), Remaining(q, slot) - 1)
  {
    var d, p := q[0].diff, [q[0].(diff := I32(q[0].diff - 1))] + q[1..];
    assert p[1..] == q[1..];
    DrainRemaining(p, slot);
    var rest := if q[0].slot == slot then 0 else Remaining(q[1..], slot);
    Wrapped(d - 1);
    Same(rest + 1);
    CongruentSum(I32(d - 1), d - 1, rest + 1, rest + 1);
    var k: int :| Turns(Remaining(p, slot) + 1, Remaining(q, slot), k);
    assert Turns(Remaining(p, slot), Remaining(q, slot) - 1, k);
    assert Remaining(p, slot) == 0 ==> Turns(Remaining(q, slot), 1, -k);
  }

  /** The first entry for `slot` in the log, from position `n` on. */
  ghost predicate FirstWake(log: seq<Wake>, n: nat, slot: nat, i: int) {
    n <= i < |log| && log[i].slot == slot && forall j :: n <= j < i ==> log[j].slot != slot
  }

  /** `slot` is still asleep with `due` as its due tick, or was woken at it, up to whole turns. */
  ghost predicate DueOrWoken(t: Timeline, n: nat, slot: nat, due: int) {
    || (Has(t.queue, slot) && Congruent(t.now + Remaining(t.queue, slot), due)
        && forall j :: n <= j < |t.woken| ==> t.woken[j].slot != slot)
    || (exists i :: FirstWake(t.woken, n, slot, i) && Congruent(t.woken[i].tick, due))
  }

  lemma HappenDue(t: Timeline, e: Event, slot: nat, n: nat, due: int)
    requires Legal(t, e) && e != Cancelled(slot) && n <= |t.woken|
    requires DueOrWoken(t, n, slot, due)
    ensures DueOrWoken(Happen(t, e), n, slot, due)
  {
    var u := Happen(t, e);
    if i :| FirstWake(t.woken, n, slot, i) && Congruent(t.woken[i].tick, due) {
      assert FirstWake(u.woken, n, slot, i);
    } else {
      var left := Remaining(t.queue, slot);
      match e
      case SleepFor(s, len) =>
        HasSlots(t.queue, s);
        HasSlots(t.queue, slot);
        if len >= 1 {
          InsertCongruent(t.queue, s, len / MILLISECONDS_TICK, slot);
          Shifted(t.now, Remaining(u.queue, slot), left, due);
        }
      case Cancelled(s) =>
        RemoveCongruent(t.queue, s, slot);
        Shifted(t.now, Remaining(u.queue, slot), left, due);
      case Ticked =>
        TickDue(t, slot, n, due);
    }
  }

  lemma Shifted(now: int, a: int, b: int, due: int)
    requires Congruent(a, b) && Congruent(now + b, due)
    ensures Congruent(now + a, due)
  {
    Same(now);
    CongruentSum(now, now, a, b);
    CongruentTrans(now + a, now + b, due);
  }

  lemma TickDue(t: Timeline, slot: nat, n: nat, due: int)
    requires n <= |t.woken| && Has(t.queue, slot) && Congruent(t.now + Remaining(t.queue, slot), due)
    requires forall j :: n <= j < |t.woken| ==> t.woken[j].slot != slot
    ensures DueOrWoken(Happen(t, Ticked), n, slot, due)
  {
    var u, w := Happen(t, Ticked), Tick(t.queue).0;
    TickCongruent(t.queue, slot);
    if slot in w {
      var i := FirstIn(w, slot);
      assert FirstWake(u.woken, n, slot, |t.woken| + i);
      var k: int :| Turns(Remaining(t.queue, slot), 1, k);
      assert Turns(1, Remaining(t.queue, slot), -k);
      Shifted(t.now, 1, Remaining(t.queue, slot), due);
    } else {
      Same(1);
      CongruentSum(Remaining(u.queue, slot), Remaining(t.queue, slot) - 1, 1, 1);
      Shifted(t.now, Remaining(u.queue, slot) + 1, Remaining(t.queue, slot), due);
    }
  }

  lemma {:induction false} FirstIn(w: seq<nat>, slot: nat) returns (i: nat)
    requires slot in w
    ensures i < |w| && w[i] == slot && forall j :: 0 <= j < i ==> w[j] != slot
  {
    if w[0] == slot {
      i := 0;
    } else {
      assert w == [w[0]] + w[1..];
      var j := FirstIn(w[1..], slot);
      i := j + 1;
      assert forall m :: 0 < m < i ==> w[m] == w[1..][m - 1];
    }
  }

  lemma {:induction false} RunDue(t: Timeline, es: seq<Event>, slot: nat, n: nat, due: int)
    requires LegalRun(t, es) && Cancelled(slot) !in es && n <= |t.woken|
    requires DueOrWoken(t, n, slot, due)
    ensures DueOrWoken(Replay(t, es), n, slot, due)
    decreases es
  {
    if es != [] {
      HappenDue(t, es[0], slot, n, due);
      RunDue(Happen(t, es[0]), es[1..], slot, n, due);
    }
  }

  /** `slot` is asleep still, or its first wake is `k` >= `least` turns of 2^32 ticks after `due`. */
  ghost predicate AsleepOrTurnsLate(u: Timeline, n: nat, slot: nat, due: int, least: nat) {
    || (Has(u.queue, slot) && forall j :: n <= j < |u.woken| ==> u.woken[j].slot != slot)
    || (exists i, k :: FirstWake(u.woken, n, slot, i) && Turns(u.woken[i].tick, due, k) && k >= least)
  }

  /** A wake after `now` at a tick congruent to `due` is not before `due`. */
  lemma NotEarly(u: Timeline, n: nat, slot: nat, now: nat, ticks: nat)
    requires DueOrWoken(u, n, slot, now + ticks) && ticks < WORD
    requires forall i :: n <= i < |u.woken| ==> u.woken[i].tick > now
    ensures AsleepOrTurnsLate(u, n, slot, now + ticks, if ticks == 0 then 1 else 0)
  {
    if i :| FirstWake(u.woken, n, slot, i) && Congruent(u.woken[i].tick, now + ticks) {
      var k: int :| Turns(u.woken[i].tick, now + ticks, k);
      assert FirstWake(u.woken, n, slot, i) && Turns(u.woken[i].tick, now + ticks, k);
    }
  }

  /**
   Every run of the source, with sleeps of any length: a process that calls `sleep(len)` and is
   not taken off the queue is woken on the (len / 10)-th tick after the call or a whole number of
   2^32 ticks later, and never on that tick itself when len < 10.
   */
  lemma WakesOnTimeOrTurnsLater(t: Timeline, slot: nat, len: nat, after: seq<Event>)
    requires Legal(t, SleepFor(slot, len)) && len >= 1 && Cancelled(slot) !in after
    requires LegalRun(Happen(t, SleepFor(slot, len)), after)
    ensures AsleepOrTurnsLate(Replay(Happen(t, SleepFor(slot, len)), after), |t.woken|, slot,
                              t.now + len / MILLISECONDS_TICK, if len < MILLISECONDS_TICK then 1 else 0)
  {
    var s, ticks := Happen(t, SleepFor(slot, len)), len / MILLISECONDS_TICK;
    HasSlots(t.queue, slot);
    InsertCongruent(t.queue, slot, ticks, slot + 1);
    Same(t.now + ticks);
    Shifted(t.now, Remaining(s.queue, slot), ticks, t.now + ticks);
    RunDue(s, after, slot, |t.woken|, t.now + ticks);
    LogGrows(s, after);
    NotEarly(Replay(s, after), |t.woken|, slot, t.now, ticks);
  }
}
