/**
 The sleep queue of c/sleep.c as a value: a sequence of sleepers in list order, each
 holding its difference from the sleeper before it.  `Insert`, `Remove` and `Tick` compute
 with the same 32-bit comparisons and subtractions as the C code.
 */
module DeltaQueue {
  import opened Machine

  const MILLISECONDS_TICK := 10
  const MAX_TICKS := 0xFFFF_FFFF / MILLISECONDS_TICK

  datatype Sleeper = Sleeper(slot: nat, diff: int)

  function Slots(q: seq<Sleeper>): (r: seq<nat>)
    ensures |r| == |q|
    ensures forall i :: 0 <= i < |q| ==> r[i] == q[i].slot
  {
    seq(|q|, i requires 0 <= i < |q| => q[i].slot)
  }

  // ---------------------------------------------------------------- operations

  /** c/sleep.c:46-83, from the conversion to ticks on.  The comparison is unsigned because `len` is. */
  function Insert(q: seq<Sleeper>, slot: nat, ticks: nat): seq<Sleeper> {
    if q == [] then [Sleeper(slot, I32(ticks))]
    else if ticks < U32(q[0].diff) then
      [Sleeper(slot, I32(ticks)), q[0].(diff := I32(q[0].diff - ticks))] + q[1..]
    else [q[0]] + Insert(q[1..], slot, U32(ticks - q[0].diff))
  }

  /** c/sleep.c:88-128; a slot that is not on the queue leaves it unchanged. */
  function Remove(q: seq<Sleeper>, slot: nat): seq<Sleeper> {
    if q == [] then []
    else if q[0].slot != slot then [q[0]] + Remove(q[1..], slot)
    else if |q| == 1 then []
    else [q[1].(diff := I32(q[1].diff + q[0].diff))] + q[2..]
  }

  /** The draining loop of c/sleep.c:148-157: who is woken, and what is left. */
  function Drain(q: seq<Sleeper>): (seq<nat>, seq<Sleeper>) {
    if q != [] && q[0].diff == 0 then
      var (woken, rest) := Drain(q[1..]);
      ([q[0].slot] + woken, rest)
    else ([], q)
  }

  /** c/sleep.c:139-158. */
  function Tick(q: seq<Sleeper>): (seq<nat>, seq<Sleeper>) {
    if q == [] then ([], [])
    else Drain([q[0].(diff := I32(q[0].diff - 1))] + q[1..])
  }

  // ---------------------------------------------------------------- the arithmetic invariant

  function Sum(q: seq<Sleeper>): int {
    if q == [] then 0 else q[0].diff + Sum(q[1..])
  }

  ghost predicate NonNegative(q: seq<Sleeper>) {
    forall i :: 0 <= i < |q| ==> q[i].diff >= 0
  }

  ghost predicate Bounded(q: seq<Sleeper>) {
    NonNegative(q) && Sum(q) <= MAX_TICKS
  }

  /** The head's difference has not run out: no process that sleeps 0 ticks heads the queue. */
  predicate Ticking(q: seq<Sleeper>) {
    q != [] ==> q[0].diff >= 1
  }

  /** A front insertion gives back in the next difference what it puts before it. */
  lemma InsertFrontBounds(q: seq<Sleeper>, slot: nat, ticks: nat)
    requires Bounded(q) && q != [] && ticks < q[0].diff <= MAX_TICKS
    ensures NonNegative(Insert(q, slot, ticks)) && Sum(Insert(q, slot, ticks)) == Sum(q)
  {
    var r := Insert(q, slot, ticks);
    assert r == [Sleeper(slot, ticks), q[0].(diff := q[0].diff - ticks)] + q[1..];
    assert r[1..][1..] == q[1..];
  }

  lemma ConsBounds(x: Sleeper, q: seq<Sleeper>)
    ensures NonNegative([x] + q) <==> x.diff >= 0 && NonNegative(q)
    ensures Sum([x] + q) == x.diff + Sum(q)
  {
    var r := [x] + q;
    assert r[1..] == q;
    assert r[0] == x;
    assert NonNegative(r) ==> forall i :: 0 <= i < |q| ==> q[i] == r[i + 1];
  }

  /** An insertion that is not in front goes into the tail, with the rest of the distance. */
  lemma InsertBehind(q: seq<Sleeper>, slot: nat, ticks: nat)
    requires q != [] && 0 <= q[0].diff <= ticks < WORD
    ensures Insert(q, slot, ticks) == [q[0]] + Insert(q[1..], slot, ticks - q[0].diff)
    ensures Insert(q, slot, ticks)[1..] == Insert(q[1..], slot, ticks - q[0].diff)
  {
  }

  lemma TailBounds(q: seq<Sleeper>)
    requires Bounded(q) && q != []
    ensures Bounded(q[1..]) && Sum(q[1..]) >= 0 && Sum(q) == q[0].diff + Sum(q[1..])
    ensures 0 <= q[0].diff <= MAX_TICKS && U32(q[0].diff) == q[0].diff
  {
    SumNonNegative(q[1..]);
  }

  lemma {:induction false} InsertSum(q: seq<Sleeper>, slot: nat, ticks: nat)
    requires Bounded(q) && ticks <= MAX_TICKS
    ensures Sum(Insert(q, slot, ticks)) == if Sum(q) < ticks then ticks else Sum(q)
  {
    if q != [] {
      TailBounds(q);
      if ticks < q[0].diff {
        InsertFrontBounds(q, slot, ticks);
      } else {
        InsertSum(q[1..], slot, ticks - q[0].diff);
        InsertBehind(q, slot, ticks);
        ConsBounds(q[0], Insert(q[1..], slot, ticks - q[0].diff));
      }
    }
  }

  lemma {:induction false} InsertNonNegative(q: seq<Sleeper>, slot: nat, ticks: nat)
    requires Bounded(q) && ticks <= MAX_TICKS
    ensures NonNegative(Insert(q, slot, ticks))
  {
    if q != [] {
      TailBounds(q);
      if ticks < q[0].diff {
        InsertFrontBounds(q, slot, ticks);
      } else {
        InsertNonNegative(q[1..], slot, ticks - q[0].diff);
        InsertBehind(q, slot, ticks);
        ConsBounds(q[0], Insert(q[1..], slot, ticks - q[0].diff));
      }
    }
  }

  lemma InsertKeepsBounds(q: seq<Sleeper>, slot: nat, ticks: nat)
    requires Bounded(q) && ticks <= MAX_TICKS
    ensures Bounded(Insert(q, slot, ticks))
  {
    InsertSum(q, slot, ticks);
    InsertNonNegative(q, slot, ticks);
  }

  lemma {:induction false} SumNonNegative(q: seq<Sleeper>)
    requires NonNegative(q)
    ensures Sum(q) >= 0
  {
    if q != [] {
      SumNonNegative(q[1..]);
    }
  }

  lemma {:induction false} RemoveKeepsBounds(q: seq<Sleeper>, slot: nat)
    requires Bounded(q)
    ensures Bounded(Remove(q, slot)) && Sum(Remove(q, slot)) <= Sum(q)
  {
    if q == [] {
    } else {
      SumNonNegative(q[1..]);
      if q[0].slot != slot {
        RemoveKeepsBounds(q[1..], slot);
        assert Remove(q, slot)[1..] == Remove(q[1..], slot);
      } else if |q| > 1 {
        SumNonNegative(q[1..][1..]);
        assert q[1..][1..] == q[2..];
        assert Remove(q, slot)[1..] == q[2..];
      }
    }
  }

  lemma {:induction false} DrainKeepsBounds(q: seq<Sleeper>)
    requires Bounded(q)
    ensures Bounded(Drain(q).1) && Ticking(Drain(q).1)
  {
    if q != [] && q[0].diff == 0 {
      DrainKeepsBounds(q[1..]);
    }
  }

  lemma TickKeepsBounds(q: seq<Sleeper>)
    requires Bounded(q) && Ticking(q)
    ensures Bounded(Tick(q).1) && Ticking(Tick(q).1)
  {
    if q != [] {
      var p := [q[0].(diff := I32(q[0].diff - 1))] + q[1..];
      SumNonNegative(q[1..]);
      assert p[1..] == q[1..];
      DrainKeepsBounds(p);
    }
  }
}
