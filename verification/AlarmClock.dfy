/**
 The reference for the sleep queue: an alarm clock, which is a list of alarms in the order they
 were set, each with the absolute tick at which it is due.
 */
module AlarmClock {
  datatype Alarm = Alarm(slot: nat, due: int, ticket: nat)

  /** `asleep` is in the order the alarms were set, `rung` in the order they rang. */
  datatype Clock = Clock(now: nat, calls: nat, asleep: seq<Alarm>, rung: seq<Alarm>)

  datatype Pick = NotSlot(slot: nat) | DueBy(tick: int) | DueAfter(tick: int)

  predicate Picks(p: Pick, a: Alarm) {
    match p
    case NotSlot(s) => a.slot != s
    case DueBy(t) => a.due <= t
    case DueAfter(t) => a.due > t
  }

  /** The alarms that `p` picks, in their order. */
  function Keep(s: seq<Alarm>, p: Pick): seq<Alarm> {
    if s == [] then []
    else if Picks(p, s[0]) then [s[0]] + Keep(s[1..], p)
    else Keep(s[1..], p)
  }

  lemma {:induction false} KeepMembers(s: seq<Alarm>, p: Pick)
    ensures forall a :: a in Keep(s, p) <==> a in s && Picks(p, a)
  {
    if s != [] {
      KeepMembers(s[1..], p);
      assert s == [s[0]] + s[1..];
    }
  }

  function SetAlarm(c: Clock, slot: nat, ticks: nat): Clock {
    c.(calls := c.calls + 1, asleep := c.asleep + [Alarm(slot, c.now + ticks, c.calls)])
  }

  function Cancel(c: Clock, slot: nat): Clock {
    c.(asleep := Keep(c.asleep, NotSlot(slot)))
  }

  /** One tick: every alarm that is due rings, one that is overdue too. */
  function Advance(c: Clock): Clock {
    c.(now := c.now + 1,
       rung := c.rung + Keep(c.asleep, DueBy(c.now + 1)),
       asleep := Keep(c.asleep, DueAfter(c.now + 1)))
  }

  // ---------------------------------------------------------------- stable sorting by due time

  function Place(s: seq<Alarm>, a: Alarm): seq<Alarm> {
    if s == [] then [a]
    else if a.due < s[0].due then [a] + s
    else [s[0]] + Place(s[1..], a)
  }

  /** Stable insertion sort by due time. */
  function Sorted(s: seq<Alarm>): seq<Alarm> {
    if s == [] then [] else Place(Sorted(s[..|s| - 1]), s[|s| - 1])
  }

  ghost predicate InOrder(s: seq<Alarm>) {
    forall i, j :: 0 <= i < j < |s| ==> s[i].due <= s[j].due
  }

  lemma {:induction false} PlaceFacts(s: seq<Alarm>, a: Alarm)
    requires InOrder(s)
    ensures InOrder(Place(s, a))
    ensures forall b :: b in Place(s, a) <==> b == a || b in s
  {
    if s == [] {
    } else if a.due < s[0].due {
    } else {
      PlaceFacts(s[1..], a);
      assert s == [s[0]] + s[1..];
      assert forall b :: b in Place(s[1..], a) ==> s[0].due <= b.due;
    }
  }

  lemma {:induction false} SortedFacts(s: seq<Alarm>)
    ensures InOrder(Sorted(s))
    ensures forall a :: a in Sorted(s) <==> a in s
  {
    if s == [] {
    } else {
      SortedFacts(s[..|s| - 1]);
      PlaceFacts(Sorted(s[..|s| - 1]), s[|s| - 1]);
      assert s == s[..|s| - 1] + [s[|s| - 1]];
    }
  }

  lemma {:induction false} KeepAppend(s: seq<Alarm>, a: Alarm, p: Pick)
    ensures Keep(s + [a], p) == if Picks(p, a) then Keep(s, p) + [a] else Keep(s, p)
  {
    if s == [] {
      assert s + [a] == [a];
    } else {
      assert (s + [a])[1..] == s[1..] + [a];
      KeepAppend(s[1..], a, p);
    }
  }

  lemma {:induction false} KeepPlace(s: seq<Alarm>, a: Alarm, p: Pick)
    requires InOrder(s)
    ensures Keep(Place(s, a), p) == if Picks(p, a) then Place(Keep(s, p), a) else Keep(s, p)
  {
    if s == [] {
    } else if a.due < s[0].due {
      assert ([a] + s)[1..] == s;
      KeepMembers(s, p);
      var k := Keep(s, p);
      assert k != [] ==> k[0] in k;
    } else {
      assert ([s[0]] + Place(s[1..], a))[1..] == Place(s[1..], a);
      KeepPlace(s[1..], a, p);
      if Picks(p, s[0]) {
        assert Keep(s, p)[1..] == Keep(s[1..], p);
      }
    }
  }

  /** Sorting and picking commute; with `DueBy` this is the stability of the sort. */
  lemma {:induction false} KeepSorted(s: seq<Alarm>, p: Pick)
    ensures Keep(Sorted(s), p) == Sorted(Keep(s, p))
  {
    if s != [] {
      var t, a := s[..|s| - 1], s[|s| - 1];
      KeepSorted(t, p);
      assert InOrder(Sorted(t)) by {
        SortedFacts(t);
      }
      KeepPlace(Sorted(t), a, p);
      assert s == t + [a];
      KeepAppend(t, a, p);
    }
  }

  lemma {:induction false} SortedSameDue(s: seq<Alarm>, t: int)
    requires forall a :: a in s ==> a.due == t
    ensures Sorted(s) == s
  {
    if s != [] {
      var n := |s| - 1;
      SortedSameDue(s[..n], t);
      PlaceLast(s[..n], s[n]);
      assert s == s[..n] + [s[n]];
    }
  }

  lemma {:induction false} PlaceLast(s: seq<Alarm>, a: Alarm)
    requires forall b :: b in s ==> b.due <= a.due
    ensures Place(s, a) == s + [a]
  {
    if s != [] {
      PlaceLast(s[1..], a);
    }
  }

  ghost predicate DistinctSlots(s: seq<Alarm>) {
    forall i, j :: 0 <= i < j < |s| ==> s[i].slot != s[j].slot
  }

  lemma {:induction false} KeepAll(s: seq<Alarm>, p: Pick)
    requires forall a :: a in s ==> Picks(p, a)
    ensures Keep(s, p) == s
  {
    if s != [] {
      KeepAll(s[1..], p);
    }
  }

  lemma {:induction false} KeepNone(s: seq<Alarm>, p: Pick)
    requires forall a :: a in s ==> !Picks(p, a)
    ensures Keep(s, p) == []
  {
    if s != [] {
      KeepNone(s[1..], p);
    }
  }

  /** The slots of a list of alarms. */
  function Who(s: seq<Alarm>): (r: seq<nat>)
    ensures |r| == |s|
    ensures forall i :: 0 <= i < |s| ==> r[i] == s[i].slot
  {
    seq(|s|, i requires 0 <= i < |s| => s[i].slot)
  }
}
