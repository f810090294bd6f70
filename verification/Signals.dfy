/**
 Signal delivery for one process slot: `signal` of c/signal.c and the SYS_SIGRETURN case of
 c/disp.c.  The frames pushed on the user stack are kept as a sequence, oldest first.
 */
module Signals {
  import opened Machine

  const MAX_SIG := 32
  const SIGNAL_FRAME_BYTES := 24
  const CONTEXT_FRAME_BYTES := 44
  const PUSHED_BYTES := SIGNAL_FRAME_BYTES + CONTEXT_FRAME_BYTES

  /** The three values a signal frame saves and `sigtramp` hands to `syssigreturn`. */
  datatype Frame = Frame(oldSp: int, oldRet: int, level: int)

  /**
   `table` is sigtab (0 for no handler), `mask` the bit positions of sigmask that are 1,
   `level` is currSigLvl.
   */
  datatype Context = Context(esp: int, ret: int, level: int, mask: set<nat>, table: seq<nat>, frames: seq<Frame>)

  ghost predicate Formed(c: Context) {
    |c.table| == MAX_SIG
  }

  /** c/signal.c:12-43. */
  function Signal(c: Context, signum: nat): (r: Context)
    requires Formed(c) && signum < MAX_SIG
    ensures Formed(r) && r.table == c.table && r.ret == c.ret
  {
    if c.table[signum] == 0 then c
    else
      var marked := c.(mask := c.mask + {signum});
      if signum > c.level then
        marked.(frames := c.frames + [Frame(c.esp, c.ret, c.level)],
                level := signum,
                esp := c.esp - PUSHED_BYTES)
      else marked
  }

  /** The guard of `kill` before `signal`: a signal that is already marked is dropped (c/disp.c:333-335). */
  function Send(c: Context, signum: nat): (r: Context)
    requires Formed(c) && signum < MAX_SIG
    ensures Formed(r)
  {
    if signum in c.mask then c else Signal(c, signum)
  }

  // ---------------------------------------------------------------- the loop of sigreturn

  /** The bit position of a power of two. */
  function BitOf(i: int): nat {
    if i <= 1 then 0 else 1 + BitOf(i / 2)
  }

  /** The loop of c/disp.c:116-123 from `i` on: the first bit of the mask that it meets is cleared. */
  function Cleared(mask: set<nat>, i: int): set<nat> {
    if i <= 1 then mask
    else if BitOf(i) in mask then mask - {BitOf(i)}
    else Cleared(mask, i / 2)
  }

  /** c/disp.c:115: `1 << 31` is stored in an `int`. */
  const FIRST_BIT := I32(HALF)

  /** c/disp.c:110-128. */
  function SigReturn(c: Context, f: Frame): Context {
    c.(esp := f.oldSp, ret := f.oldRet, level := f.level,
       mask := Cleared(c.mask, FIRST_BIT),
       frames := if c.frames == [] then [] else c.frames[..|c.frames| - 1])
  }

  /** The start value is negative and the loop is guarded by `i > 1`: its body never runs. */
  lemma LoopNeverRuns(mask: set<nat>)
    ensures FIRST_BIT == -HALF && Cleared(mask, FIRST_BIT) == mask
  {
  }

  function Pow2(n: nat): nat {
    if n == 0 then 1 else 2 * Pow2(n - 1)
  }

  /** The greatest member of the mask in 1..n, 0 when there is none. */
  function Highest(mask: set<nat>, n: nat): (h: nat)
    ensures h <= n
    ensures h > 0 ==> h in mask
    ensures forall b :: h < b <= n ==> b !in mask
  {
    if n == 0 then 0 else if n in mask then n else Highest(mask, n - 1)
  }

  lemma {:induction false} BitOfPow2(n: nat)
    ensures BitOf(Pow2(n)) == n && Pow2(n) >= 1
  {
    if n > 0 {
      BitOfPow2(n - 1);
    }
  }

  /** Started at bit `n`, the loop clears exactly the highest bit in 1..n. */
  lemma {:induction false} ClearsHighest(mask: set<nat>, n: nat)
    ensures Cleared(mask, Pow2(n)) == if Highest(mask, n) > 0 then mask - {Highest(mask, n)} else mask
  {
    if n > 0 {
      BitOfPow2(n);
      BitOfPow2(n - 1);
      ClearsHighest(mask, n - 1);
    }
  }

  lemma HalfIsPow2()
    ensures Pow2(31) == HALF
  {
    assert Pow2(8) == 256;
    assert Pow2(16) == 256 * 256;
    assert Pow2(24) == 256 * 256 * 256;
  }

  /** With an unsigned `i` the loop would do something else exactly when a bit above 0 is marked. */
  lemma ReturnAsWrittenIff(mask: set<nat>)
    ensures Cleared(mask, FIRST_BIT) == Cleared(mask, HALF) <==> forall b :: 1 <= b <= 31 ==> b !in mask
  {
    HalfIsPow2();
    ClearsHighest(mask, 31);
  }

  /**
   What the loop is for: after a delivery of `signum` it gives back the mask from before, exactly
   when no higher signal was marked then.
   */
  lemma UnsignedLoopUnmarksIff(mask: set<nat>, signum: nat)
    requires signum !in mask && 1 <= signum <= 31 && forall b :: b in mask ==> b <= 31
    ensures Cleared(mask + {signum}, HALF) == mask <==> forall b :: b in mask ==> b < signum
  {
    HalfIsPow2();
    ClearsHighest(mask + {signum}, 31);
    var h := Highest(mask + {signum}, 31);
    assert h >= signum;
    assert (mask + {signum}) - {signum} == mask;
  }

  /** c/syscall.c:78-85 and c/disp.c:94-109; `inRange` is the address check on the handler. */
  function Register(c: Context, signum: int, handler: nat, inRange: bool): (r: Context)
    requires Formed(c)
    ensures Formed(r)
  {
    if signum < 0 || signum >= 31 then c
    else if inRange then c.(ret := c.table[signum], table := c.table[signum := handler])
    else c.(ret := 0)
  }

  // ---------------------------------------------------------------- runs of one slot

  /**
   `Runs` is user code: it may move the stack pointer and make system calls that set `ret`.
   `Answered` is the kernel setting the return value alone.
   */
  datatype Event =
    | Sent(signum: nat)
    | Answered(ret: int)
    | Returned
    | Registered(number: int, handler: nat, inRange: bool)
    | Runs(esp: int, ret: int)

  /** `Returned` is the end of `sigtramp`: it carries the values of the newest frame (c/signal.c:5-10). */
  function Step(c: Context, e: Event): (r: Context)
    requires Formed(c)
    ensures Formed(r)
  {
    match e
    case Sent(signum) => if signum < MAX_SIG then Send(c, signum) else c
    case Returned => if c.frames == [] then c else SigReturn(c, c.frames[|c.frames| - 1])
    case Registered(number, handler, inRange) => Register(c, number, handler, inRange)
    case Runs(esp, ret) => c.(esp := esp, ret := ret)
    case Answered(ret) => c.(ret := ret)
  }

  function Run(c: Context, es: seq<Event>): (r: Context)
    requires Formed(c)
    ensures Formed(r)
    decreases es
  {
    if es == [] then c else Run(Step(c, es[0]), es[1..])
  }

  /**
   Saved levels rise strictly up the stack and stay below the current one; every mask bit
   belongs to a signal other than 31, and no handler is registered for 31.
   */
  ghost predicate Nested(c: Context) {
    && Formed(c)
    && c.table[31] == 0
    && (forall s :: s in c.mask ==> s < 31)
    && 0 <= c.level < 31
    && (forall i :: 0 <= i < |c.frames| ==> 0 <= c.frames[i].level < c.level)
    && (forall i, j :: 0 <= i < j < |c.frames| ==> c.frames[i].level < c.frames[j].level)
  }

  lemma NestedStep(c: Context, e: Event)
    requires Nested(c)
    ensures Nested(Step(c, e))
  {
  }

  /** In every run from a nested context the nesting holds, and bit 31 of the mask stays clear. */
  lemma {:induction false} NestedRun(c: Context, es: seq<Event>)
    requires Nested(c)
    ensures Nested(Run(c, es))
    decreases es
  {
    if es != [] {
      NestedStep(c, es[0]);
      NestedRun(Step(c, es[0]), es[1..]);
    }
  }

  /** Strictly rising levels below 31 leave room for at most 30 frames. */
  lemma DepthBound(c: Context)
    requires Nested(c)
    ensures |c.frames| <= c.level <= 30
    ensures |c.frames| * PUSHED_BYTES <= 30 * (24 + 44)
  {
    if c.frames != [] {
      LevelAtLeast(c.frames, |c.frames| - 1);
    }
  }

  lemma {:induction false} LevelAtLeast(fs: seq<Frame>, i: nat)
    requires i < |fs|
    requires forall j :: 0 <= j < |fs| ==> 0 <= fs[j].level
    requires forall j, k :: 0 <= j < k < |fs| ==> fs[j].level < fs[k].level
    ensures fs[i].level >= i
  {
    if i > 0 {
      LevelAtLeast(fs, i - 1);
    }
  }

  /** The run never returns out of the frames below depth `d`. */
  ghost predicate StaysAbove(c: Context, es: seq<Event>, d: nat)
    requires Formed(c)
    decreases es
  {
    && |c.frames| >= d
    && (es != [] ==> StaysAbove(Step(c, es[0]), es[1..], d))
  }

  lemma {:induction false} LowerFramesKept(c: Context, es: seq<Event>, d: nat)
    requires Formed(c) && StaysAbove(c, es, d)
    ensures |Run(c, es).frames| >= d && Run(c, es).frames[..d] == c.frames[..d]
    decreases es
  {
    if es != [] {
      var n := Step(c, es[0]);
      assert |n.frames| >= d;
      assert n.frames[..d] == c.frames[..d];
      LowerFramesKept(n, es[1..], d);
    }
  }

  /**
   Unwinding restores: a delivered signal, then any activity of its handler (including further
   signals, nested and returned), then the handler's own return put esp, ret, level and the frame
   stack back exactly.
   */
  lemma DeliveryThenReturnRestores(c: Context, signum: nat, es: seq<Event>)
    requires Formed(c) && signum < MAX_SIG
    requires signum !in c.mask && c.table[signum] != 0 && signum > c.level
    requires StaysAbove(Step(c, Sent(signum)), es, |c.frames| + 1)
    requires |Run(Step(c, Sent(signum)), es).frames| == |c.frames| + 1
    ensures var r := Step(Run(Step(c, Sent(signum)), es), Returned);
            r.esp == c.esp && r.ret == c.ret && r.level == c.level && r.frames == c.frames
  {
    var n := Step(c, Sent(signum));
    LowerFramesKept(n, es, |n.frames|);
    var m := Run(n, es);
    assert m.frames == m.frames[..|n.frames|] == n.frames;
    assert n.frames[..|c.frames|] == c.frames;
  }

  // ---------------------------------------------------------------- what each operation leaves behind

  /** `kill` past its mask test, over the fields (c/signal.c:13-37). */
  lemma SentEffect(c: Context, signum: nat)
    requires Formed(c) && signum < MAX_SIG && signum !in c.mask
    ensures var d := Step(c, Sent(signum));
            && d.ret == c.ret && d.table == c.table
            && (c.table[signum] == 0 ==> d == c)
            && (c.table[signum] != 0 ==> d.mask == c.mask + {signum})
            && (c.table[signum] != 0 && signum > c.level ==>
                  && d.level == signum && d.esp == c.esp - 68
                  && d.frames == c.frames + [Frame(c.esp, c.ret, c.level)])
            && (signum <= c.level ==> d.level == c.level && d.esp == c.esp && d.frames == c.frames)
  {
  }

  /** Registering stores the handler and answers with the one before; nothing else changes. */
  lemma RegisteredEffect(c: Context, number: int, handler: nat, inRange: bool)
    requires Formed(c)
    ensures var d := Step(c, Registered(number, handler, inRange));
            && d.mask == c.mask && d.level == c.level && d.esp == c.esp && d.frames == c.frames
            && |d.table| == MAX_SIG
            && (forall i :: 0 <= i < MAX_SIG && i != number ==> d.table[i] == c.table[i])
            && (0 <= number < 31 && inRange ==> d.table[number] == handler && d.ret == c.table[number])
            && (0 <= number < 31 && !inRange ==> d.table == c.table && d.ret == 0)
            && (!(0 <= number < 31) ==> d == c)
  {
  }

  /** A handler that is registered is called: a later signal of its number above the level pushes a frame. */
  lemma RegisteredIsDelivered(c: Context, n: nat, h: nat)
    requires Formed(c) && n < 31 && h != 0 && n !in c.mask && n > c.level
    ensures var d := Step(Step(c, Registered(n, h, true)), Sent(n));
            && |d.frames| == |c.frames| + 1 && n in d.mask && d.level == n && d.table[n] == h
  {
    RegisteredEffect(c, n, h, true);
    SentEffect(Step(c, Registered(n, h, true)), n);
  }

  /** Unregistering stops it, and a second registration answers with the first handler. */
  lemma LastRegistrationCounts(c: Context, n: nat, h: nat, g: nat)
    requires Formed(c) && n < 31
    ensures Step(Step(c, Registered(n, h, true)), Registered(n, g, true)).ret == h
    ensures Step(Step(c, Registered(n, h, true)), Registered(n, g, true)).table[n] == g
    ensures n !in c.mask ==> var d := Step(c, Registered(n, 0, true)); Step(d, Sent(n)) == d
  {
    RegisteredEffect(c, n, h, true);
    RegisteredEffect(Step(c, Registered(n, h, true)), n, g, true);
    RegisteredEffect(c, n, 0, true);
  }

  /** A return with whatever values it carries (c/disp.c:110-127). */
  lemma SigReturnEffect(c: Context, f: Frame)
    ensures var d := SigReturn(c, f);
            && d.esp == f.oldSp && d.ret == f.oldRet && d.level == f.level
            && d.mask == c.mask && d.table == c.table
            && d.frames == if c.frames == [] then [] else c.frames[..|c.frames| - 1]
  {
  }

  lemma {:induction false} RunConcat(c: Context, xs: seq<Event>, ys: seq<Event>)
    requires Formed(c)
    ensures Run(c, xs + ys) == Run(Run(c, xs), ys)
    decreases xs
  {
    if xs == [] {
      assert xs + ys == ys;
    } else {
      assert (xs + ys)[0] == xs[0] && (xs + ys)[1..] == xs[1..] + ys;
      RunConcat(Step(c, xs[0]), xs[1..], ys);
    }
  }

  /** How many frames for `signum` a run pushes. */
  function Deliveries(c: Context, es: seq<Event>, signum: nat): nat
    requires Formed(c)
    decreases es
  {
    if es == [] then 0
    else
      (if es[0] == Sent(signum) && |Step(c, es[0]).frames| > |c.frames| then 1 else 0)
      + Deliveries(Step(c, es[0]), es[1..], signum)
  }

  /** Once marked, a signal is never delivered again: nothing clears its bit. */
  lemma {:induction false} MarkedIsFinal(c: Context, es: seq<Event>, signum: nat)
    requires Formed(c) && signum in c.mask
    ensures Deliveries(c, es, signum) == 0 && signum in Run(c, es).mask
    decreases es
  {
    if es != [] {
      MarkedIsFinal(Step(c, es[0]), es[1..], signum);
    }
  }

  /** In every run each signal is delivered at most once over the life of the slot. */
  lemma {:induction false} DeliveredAtMostOnce(c: Context, es: seq<Event>, signum: nat)
    requires Formed(c)
    ensures Deliveries(c, es, signum) <= 1
    decreases es
  {
    if es != [] {
      var n := Step(c, es[0]);
      if es[0] == Sent(signum) && signum in n.mask {
        MarkedIsFinal(n, es[1..], signum);
      } else {
        DeliveredAtMostOnce(n, es[1..], signum);
      }
    }
  }

  /** The first effective `kill` decides: it delivers exactly when its number exceeds the current level. */
  lemma FirstSendDecides(c: Context, es: seq<Event>, signum: nat)
    requires Formed(c) && signum < MAX_SIG
    requires signum !in c.mask && c.table[signum] != 0
    ensures Deliveries(c, [Sent(signum)] + es, signum) == if signum > c.level then 1 else 0
  {
    var all := [Sent(signum)] + es;
    assert all[0] == Sent(signum) && all[1..] == es;
    MarkedIsFinal(Step(c, Sent(signum)), es, signum);
  }

  // ---------------------------------------------------------------- the frames on the user stack

  /**
   A delivery writes the 68 bytes below the stack pointer of the time (c/signal.c:19-31).  The frames
   lie below one another, and the stack pointer is below the newest.
   */
  ghost predicate Stacked(c: Context) {
    && (forall i, j :: 0 <= i < j < |c.frames| ==> c.frames[j].oldSp <= c.frames[i].oldSp - PUSHED_BYTES)
    && (c.frames != [] ==> c.esp <= c.frames[|c.frames| - 1].oldSp - PUSHED_BYTES)
  }

  /** User code leaves the stack pointer below the newest frame, as calls and returns in a handler do. */
  ghost predicate KeepsBelow(c: Context, es: seq<Event>)
    requires Formed(c)
    decreases es
  {
    es != [] ==>
      && (es[0].Runs? && c.frames != [] ==> es[0].esp <= c.frames[|c.frames| - 1].oldSp - PUSHED_BYTES)
      && KeepsBelow(Step(c, es[0]), es[1..])
  }

  lemma StackedStep(c: Context, e: Event)
    requires Formed(c) && Stacked(c)
    requires e.Runs? && c.frames != [] ==> e.esp <= c.frames[|c.frames| - 1].oldSp - PUSHED_BYTES
    ensures Stacked(Step(c, e))
  {
  }

  /** Through every such run no delivery overwrites the bytes of a frame that is still to return. */
  lemma {:induction false} FramesNeverOverlap(c: Context, es: seq<Event>, i: nat, j: nat)
    requires Formed(c) && Stacked(c) && KeepsBelow(c, es) && i < j < |Run(c, es).frames|
    ensures Run(c, es).frames[j].oldSp <= Run(c, es).frames[i].oldSp - PUSHED_BYTES
    ensures Run(c, es).esp <= Run(c, es).frames[j].oldSp - PUSHED_BYTES
    decreases es
  {
    if es != [] {
      StackedStep(c, es[0]);
      FramesNeverOverlap(Step(c, es[0]), es[1..], i, j);
    } else if j < |c.frames| - 1 {
      assert c.frames[|c.frames| - 1].oldSp <= c.frames[j].oldSp - PUSHED_BYTES;
    }
  }

  // ---------------------------------------------------------------- runs with the unsigned loop

  /** `Step` with a loop in sigreturn that starts at 2^31. */
  function UnsignedStep(c: Context, e: Event): (r: Context)
    requires Formed(c)
    ensures Formed(r)
  {
    if e.Returned? && c.frames != [] then Step(c, e).(mask := Cleared(c.mask, HALF)) else Step(c, e)
  }

  /** The signal that is handled, and those whose handlers it interrupts, are marked. */
  ghost predicate ActiveMarked(c: Context) {
    c.frames != [] ==> c.level in c.mask && forall i :: 1 <= i < |c.frames| ==> c.frames[i].level in c.mask
  }

  ghost predicate ClearsItsOwn(c: Context) {
    c.level in c.mask && Cleared(c.mask, HALF) == c.mask - {c.level}
  }

  ghost predicate NoneAbove(c: Context) {
    forall b :: b in c.mask ==> b <= c.level
  }

  /** One return clears the bit of the signal that it ends exactly when no higher signal is marked. */
  lemma ClearsItsOwnIff(c: Context)
    requires Nested(c) && ActiveMarked(c) && c.frames != []
    ensures ClearsItsOwn(c) <==> NoneAbove(c)
  {
    HalfIsPow2();
    ClearsHighest(c.mask, 31);
    assert 0 <= c.frames[0].level < c.level;
    var h := Highest(c.mask, 31);
    if h != c.level {
      assert h in c.mask && h > c.level;
      assert c.level in c.mask - {h};
    }
  }

  lemma UnsignedKeepsActive(c: Context, e: Event)
    requires Nested(c) && ActiveMarked(c)
    requires e.Returned? && c.frames != [] ==> ClearsItsOwn(c)
    ensures Nested(UnsignedStep(c, e)) && ActiveMarked(UnsignedStep(c, e))
  {
  }

  /** Every return of the run clears the bit of its own signal. */
  ghost predicate EachClearsItsOwn(c: Context, es: seq<Event>)
    requires Formed(c)
    decreases es
  {
    es != [] ==>
      && (es[0].Returned? && c.frames != [] ==> ClearsItsOwn(c))
      && EachClearsItsOwn(UnsignedStep(c, es[0]), es[1..])
  }

  /** No return of the run finds a higher signal marked. */
  ghost predicate NoReturnBelowMark(c: Context, es: seq<Event>)
    requires Formed(c)
    decreases es
  {
    es != [] ==>
      && (es[0].Returned? && c.frames != [] ==> NoneAbove(c))
      && NoReturnBelowMark(UnsignedStep(c, es[0]), es[1..])
  }

  /**
   Even with an unsigned loop the returns of a run clear the right bits if and only if none of them
   finds a higher signal marked, which one marked while it could not be delivered may still be.
   */
  lemma {:induction false} EachClearsItsOwnIff(c: Context, es: seq<Event>)
    requires Nested(c) && ActiveMarked(c)
    ensures EachClearsItsOwn(c, es) <==> NoReturnBelowMark(c, es)
    decreases es
  {
    if es != [] {
      if es[0].Returned? && c.frames != [] {
        ClearsItsOwnIff(c);
      }
      if !(es[0].Returned? && c.frames != []) || ClearsItsOwn(c) {
        UnsignedKeepsActive(c, es[0]);
        EachClearsItsOwnIff(UnsignedStep(c, es[0]), es[1..]);
      }
    }
  }

  lemma ThreeSent(c: Context)
    requires Formed(c) && c.mask == {} && c.frames == [] && c.level < 2
    requires c.table[2] != 0 && c.table[4] != 0 && c.table[5] != 0
    ensures var a := UnsignedStep(UnsignedStep(UnsignedStep(c, Sent(2)), Sent(5)), Sent(4));
            && a.mask == {2, 4, 5} && a.level == 5 && |a.frames| == 2
            && a.frames[0].level == c.level && a.frames[1].level == 2
  {
    var two := UnsignedStep(c, Sent(2));
    assert two.mask == {2} && two.level == 2 && two.frames == [Frame(c.esp, c.ret, c.level)] && two.table == c.table;
    var five := UnsignedStep(two, Sent(5));
    assert five.mask == {2, 5} && five.level == 5 && five.table == c.table;
    assert five.frames == two.frames + [Frame(two.esp, two.ret, 2)];
  }

  lemma ClearedIs(mask: set<nat>, h: nat)
    requires h in mask && 1 <= h <= 31 && forall b :: b in mask ==> b <= h
    ensures Cleared(mask, HALF) == mask - {h}
  {
    HalfIsPow2();
    ClearsHighest(mask, 31);
  }

  lemma TwoReturns(a: Context)
    requires Formed(a) && a.mask == {2, 4, 5} && |a.frames| == 2 && a.frames[1].level == 2
    ensures var d := UnsignedStep(a, Returned);
            d.level == 2 && d.mask == {2, 4} && UnsignedStep(d, Returned).mask == {2}
  {
    ClearedIs({2, 4, 5}, 5);
    ClearedIs({2, 4}, 4);
    assert {2, 4, 5} - {5} == {2, 4} && {2, 4} - {4} == {2};
  }

  /** Such a return is reached: 5 interrupts 2, and 4 is marked meanwhile; the return of 2 clears 4. */
  lemma WrongBitIsReached(c: Context)
    requires Formed(c) && c.mask == {} && c.frames == [] && c.level < 2
    requires c.table[2] != 0 && c.table[4] != 0 && c.table[5] != 0
    ensures var d := UnsignedStep(UnsignedStep(UnsignedStep(UnsignedStep(c, Sent(2)), Sent(5)), Sent(4)), Returned);
            d.level == 2 && d.mask == {2, 4} && UnsignedStep(d, Returned).mask == {2}
  {
    ThreeSent(c);
    TwoReturns(UnsignedStep(UnsignedStep(UnsignedStep(c, Sent(2)), Sent(5)), Sent(4)));
  }
}
