/**
 What a second `kfree` of the same block does (c/mem.c:209-337).  The sanity check reads only the
 header in raw memory, and that is as sound after the first `kfree` as before.
 */
module SecondFree {
  import opened Machine
  import opened FreeList
  import opened Tiling
  import opened HeaderLinks
  import opened Coalescing

  /** `f[j]` is where the walk of c/mem.c:257-333 stops for the address `p`. */
  ghost predicate StopsAt(f: seq<Block>, p: nat, j: nat) {
    && j < |f|
    && f[j].addr <= p
    && (j + 1 < |f| ==> p < f[j + 1].addr)
  }

  /** The stale block `s` lies within the free block where the walk stops. */
  ghost predicate Within(f: seq<Block>, s: Block, j: nat) {
    StopsAt(f, s.addr, j) && End(s) <= End(f[j])
  }

  /**
   `kfree` of the stale block `s`: nothing for the lowest free block, which is neither below nor
   above `memSlot` (c/mem.c:231, 256); else the assignments of cases C to H.
   */
  function FreedAgain(m: Raw, f: seq<Block>, s: Block, j: nat): Raw
    requires j < |f| && f[j].addr in m && s.addr in m
  {
    if s.addr == f[0].addr then m else FiledBehind(m, s.addr, f[j].addr)
  }

  // ---------------------------------------------------------------- the first kfree leaves the pointer valid

  /** After `kfree` of `b` its header is sound, and the block that it describes lies within a free block. */
  lemma FreedPasses(m: Raw, f: seq<Block>, slot: nat, b: Block, i: nat)
    requires Linked(m, f, slot) && Canonical(f) && Apart(f, b) && Fits(f, b, i)
    requires b.addr > 0 && b.addr in m && Sound(m[b.addr], b.size)
    ensures var u := Freed(m, f, b, i);
            && b.addr in u && Sound(u[b.addr], u[b.addr].size)
            && Within(InsertFree(f, b), Block(b.addr, u[b.addr].size), Lo(f, b, i))
  {
    var lo, hi, g := Lo(f, b, i), Hi(f, b, i), [Merged(f, b, i)];
    InsertFreeAt(f, b, i);
    MergedAmong(f, b, i);
    if TouchesLeft(f, b, i) {
      HeaderAt(m, f, slot, i - 1);
      RehookRead(m, f, lo, hi, g, b.addr);
    } else {
      FitsApart(f, b, i);
      RehookReadNew(m, f, lo, hi, g);
    }
  }

  lemma FitsApart(f: seq<Block>, b: Block, i: nat)
    requires Canonical(f) && Apart(f, b) && Fits(f, b, i) && b.addr > 0
    ensures AddrAt(f, Lo(f, b, i) - 1) != b.addr && AddrAt(f, Hi(f, b, i)) != b.addr
  {
    assert i < |f| && i + 1 < |f| ==> End(f[i]) < f[i + 1].addr;
  }

  /** The merged block among its neighbours. */
  lemma MergedAmong(f: seq<Block>, b: Block, i: nat)
    requires Canonical(f) && Apart(f, b) && Fits(f, b, i)
    ensures var r, lo := Spliced(f, Lo(f, b, i), Hi(f, b, i), [Merged(f, b, i)]), Lo(f, b, i);
            && lo < |r| && r[lo] == Merged(f, b, i)
            && r[lo].addr <= b.addr && End(b) <= End(r[lo])
            && (lo + 1 < |r| ==> End(b) <= r[lo + 1].addr && r[lo + 1] == f[Hi(f, b, i)])
  {
    var hi := Hi(f, b, i);
    if hi < |f| {
      assert Disjoint(f[hi], b);
      assert i < hi ==> End(f[i]) < f[hi].addr;
    }
  }

  // ---------------------------------------------------------------- and the second

  /** Memory and `memSlot` determine the list. */
  lemma {:induction false} LinkedAgree(m: Raw, f: seq<Block>, g: seq<Block>, slot: nat, k: nat)
    requires Linked(m, f, slot) && Linked(m, g, slot) && k < |f|
    ensures k < |g| && f[k] == g[k]
  {
    HeaderAt(m, f, slot, k);
    if k > 0 {
      LinkedAgree(m, f, g, slot, k - 1);
      HeaderAt(m, f, slot, k - 1);
      HeaderAt(m, g, slot, k - 1);
    }
    assert AddrAt(g, k) == AddrAt(f, k) > 0;
    HeaderAt(m, g, slot, k);
  }

  lemma LinkedUnique(m: Raw, f: seq<Block>, g: seq<Block>, slot: nat)
    requires Linked(m, f, slot) && Linked(m, g, slot)
    ensures f == g
  {
    if |f| < |g| {
      LinkedAgree(m, g, f, slot, |f|);
    } else if |g| < |f| {
      LinkedAgree(m, f, g, slot, |g|);
    }
    forall k | 0 <= k < |f|
      ensures f[k] == g[k]
    {
      LinkedAgree(m, f, g, slot, k);
    }
  }

  /** From a block that leads to itself no list ends. */
  lemma {:induction false} SelfLoopNeverEnds(m: Raw, g: seq<Block>, slot: nat, p: nat, k: nat)
    requires Linked(m, g, slot) && p in m && p > 0 && m[p].next == p
    requires k < |g| && g[k].addr == p
    ensures false
    decreases |g| - k
  {
    assert AddrAt(g, k + 1) == p;
    SelfLoopNeverEnds(m, g, slot, p, k + 1);
  }

  /** Case D or H with the block for its own predecessor. */
  lemma ListedAgainIs(m: Raw, f: seq<Block>, slot: nat, j: nat)
    requires Linked(m, f, slot) && Canonical(f) && 0 < j < |f|
    ensures f[j].addr in m && f[j].addr > 0
    ensures FreedAgain(m, f, f[j], j) == Between(m, f[j].addr, f[j].addr, f[j].size, AddrAt(f, j + 1))
  {
    HeaderAt(m, f, slot, j);
    AddrsDiffer(f, 0, j);
    assert j + 1 < |f| ==> End(f[j]) < f[j + 1].addr;
  }

  lemma BetweenSelf(m: Raw, p: nat, size: nat, temp: nat, x: nat)
    requires p in m && p > 0
    ensures var u := Between(m, p, p, size, temp);
            && p in u && u[p].next == p
            && (x in m && x != p && x != temp ==> x in u && u[x] == m[x])
  {
  }

  /** A free block other than the lowest is made to point at itself; those before it stay. */
  lemma ListedAgain(m: Raw, f: seq<Block>, slot: nat, j: nat)
    requires Linked(m, f, slot) && Canonical(f) && 0 < j < |f|
    ensures f[j].addr in m
    ensures var u := FreedAgain(m, f, f[j], j);
            && f[j].addr in u && u[f[j].addr].next == f[j].addr
            && forall k :: 0 <= k < j ==> f[k].addr in u && f[k].addr in m && u[f[k].addr] == m[f[k].addr]
  {
    ListedAgainIs(m, f, slot, j);
    var p, temp, u := f[j].addr, AddrAt(f, j + 1), FreedAgain(m, f, f[j], j);
    BetweenSelf(m, p, f[j].size, temp, p);
    forall k | 0 <= k < j
      ensures f[k].addr in m && f[k].addr in u && u[f[k].addr] == m[f[k].addr]
    {
      HeaderAt(m, f, slot, k);
      AddrsDiffer(f, k, j);
      if j + 1 < |f| {
        AddrsDiffer(f, k, j + 1);
      }
      BetweenSelf(m, p, f[j].size, temp, f[k].addr);
    }
  }

  /** The walk from `memSlot` still reaches it. */
  lemma {:induction false} WalkReaches(m: Raw, u: Raw, f: seq<Block>, g: seq<Block>, slot: nat, k: nat)
    requires Linked(m, f, slot) && Linked(u, g, slot) && k < |f|
    requires forall i :: 0 <= i < k ==> f[i].addr in u && u[f[i].addr] == m[f[i].addr]
    ensures k < |g| && g[k].addr == f[k].addr
  {
    HeaderAt(m, f, slot, k);
    if k > 0 {
      WalkReaches(m, u, f, g, slot, k - 1);
      HeaderAt(m, f, slot, k - 1);
      assert AddrAt(g, k) == AddrAt(f, k);
    }
  }

  lemma ListedAgainBreaks(m: Raw, f: seq<Block>, slot: nat, j: nat, g: seq<Block>)
    requires Linked(m, f, slot) && Canonical(f) && 0 < j < |f|
    ensures f[j].addr in m && !Linked(FreedAgain(m, f, f[j], j), g, slot)
  {
    ListedAgain(m, f, slot, j);
    HeaderAt(m, f, slot, j);
    var u := FreedAgain(m, f, f[j], j);
    if Linked(u, g, slot) {
      WalkReaches(m, u, f, g, slot, j);
      SelfLoopNeverEnds(u, g, slot, f[j].addr, j);
    }
  }

  /** A block inside a free block is filed once more, behind the one that contains it. */
  lemma InnerAgain(m: Raw, f: seq<Block>, slot: nat, s: Block, j: nat)
    requires Linked(m, f, slot) && Canonical(f) && Within(f, s, j) && f[j].addr < s.addr
    requires s.addr in m && m[s.addr].size == s.size
    ensures f[j].addr in m && Linked(FreedAgain(m, f, s, j), Spliced(f, j + 1, j + 1, [s]), slot)
    ensures !Canonical(Spliced(f, j + 1, j + 1, [s]))
  {
    HeaderAt(m, f, slot, j);
    var i, r := j + 1, Spliced(f, j + 1, j + 1, [s]);
    assert r[j] == f[j] && r[j + 1] == s;
    assert r[0] == f[0];
    FiledBehindIsFreed(m, f, slot, s, i);
    assert !TouchesLeft(f, s, i);
    assert !TouchesRight(f, s, i) by {
      assert i < |f| ==> End(f[j]) < f[i].addr;
    }
    forall k | 0 <= k < |f|
      ensures f[k].addr != s.addr
    {
      assert k < j ==> End(f[k]) < f[j].addr;
      assert k > j ==> End(f[j]) < f[k].addr;
    }
    RehookResplices(m, m, f, slot, i, i, [s]);
    SplicedLinked(m, Rehook(m, f, i, i, [s]), f, slot, i, i, [s]);
  }

  /**
   For every free list and every stale block within it: after `kfree` of that block memory holds a
   sound free list again if and only if the block is the lowest free one, which is left alone.
   */
  lemma SecondFreeIff(m: Raw, f: seq<Block>, slot: nat, s: Block, j: nat)
    requires Linked(m, f, slot) && Canonical(f) && Within(f, s, j)
    requires s.addr in m && m[s.addr].size == s.size
    ensures f[j].addr in m
    ensures (exists g :: Canonical(g) && Linked(FreedAgain(m, f, s, j), g, slot)) <==> s.addr == f[0].addr
  {
    HeaderAt(m, f, slot, j);
    var u := FreedAgain(m, f, s, j);
    if s.addr == f[0].addr {
      assert Canonical(f) && Linked(u, f, slot);
    } else if s.addr == f[j].addr {
      forall g
        ensures !Linked(u, g, slot)
      {
        ListedAgainBreaks(m, f, slot, j, g);
      }
    } else {
      InnerAgain(m, f, slot, s, j);
      forall g | Linked(u, g, slot)
        ensures !Canonical(g)
      {
        LinkedUnique(u, g, Spliced(f, j + 1, j + 1, [s]), slot);
      }
    }
  }

  /** So for a `kfree` called twice in a row. */
  lemma FreeTwiceIff(m: Raw, f: seq<Block>, slot: nat, b: Block, i: nat)
    requires Linked(m, f, slot) && Canonical(f) && Apart(f, b) && Fits(f, b, i)
    requires b.addr > 0 && b.addr in m && Sound(m[b.addr], b.size)
    ensures var u, g, j := Freed(m, f, b, i), InsertFree(f, b), Lo(f, b, i);
            && b.addr in u && j < |g| && g[j].addr in u
            && var s := Block(b.addr, u[b.addr].size);
               (exists r :: Canonical(r) && Linked(FreedAgain(u, g, s, j), r, g[0].addr)) <==> b.addr == g[0].addr
  {
    FreedPasses(m, f, slot, b, i);
    FreedLinked(m, f, slot, b, i);
    InsertFreeFacts(f, b);
    var u := Freed(m, f, b, i);
    SecondFreeIff(u, InsertFree(f, b), InsertFree(f, b)[0].addr, Block(b.addr, u[b.addr].size), Lo(f, b, i));
  }

  /**
   Two calls after boot get there: a request that only the upper region can serve, freed, leaves a
   stale pointer to a free block that is not the lowest.
   */
  lemma SecondFreeIsReached(l: Layout, req: nat, m: Raw, g: seq<Block>)
    requires GoodLayout(l) && req > 0
    requires Initial(l).free[0].size < req <= Initial(l).free[1].size
    requires Linked(m, Initial(l).free, l.start)
    ensures var h, b := Malloc(Initial(l), req).0, Malloc(Initial(l), req).1;
            && b.Some? && Free(h, b.block) == Initial(l) && b.block.addr == l.holeEnd && l.holeEnd in m
            && !Linked(FreedAgain(m, Initial(l).free, Initial(l).free[1], 1), g, l.start)
  {
    InitialTiled(l);
    assert FirstFit(Initial(l).free, req) == 1;
    KfreeUndoesKmalloc(l, Initial(l), req);
    ListedAgainBreaks(m, Initial(l).free, l.start, 1, g);
  }
}
