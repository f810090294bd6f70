/**
 The allocator as it is written in c/mem.c, rewriting headers in raw memory.  The ghost field `h`
 holds the abstract heap, and every method is proved to take it where `Tiling` says.
 */
module Allocator {
  import opened Machine
  import opened FreeList
  import opened Tiling
  import opened HeaderLinks
  import opened Coalescing
  import opened SecondFree

  ghost predicate LiveSound(m: Raw, live: set<Block>) {
    forall b :: b in live ==> b.addr in m && Sound(m[b.addr], b.size)
  }

  /** The sanity check of c/mem.c:222. */
  predicate Intact(m: Raw, p: nat) {
    p in m && m[p].sanityCheck == m[p].size + HEADER
  }

  /** The abstract heap and the headers agree. */
  ghost predicate Stored(l: Layout, h: Heap, m: Raw, slot: nat) {
    && GoodLayout(l)
    && Tiled(l, h) && OnBoundary(h)
    && Linked(m, h.free, slot)
    && LiveSound(m, h.live)
  }

  /** A live block's bytes are not free, and its address is not null. */
  lemma LiveElsewhere(l: Layout, h: Heap, b: Block)
    requires GoodLayout(l) && Tiled(l, h) && b in h.live
    ensures !Covers(h.free, b.addr) && b.addr > 0
  {
    assert In(b, b.addr) && LiveCovers(h.live, b.addr);
  }

  lemma FreePositive(l: Layout, h: Heap, a: int)
    requires GoodLayout(l) && Tiled(l, h) && Covers(h.free, a)
    ensures a > 0
  {
    assert InRegion(l, a);
  }

  /** Relinking writes only inside free blocks and at the address of the block that fills the gap. */
  lemma RehookElsewhere(m: Raw, f: seq<Block>, i: nat, j: nat, g: seq<Block>, a: nat)
    requires a in m && a != 0 && !Covers(f, a) && (g != [] ==> a != g[0].addr)
    ensures a in Rehook(m, f, i, j, g) && Rehook(m, f, i, j, g)[a] == m[a]
  {
    RehookRead(m, f, i, j, g, a);
  }

  /** Live headers survive: `g` fills the gap at an address that belongs to no block of `live`. */
  lemma LiveAfterRehook(m: Raw, f: seq<Block>, live: set<Block>, i: nat, j: nat, g: seq<Block>)
    requires LiveSound(m, live)
    requires forall c :: c in live ==> c.addr > 0 && !Covers(f, c.addr) && (g != [] ==> c.addr != g[0].addr)
    ensures LiveSound(Rehook(m, f, i, j, g), live)
  {
    forall c | c in live
      ensures c.addr in Rehook(m, f, i, j, g) && Sound(Rehook(m, f, i, j, g)[c.addr], c.size)
    {
      RehookElsewhere(m, f, i, j, g, c.addr);
    }
  }

  lemma LiveAllElsewhere(l: Layout, h: Heap)
    requires GoodLayout(l) && Tiled(l, h)
    ensures forall c :: c in h.live ==> c.addr > 0 && !Covers(h.free, c.addr)
  {
    forall c | c in h.live
      ensures c.addr > 0 && !Covers(h.free, c.addr)
    {
      LiveElsewhere(l, h, c);
    }
  }

  // ---------------------------------------------------------------- what each operation leaves in memory

  /** An address inside the `i`-th block is no other block's. */
  lemma InsideDiffers(f: seq<Block>, i: nat, a: nat, k: nat)
    requires Canonical(f) && i < |f| && In(f[i], a) && k < |f| && k != i
    ensures f[k].addr != a
  {
    if k < i {
      assert End(f[k]) < f[i].addr;
    } else {
      assert End(f[i]) < f[k].addr;
    }
  }

  /** The `i`-th block gives way to `c`, at its own address or inside it; its own header may have changed. */
  lemma ReplaceLinked(m: Raw, w: Raw, f: seq<Block>, slot: nat, i: nat, c: Block)
    requires Linked(m, f, slot) && Canonical(f) && i < |f| && In(f[i], c.addr)
    requires m.Keys <= w.Keys && forall k :: 0 <= k < i || i + 1 <= k < |f| ==> w[f[k].addr] == m[f[k].addr]
    ensures Linked(Rehook(w, f, i, i + 1, [c]), f[i := c], if i == 0 then c.addr else slot)
  {
    ReplaceResplices(m, w, f, slot, i, c);
    SplicedLinked(m, Rehook(w, f, i, i + 1, [c]), f, slot, i, i + 1, [c]);
    SplicedOne(f, i, c);
  }

  lemma ReplaceResplices(m: Raw, w: Raw, f: seq<Block>, slot: nat, i: nat, c: Block)
    requires Linked(m, f, slot) && Canonical(f) && i < |f| && In(f[i], c.addr)
    requires m.Keys <= w.Keys && forall k :: 0 <= k < i || i + 1 <= k < |f| ==> w[f[k].addr] == m[f[k].addr]
    ensures c.addr > 0 && Resplices(m, Rehook(w, f, i, i + 1, [c]), f, i, i + 1, [c])
  {
    forall k | 0 <= k < i || i + 1 <= k < |f|
      ensures f[k].addr != c.addr
    {
      InsideDiffers(f, i, c.addr, k);
    }
    RehookResplices(m, w, f, slot, i, i + 1, [c]);
  }

  lemma SplicedOne(f: seq<Block>, i: nat, c: Block)
    requires i < |f|
    ensures Spliced(f, i, i + 1, [c]) == f[i := c]
  {
  }

  lemma ResizedFrame(m: Raw, f: seq<Block>, i: nat, size: nat)
    requires Placed(m, f) && Canonical(f) && i < |f|
    ensures forall k :: 0 <= k < i || i + 1 <= k < |f| ==> Resized(m, f[i].addr, size)[f[k].addr] == m[f[k].addr]
  {
    forall k | 0 <= k < i || i + 1 <= k < |f|
      ensures f[k].addr != f[i].addr
    {
      AddrsDiffer(f, k, i);
    }
  }

  lemma SplitTaken(m: Raw, f: seq<Block>, slot: nat, i: nat, req: nat)
    requires Linked(m, f, slot) && Canonical(f) && i < |f| && Splits(f[i], req)
    ensures var u := Rehook(Resized(m, f[i].addr, req), f, i, i + 1, [Rest(f[i], req)]);
            f[i].addr in u && Sound(u[f[i].addr], req)
  {
    RehookRead(Resized(m, f[i].addr, req), f, i, i + 1, [Rest(f[i], req)], f[i].addr);
  }

  lemma SplitLive(l: Layout, h: Heap, m: Raw, i: nat, req: nat)
    requires GoodLayout(l) && Tiled(l, h) && LiveSound(m, h.live) && i < |h.free| && Splits(h.free[i], req)
    ensures LiveSound(Rehook(Resized(m, h.free[i].addr, req), h.free, i, i + 1, [Rest(h.free[i], req)]), h.live)
  {
    var f, rest := h.free, Rest(h.free[i], req);
    LiveAllElsewhere(l, h);
    assert In(f[i], rest.addr) && In(f[i], f[i].addr);
    assert Covers(f, rest.addr) && Covers(f, f[i].addr);
    LiveAfterRehook(Resized(m, f[i].addr, req), f, h.live, i, i + 1, [rest]);
  }

  lemma TakeOnBoundary(h: Heap, i: nat, req: nat)
    requires OnBoundary(h) && i < |h.free| && (Splits(h.free[i], req) ==> req % 16 == 0)
    ensures OnBoundary(Heap(TakeAt(h.free, i, req), h.live + {Taken(h.free[i], req)}))
  {
    var f, r := h.free, TakeAt(h.free, i, req);
    forall k | 0 <= k < |r|
      ensures r[k].addr % 16 == 0
    {
      if !Splits(f[i], req) {
        assert r[k] == if k < i then f[k] else f[k + 1];
      }
    }
  }

  lemma SplitStored(l: Layout, h: Heap, m: Raw, slot: nat, i: nat, req: nat)
    requires Stored(l, h, m, slot) && i < |h.free| && Splits(h.free[i], req) && req % 16 == 0
    ensures var f, rest := h.free, Rest(h.free[i], req);
            Stored(l, Heap(TakeAt(f, i, req), h.live + {Taken(f[i], req)}),
                   Rehook(Resized(m, f[i].addr, req), f, i, i + 1, [rest]), if i == 0 then rest.addr else slot)
  {
    var f, rest := h.free, Rest(h.free[i], req);
    var w := Resized(m, f[i].addr, req);
    assert Linked(Rehook(w, f, i, i + 1, [rest]), TakeAt(f, i, req), if i == 0 then rest.addr else slot) by {
      ResizedFrame(m, f, i, req);
      ReplaceLinked(m, w, f, slot, i, rest);
    }
    assert LiveSound(Rehook(w, f, i, i + 1, [rest]), h.live + {Taken(f[i], req)}) by {
      SplitTaken(m, f, slot, i, req);
      SplitLive(l, h, m, i, req);
    }
    SomeMallocTiled(l, h, i, req);
    TakeOnBoundary(h, i, req);
  }

  lemma DropLinked(m: Raw, f: seq<Block>, slot: nat, i: nat)
    requires Linked(m, f, slot) && Canonical(f) && i < |f|
    ensures var u := Rehook(m, f, i, i + 1, []);
            && Linked(u, f[..i] + f[i + 1..], if i == 0 then AddrAt(f, 1) else slot)
            && f[i].addr in u && Sound(u[f[i].addr], f[i].size)
  {
    DropSplices(m, f, slot, i);
    SplicedNone(f, i);
    HeaderAt(m, f, slot, i);
    RehookRead(m, f, i, i + 1, [], f[i].addr);
  }

  lemma DropSplices(m: Raw, f: seq<Block>, slot: nat, i: nat)
    requires Linked(m, f, slot) && Canonical(f) && i < |f|
    ensures var r := Spliced(f, i, i + 1, []);
            Linked(Rehook(m, f, i, i + 1, []), r, AddrAt(r, 0))
  {
    RehookResplices(m, m, f, slot, i, i + 1, []);
    SplicedLinked(m, Rehook(m, f, i, i + 1, []), f, slot, i, i + 1, []);
  }

  lemma SplicedNone(f: seq<Block>, i: nat)
    requires i < |f|
    ensures Spliced(f, i, i + 1, []) == f[..i] + f[i + 1..]
    ensures AddrAt(f[..i] + f[i + 1..], 0) == if i == 0 then AddrAt(f, 1) else AddrAt(f, 0)
  {
  }

  lemma WholeStored(l: Layout, h: Heap, m: Raw, slot: nat, i: nat)
    requires Stored(l, h, m, slot) && i < |h.free|
    ensures var f := h.free;
            Stored(l, Heap(f[..i] + f[i + 1..], h.live + {f[i]}), Rehook(m, f, i, i + 1, []), if i == 0 then AddrAt(f, 1) else slot)
  {
    var f := h.free;
    DropLinked(m, f, slot, i);
    assert LiveSound(Rehook(m, f, i, i + 1, []), h.live + {f[i]}) by {
      LiveAllElsewhere(l, h);
      LiveAfterRehook(m, f, h.live, i, i + 1, []);
    }
    SomeMallocTiled(l, h, i, f[i].size);
    TakeOnBoundary(h, i, f[i].size);
  }

  lemma FreedStored(l: Layout, h: Heap, m: Raw, slot: nat, b: Block, i: nat)
    requires Stored(l, h, m, slot) && b in h.live && Fits(h.free, b, i)
    ensures Stored(l, Free(h, b), Freed(m, h.free, b, i), AddrAt(InsertFree(h.free, b), 0))
  {
    var f := h.free;
    LiveElsewhere(l, h, b);
    FreeApart(l, h, b);
    FreedLinked(m, f, slot, b, i);
    FreeTiled(l, h, b);
    InsertFreeOnBoundary(f, b);
    FreedLive(l, h, m, b, i);
  }

  /** No free block starts where a live one does. */
  lemma NoneAtLive(l: Layout, h: Heap, b: Block)
    requires GoodLayout(l) && Tiled(l, h) && b in h.live
    ensures forall k :: 0 <= k < |h.free| ==> h.free[k].addr != b.addr
  {
    LiveElsewhere(l, h, b);
    assert forall k :: 0 <= k < |h.free| ==> In(h.free[k], h.free[k].addr);
  }

  /** Everything about cases C to H for a live block that belongs behind the free block `i - 1`. */
  lemma FreedAbove(l: Layout, h: Heap, m: Raw, slot: nat, b: Block, i: nat)
    requires Stored(l, h, m, slot) && b in h.live && Fits(h.free, b, i) && i > 0
    ensures b.addr in m && h.free[i - 1].addr in m
    ensures m[h.free[i - 1].addr].next != 0 ==> m[h.free[i - 1].addr].next in m
    ensures var u := FiledBehind(m, b.addr, h.free[i - 1].addr);
            Stored(l, Free(h, b), u, slot) && Intact(u, b.addr)
  {
    var f := h.free;
    FreedStored(l, h, m, slot, b, i);
    FiledBehindIsFreed(m, f, slot, b, i);
    HeaderAt(m, f, slot, i - 1);
    if i < |f| {
      HeaderAt(m, f, slot, i);
    }
    assert Intact(Freed(m, f, b, i), b.addr) by {
      LiveElsewhere(l, h, b);
      FreeApart(l, h, b);
      FreedPasses(m, f, slot, b, i);
    }
    assert AddrAt(InsertFree(f, b), 0) == slot by {
      FreeApart(l, h, b);
      InsertFreeFacts(f, b);
    }
  }

  lemma FreedLive(l: Layout, h: Heap, m: Raw, b: Block, i: nat)
    requires GoodLayout(l) && Tiled(l, h) && LiveSound(m, h.live) && b in h.live && Fits(h.free, b, i)
    ensures LiveSound(Freed(m, h.free, b, i), h.live - {b})
  {
    var f, c := h.free, Merged(h.free, b, i);
    LiveAllElsewhere(l, h);
    if TouchesLeft(f, b, i) {
      FreePositiveAt(l, h, i - 1);
    }
    LiveAfterRehook(m, f, h.live - {b}, Lo(f, b, i), Hi(f, b, i), [c]);
  }

  lemma FreePositiveAt(l: Layout, h: Heap, i: nat)
    requires GoodLayout(l) && Tiled(l, h) && i < |h.free|
    ensures h.free[i].addr > 0
  {
    assert In(h.free[i], h.free[i].addr);
    FreePositive(l, h, h.free[i].addr);
  }

  /** What c/mem.c:146-158 write; `c` is the header of the block before. */
  function SplitWrites(m: Raw, a: nat, req: nat, c: Header): Raw
    requires req + HEADER <= c.size
  {
    var n := a + HEADER + req;
    LinkNext(LinkPrev(Resized(m, a, req)[n := Header(c.size - req - HEADER, c.prev, c.next, c.size - req)], c.next, n), c.prev, n)
  }

  /** They are one relinking. */
  lemma SplitRehook(m: Raw, f: seq<Block>, slot: nat, i: nat, req: nat)
    requires Linked(m, f, slot) && i < |f| && Splits(f[i], req)
    ensures f[i].addr in m && m[f[i].addr].size == f[i].size
    ensures Rehook(Resized(m, f[i].addr, req), f, i, i + 1, [Rest(f[i], req)]) == SplitWrites(m, f[i].addr, req, m[f[i].addr])
  {
    HeaderAt(m, f, slot, i);
    SplitIs(m, f, i, req, m[f[i].addr]);
  }

  lemma SplitIs(m: Raw, f: seq<Block>, i: nat, req: nat, c: Header)
    requires i < |f| && Splits(f[i], req)
    requires c.size == f[i].size && c.prev == AddrAt(f, i - 1) && c.next == AddrAt(f, i + 1)
    ensures Rehook(Resized(m, f[i].addr, req), f, i, i + 1, [Rest(f[i], req)]) == SplitWrites(m, f[i].addr, req, c)
  {
  }

  lemma PrevIsNull(m: Raw, f: seq<Block>, slot: nat, i: nat)
    requires Linked(m, f, slot) && i < |f|
    ensures f[i].addr in m && (m[f[i].addr].prev == 0 <==> i == 0)
  {
    HeaderAt(m, f, slot, i);
    if i > 0 {
      HeaderAt(m, f, slot, i - 1);
    }
  }

  class Memory {
    const layout: Layout
    var mem: Raw
    var memSlot: nat
    ghost var h: Heap

    ghost predicate Valid()
      reads this
    {
      Stored(layout, h, mem, memSlot)
    }

    /** `kmeminit`, c/mem.c:51-72. */
    constructor (layout: Layout)
      requires GoodLayout(layout)
      ensures Valid() && this.layout == layout && h == Initial(layout)
    {
      this.layout := layout;
      var before, after := layout.start, layout.holeEnd;
      var low, high := layout.holeStart - before - HEADER, layout.maxaddr - after - HEADER;
      mem := map[before := Header(low, 0, after, low + HEADER), after := Header(high, before, 0, high + HEADER)];
      memSlot := before;
      h := Initial(layout);
      InitialTiled(layout);
    }

    // -------------------------------------------------------------- single assignments

    /** c/mem.c:39-45. */
    method CompleteHeader(a: nat, size: nat, prev: nat, next: nat)
      modifies this`mem
      ensures mem == old(mem)[a := Header(size, prev, next, size + HEADER)]
    {
      mem := mem[a := Header(size, prev, next, size + HEADER)];
    }

    method Resize(a: nat, size: nat)
      requires a in mem
      modifies this`mem
      ensures mem == Resized(old(mem), a, size)
    {
      mem := mem[a := mem[a].(size := size, sanityCheck := size + HEADER)];
    }

    method SetPrev(a: nat, prev: nat)
      requires a in mem
      modifies this`mem
      ensures mem == old(mem)[a := old(mem)[a].(prev := prev)]
    {
      mem := mem[a := mem[a].(prev := prev)];
    }

    method SetNext(a: nat, next: nat)
      requires a in mem
      modifies this`mem
      ensures mem == old(mem)[a := old(mem)[a].(next := next)]
    {
      mem := mem[a := mem[a].(next := next)];
    }

    // -------------------------------------------------------------- kmalloc

    /** c/mem.c:146-158, with the header subtracted at line 147 and `memSlot` moved only off the first block. */
    method SplitHeaders(curr: nat, req: nat, ghost f: seq<Block>, ghost i: nat)
      requires Linked(mem, f, memSlot) && i < |f| && curr == f[i].addr && Splits(f[i], req)
      modifies this`mem, this`memSlot
      ensures mem == Rehook(Resized(old(mem), curr, req), f, i, i + 1, [Rest(f[i], req)])
      ensures memSlot == if i == 0 then Rest(f[i], req).addr else old(memSlot)
    {
      HeaderAt(mem, f, memSlot, i);
      SplitRehook(mem, f, memSlot, i, req);
      PrevIsNull(mem, f, memSlot, i);
      WriteSplit(curr, req, mem[curr]);
    }

    /** The assignments themselves; `c` is the header before. */
    method WriteSplit(curr: nat, req: nat, c: Header)
      requires curr in mem && req + HEADER <= c.size
      modifies this`mem, this`memSlot
      ensures mem == SplitWrites(old(mem), curr, req, c)
      ensures memSlot == if c.prev == 0 then curr + HEADER + req else old(memSlot)
    {
      var n := curr + HEADER + req;
      Resize(curr, req);
      CompleteHeader(n, c.size - req - HEADER, c.prev, c.next);
      SetPrevUnlessNull(c.next, n);
      SetNextUnlessNull(c.prev, n);
      if c.prev == 0 {
        memSlot := n;
      }
    }

    /** c/mem.c:170-200, with `memSlot` moved only off the first block. */
    method DropHeader(curr: nat, ghost f: seq<Block>, ghost i: nat)
      requires Linked(mem, f, memSlot) && i < |f| && curr == f[i].addr
      modifies this`mem, this`memSlot
      ensures mem == Rehook(old(mem), f, i, i + 1, [])
      ensures memSlot == if i == 0 then AddrAt(f, 1) else old(memSlot)
    {
      var c := mem[curr];
      if c.prev == 0 {
        memSlot := c.next;
      }
      if c.next != 0 {
        SetPrev(c.next, c.prev);
      }
      if c.prev != 0 {
        SetNext(c.prev, c.next);
      }
    }

    /** The two branches of c/mem.c:142-201 for the block that has room. */
    method Grant(curr: nat, req: nat, ghost i: nat)
      requires Valid() && i < |h.free| && curr == h.free[i].addr && req <= h.free[i].size && req % 16 == 0
      modifies this`mem, this`memSlot, this`h
      ensures Valid()
      ensures h == Heap(TakeAt(old(h).free, i, req), old(h).live + {Taken(old(h).free[i], req)})
    {
      ghost var f := h.free;
      HeaderAt(mem, f, memSlot, i);
      if req + HEADER < mem[curr].size {
        SplitStored(layout, h, mem, memSlot, i, req);
        SplitHeaders(curr, req, f, i);
      } else {
        WholeStored(layout, h, mem, memSlot, i);
        DropHeader(curr, f, i);
      }
      h := Heap(TakeAt(f, i, req), h.live + {Taken(f[i], req)});
    }

    /** c/mem.c:122-206: a pointer to the block granted, 0 for none. */
    method Kmalloc(size: nat) returns (ptr: nat)
      requires Valid() && size < WORD
      modifies this`mem, this`memSlot, this`h
      ensures Valid()
      ensures var (n, grant) := Malloc(old(h), Aligned(size));
              h == n && ptr == if grant.Some? then grant.block.addr + HEADER else 0
    {
      var req := Aligned(size);
      AlignedIsLeast(size);
      var curr := memSlot;
      if req == 0 || curr == 0 {
        return 0;
      }
      ghost var i, f := 0, h.free;
      while curr != 0
        invariant 0 <= i <= |f| && curr == AddrAt(f, i)
        invariant forall j :: 0 <= j < i ==> f[j].size < req
        invariant Valid() && h == old(h)
        decreases |f| - i
      {
        HeaderAt(mem, f, memSlot, i);
        if req <= mem[curr].size {
          Grant(curr, req, i);
          return curr + HEADER;
        }
        curr := mem[curr].next;
        i := i + 1;
      }
      return 0;
    }

    // -------------------------------------------------------------- kfree

    /** Cases A and B, c/mem.c:234-252, and the empty list, which the source does not serve. */
    method FreeFront(p: nat, ghost f: seq<Block>, ghost b: Block)
      requires Linked(mem, f, memSlot) && Fits(f, b, 0) && p == b.addr && p in mem && Sound(mem[p], b.size)
      modifies this`mem, this`memSlot
      ensures mem == Freed(old(mem), f, b, 0) && memSlot == p
    {
      var curr, size := memSlot, mem[p].size;
      if curr != 0 && p + HEADER + size == curr {
        var next := mem[curr].next;
        CompleteHeader(p, size + mem[curr].size + HEADER, 0, next);
        if next != 0 {
          SetPrev(next, p);
        }
      } else {
        CompleteHeader(p, size, 0, curr);
        if curr != 0 {
          SetPrev(curr, p);
        }
      }
      memSlot := p;
    }

    /** `a->prev = x` behind a null test. */
    method SetPrevUnlessNull(a: nat, x: nat)
      modifies this`mem
      ensures mem == LinkPrev(old(mem), a, x)
    {
      if a != 0 && a in mem {
        SetPrev(a, x);
      }
    }

    /** `a->next = x` behind a null test. */
    method SetNextUnlessNull(a: nat, x: nat)
      modifies this`mem
      ensures mem == LinkNext(old(mem), a, x)
    {
      if a != 0 && a in mem {
        SetNext(a, x);
      }
    }

    /** Case E, c/mem.c:281-296. */
    method MergeBoth(curr: nat, size: nat, temp: nat)
      requires curr in mem && temp in mem
      modifies this`mem
      ensures mem == JoinBoth(old(mem), curr, size, temp)
    {
      var next := mem[temp].next;
      CompleteHeader(curr, mem[curr].size + size + mem[temp].size + 2 * HEADER, mem[curr].prev, next);
      SetPrevUnlessNull(next, curr);
    }

    /** Case G, c/mem.c:305-321. */
    method MergeRight(p: nat, curr: nat, size: nat, temp: nat)
      requires temp in mem
      modifies this`mem
      ensures mem == JoinRight(old(mem), p, curr, size, temp)
    {
      var next := mem[temp].next;
      CompleteHeader(p, size + mem[temp].size + HEADER, curr, next);
      SetPrevUnlessNull(next, p);
      SetNextUnlessNull(curr, p);
    }

    /** Cases D and H, c/mem.c:268-271 and 322-330. */
    method FileBetween(p: nat, curr: nat, size: nat, temp: nat)
      modifies this`mem
      ensures mem == Between(old(mem), p, curr, size, temp)
    {
      CompleteHeader(p, size, curr, temp);
      SetPrevUnlessNull(temp, p);
      SetNextUnlessNull(curr, p);
    }

    /** Cases C to H, c/mem.c:257-330, with unscaled addition at lines 259 and 276; `temp` is `curr->next`. */
    method FreeBehind(p: nat, curr: nat)
      requires p in mem && curr in mem && (mem[curr].next != 0 ==> mem[curr].next in mem)
      modifies this`mem
      ensures mem == FiledBehind(old(mem), p, curr)
    {
      var size, temp := mem[p].size, mem[curr].next;
      var left, right := p == curr + mem[curr].size + HEADER, temp != 0 && p + HEADER + size == temp;
      if left && right {
        MergeBoth(curr, size, temp);
      } else if left {
        Resize(curr, mem[curr].size + size + HEADER);
      } else if right {
        MergeRight(p, curr, size, temp);
      } else {
        FileBetween(p, curr, size, temp);
      }
    }

    /** The walk of c/mem.c:254-333: the last free block below `p`. */
    method FindBelow(p: nat, ghost f: seq<Block>) returns (curr: nat, ghost i: nat)
      requires memSlot == AddrAt(f, 0) && Placed(mem, f) && Forward(mem, f) && f != [] && f[0].addr < p
      requires forall k :: 0 <= k < |f| ==> f[k].addr != p
      ensures 0 < i <= |f| && curr == f[i - 1].addr && curr < p && (i < |f| ==> p < f[i].addr)
    {
      curr, i := memSlot, 1;
      while mem[curr].next != 0 && mem[curr].next <= p
        invariant 0 < i <= |f| && curr == f[i - 1].addr && curr < p
        decreases |f| - i
        modifies {}
      {
        assert mem[curr].next == AddrAt(f, i);
        curr := mem[curr].next;
        i := i + 1;
      }
      assert mem[curr].next == AddrAt(f, i);
    }

    /** The sanity check of c/mem.c:212-225. */
    predicate Accepts(ptr: nat)
      reads this
    {
      && PassesChecks(layout, ptr)
      && ptr >= HEADER && Intact(mem, ptr - HEADER)
    }

    /** The part of `kfree` that files a block above the lowest free one, c/mem.c:238-330. */
    method FreeAbove(p: nat, ghost b: Block)
      requires Valid() && b in h.live && p == b.addr && memSlot != 0 && memSlot <= p
      modifies this`mem
      ensures Stored(layout, Free(h, b), mem, memSlot)
      ensures Intact(mem, p)
    {
      NoneAtLive(layout, h, b);
      var curr;
      ghost var i;
      curr, i := FindBelow(p, h.free);
      FreedAbove(layout, h, mem, memSlot, b, i);
      FreeBehind(p, curr);
    }

    /**
     c/mem.c:209-337.  The caller may pass any pointer except a stale one: if the checks let it
     through, it must be the pointer of a live block.  They let it through once more afterwards;
     `SecondFree` says what happens then.
     */
    method Kfree(ptr: nat) returns (r: int)
      requires Valid()
      requires Accepts(ptr) ==> Block(ptr - HEADER, mem[ptr - HEADER].size) in h.live
      modifies this`mem, this`memSlot, this`h
      ensures Valid()
      ensures r == if old(Accepts(ptr)) then 1 else 0
      ensures Accepts(ptr) == old(Accepts(ptr))
      ensures h == if old(Accepts(ptr)) then Free(old(h), Block(ptr - HEADER, old(mem)[ptr - HEADER].size)) else old(h)
    {
      if !Accepts(ptr) {
        return 0;
      }
      var p := ptr - HEADER;
      ghost var f, b := h.free, Block(p, mem[p].size);
      LiveElsewhere(layout, h, b);
      FreeApart(layout, h, b);
      if memSlot == 0 || p < memSlot {
        FreedStored(layout, h, mem, memSlot, b, 0);
        FreedPasses(mem, f, memSlot, b, 0);
        FreeFront(p, f, b);
      } else {
        FreeAbove(p, b);
      }
      h := Free(h, b);
      return 1;
    }
  }

}
