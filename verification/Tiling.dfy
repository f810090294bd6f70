/**
 The allocator of c/mem.c over whole runs: free and live blocks together tile the two regions
 of memory around the hole.  The last section says when the lines of the source that are
 repaired here would have done the same.
 */
module Tiling {
  import opened Machine
  import opened FreeList

  /** `start` is freemem rounded up; the other three are HOLESTART, HOLEEND and maxaddr. */
  datatype Layout = Layout(start: nat, holeStart: nat, holeEnd: nat, maxaddr: nat)

  predicate GoodLayout(l: Layout) {
    && 0 < l.start && l.start % 16 == 0 && l.start + HEADER <= l.holeStart
    && l.holeStart < l.holeEnd && l.holeEnd % 16 == 0 && l.holeEnd + HEADER <= l.maxaddr
    && l.maxaddr < WORD
  }

  predicate InRegion(l: Layout, a: int) {
    l.start <= a < l.holeStart || l.holeEnd <= a < l.maxaddr
  }

  datatype Heap = Heap(free: seq<Block>, live: set<Block>)

  ghost predicate LiveCovers(live: set<Block>, a: int) {
    exists b :: b in live && In(b, a)
  }

  /** Every byte of the two regions, and no other, belongs to exactly one block, free or live. */
  ghost predicate Tiled(l: Layout, h: Heap) {
    && Canonical(h.free)
    && (forall b, c :: b in h.live && c in h.live && b != c ==> Disjoint(b, c))
    && (forall a :: Covers(h.free, a) ==> !LiveCovers(h.live, a))
    && (forall a :: InRegion(l, a) <==> Covers(h.free, a) || LiveCovers(h.live, a))
  }

  /** Every block starts on a 16-byte boundary. */
  ghost predicate OnBoundary(h: Heap) {
    && (forall i :: 0 <= i < |h.free| ==> h.free[i].addr % 16 == 0)
    && (forall b :: b in h.live ==> b.addr % 16 == 0)
  }

  // ---------------------------------------------------------------- operations

  /** `aligned`, c/mem.c:30-36, in unsigned 32-bit arithmetic. */
  function Aligned(x: nat): nat {
    if x % 16 != 0 then U32(x + 16 - x % 16) else U32(x)
  }

  /** The smallest multiple of 16 that is not below `x`, unless that is 2^32 and wraps to 0. */
  lemma AlignedIsLeast(x: nat)
    requires x < WORD
    ensures Aligned(x) % 16 == 0
    ensures x <= WORD - 16 ==> x <= Aligned(x) < x + 16
    ensures x > WORD - 16 ==> Aligned(x) == 0
  {
    if x % 16 != 0 {
      var y := x + 16 - x % 16;
      assert y % 16 == 0;
    }
  }

  /** `kmeminit`, c/mem.c:51-72. */
  function Initial(l: Layout): Heap
    requires GoodLayout(l)
  {
    Heap([Block(l.start, l.holeStart - l.start - HEADER), Block(l.holeEnd, l.maxaddr - l.holeEnd - HEADER)], {})
  }

  /** `kmalloc` of an aligned number of bytes, c/mem.c:129-205; `None` is the null pointer. */
  datatype Grant = None | Some(block: Block)

  function Malloc(h: Heap, req: nat): (Heap, Grant) {
    var i := FirstFit(h.free, req);
    if req == 0 || i == |h.free| then (h, None)
    else
      var b := Taken(h.free[i], req);
      (Heap(TakeAt(h.free, i, req), h.live + {b}), Some(b))
  }

  /** `kfree` of a live block. */
  function Free(h: Heap, b: Block): Heap {
    Heap(InsertFree(h.free, b), h.live - {b})
  }

  // ---------------------------------------------------------------- the tiling is kept

  lemma InitialTiled(l: Layout)
    requires GoodLayout(l)
    ensures Tiled(l, Initial(l)) && OnBoundary(Initial(l))
  {
    var f := Initial(l).free;
    forall a
      ensures InRegion(l, a) <==> Covers(f, a)
    {
      if InRegion(l, a) {
        assert In(f[0], a) || In(f[1], a);
      }
    }
  }

  lemma FreeApart(l: Layout, h: Heap, b: Block)
    requires Tiled(l, h) && b in h.live
    ensures Apart(h.free, b)
  {
    forall a | Covers(h.free, a)
      ensures !In(b, a)
    {
    }
    ApartByBytes(h.free, b);
  }

  /** Taking from any block with room keeps the tiling, not just from the first. */
  lemma SomeMallocTiled(l: Layout, h: Heap, i: nat, req: nat)
    requires Tiled(l, h) && i < |h.free| && req <= h.free[i].size
    ensures Tiled(l, Heap(TakeAt(h.free, i, req), h.live + {Taken(h.free[i], req)}))
  {
    var b, r := Taken(h.free[i], req), TakeAt(h.free, i, req);
    TakeAtCanonical(h.free, i, req);
    forall a
      ensures Covers(h.free, a) <==> Covers(r, a) || In(b, a)
      ensures !(Covers(r, a) && In(b, a))
      ensures LiveCovers(h.live + {b}, a) <==> LiveCovers(h.live, a) || In(b, a)
    {
      TakeAtCovers(h.free, i, req, a);
    }
    forall c | c in h.live
      ensures Disjoint(b, c)
    {
      LiveApart(h, b, c);
    }
  }

  lemma MallocTiled(l: Layout, h: Heap, req: nat)
    requires Tiled(l, h)
    ensures Tiled(l, Malloc(h, req).0)
  {
    var i := FirstFit(h.free, req);
    if req != 0 && i < |h.free| {
      SomeMallocTiled(l, h, i, req);
    }
  }

  /** Bytes that were free are not a live block's. */
  lemma LiveApart(h: Heap, b: Block, c: Block)
    requires c in h.live
    requires forall a :: Covers(h.free, a) ==> !LiveCovers(h.live, a)
    requires forall a :: In(b, a) ==> Covers(h.free, a)
    ensures Disjoint(b, c)
  {
    if !Disjoint(b, c) {
      var a := if b.addr < c.addr then c.addr else b.addr;
      assert In(b, a) && In(c, a);
      assert false;
    }
  }

  lemma FreeTiled(l: Layout, h: Heap, b: Block)
    requires Tiled(l, h) && b in h.live
    ensures Tiled(l, Free(h, b))
  {
    FreeApart(l, h, b);
    InsertFreeFacts(h.free, b);
    var rest := h.live - {b};
    forall a
      ensures LiveCovers(h.live, a) <==> LiveCovers(rest, a) || In(b, a)
      ensures !(LiveCovers(rest, a) && In(b, a))
    {
      assert rest + {b} == h.live;
    }
  }

  lemma MallocOnBoundary(h: Heap, req: nat)
    requires OnBoundary(h) && req % 16 == 0
    ensures OnBoundary(Malloc(h, req).0)
  {
  }

  lemma {:induction false} InsertFreeOnBoundary(f: seq<Block>, b: Block)
    requires forall i :: 0 <= i < |f| ==> f[i].addr % 16 == 0
    requires b.addr % 16 == 0
    ensures forall i :: 0 <= i < |InsertFree(f, b)| ==> InsertFree(f, b)[i].addr % 16 == 0
  {
    if f != [] && b.addr >= f[0].addr && End(f[0]) != b.addr {
      InsertFreeOnBoundary(f[1..], b);
    }
  }

  // ---------------------------------------------------------------- whole runs

  datatype Call = Kmalloc(size: nat) | Kfree(block: Block)

  ghost predicate Permitted(h: Heap, c: Call) {
    match c
    case Kmalloc(size) => size < WORD
    case Kfree(b) => b in h.live
  }

  function After(h: Heap, c: Call): Heap {
    match c
    case Kmalloc(size) => Malloc(h, Aligned(size)).0
    case Kfree(b) => Free(h, b)
  }

  function AfterAll(h: Heap, cs: seq<Call>): Heap
    decreases cs
  {
    if cs == [] then h else AfterAll(After(h, cs[0]), cs[1..])
  }

  ghost predicate PermittedRun(h: Heap, cs: seq<Call>)
    decreases cs
  {
    cs != [] ==> Permitted(h, cs[0]) && PermittedRun(After(h, cs[0]), cs[1..])
  }

  /**
   After any sequence of `kmalloc` and `kfree` of live blocks, free and live blocks exactly tile
   the two regions, the free list is in address order, and no two free blocks touch.
   */
  lemma {:induction false} RunTiled(l: Layout, h: Heap, cs: seq<Call>)
    requires Tiled(l, h) && OnBoundary(h) && PermittedRun(h, cs)
    ensures Tiled(l, AfterAll(h, cs)) && OnBoundary(AfterAll(h, cs))
    decreases cs
  {
    if cs != [] {
      match cs[0] {
        case Kmalloc(size) =>
          AlignedIsLeast(size);
          MallocTiled(l, h, Aligned(size));
          MallocOnBoundary(h, Aligned(size));
        case Kfree(b) =>
          FreeTiled(l, h, b);
          InsertFreeOnBoundary(h.free, b);
      }
      RunTiled(l, After(h, cs[0]), cs[1..]);
    }
  }

  /** `kfree` of what `kmalloc` has just granted restores the heap, addresses and sizes. */
  lemma KfreeUndoesKmalloc(l: Layout, h: Heap, req: nat)
    requires Tiled(l, h) && Malloc(h, req).1.Some?
    ensures Free(Malloc(h, req).0, Malloc(h, req).1.block) == h
  {
    var i := FirstFit(h.free, req);
    var b := Taken(h.free[i], req);
    FreeUndoesAlloc(h.free, i, req);
    assert In(h.free[i], b.addr) && Covers(h.free, b.addr) && In(b, b.addr);
    assert b !in h.live;
    assert h.live + {b} - {b} == h.live;
  }

  /** A live block can be freed: its pointer passes the tests at the head of `kfree`, c/mem.c:212-217. */
  predicate PassesChecks(l: Layout, ptr: int) {
    && ptr >= l.start
    && !(l.holeStart < ptr < l.holeEnd)
    && ptr % 16 == 0
    && ptr <= l.maxaddr
  }

  /** The other pointers are refused: those not on a 16-byte boundary, and those outside both regions and their ends. */
  lemma RefusedIff(l: Layout, ptr: int)
    requires GoodLayout(l)
    ensures !PassesChecks(l, ptr)
            <==> ptr % 16 != 0 || !(l.start <= ptr <= l.holeStart || l.holeEnd <= ptr <= l.maxaddr)
  {
  }

  lemma LiveByte(h: Heap, b: Block, a: int)
    requires b in h.live && In(b, a)
    ensures LiveCovers(h.live, a)
  {
  }

  /** A live block lies in one of the two regions. */
  lemma LiveInRegion(l: Layout, h: Heap, b: Block)
    requires GoodLayout(l) && Tiled(l, h) && b in h.live
    ensures (l.start <= b.addr && End(b) <= l.holeStart) || (l.holeEnd <= b.addr && End(b) <= l.maxaddr)
  {
    LiveByte(h, b, b.addr);
    LiveByte(h, b, End(b) - 1);
    if b.addr < l.holeStart < End(b) {
      LiveByte(h, b, l.holeStart);
      assert false;
    }
  }

  lemma LivePointersPass(l: Layout, h: Heap, b: Block)
    requires GoodLayout(l) && Tiled(l, h) && OnBoundary(h) && b in h.live
    ensures PassesChecks(l, b.addr + HEADER)
  {
    LiveInRegion(l, h, b);
    assert b.addr % 16 == 0;
  }

  // ---------------------------------------------------------------- the lines that are repaired

  /** c/mem.c:142 as written: the sum wraps at 2^32. */
  predicate SplitsAsWritten(b: Block, req: nat) {
    U32(req + HEADER) < b.size
  }

  function FirstFitAsWritten(f: seq<Block>, req: nat): (i: nat)
    ensures i <= |f|
    ensures i < |f| ==> SplitsAsWritten(f[i], req) || req <= f[i].size
    ensures forall j :: 0 <= j < i ==> !SplitsAsWritten(f[j], req) && f[j].size < req
  {
    if f == [] || SplitsAsWritten(f[0], req) || req <= f[0].size then 0 else 1 + FirstFitAsWritten(f[1..], req)
  }

  /**
   The new free block of a split in 32 bits.  Where its header falls on the old one, the later
   `curr->size = req_size` (line 148) overwrites its size.
   */
  function RestInWords(b: Block, req: nat): Block {
    var a := U32(b.addr + HEADER + req);
    Block(a, if a == b.addr then req else U32(b.size - req - HEADER))
  }

  /** `kmalloc` with the sum of line 142 in 32 bits, and the other repairs. */
  function MallocAsWritten(h: Heap, req: nat): (Heap, Grant) {
    var i := FirstFitAsWritten(h.free, req);
    if req == 0 || i == |h.free| then (h, None)
    else
      var b := h.free[i];
      if SplitsAsWritten(b, req) then
        (Heap(h.free[i := RestInWords(b, req)], h.live + {Block(b.addr, req)}), Some(Block(b.addr, req)))
      else (Heap(h.free[..i] + h.free[i + 1..], h.live + {b}), Some(b))
  }

  /** Every block ends within the memory that 32 bits address. */
  lemma AddressesFit(l: Layout, h: Heap, b: Block)
    requires GoodLayout(l) && Tiled(l, h) && (b in h.free || b in h.live)
    ensures 0 < b.addr && End(b) <= l.maxaddr < WORD
  {
    assert In(b, b.addr) && In(b, End(b) - 1);
    if b in h.free {
      assert Covers(h.free, b.addr) && Covers(h.free, End(b) - 1);
    } else {
      assert LiveCovers(h.live, b.addr) && LiveCovers(h.live, End(b) - 1);
    }
  }

  /** The test wraps for one aligned request; every block with any room then seems to have enough. */
  lemma SplitTestWraps(b: Block, req: nat)
    requires req < WORD && req % 16 == 0
    ensures req != WORD - 16 ==> (SplitsAsWritten(b, req) <==> Splits(b, req))
    ensures req == WORD - 16 ==> (SplitsAsWritten(b, req) <==> b.size > 0)
  {
  }

  lemma {:induction false} FirstFitUnwrapped(f: seq<Block>, req: nat)
    requires req < WORD - 16 && req % 16 == 0
    ensures FirstFitAsWritten(f, req) == FirstFit(f, req)
  {
    if f != [] {
      SplitTestWraps(f[0], req);
      FirstFitUnwrapped(f[1..], req);
    }
  }

  lemma UnwrappedIsMalloc(l: Layout, h: Heap, req: nat)
    requires GoodLayout(l) && Tiled(l, h) && req < WORD - 16 && req % 16 == 0
    ensures MallocAsWritten(h, req) == Malloc(h, req)
  {
    FirstFitUnwrapped(h.free, req);
    var i := FirstFit(h.free, req);
    if req != 0 && i < |h.free| {
      var b := h.free[i];
      SplitTestWraps(b, req);
      AddressesFit(l, h, b);
    }
  }

  /**
   A wrapped request is granted from the first block with any room, far beyond its end, and what
   was granted stays on the free list.
   */
  lemma WrappedIsGranted(l: Layout, h: Heap, i: nat)
    requires GoodLayout(l) && Tiled(l, h) && i < |h.free| && h.free[i].size > 0
    ensures var (n, g) := MallocAsWritten(h, WORD - 16);
            g.Some? && End(g.block) > l.maxaddr && g.block in n.free && g.block in n.live && !Tiled(l, n)
  {
    var j := FirstFitAsWritten(h.free, WORD - 16);
    var (n, g) := MallocAsWritten(h, WORD - 16);
    AddressesFit(l, h, h.free[j]);
    assert n.free[j] == g.block;
    assert In(g.block, l.maxaddr) && LiveCovers(n.live, l.maxaddr);
  }

  predicate NoRoom(f: seq<Block>) {
    forall i :: 0 <= i < |f| ==> f[i].size == 0
  }

  lemma NoRoomIsMalloc(h: Heap)
    requires NoRoom(h.free)
    ensures MallocAsWritten(h, WORD - 16) == Malloc(h, WORD - 16)
  {
    assert FirstFitAsWritten(h.free, WORD - 16) == |h.free|;
    assert FirstFit(h.free, WORD - 16) == |h.free|;
  }

  /**
   For every aligned request: `kmalloc` as written does what it should, and keeps the tiling, if
   and only if the request is not 2^32 - 16 or no free block has any room.
   */
  lemma MallocAsWrittenIff(l: Layout, h: Heap, req: nat)
    requires GoodLayout(l) && Tiled(l, h) && req < WORD && req % 16 == 0
    ensures MallocAsWritten(h, req) == Malloc(h, req) <==> req != WORD - 16 || NoRoom(h.free)
    ensures Tiled(l, MallocAsWritten(h, req).0) <==> req != WORD - 16 || NoRoom(h.free)
  {
    assert Tiled(l, Malloc(h, req).0) by {
      MallocTiled(l, h, req);
    }
    if req != WORD - 16 {
      UnwrappedIsMalloc(l, h, req);
    } else if NoRoom(h.free) {
      NoRoomIsMalloc(h);
    } else {
      var i :| 0 <= i < |h.free| && h.free[i].size != 0;
      WrappedIsGranted(l, h, i);
    }
  }

  /** The caller's request that gets there, right after boot. */
  lemma WrappedRequest(l: Layout, size: nat)
    requires GoodLayout(l) && 0xFFFF_FFE0 < size <= 0xFFFF_FFF0 && l.start + HEADER < l.holeStart
    ensures Aligned(size) == WORD - 16
    ensures MallocAsWritten(Initial(l), WORD - 16).1 == Some(Block(l.start, WORD - 16))
    ensures !Tiled(l, MallocAsWritten(Initial(l), WORD - 16).0)
  {
    AlignedIsLeast(size);
    assert !Tiled(l, MallocAsWritten(Initial(l), WORD - 16).0) by {
      InitialTiled(l);
      WrappedIsGranted(l, Initial(l), 0);
    }
    assert FirstFitAsWritten(Initial(l).free, WORD - 16) == 0;
  }

  /** c/mem.c:147 as written: the remainder keeps the header's 16 bytes twice. */
  function RestAsWritten(b: Block, req: nat): Block
    requires Splits(b, req)
  {
    Block(b.addr + HEADER + req, b.size - req)
  }

  /** So the tiling is lost by every split, and by nothing else in `kmalloc`. */
  lemma SplitAsWrittenBreaksTiling(l: Layout, h: Heap, i: nat, req: nat)
    requires Tiled(l, h) && i < |h.free| && req <= h.free[i].size
    ensures var b := Taken(h.free[i], req);
            var r := if Splits(h.free[i], req) then h.free[i := RestAsWritten(h.free[i], req)] else TakeAt(h.free, i, req);
            Tiled(l, Heap(r, h.live + {b})) <==> !Splits(h.free[i], req)
  {
    var f, b := h.free, Taken(h.free[i], req);
    if Splits(f[i], req) {
      var r := f[i := RestAsWritten(f[i], req)];
      assert In(r[i], End(f[i])) && Covers(r, End(f[i]));
    } else {
      SomeMallocTiled(l, h, i, req);
    }
  }

  /**
   c/mem.c:158, 188 and 196 move `memSlot` to the remainder or to the previous block.  That is
   the first block of the new list exactly when the block taken was the first, or the second and
   taken whole.
   */
  lemma MemSlotAsWritten(f: seq<Block>, i: nat, req: nat)
    requires Canonical(f) && i < |f| && req <= f[i].size
    ensures var r := TakeAt(f, i, req);
            var slot := if Splits(f[i], req) then Rest(f[i], req).addr
                        else if i > 0 then f[i - 1].addr
                        else if |f| > 1 then f[1].addr else 0;
            slot == (if r == [] then 0 else r[0].addr) <==> i == 0 || (i == 1 && !Splits(f[i], req))
  {
    if i > 0 {
      assert TakeAt(f, i, req)[0] == f[0];
    }
  }

  datatype Outcome = Lost | NullWritten(free: seq<Block>) | Now(free: seq<Block>)

  /** Where `curr + curr->size + sizeof` points: the sum is scaled by the size of the struct, in 32 bits. */
  function ScaledEnd(b: Block): nat {
    U32(b.addr + HEADER * (b.size + HEADER))
  }

  /** A scaled sum never ends where the block does: 15 * (size + 16) is no multiple of 2^32. */
  lemma ScaledEndIsWrong(b: Block)
    requires End(b) < WORD
    ensures ScaledEnd(b) != End(b)
  {
    var x := b.addr + HEADER * (b.size + HEADER);
    var k := U32Turns(x);
  }

  ghost predicate WithinWords(f: seq<Block>) {
    forall i :: 0 <= i < |f| ==> End(f[i]) < WORD
  }

  /**
   `kfree` as written, c/mem.c:231-336.  `Lost` is a block that reaches no list, because the list is
   empty (line 254); `NullWritten` is a list that is set up, but with a write through the null
   `curr->next` (line 241).
   */
  function FreeAsWritten(f: seq<Block>, b: Block): Outcome {
    if f == [] then Lost
    else if b.addr < f[0].addr then
      if End(b) != f[0].addr then Now([b] + f)
      else if |f| == 1 then NullWritten([Block(b.addr, b.size + f[0].size + HEADER)])
      else Now([Block(b.addr, b.size + f[0].size + HEADER)] + f[1..])
    else
      var touching := b.addr == ScaledEnd(f[0]);
      if |f| == 1 then
        if touching then Now([Block(f[0].addr, f[0].size + b.size + HEADER)]) else Now([f[0], b])
      else if f[1].addr > b.addr then
        if touching && End(b) == f[1].addr then
          Now([Block(f[0].addr, f[0].size + b.size + f[1].size + 2 * HEADER)] + f[2..])
        else if touching then Now([Block(f[0].addr, f[0].size + b.size + HEADER)] + f[1..])
        else if End(b) == f[1].addr then Now([f[0], Block(b.addr, b.size + f[1].size + HEADER)] + f[2..])
        else Now([f[0], b] + f[1..])
      else
        match FreeAsWritten(f[1..], b)
        case Lost => Lost
        case NullWritten(g) => NullWritten([f[0]] + g)
        case Now(g) => Now([f[0]] + g)
  }

  /**
   Some block is free; a lone free block does not follow directly on `b`; and the free block
   before `b` ends neither at `b` nor, read with scaled arithmetic, at `b`.
   */
  predicate Survives(f: seq<Block>, b: Block) {
    f != [] &&
    if b.addr < f[0].addr then End(b) != f[0].addr || |f| > 1
    else if |f| == 1 || f[1].addr > b.addr then b.addr != End(f[0]) && b.addr != ScaledEnd(f[0])
    else Survives(f[1..], b)
  }

  /** `kfree` as written files a block correctly exactly under that condition. */
  lemma {:induction false} FreeAsWrittenIff(f: seq<Block>, b: Block)
    requires Canonical(f) && Apart(f, b) && WithinWords(f)
    ensures FreeAsWritten(f, b) == Now(InsertFree(f, b)) <==> Survives(f, b)
  {
    if f == [] {
    } else if b.addr < f[0].addr {
    } else {
      assert Disjoint(f[0], b);
      if |f| == 1 || f[1].addr > b.addr {
        FiledBehindFirst(f, b);
      } else {
        CanonicalTail(f);
        assert forall i :: 0 <= i < |f[1..]| ==> f[1..][i] == f[i + 1];
        FreeAsWrittenIff(f[1..], b);
        var g := InsertFree(f[1..], b);
        assert Disjoint(f[1], b);
        if FreeAsWritten(f[1..], b).Now? {
          var w := FreeAsWritten(f[1..], b).free;
          assert ([f[0]] + w)[1..] == w && ([f[0]] + g)[1..] == g;
        }
      }
    }
  }

  /** So for every heap: `kfree` of a live block as written is the correct one exactly under that condition. */
  lemma KfreeAsWrittenIff(l: Layout, h: Heap, b: Block)
    requires GoodLayout(l) && Tiled(l, h) && b in h.live
    ensures FreeAsWritten(h.free, b) == Now(Free(h, b).free) <==> Survives(h.free, b)
  {
    FreeApart(l, h, b);
    forall i | 0 <= i < |h.free|
      ensures End(h.free[i]) < WORD
    {
      AddressesFit(l, h, h.free[i]);
    }
    FreeAsWrittenIff(h.free, b);
  }

  lemma AfterFour(h: Heap, a: Call, b: Call, c: Call, d: Call)
    ensures AfterAll(h, [a, b, c, d]) == After(After(After(After(h, a), b), c), d)
  {
    var h1 := After(h, a);
    var h2 := After(h1, b);
    var h3 := After(h2, c);
    assert AfterAll(h3, [d]) == After(h3, d) by {
      assert [d][1..] == [];
    }
    assert AfterAll(h2, [c, d]) == AfterAll(h3, [d]) by {
      assert [c, d][1..] == [d];
    }
    assert AfterAll(h1, [b, c, d]) == AfterAll(h2, [c, d]) by {
      assert [b, c, d][1..] == [c, d];
    }
    assert [a, b, c, d][1..] == [b, c, d];
  }

  /** Two regions of 1 GB less 16 bytes and of 256 MB, and three blocks of the first. */
  const WIDE := Layout(16, 0x4000_0000, 0x5000_0000, 0x6000_0000)
  const FIRST := Block(16, 300000000)
  const SECOND := Block(300000032, 205032928)
  const THIRD := Block(505032976, 1024)

  lemma ThreeTakenOneFreed()
    ensures AfterAll(Initial(WIDE), [Kmalloc(300000000), Kmalloc(205032928), Kmalloc(1024), Kfree(FIRST)])
            == Heap([FIRST, Block(505034016, 568707792), Block(0x5000_0000, 0x0FFF_FFF0)], {SECOND, THIRD})
  {
    var high := Block(0x5000_0000, 0x0FFF_FFF0);
    AfterFour(Initial(WIDE), Kmalloc(300000000), Kmalloc(205032928), Kmalloc(1024), Kfree(FIRST));
    var h1 := After(Initial(WIDE), Kmalloc(300000000));
    assert h1 == Heap([Block(300000032, 773741776), high], {FIRST});
    var h2 := After(h1, Kmalloc(205032928));
    assert h2 == Heap([Block(505032976, 568708832), high], {FIRST, SECOND});
    var h3 := After(h2, Kmalloc(1024));
    assert h3 == Heap([Block(505034016, 568707792), high], {FIRST, SECOND, THIRD});
    var h4 := After(h3, Kfree(FIRST));
    assert h4.free == [FIRST, Block(505034016, 568707792), high];
    assert h4.live == {SECOND, THIRD};
  }

  /**
   The scaled sum that wraps: four calls after boot, `kfree` of the third block takes the first for
   its neighbour and gives away the second, 205 MB of live memory that lie between.
   */
  lemma ScaledSumWraps()
    ensures var h := AfterAll(Initial(WIDE), [Kmalloc(300000000), Kmalloc(205032928), Kmalloc(1024), Kfree(FIRST)]);
            && SECOND in h.live && THIRD in h.live && FIRST in h.free && ScaledEnd(FIRST) == THIRD.addr
            && !Survives(h.free, THIRD)
            && FreeAsWritten(h.free, THIRD).Now? && Covers(FreeAsWritten(h.free, THIRD).free, SECOND.addr)
  {
    ThreeTakenOneFreed();
    var f := [FIRST, Block(505034016, 568707792), Block(0x5000_0000, 0x0FFF_FFF0)];
    assert f[0] == FIRST;
    var g := FreeAsWritten(f, THIRD).free;
    assert In(g[0], SECOND.addr);
  }

  /** Line 241 writes through null exactly when the block joins the only free block from below. */
  lemma NullWrittenIff(f: seq<Block>, b: Block)
    requires Canonical(f) && Apart(f, b)
    ensures FreeAsWritten(f, b) == NullWritten(InsertFree(f, b)) <==> |f| == 1 && End(b) == f[0].addr
  {
    if f != [] {
      assert Disjoint(f[0], b);
      if b.addr > f[0].addr {
        NeverNullBehind(f, b);
      }
    }
  }

  lemma {:induction false} NeverNullBehind(f: seq<Block>, b: Block)
    requires f != [] && f[0].addr <= b.addr
    ensures !FreeAsWritten(f, b).NullWritten?
  {
    if |f| > 1 && f[1].addr <= b.addr {
      NeverNullBehind(f[1..], b);
    }
  }

  lemma FiledBehindFirst(f: seq<Block>, b: Block)
    requires Canonical(f) && Apart(f, b) && f != [] && End(f[0]) <= b.addr && End(f[0]) < WORD
    requires |f| == 1 || f[1].addr > b.addr
    ensures FreeAsWritten(f, b) == Now(InsertFree(f, b)) <==> b.addr != End(f[0]) && b.addr != ScaledEnd(f[0])
  {
    if End(f[0]) == b.addr {
      FiledTouching(f, b);
    } else {
      FiledApart(f, b);
    }
  }

  lemma FiledApart(f: seq<Block>, b: Block)
    requires f != [] && End(f[0]) < b.addr && (|f| == 1 || f[1].addr > b.addr)
    ensures FreeAsWritten(f, b) == Now(InsertFree(f, b)) <==> b.addr != ScaledEnd(f[0])
  {
    assert InsertFree(f, b) == [f[0]] + InsertFree(f[1..], b);
    if b.addr == ScaledEnd(f[0]) {
      assert FreeAsWritten(f, b).free[0].size > f[0].size;
    } else {
      FiledApartList(f, b);
    }
  }

  lemma FiledApartList(f: seq<Block>, b: Block)
    requires f != [] && End(f[0]) < b.addr && (|f| == 1 || f[1].addr > b.addr) && b.addr != ScaledEnd(f[0])
    ensures FreeAsWritten(f, b) == Now([f[0]] + InsertFree(f[1..], b))
  {
    var r := f[1..];
    if |f| == 1 {
      assert [f[0]] + ([b] + r) == [f[0], b];
    } else if End(b) == f[1].addr {
      assert r[0] == f[1] && r[1..] == f[2..];
      assert [f[0]] + ([Join(b, f[1])] + f[2..]) == [f[0], Join(b, f[1])] + f[2..];
    } else {
      assert r[0] == f[1];
      assert [f[0]] + ([b] + r) == [f[0], b] + r;
    }
  }

  lemma FiledTouching(f: seq<Block>, b: Block)
    requires f != [] && End(f[0]) == b.addr < WORD && (|f| == 1 || f[1].addr > b.addr)
    ensures FreeAsWritten(f, b) != Now(InsertFree(f, b))
  {
    ScaledEndIsWrong(f[0]);
    assert InsertFree(f, b)[0].size > f[0].size;
  }
}
