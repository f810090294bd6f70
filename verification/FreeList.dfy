/**
 The free list of c/mem.c as a value: free blocks in address order.  A block at `addr` is a
 16-byte header followed by `size` bytes.

 The reference is the set of bytes a list covers: a list with no two touching blocks is
 determined by that set, and `kmalloc` and `kfree` are judged by what they do to it.
 */
module FreeList {
  const HEADER := 16

  datatype Block = Block(addr: nat, size: nat)

  function End(b: Block): nat {
    b.addr + HEADER + b.size
  }

  predicate In(b: Block, a: int) {
    b.addr <= a < End(b)
  }

  ghost predicate Covers(f: seq<Block>, a: int) {
    exists i :: 0 <= i < |f| && In(f[i], a)
  }

  /** In address order, and no two blocks overlap or touch. */
  ghost predicate Canonical(f: seq<Block>) {
    forall i, j :: 0 <= i < j < |f| ==> End(f[i]) < f[j].addr
  }

  predicate Disjoint(b: Block, c: Block) {
    End(b) <= c.addr || End(c) <= b.addr
  }

  ghost predicate Apart(f: seq<Block>, b: Block) {
    forall i :: 0 <= i < |f| ==> Disjoint(f[i], b)
  }

  // ---------------------------------------------------------------- a canonical list is its set of bytes

  lemma CanonicalTail(f: seq<Block>)
    requires Canonical(f) && f != []
    ensures Canonical(f[1..])
    ensures forall a :: Covers(f[1..], a) <==> Covers(f, a) && a >= End(f[0])
  {
    var r := f[1..];
    forall a
      ensures Covers(r, a) <==> Covers(f, a) && a >= End(f[0])
    {
      if Covers(r, a) {
        var i :| 0 <= i < |r| && In(r[i], a);
        assert In(f[i + 1], a);
      }
      if Covers(f, a) && a >= End(f[0]) {
        var i :| 0 <= i < |f| && In(f[i], a);
        assert In(r[i - 1], a);
      }
    }
  }

  /** The lowest byte covered is the first block's, and the byte just behind that block is free of cover. */
  lemma FirstBytes(f: seq<Block>)
    requires Canonical(f) && f != []
    ensures forall a :: f[0].addr <= a < End(f[0]) ==> Covers(f, a)
    ensures forall a :: Covers(f, a) ==> f[0].addr <= a
    ensures !Covers(f, End(f[0]))
  {
  }

  lemma FirstByteCovered(f: seq<Block>)
    requires f != []
    ensures Covers(f, f[0].addr)
  {
    assert In(f[0], f[0].addr);
  }

  /** Two lists without touching blocks that cover the same bytes are the same list. */
  lemma {:induction false} SameBytesSameList(f: seq<Block>, g: seq<Block>)
    requires Canonical(f) && Canonical(g)
    requires forall a :: Covers(f, a) <==> Covers(g, a)
    ensures f == g
  {
    if f == [] {
      if g != [] {
        FirstByteCovered(g);
        assert false;
      }
    } else {
      FirstBytes(f);
      assert Covers(f, f[0].addr);
      FirstBytes(g);
      assert Covers(g, g[0].addr);
      assert f[0].addr == g[0].addr;
      assert End(f[0]) == End(g[0]);
      CanonicalTail(f);
      CanonicalTail(g);
      SameBytesSameList(f[1..], g[1..]);
      assert f == [f[0]] + f[1..] && g == [g[0]] + g[1..];
    }
  }

  // ---------------------------------------------------------------- kfree

  /** One block out of two that touch. */
  function Join(b: Block, c: Block): (r: Block)
    requires End(b) == c.addr
    ensures r.addr == b.addr && End(r) == End(c)
    ensures r.size == b.size + c.size + HEADER
  {
    Block(b.addr, b.size + c.size + HEADER)
  }

  /** Put `b` before `f`, joined to its first block when they touch. */
  function Attach(b: Block, f: seq<Block>): seq<Block> {
    if f != [] && End(b) == f[0].addr then [Join(b, f[0])] + f[1..] else [b] + f
  }

  /** `kfree` of a live block, c/mem.c:230-336: cases A and B, then C to H. */
  function InsertFree(f: seq<Block>, b: Block): seq<Block> {
    if f == [] || b.addr < f[0].addr then Attach(b, f)
    else if End(f[0]) == b.addr then Attach(Join(f[0], b), f[1..])
    else [f[0]] + InsertFree(f[1..], b)
  }

  lemma CoversCons(b: Block, f: seq<Block>, a: int)
    ensures Covers([b] + f, a) <==> In(b, a) || Covers(f, a)
  {
    var c := [b] + f;
    if Covers(f, a) {
      var i :| 0 <= i < |f| && In(f[i], a);
      assert In(c[i + 1], a);
    }
    if In(b, a) {
      assert In(c[0], a);
    }
    if Covers(c, a) && !In(b, a) {
      var i :| 0 <= i < |c| && In(c[i], a);
      assert In(f[i - 1], a);
    }
  }

  lemma CanonicalCons(b: Block, f: seq<Block>)
    requires Canonical(f) && (f != [] ==> End(b) < f[0].addr)
    ensures Canonical([b] + f)
  {
    var c := [b] + f;
    forall i, j | 0 <= i < j < |c|
      ensures End(c[i]) < c[j].addr
    {
      assert c[j] == f[j - 1];
    }
  }

  lemma AttachFacts(b: Block, f: seq<Block>)
    requires Canonical(f) && (f != [] ==> End(b) <= f[0].addr)
    ensures Canonical(Attach(b, f))
    ensures forall a :: Covers(Attach(b, f), a) <==> In(b, a) || Covers(f, a)
    ensures Attach(b, f)[0].addr == b.addr
  {
    if f != [] && End(b) == f[0].addr {
      CanonicalTail(f);
      CanonicalCons(Join(b, f[0]), f[1..]);
      assert f == [f[0]] + f[1..];
      forall a
        ensures Covers(Attach(b, f), a) <==> In(b, a) || Covers(f, a)
      {
        CoversCons(Join(b, f[0]), f[1..], a);
        CoversCons(f[0], f[1..], a);
      }
    } else {
      CanonicalCons(b, f);
      forall a
        ensures Covers(Attach(b, f), a) <==> In(b, a) || Covers(f, a)
      {
        CoversCons(b, f, a);
      }
    }
  }

  /** Freeing adds exactly the block's bytes, and no two free blocks touch afterwards. */
  lemma {:induction false} InsertFreeFacts(f: seq<Block>, b: Block)
    requires Canonical(f) && Apart(f, b)
    ensures Canonical(InsertFree(f, b))
    ensures forall a :: Covers(InsertFree(f, b), a) <==> Covers(f, a) || In(b, a)
    ensures InsertFree(f, b) != []
    ensures InsertFree(f, b)[0].addr == if f == [] || b.addr < f[0].addr then b.addr else f[0].addr
  {
    if f == [] || b.addr < f[0].addr {
      AttachFacts(b, f);
    } else {
      CanonicalTail(f);
      assert f == [f[0]] + f[1..];
      assert Disjoint(f[0], b);
      if End(f[0]) == b.addr {
        assert f[1..] != [] ==> f[1..][0] == f[1] && Disjoint(f[1], b);
        AttachFacts(Join(f[0], b), f[1..]);
        forall a
          ensures Covers(InsertFree(f, b), a) <==> Covers(f, a) || In(b, a)
        {
          CoversCons(f[0], f[1..], a);
        }
      } else {
        assert Apart(f[1..], b) by {
          assert forall i :: 0 <= i < |f[1..]| ==> f[1..][i] == f[i + 1];
        }
        InsertFreeFacts(f[1..], b);
        CanonicalCons(f[0], InsertFree(f[1..], b));
        forall a
          ensures Covers(InsertFree(f, b), a) <==> Covers(f, a) || In(b, a)
        {
          CoversCons(f[0], f[1..], a);
          CoversCons(f[0], InsertFree(f[1..], b), a);
        }
      }
    }
  }

  /** The order in which two blocks are freed does not matter. */
  lemma FreeOrderIrrelevant(f: seq<Block>, b: Block, c: Block)
    requires Canonical(f) && Apart(f, b) && Apart(f, c) && Disjoint(b, c)
    ensures InsertFree(InsertFree(f, b), c) == InsertFree(InsertFree(f, c), b)
  {
    InsertFreeFacts(f, b);
    InsertFreeFacts(f, c);
    ApartByBytes(InsertFree(f, b), c);
    ApartByBytes(InsertFree(f, c), b);
    InsertFreeFacts(InsertFree(f, b), c);
    InsertFreeFacts(InsertFree(f, c), b);
    SameBytesSameList(InsertFree(InsertFree(f, b), c), InsertFree(InsertFree(f, c), b));
  }

  /** Being apart is a matter of bytes. */
  lemma ApartByBytes(f: seq<Block>, b: Block)
    requires forall a :: Covers(f, a) ==> !In(b, a)
    ensures Apart(f, b)
  {
    forall i | 0 <= i < |f|
      ensures Disjoint(f[i], b)
    {
      assert In(f[i], f[i].addr) && Covers(f, f[i].addr);
      if f[i].addr <= b.addr < End(f[i]) {
        assert Covers(f, b.addr) && In(b, b.addr);
      }
    }
  }

  // ---------------------------------------------------------------- kmalloc

  /** The first block with room for `req` bytes; |f| when there is none. */
  function FirstFit(f: seq<Block>, req: nat): (i: nat)
    ensures i <= |f|
    ensures i < |f| ==> req <= f[i].size
    ensures forall j :: 0 <= j < i ==> f[j].size < req
  {
    if f == [] || req <= f[0].size then 0 else 1 + FirstFit(f[1..], req)
  }

  predicate Splits(b: Block, req: nat) {
    req + HEADER < b.size
  }

  /** What is handed out of block `b`. */
  function Taken(b: Block, req: nat): Block {
    if Splits(b, req) then Block(b.addr, req) else b
  }

  /** What is left of it, header included; the source forgets to subtract the header (c/mem.c:147). */
  function Rest(b: Block, req: nat): Block
    requires Splits(b, req)
  {
    Block(b.addr + HEADER + req, b.size - req - HEADER)
  }

  /** The free list once `req` bytes are taken from its `i`-th block, c/mem.c:142-200. */
  function TakeAt(f: seq<Block>, i: nat, req: nat): seq<Block>
    requires i < |f|
  {
    if Splits(f[i], req) then f[i := Rest(f[i], req)] else f[..i] + f[i + 1..]
  }

  lemma TakeAtCanonical(f: seq<Block>, i: nat, req: nat)
    requires Canonical(f) && i < |f| && req <= f[i].size
    ensures Canonical(TakeAt(f, i, req))
  {
    var r := TakeAt(f, i, req);
    forall j, k | 0 <= j < k < |r|
      ensures End(r[j]) < r[k].addr
    {
      if !Splits(f[i], req) {
        assert r[j] == if j < i then f[j] else f[j + 1];
        assert r[k] == if k < i then f[k] else f[k + 1];
      }
    }
  }

  lemma SplitCovers(f: seq<Block>, i: nat, req: nat, a: int)
    requires Canonical(f) && i < |f| && Splits(f[i], req)
    ensures Covers(f, a) <==> Covers(TakeAt(f, i, req), a) || In(Taken(f[i], req), a)
    ensures !(Covers(TakeAt(f, i, req), a) && In(Taken(f[i], req), a))
  {
    var r := TakeAt(f, i, req);
    if Covers(f, a) && !In(Taken(f[i], req), a) {
      var j :| 0 <= j < |f| && In(f[j], a);
      assert In(r[j], a);
    }
    if Covers(r, a) {
      var j :| 0 <= j < |r| && In(r[j], a);
      assert In(f[j], a);
    }
  }

  lemma WholeCovers(f: seq<Block>, i: nat, a: int)
    requires Canonical(f) && i < |f|
    ensures Covers(f, a) <==> Covers(f[..i] + f[i + 1..], a) || In(f[i], a)
    ensures !(Covers(f[..i] + f[i + 1..], a) && In(f[i], a))
  {
    var r := f[..i] + f[i + 1..];
    if Covers(f, a) && !In(f[i], a) {
      var j :| 0 <= j < |f| && In(f[j], a);
      assert r[if j < i then j else j - 1] == f[j];
    }
    if Covers(r, a) {
      var j :| 0 <= j < |r| && In(r[j], a);
      assert In(f[if j < i then j else j + 1], a);
    }
  }

  /** Allocating takes exactly the block's bytes off the list. */
  lemma TakeAtCovers(f: seq<Block>, i: nat, req: nat, a: int)
    requires Canonical(f) && i < |f| && req <= f[i].size
    ensures Covers(f, a) <==> Covers(TakeAt(f, i, req), a) || In(Taken(f[i], req), a)
    ensures !(Covers(TakeAt(f, i, req), a) && In(Taken(f[i], req), a))
  {
    if Splits(f[i], req) {
      SplitCovers(f, i, req, a);
    } else {
      WholeCovers(f, i, a);
    }
  }

  /** `kfree` right after `kmalloc` restores the free list, addresses and sizes. */
  lemma FreeUndoesAlloc(f: seq<Block>, i: nat, req: nat)
    requires Canonical(f) && i < |f| && req <= f[i].size
    ensures InsertFree(TakeAt(f, i, req), Taken(f[i], req)) == f
  {
    var r, b := TakeAt(f, i, req), Taken(f[i], req);
    forall a
      ensures Covers(f, a) <==> Covers(r, a) || In(b, a)
      ensures Covers(r, a) ==> !In(b, a)
    {
      TakeAtCovers(f, i, req, a);
    }
    TakeAtCanonical(f, i, req);
    ApartByBytes(r, b);
    InsertFreeFacts(r, b);
    SameBytesSameList(InsertFree(r, b), f);
  }
}
