/** Where `kfree` files a block: the eight cases A to H of c/mem.c:234-330 as one splice. */
module Coalescing {
  import opened FreeList
  import opened HeaderLinks

  /** `b` belongs between the free blocks `i - 1` and `i`. */
  ghost predicate Fits(f: seq<Block>, b: Block, i: nat) {
    && i <= |f|
    && (i > 0 ==> f[i - 1].addr < b.addr)
    && (i < |f| ==> b.addr < f[i].addr)
  }

  predicate TouchesLeft(f: seq<Block>, b: Block, i: nat) {
    0 < i <= |f| && End(f[i - 1]) == b.addr
  }

  predicate TouchesRight(f: seq<Block>, b: Block, i: nat) {
    i < |f| && End(b) == f[i].addr
  }

  /** The blocks from `Lo` up to `Hi` are merged with `b`. */
  function Lo(f: seq<Block>, b: Block, i: nat): nat {
    if TouchesLeft(f, b, i) then i - 1 else i
  }

  function Hi(f: seq<Block>, b: Block, i: nat): nat {
    if TouchesRight(f, b, i) then i + 1 else i
  }

  function Merged(f: seq<Block>, b: Block, i: nat): Block {
    var l := if TouchesLeft(f, b, i) then Join(f[i - 1], b) else b;
    if TouchesRight(f, b, i) then Join(l, f[i]) else l
  }

  lemma {:induction false} InsertFreeAt(f: seq<Block>, b: Block, i: nat)
    requires Canonical(f) && Apart(f, b) && Fits(f, b, i)
    ensures InsertFree(f, b) == Spliced(f, Lo(f, b, i), Hi(f, b, i), [Merged(f, b, i)])
    decreases i
  {
    if i == 0 {
      assert f[..0] == [];
    } else if i == 1 {
      assert Disjoint(f[0], b);
      InsertBehindFirst(f, b);
    } else {
      CanonicalTail(f);
      assert f[1..][i - 2] == f[i - 1];
      assert i < |f| ==> f[1..][i - 1] == f[i];
      InsertFreeAt(f[1..], b, i - 1);
      SkipFirst(f, b, i);
    }
  }

  /** The first block is untouched when another one lies between it and `b`. */
  lemma SkipFirst(f: seq<Block>, b: Block, i: nat)
    requires Canonical(f) && Fits(f, b, i) && i > 1
    requires InsertFree(f[1..], b) == Spliced(f[1..], Lo(f[1..], b, i - 1), Hi(f[1..], b, i - 1), [Merged(f[1..], b, i - 1)])
    ensures InsertFree(f, b) == Spliced(f, Lo(f, b, i), Hi(f, b, i), [Merged(f, b, i)])
  {
    var r := f[1..];
    assert End(f[0]) < f[i - 1].addr < b.addr;
    assert r[i - 2] == f[i - 1];
    assert i < |f| ==> r[i - 1] == f[i];
    assert Lo(r, b, i - 1) + 1 == Lo(f, b, i) && Hi(r, b, i - 1) + 1 == Hi(f, b, i);
    assert Merged(r, b, i - 1) == Merged(f, b, i);
    ConsSpliced(f, Lo(f, b, i), Hi(f, b, i), [Merged(f, b, i)]);
  }

  lemma ConsSpliced(f: seq<Block>, i: nat, j: nat, g: seq<Block>)
    requires 0 < i <= j <= |f|
    ensures [f[0]] + Spliced(f[1..], i - 1, j - 1, g) == Spliced(f, i, j, g)
  {
    assert f[1..][j - 1..] == f[j..];
    assert [f[0]] + f[1..][..i - 1] == f[..i];
  }

  lemma InsertBehindFirst(f: seq<Block>, b: Block)
    requires Canonical(f) && Apart(f, b) && Fits(f, b, 1) && f != []
    ensures InsertFree(f, b) == Spliced(f, Lo(f, b, 1), Hi(f, b, 1), [Merged(f, b, 1)])
  {
    var r := f[1..];
    assert |f| > 1 ==> r[0] == f[1] && r[1..] == f[2..];
    if End(f[0]) == b.addr {
      assert f[..0] == [];
    } else {
      assert InsertFree(f, b) == [f[0]] + Attach(b, r);
      assert f[..1] == [f[0]];
    }
  }

  /** So the headers written by `kfree` link the list that `InsertFree` computes. */
  lemma FreedLinked(m: Raw, f: seq<Block>, slot: nat, b: Block, i: nat)
    requires Linked(m, f, slot) && Canonical(f) && Apart(f, b) && Fits(f, b, i) && b.addr > 0
    ensures Linked(Freed(m, f, b, i), InsertFree(f, b), AddrAt(InsertFree(f, b), 0))
  {
    var lo, hi, g := Lo(f, b, i), Hi(f, b, i), [Merged(f, b, i)];
    RehookResplices(m, m, f, slot, lo, hi, g);
    SplicedLinked(m, Rehook(m, f, lo, hi, g), f, slot, lo, hi, g);
    InsertFreeAt(f, b, i);
  }

  lemma LinkNextSame(m: Raw, a: nat, x: nat)
    requires a in m ==> m[a].next == x
    ensures LinkNext(m, a, x) == m
  {
  }

  /** The block before the gap points at its start, and neither write touches that. */
  lemma PointsAtGap(m: Raw, f: seq<Block>, slot: nat, j: nat, hi: nat, c: Block)
    requires Linked(m, f, slot) && Canonical(f) && 0 < j < hi <= |f| && c.addr == f[j].addr
    ensures var w, a := LinkPrev(Put(m, [c], AddrAt(f, j - 1), AddrAt(f, hi)), AddrAt(f, hi), c.addr), f[j - 1].addr;
            a in w ==> w[a].next == c.addr
  {
    HeaderAt(m, f, slot, j - 1);
    AddrsDiffer(f, j - 1, j);
    NextStays(m, c, AddrAt(f, j - 1), AddrAt(f, hi), f[j - 1].addr);
  }

  /** Writing one header and one `prev` changes no other `next`. */
  lemma NextStays(m: Raw, c: Block, prev: nat, next: nat, a: nat)
    requires a != c.addr && a in m
    ensures var w := LinkPrev(Put(m, [c], prev, next), next, c.addr);
            a in w && w[a].next == m[a].next
  {
  }

  /** When the gap is filled at the address where it starts, the block before it already points there. */
  lemma GrowLeft(m: Raw, f: seq<Block>, slot: nat, j: nat, hi: nat, c: Block)
    requires Linked(m, f, slot) && Canonical(f) && j < hi <= |f| && c.addr == f[j].addr
    ensures Rehook(m, f, j, hi, [c]) == LinkPrev(Put(m, [c], AddrAt(f, j - 1), AddrAt(f, hi)), AddrAt(f, hi), c.addr)
  {
    if j > 0 {
      PointsAtGap(m, f, slot, j, hi, c);
    }
    RehookGrows(m, f, j, hi, c);
  }

  lemma RehookGrows(m: Raw, f: seq<Block>, j: nat, hi: nat, c: Block)
    requires j < |f|
    requires var w, a := LinkPrev(Put(m, [c], AddrAt(f, j - 1), AddrAt(f, hi)), AddrAt(f, hi), c.addr), AddrAt(f, j - 1);
             j > 0 && a in w ==> w[a].next == c.addr
    ensures Rehook(m, f, j, hi, [c]) == LinkPrev(Put(m, [c], AddrAt(f, j - 1), AddrAt(f, hi)), AddrAt(f, hi), c.addr)
  {
    if j > 0 {
      LinkNextSame(LinkPrev(Put(m, [c], AddrAt(f, j - 1), AddrAt(f, hi)), AddrAt(f, hi), c.addr), AddrAt(f, j - 1), c.addr);
    }
  }

  /** Growing the block at `j` in place is a splice too: both neighbours already point to it. */
  lemma GrowIsRehook(m: Raw, f: seq<Block>, slot: nat, j: nat, c: Block)
    requires Linked(m, f, slot) && Canonical(f) && j < |f| && c.addr == f[j].addr
    ensures Resized(m, c.addr, c.size) == Rehook(m, f, j, j + 1, [c])
  {
    GrowLeft(m, f, slot, j, j + 1, c);
    var w := Put(m, [c], AddrAt(f, j - 1), AddrAt(f, j + 1));
    if j + 1 < |f| {
      AddrsDiffer(f, j, j + 1);
    }
    assert w == Resized(m, c.addr, c.size);
  }

  /** Case E, c/mem.c:281-296: one header for `curr`, the block and `temp`. */
  function JoinBoth(m: Raw, curr: nat, size: nat, temp: nat): Raw
    requires curr in m && temp in m
  {
    var c, t := m[curr], m[temp];
    LinkPrev(Put(m, [Block(curr, c.size + size + t.size + 2 * HEADER)], c.prev, t.next), t.next, curr)
  }

  /** Case G, c/mem.c:305-321: the block takes over `temp`. */
  function JoinRight(m: Raw, p: nat, curr: nat, size: nat, temp: nat): Raw
    requires temp in m
  {
    var t := m[temp];
    LinkNext(LinkPrev(Put(m, [Block(p, size + t.size + HEADER)], curr, t.next), t.next, p), curr, p)
  }

  /** Cases D and H, c/mem.c:268-271 and 322-330: the block goes between. */
  function Between(m: Raw, p: nat, curr: nat, size: nat, temp: nat): Raw {
    LinkNext(LinkPrev(Put(m, [Block(p, size)], curr, temp), temp, p), curr, p)
  }

  /** What `kfree` should leave in memory. */
  function Freed(m: Raw, f: seq<Block>, b: Block, i: nat): Raw {
    Rehook(m, f, Lo(f, b, i), Hi(f, b, i), [Merged(f, b, i)])
  }

  /** The header of the `i`-th free block. */
  lemma HeaderAt(m: Raw, f: seq<Block>, slot: nat, i: nat)
    requires Linked(m, f, slot) && i < |f|
    ensures f[i].addr > 0 && f[i].addr in m
    ensures m[f[i].addr] == Header(f[i].size, AddrAt(f, i - 1), AddrAt(f, i + 1), f[i].size + HEADER)
  {
  }

  lemma FreedIs(m: Raw, f: seq<Block>, b: Block, i: nat, lo: nat, hi: nat, c: Block)
    requires lo == Lo(f, b, i) && hi == Hi(f, b, i) && c == Merged(f, b, i)
    ensures Freed(m, f, b, i) == Rehook(m, f, lo, hi, [c])
  {
  }

  lemma JoinBothIs(m: Raw, curr: nat, size: nat, temp: nat, c: Block, prev: nat, next: nat)
    requires curr in m && temp in m && m[curr].prev == prev && m[temp].next == next
    requires c == Block(curr, m[curr].size + size + m[temp].size + 2 * HEADER)
    ensures JoinBoth(m, curr, size, temp) == LinkPrev(Put(m, [c], prev, next), next, curr)
  {
  }

  lemma CaseE(m: Raw, f: seq<Block>, slot: nat, b: Block, i: nat)
    requires Linked(m, f, slot) && Canonical(f) && 0 < i < |f| && TouchesLeft(f, b, i) && TouchesRight(f, b, i)
    ensures f[i - 1].addr in m && f[i].addr in m
    ensures Freed(m, f, b, i) == JoinBoth(m, f[i - 1].addr, b.size, f[i].addr)
  {
    HeaderAt(m, f, slot, i - 1);
    HeaderAt(m, f, slot, i);
    var c := Block(f[i - 1].addr, f[i - 1].size + b.size + f[i].size + 2 * HEADER);
    FreedIs(m, f, b, i, i - 1, i + 1, c);
    JoinBothIs(m, f[i - 1].addr, b.size, f[i].addr, c, AddrAt(f, (i - 1) - 1), AddrAt(f, i + 1));
    GrowLeft(m, f, slot, i - 1, i + 1, c);
  }

  /** Cases C and F, c/mem.c:259-265 and 297-304: the block before grows. */
  lemma CaseF(m: Raw, f: seq<Block>, slot: nat, b: Block, i: nat, c: Block)
    requires Linked(m, f, slot) && Canonical(f) && 0 < i <= |f| && TouchesLeft(f, b, i) && !TouchesRight(f, b, i)
    requires c == Block(f[i - 1].addr, f[i - 1].size + b.size + HEADER)
    ensures Freed(m, f, b, i) == Resized(m, c.addr, c.size)
  {
    GrowIsRehook(m, f, slot, i - 1, c);
    FreedLeft(m, f, b, i, c, Resized(m, c.addr, c.size));
  }

  lemma FreedLeft(m: Raw, f: seq<Block>, b: Block, i: nat, c: Block, u: Raw)
    requires 0 < i <= |f| && TouchesLeft(f, b, i) && !TouchesRight(f, b, i)
    requires c == Block(f[i - 1].addr, f[i - 1].size + b.size + HEADER) && u == Rehook(m, f, i - 1, (i - 1) + 1, [c])
    ensures Freed(m, f, b, i) == u
  {
  }

  lemma CaseG(m: Raw, f: seq<Block>, slot: nat, b: Block, i: nat)
    requires Linked(m, f, slot) && 0 < i < |f| && !TouchesLeft(f, b, i) && TouchesRight(f, b, i)
    ensures f[i].addr in m
    ensures Freed(m, f, b, i) == JoinRight(m, b.addr, f[i - 1].addr, b.size, f[i].addr)
  {
    HeaderAt(m, f, slot, i);
  }

  /** Cases C to H, c/mem.c:257-330, with unscaled addition at lines 259 and 276. */
  function FiledBehind(m: Raw, p: nat, curr: nat): Raw
    requires p in m && curr in m
  {
    var size, temp := m[p].size, m[curr].next;
    var left, right := p == curr + m[curr].size + HEADER, temp != 0 && temp in m && p + HEADER + size == temp;
    if left && right then JoinBoth(m, curr, size, temp)
    else if left then Resized(m, curr, m[curr].size + size + HEADER)
    else if right then JoinRight(m, p, curr, size, temp)
    else Between(m, p, curr, size, temp)
  }

  /** The two tests on addresses are the two tests on the list. */
  lemma TestsAgree(m: Raw, f: seq<Block>, slot: nat, b: Block, i: nat)
    requires Linked(m, f, slot) && 0 < i <= |f|
    ensures f[i - 1].addr in m && m[f[i - 1].addr].next == AddrAt(f, i)
    ensures b.addr == f[i - 1].addr + m[f[i - 1].addr].size + HEADER <==> TouchesLeft(f, b, i)
    ensures AddrAt(f, i) != 0 && AddrAt(f, i) in m && End(b) == AddrAt(f, i) <==> TouchesRight(f, b, i)
  {
    HeaderAt(m, f, slot, i - 1);
    if i < |f| {
      HeaderAt(m, f, slot, i);
    }
  }

  lemma FiledE(m: Raw, f: seq<Block>, slot: nat, b: Block, i: nat)
    requires Linked(m, f, slot) && Canonical(f) && 0 < i <= |f| && b.addr in m && m[b.addr].size == b.size
    requires TouchesLeft(f, b, i) && TouchesRight(f, b, i)
    ensures f[i - 1].addr in m
    ensures FiledBehind(m, b.addr, f[i - 1].addr) == Freed(m, f, b, i)
  {
    TestsAgree(m, f, slot, b, i);
    CaseE(m, f, slot, b, i);
  }

  lemma FiledF(m: Raw, f: seq<Block>, slot: nat, b: Block, i: nat)
    requires Linked(m, f, slot) && Canonical(f) && 0 < i <= |f| && b.addr in m && m[b.addr].size == b.size
    requires TouchesLeft(f, b, i) && !TouchesRight(f, b, i)
    ensures f[i - 1].addr in m
    ensures FiledBehind(m, b.addr, f[i - 1].addr) == Freed(m, f, b, i)
  {
    TestsAgree(m, f, slot, b, i);
    HeaderAt(m, f, slot, i - 1);
    CaseF(m, f, slot, b, i, Block(f[i - 1].addr, f[i - 1].size + b.size + HEADER));
    BehindLeft(m, b.addr, f[i - 1].addr, Freed(m, f, b, i));
  }

  lemma BehindLeft(m: Raw, p: nat, curr: nat, u: Raw)
    requires p in m && curr in m && p == curr + m[curr].size + HEADER
    requires !(m[curr].next != 0 && m[curr].next in m && p + HEADER + m[p].size == m[curr].next)
    requires u == Resized(m, curr, m[curr].size + m[p].size + HEADER)
    ensures FiledBehind(m, p, curr) == u
  {
  }

  lemma FiledG(m: Raw, f: seq<Block>, slot: nat, b: Block, i: nat)
    requires Linked(m, f, slot) && Canonical(f) && 0 < i <= |f| && b.addr in m && m[b.addr].size == b.size
    requires !TouchesLeft(f, b, i) && TouchesRight(f, b, i)
    ensures f[i - 1].addr in m
    ensures FiledBehind(m, b.addr, f[i - 1].addr) == Freed(m, f, b, i)
  {
    TestsAgree(m, f, slot, b, i);
    CaseG(m, f, slot, b, i);
  }

  lemma FiledH(m: Raw, f: seq<Block>, slot: nat, b: Block, i: nat)
    requires Linked(m, f, slot) && Canonical(f) && 0 < i <= |f| && b.addr in m && m[b.addr].size == b.size
    requires !TouchesLeft(f, b, i) && !TouchesRight(f, b, i)
    ensures f[i - 1].addr in m
    ensures FiledBehind(m, b.addr, f[i - 1].addr) == Freed(m, f, b, i)
  {
    TestsAgree(m, f, slot, b, i);
  }

  lemma FiledBehindIsFreed(m: Raw, f: seq<Block>, slot: nat, b: Block, i: nat)
    requires Linked(m, f, slot) && Canonical(f) && 0 < i <= |f| && b.addr in m && m[b.addr].size == b.size
    ensures f[i - 1].addr in m
    ensures FiledBehind(m, b.addr, f[i - 1].addr) == Freed(m, f, b, i)
  {
    if TouchesLeft(f, b, i) && TouchesRight(f, b, i) {
      FiledE(m, f, slot, b, i);
    } else if TouchesLeft(f, b, i) {
      FiledF(m, f, slot, b, i);
    } else if TouchesRight(f, b, i) {
      FiledG(m, f, slot, b, i);
    } else {
      FiledH(m, f, slot, b, i);
    }
  }

  /** The header at `a` with a new size. */
  function Resized(m: Raw, a: nat, size: nat): Raw {
    if a in m then m[a := m[a].(size := size, sanityCheck := size + HEADER)] else m
  }
}
