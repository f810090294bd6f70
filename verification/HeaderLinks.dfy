/**
 The doubly linked list of free headers in raw memory, and what each pointer assignment of
 c/mem.c does to it.
 */
module HeaderLinks {
  import opened FreeList

  /** c/mem.c:12-18; address 0 is NULL. */
  datatype Header = Header(size: nat, prev: nat, next: nat, sanityCheck: nat)

  type Raw = map<nat, Header>

  function AddrAt(f: seq<Block>, i: int): nat {
    if 0 <= i < |f| then f[i].addr else 0
  }

  ghost predicate Placed(m: Raw, f: seq<Block>) {
    forall i :: 0 <= i < |f| ==> f[i].addr > 0 && f[i].addr in m
  }

  ghost predicate Forward(m: Raw, f: seq<Block>) {
    forall i :: 0 <= i < |f| ==> f[i].addr in m && m[f[i].addr].next == AddrAt(f, i + 1)
  }

  ghost predicate Backward(m: Raw, f: seq<Block>) {
    forall i :: 0 <= i < |f| ==> f[i].addr in m && m[f[i].addr].prev == AddrAt(f, i - 1)
  }

  ghost predicate Sizes(m: Raw, f: seq<Block>) {
    forall i :: 0 <= i < |f| ==> f[i].addr in m && Sound(m[f[i].addr], f[i].size)
  }

  predicate Sound(x: Header, size: nat) {
    x.size == size && x.sanityCheck == size + HEADER
  }

  /** `slot` starts the list; next and prev are inverse to each other; sizes are recorded. */
  ghost predicate Linked(m: Raw, f: seq<Block>, slot: nat) {
    slot == AddrAt(f, 0) && Placed(m, f) && Forward(m, f) && Backward(m, f) && Sizes(m, f)
  }

  /** The list with the blocks from `i` up to `j` replaced by `g`. */
  function Spliced(f: seq<Block>, i: nat, j: nat, g: seq<Block>): seq<Block>
    requires i <= j <= |f|
  {
    f[..i] + g + f[j..]
  }

  /** What the neighbours of the gap should point to. */
  function Right(f: seq<Block>, j: nat, g: seq<Block>): nat {
    if g != [] then g[0].addr else AddrAt(f, j)
  }

  function Left(f: seq<Block>, i: nat, g: seq<Block>): nat {
    if g != [] then g[0].addr else AddrAt(f, i - 1)
  }

  /**
   Memory `u` differs from `m`, on the list, only in the next field before the gap and the prev
   field behind it, and holds the header of the block that fills the gap.
   */
  ghost predicate Resplices(m: Raw, u: Raw, f: seq<Block>, i: nat, j: nat, g: seq<Block>)
    requires Placed(m, f) && i <= j <= |f| && |g| <= 1
  {
    && m.Keys <= u.Keys
    && (g != [] ==> g[0].addr in u && u[g[0].addr] == Header(g[0].size, AddrAt(f, i - 1), AddrAt(f, j), g[0].size + HEADER))
    && (forall k :: 0 <= k < i - 1 || j < k < |f| ==> u[f[k].addr] == m[f[k].addr])
    && (0 < i ==> u[f[i - 1].addr] == m[f[i - 1].addr].(next := Right(f, j, g)))
    && (j < |f| ==> u[f[j].addr] == m[f[j].addr].(prev := Left(f, i, g)))
  }

  lemma SplicedAt(f: seq<Block>, i: nat, j: nat, g: seq<Block>)
    requires i <= j <= |f|
    ensures |Spliced(f, i, j, g)| == |f| - (j - i) + |g|
    ensures forall k :: 0 <= k < i ==> Spliced(f, i, j, g)[k] == f[k]
    ensures forall k :: 0 <= k < |g| ==> Spliced(f, i, j, g)[i + k] == g[k]
    ensures forall k :: i + |g| <= k < |Spliced(f, i, j, g)| ==> Spliced(f, i, j, g)[k] == f[k - |g| - i + j]
  {
  }

  /** The addresses along the spliced list. */
  lemma SplicedAddrs(f: seq<Block>, i: nat, j: nat, g: seq<Block>)
    requires i <= j <= |f| && |g| <= 1
    ensures forall k :: -1 <= k < i ==> AddrAt(Spliced(f, i, j, g), k) == AddrAt(f, k)
    ensures AddrAt(Spliced(f, i, j, g), i) == Right(f, j, g)
    ensures AddrAt(Spliced(f, i, j, g), i + |g| - 1) == Left(f, i, g)
    ensures forall k :: j <= k <= |f| ==> AddrAt(Spliced(f, i, j, g), k - j + i + |g|) == AddrAt(f, k)
  {
    SplicedAt(f, i, j, g);
  }

  ghost predicate Good(u: Raw, r: seq<Block>, k: nat) {
    && k < |r|
    && r[k].addr > 0 && r[k].addr in u
    && u[r[k].addr].next == AddrAt(r, k + 1)
    && u[r[k].addr].prev == AddrAt(r, k - 1)
    && Sound(u[r[k].addr], r[k].size)
  }

  lemma LeftNode(m: Raw, u: Raw, f: seq<Block>, slot: nat, i: nat, j: nat, g: seq<Block>, k: nat)
    requires Linked(m, f, slot) && i <= j <= |f| && |g| <= 1 && Resplices(m, u, f, i, j, g) && k < i
    ensures Good(u, Spliced(f, i, j, g), k)
  {
    SplicedAt(f, i, j, g);
    SplicedAddrs(f, i, j, g);
    assert m[f[k].addr].next == AddrAt(f, k + 1) && m[f[k].addr].prev == AddrAt(f, k - 1);
  }

  lemma GapNode(m: Raw, u: Raw, f: seq<Block>, slot: nat, i: nat, j: nat, g: seq<Block>)
    requires Linked(m, f, slot) && i <= j <= |f| && |g| == 1 && Resplices(m, u, f, i, j, g) && g[0].addr > 0
    ensures Good(u, Spliced(f, i, j, g), i)
  {
    SplicedAt(f, i, j, g);
    SplicedAddrs(f, i, j, g);
  }

  /** The block `f[k]` behind the gap and its neighbours in the spliced list. */
  lemma RightAddrs(f: seq<Block>, i: nat, j: nat, g: seq<Block>, k: nat)
    requires i <= j <= k < |f| && |g| <= 1
    ensures var r, n := Spliced(f, i, j, g), k - j + i + |g|;
            && n < |r| && r[n] == f[k]
            && AddrAt(r, n + 1) == AddrAt(f, k + 1)
            && AddrAt(r, n - 1) == if k > j then AddrAt(f, k - 1) else Left(f, i, g)
  {
    SplicedAt(f, i, j, g);
    SplicedAddrs(f, i, j, g);
    assert AddrAt(Spliced(f, i, j, g), (k + 1) - j + i + |g|) == AddrAt(f, k + 1);
    assert k > j ==> AddrAt(Spliced(f, i, j, g), (k - 1) - j + i + |g|) == AddrAt(f, k - 1);
  }

  lemma RightNode(m: Raw, u: Raw, f: seq<Block>, slot: nat, i: nat, j: nat, g: seq<Block>, k: nat)
    requires Linked(m, f, slot) && i <= j <= |f| && |g| <= 1 && Resplices(m, u, f, i, j, g) && j <= k < |f|
    ensures Good(u, Spliced(f, i, j, g), k - j + i + |g|)
  {
    RightAddrs(f, i, j, g, k);
    assert m[f[k].addr].next == AddrAt(f, k + 1) && m[f[k].addr].prev == AddrAt(f, k - 1);
  }

  /** So the list is the spliced one. */
  lemma SplicedLinked(m: Raw, u: Raw, f: seq<Block>, slot: nat, i: nat, j: nat, g: seq<Block>)
    requires Linked(m, f, slot) && i <= j <= |f| && |g| <= 1 && Resplices(m, u, f, i, j, g)
    requires g != [] ==> g[0].addr > 0
    ensures Linked(u, Spliced(f, i, j, g), AddrAt(Spliced(f, i, j, g), 0))
  {
    SplicedAt(f, i, j, g);
    forall k | 0 <= k < |Spliced(f, i, j, g)|
      ensures Good(u, Spliced(f, i, j, g), k)
    {
      if k < i {
        LeftNode(m, u, f, slot, i, j, g, k);
      } else if k < i + |g| {
        GapNode(m, u, f, slot, i, j, g);
      } else {
        RightNode(m, u, f, slot, i, j, g, k - |g| - i + j);
      }
    }
    GoodLinked(u, Spliced(f, i, j, g));
  }

  lemma GoodLinked(u: Raw, r: seq<Block>)
    requires forall k :: 0 <= k < |r| ==> Good(u, r, k)
    ensures Linked(u, r, AddrAt(r, 0))
  {
    forall k | 0 <= k < |r|
      ensures r[k].addr > 0 && r[k].addr in u && u[r[k].addr].next == AddrAt(r, k + 1)
      ensures u[r[k].addr].prev == AddrAt(r, k - 1) && Sound(u[r[k].addr], r[k].size)
    {
      assert Good(u, r, k);
    }
  }

  // ---------------------------------------------------------------- the pointer assignments

  function Put(m: Raw, g: seq<Block>, prev: nat, next: nat): Raw {
    if g == [] then m else m[g[0].addr := Header(g[0].size, prev, next, g[0].size + HEADER)]
  }

  /** `a->prev = x`, unless `a` is null. */
  function LinkPrev(m: Raw, a: nat, x: nat): Raw {
    if a != 0 && a in m then m[a := m[a].(prev := x)] else m
  }

  /** `a->next = x`, unless `a` is null. */
  function LinkNext(m: Raw, a: nat, x: nat): Raw {
    if a != 0 && a in m then m[a := m[a].(next := x)] else m
  }

  /** Fill the gap from `i` to `j` with `g` and let both neighbours point to it. */
  function Rehook(m: Raw, f: seq<Block>, i: nat, j: nat, g: seq<Block>): Raw {
    LinkNext(LinkPrev(Put(m, g, AddrAt(f, i - 1), AddrAt(f, j)), AddrAt(f, j), Left(f, i, g)), AddrAt(f, i - 1), Right(f, j, g))
  }

  lemma RehookRead(m: Raw, f: seq<Block>, i: nat, j: nat, g: seq<Block>, a: nat)
    requires a in m && a != 0 && (g != [] ==> a != g[0].addr)
    ensures a in Rehook(m, f, i, j, g)
    ensures Rehook(m, f, i, j, g)[a] == m[a].(prev := if a == AddrAt(f, j) then Left(f, i, g) else m[a].prev,
                                              next := if a == AddrAt(f, i - 1) then Right(f, j, g) else m[a].next)
  {
  }

  lemma RehookReadNew(m: Raw, f: seq<Block>, i: nat, j: nat, g: seq<Block>)
    requires |g| == 1 && g[0].addr != AddrAt(f, j) && g[0].addr != AddrAt(f, i - 1)
    ensures g[0].addr in Rehook(m, f, i, j, g)
    ensures Rehook(m, f, i, j, g)[g[0].addr] == Header(g[0].size, AddrAt(f, i - 1), AddrAt(f, j), g[0].size + HEADER)
  {
  }

  lemma AddrsDiffer(f: seq<Block>, k: nat, n: nat)
    requires Canonical(f) && k < |f| && n < |f| && k != n
    ensures f[k].addr != f[n].addr
  {
    if k < n {
      assert End(f[k]) < f[n].addr;
    } else {
      assert End(f[n]) < f[k].addr;
    }
  }

  /** `m` may already differ from `before` inside the gap. */
  lemma RehookResplices(before: Raw, m: Raw, f: seq<Block>, slot: nat, i: nat, j: nat, g: seq<Block>)
    requires Linked(before, f, slot) && Canonical(f) && i <= j <= |f| && |g| <= 1
    requires before.Keys <= m.Keys
    requires forall k :: 0 <= k < i || j <= k < |f| ==> m[f[k].addr] == before[f[k].addr]
    requires g != [] ==> g[0].addr > 0 && forall k :: 0 <= k < i || j <= k < |f| ==> f[k].addr != g[0].addr
    ensures Resplices(before, Rehook(m, f, i, j, g), f, i, j, g)
  {
    var u := Rehook(m, f, i, j, g);
    if g != [] {
      RehookReadNew(m, f, i, j, g);
    }
    forall k | 0 <= k < i - 1 || j < k < |f|
      ensures f[k].addr in u && u[f[k].addr] == before[f[k].addr]
    {
      RehookRead(m, f, i, j, g, f[k].addr);
      if j < |f| {
        AddrsDiffer(f, k, j);
      }
      if i > 0 {
        AddrsDiffer(f, k, i - 1);
      }
    }
    if i > 0 {
      RehookRead(m, f, i, j, g, f[i - 1].addr);
      if j < |f| {
        AddrsDiffer(f, i - 1, j);
      }
    }
    if j < |f| {
      RehookRead(m, f, i, j, g, f[j].addr);
      if i > 0 {
        AddrsDiffer(f, i - 1, j);
      }
    }
  }
}
