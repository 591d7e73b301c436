/** How block headers in memory represent the blocks, and what relinking them does to the free list. */
module HeapMemory {
  import opened Bytes
  import opened HeapBlocks

  const NULL := 0

  type SizeT = n: nat | n <= SIZE_MAX

  datatype BlockLink = BlockLink(next: nat, size: SizeT)

  // ----- The memory that represents the blocks -----

  ghost predicate HeaderOf(memory: map<nat, BlockLink>, b: Block)
  {
    && b.addr in memory
    && b.size < ALLOCATED_BIT
    && memory[b.addr].size == b.size + (if b.free then 0 else ALLOCATED_BIT)
    && (!b.free ==> memory[b.addr].next == NULL)
  }

  ghost predicate Headers(memory: map<nat, BlockLink>, bs: seq<Block>)
  {
    forall i | 0 <= i < |bs| :: HeaderOf(memory, bs[i])
  }

  ghost predicate Link(memory: map<nat, BlockLink>, a: nat, b: nat)
  {
    a in memory && memory[a].next == b
  }

  /** Following `next` from the first address visits the addresses in order. */
  ghost predicate Chain(memory: map<nat, BlockLink>, l: seq<nat>)
  {
    forall i, j | 0 <= i && j == i + 1 && j < |l| :: Link(memory, l[i], l[j])
  }

  ghost predicate Increasing(l: seq<nat>)
  {
    forall i, j | 0 <= i < j < |l| :: l[i] < l[j]
  }

  lemma ChainJoin(memory: map<nat, BlockLink>, a: seq<nat>, c: seq<nat>)
    requires a != [] && c != []
    ensures Chain(memory, a + c)
       <==> && Chain(memory, a) && Chain(memory, c)
            && Link(memory, a[|a| - 1], c[0])
  {
    var l := a + c;
    assert forall i | 0 <= i < |a| :: l[i] == a[i];
    assert forall i | 0 <= i < |c| :: l[|a| + i] == c[i];
    if Chain(memory, l) {
      var i, j := |a| - 1, |a|;
      assert Link(memory, l[i], l[j]);
    }
  }

  /** A chain only depends on the headers of all its addresses but the last. */
  lemma ChainFrame(m: map<nat, BlockLink>, m': map<nat, BlockLink>, l: seq<nat>)
    requires Chain(m, l)
    requires forall i | 0 <= i < |l| - 1 :: l[i] in m' && l[i] in m && m'[l[i]].next == m[l[i]].next
    ensures Chain(m', l)
  {
  }

  /** Splicing `x` between `a` and `c`, with `x` already following `a` when `merged`. */
  lemma Relink(m: map<nat, BlockLink>, m': map<nat, BlockLink>, a: seq<nat>, x: nat, c: seq<nat>, merged: bool)
    requires a != [] && c != []
    requires Chain(m, a) && Chain(m, c) && (merged ==> Link(m, a[|a| - 1], x))
    requires forall i | 0 <= i < |a| :: a[i] != x
    requires forall i | 0 <= i < |a| - 1 :: a[i] != a[|a| - 1]
    requires forall i | 0 <= i < |c| - 1 :: c[i] != x && c[i] != a[|a| - 1]
    requires forall y | y in m && y != x && (merged || y != a[|a| - 1]) :: y in m' && m'[y] == m[y]
    requires Link(m', x, c[0]) && (!merged ==> Link(m', a[|a| - 1], x))
    ensures Chain(m', a + [x] + c)
  {
    forall i | 0 <= i < |a| - 1
      ensures a[i] in m && a[i] in m' && m'[a[i]] == m[a[i]]
    {
      var j := i + 1;
      assert Link(m, a[i], a[j]);
    }
    forall i | 0 <= i < |c| - 1
      ensures c[i] in m && c[i] in m' && m'[c[i]] == m[c[i]]
    {
      var j := i + 1;
      assert Link(m, c[i], c[j]);
    }
    ChainJoin(m', a, [x]);
    ChainJoin(m', a + [x], c);
  }

  /** Free-list addresses of a well-formed heap, sentinels included, never repeat. */
  ghost function FreeList(xStart: nat, bs: seq<Block>, pxEnd: nat): seq<nat>
  {
    [xStart] + FreeAddrs(bs) + [pxEnd]
  }

  ghost predicate Represents(memory: map<nat, BlockLink>, xStart: nat, bs: seq<Block>, pxEnd: nat)
  {
    && Headers(memory, bs)
    && Chain(memory, FreeList(xStart, bs, pxEnd))
    && Sentinels(memory, xStart, pxEnd)
  }

  ghost predicate Sentinels(memory: map<nat, BlockLink>, xStart: nat, pxEnd: nat)
  {
    && xStart in memory && memory[xStart].size == 0
    && pxEnd in memory && memory[pxEnd] == BlockLink(NULL, 0)
  }

  // ----- Finding the place to insert -----

  /** Where a block being released sits between the free blocks before and after it. */
  ghost predicate Between(p: seq<Block>, b: Block, s: seq<Block>, xStart: nat, pxEnd: nat, iter: nat, next: nat)
  {
    && iter == (if FreeAddrs(p) == [] then xStart else FreeAddrs(p)[|FreeAddrs(p)| - 1])
    && next == (FreeAddrs(s) + [pxEnd])[0]
  }

  lemma {:induction false} LastFree(p: seq<Block>)
    ensures FreeAddrs(p) != [] ==>
      exists j ::
        && 0 <= j < |p| && p[j].free && p[j].addr == FreeAddrs(p)[|FreeAddrs(p)| - 1]
        && (EndsFree(p) ==> j == |p| - 1)
    ensures EndsFree(p) ==> FreeAddrs(p) == FreeAddrs(p[..|p| - 1]) + [p[|p| - 1].addr]
  {
    if EndsFree(p) {
      var q, z := p[..|p| - 1], p[|p| - 1];
      assert p == q + [z] + [];
      Around(q, z, [], 0);
    } else if FreeAddrs(p) != [] {
      var j := FreeBlockAt(p, |FreeAddrs(p)| - 1);
    }
  }

  /** The block before touches exactly when it is the free block just below. */
  lemma TouchesLeft(m: map<nat, BlockLink>, p: seq<Block>, b: Block, s: seq<Block>, lo: nat, hi: nat, xStart: nat,
                    iter: nat, next: nat)
    requires WellFormed(p + [b] + s, lo, hi) && Headers(m, p) && Sentinels(m, xStart, hi) && xStart != b.addr
    requires Between(p, b, s, xStart, hi, iter, next)
    ensures iter in m && (iter + m[iter].size == b.addr <==> EndsFree(p))
    ensures EndsFree(p) ==> iter == p[|p| - 1].addr && m[iter].size == p[|p| - 1].size
  {
    hide FreeBytes, LiveCount;
    Around(p, b, s, lo);
    LastFree(p);
    if FreeAddrs(p) != [] {
      var j :| 0 <= j < |p| && p[j].free && p[j].addr == iter && (EndsFree(p) ==> j == |p| - 1);
      assert HeaderOf(m, p[j]);
      AddrsInRange(p, lo, |p| - 1);
      if !EndsFree(p) {
        AddrsOrdered(p, lo, j, |p| - 1);
        assert (p + [b] + s)[|p| - 1] == p[|p| - 1];
      } else {
        Around(p[..|p| - 1], p[|p| - 1], [], lo);
        assert p == p[..|p| - 1] + [p[|p| - 1]] + [];
      }
    }
  }

  lemma FirstFree(s: seq<Block>, at: nat)
    requires Tiles(s, at) && Sized(s)
    ensures StartsFree(s) ==> FreeAddrs(s) == [at] + FreeAddrs(s[1..])
    ensures !StartsFree(s) && FreeAddrs(s) != [] ==> at < FreeAddrs(s)[0]
    ensures FreeAddrs(s) != [] ==> FreeAddrs(s)[0] < at + TotalSize(s)
    ensures s != [] && !s[0].free ==> at < at + TotalSize(s)
  {
    hide LiveCount, FreeBytes;
    FreeAddrsSorted(s, at);
    if s != [] {
      FreeAddrsSorted(s[1..], at + s[0].size);
    }
  }

  /** The block after touches exactly when it is the free block just above. */
  lemma TouchesRight(p: seq<Block>, b: Block, s: seq<Block>, lo: nat, hi: nat, xStart: nat, iter: nat, next: nat)
    requires WellFormed(p + [b] + s, lo, hi)
    requires Between(p, b, s, xStart, hi, iter, next)
    ensures b.addr + b.size == next && next != hi <==> StartsFree(s)
    ensures StartsFree(s) ==> next == s[0].addr && FreeAddrs(s) == [next] + FreeAddrs(s[1..])
  {
    hide FreeBytes, LiveCount, Sized, NoFreeNeighbours, TotalSize;
    Around(p, b, s, lo);
    Neighbours(p + [b], s);
    FirstFree(s, b.addr + b.size);
    if s == [] {
      assert FreeAddrs(s) == [];
      assert (FreeAddrs(s) + [hi])[0] == hi;
    }
  }

  lemma HeadersKept(m: map<nat, BlockLink>, m': map<nat, BlockLink>, bs: seq<Block>, changed: set<nat>, iter: nat)
    requires Headers(m, bs)
    requires forall y | y in m && y !in changed && y != iter :: y in m' && m'[y] == m[y]
    requires iter in m && (iter in changed || (iter in m' && m'[iter].size == m[iter].size))
    requires forall i | 0 <= i < |bs| :: bs[i].addr !in changed && (bs[i].addr == iter ==> bs[i].free)
    ensures Headers(m', bs)
  {
    forall i | 0 <= i < |bs| ensures HeaderOf(m', bs[i]) {
      assert HeaderOf(m, bs[i]);
    }
  }

  /** Everything before `b` lies below it, and everything after lies above it. */
  lemma BlocksApart(p: seq<Block>, b: Block, s: seq<Block>, lo: nat, hi: nat)
    requires WellFormed(p + [b] + s, lo, hi)
    ensures forall i | 0 <= i < |p| :: lo <= p[i].addr < p[i].addr + p[i].size <= b.addr
    ensures forall i, j | 0 <= i < j < |p| :: p[i].addr < p[j].addr
    ensures forall i | 0 <= i < |s| :: b.addr + b.size <= s[i].addr < hi
    ensures lo <= b.addr && b.addr + b.size <= hi && MINIMUM_BLOCK_SIZE <= b.size
  {
    hide *;
    var bs := p + [b] + s;
    Pieces(p, b, s, lo, hi);
    forall i | 0 <= i < |p|
      ensures lo <= p[i].addr < p[i].addr + p[i].size <= b.addr
    {
      AddrsInRange(p, lo, i);
      SizedAt(p, i);
    }
    forall i, j | 0 <= i < j < |p|
      ensures p[i].addr < p[j].addr
    {
      AddrsOrdered(p, lo, i, j);
      SizedAt(p, i);
    }
    forall i | 0 <= i < |s|
      ensures b.addr + b.size <= s[i].addr < hi
    {
      AddrsInRange(s, b.addr + b.size, i);
      SizedAt(s, i);
    }
    assert bs[|p|] == b;
    SizedAt(bs, |p|);
  }

  lemma SizedAt(bs: seq<Block>, i: nat)
    requires Sized(bs) && i < |bs|
    ensures bs[i].size >= MINIMUM_BLOCK_SIZE && bs[i].size > 0
  {
  }

  lemma Pieces(p: seq<Block>, b: Block, s: seq<Block>, lo: nat, hi: nat)
    requires WellFormed(p + [b] + s, lo, hi)
    ensures Tiles(p, lo) && b.addr == lo + TotalSize(p) && Tiles(s, b.addr + b.size)
    ensures b.addr + b.size + TotalSize(s) == hi
    ensures Sized(p) && Sized(s) && Sized(p + [b] + s)
  {
    hide FreeBytes, LiveCount, FreeAddrs, Tiles, TotalSize, Sized, NoFreeNeighbours;
    Around(p, b, s, lo);
    Neighbours(p + [b], s);
    Neighbours(p, [b]);
  }

  lemma FreeApart(p: seq<Block>, b: Block, s: seq<Block>, lo: nat, hi: nat)
    requires WellFormed(p + [b] + s, lo, hi)
    ensures forall i | 0 <= i < |FreeAddrs(p)| :: lo <= FreeAddrs(p)[i] < b.addr
    ensures forall i | 0 <= i < |FreeAddrs(s)| :: b.addr < FreeAddrs(s)[i] < hi
    ensures Increasing(FreeAddrs(p)) && Increasing(FreeAddrs(s))
  {
    hide FreeBytes, LiveCount, FreeAddrs, Tiles, TotalSize, Sized, NoFreeNeighbours, WellFormed;
    Pieces(p, b, s, lo, hi);
    BlocksApart(p, b, s, lo, hi);
    FreeAddrsSorted(p, lo);
    FreeAddrsSorted(s, b.addr + b.size);
  }

  /** The merged block as the free list will hold it: address, size, and what stays on either side. */
  ghost function Merged(p: seq<Block>, b: Block, s: seq<Block>): (r: (seq<Block>, Block, seq<Block>))
    ensures Coalesce(p, b.addr, b.size, s) == r.0 + [r.1] + r.2
  {
    var (p', addr', size') :=
      if EndsFree(p) then (p[..|p| - 1], p[|p| - 1].addr, p[|p| - 1].size + b.size) else (p, b.addr, b.size);
    var (s', size'') :=
      if StartsFree(s) then (s[1..], size' + s[0].size) else (s, size');
    (p', Block(addr', size'', true), s')
  }

  lemma InsertedHeaders(m: map<nat, BlockLink>, m': map<nat, BlockLink>, p: seq<Block>, b: Block, s: seq<Block>,
                        lo: nat, hi: nat, xStart: nat, iter: nat, next: nat)
    requires WellFormed(p + [b] + s, lo, hi) && !(lo <= xStart < hi)
    requires Headers(m, p) && Headers(m, s) && Sentinels(m, xStart, hi)
    requires Between(p, b, s, xStart, hi, iter, next) && iter in m
    requires var x := Merged(p, b, s).1;
             && x.addr in m' && m'[x.addr].size == x.size && x.size < ALLOCATED_BIT
             && (!EndsFree(p) ==> iter in m' && m'[iter].size == m[iter].size)
             && forall y | y in m && y != x.addr && y != iter :: y in m' && m'[y] == m[y]
    ensures Headers(m', Coalesce(p, b.addr, b.size, s))
  {
    hide FreeBytes, LiveCount, NoFreeNeighbours, TotalSize, FreeAddrs, Tiles, WellFormed, Coalesce, Sized;
    var (p', x, s') := Merged(p, b, s);
    BlocksApart(p, b, s, lo, hi);
    LastFree(p);
    if EndsFree(p) {
      assert iter == p[|p| - 1].addr == x.addr;
    } else if FreeAddrs(p) != [] {
      var j :| 0 <= j < |p| && p[j].free && p[j].addr == iter;
      assert forall i | 0 <= i < |p| && i != j :: p[i].addr != p[j].addr;
    }
    forall i | 0 <= i < |p'|
      ensures p'[i].addr != x.addr && (p'[i].addr == iter ==> p'[i].free)
    {
      assert p'[i] == p[i];
    }
    HeadersKept(m, m', p', {x.addr}, iter);
    HeadersKept(m, m', s', {x.addr}, iter);
    assert HeaderOf(m', x);
  }

  /** The free list on either side of the merged block. */
  ghost function Below(xStart: nat, p: seq<Block>, b: Block, s: seq<Block>): (l: seq<nat>)
    ensures l != []
  {
    [xStart] + FreeAddrs(Merged(p, b, s).0)
  }

  ghost function Above(p: seq<Block>, b: Block, s: seq<Block>, pxEnd: nat): (l: seq<nat>)
    ensures l != []
  {
    FreeAddrs(Merged(p, b, s).2) + [pxEnd]
  }

  lemma OldChain(m: map<nat, BlockLink>, p: seq<Block>, b: Block, s: seq<Block>, hi: nat, xStart: nat, iter: nat,
                 next: nat)
    requires !b.free && Chain(m, FreeList(xStart, p + [b] + s, hi))
    requires Between(p, b, s, xStart, hi, iter, next)
    requires StartsFree(s) ==> FreeAddrs(s) == [next] + FreeAddrs(s[1..])
    ensures var a, c := Below(xStart, p, b, s), Above(p, b, s, hi);
            && Chain(m, a) && Chain(m, c)
            && (EndsFree(p) ==> Link(m, a[|a| - 1], Merged(p, b, s).1.addr))
            && (!EndsFree(p) ==> iter == a[|a| - 1])
            && if StartsFree(s) then Link(m, next, c[0]) else next == c[0]
  {
    hide FreeBytes, LiveCount, NoFreeNeighbours, TotalSize, FreeAddrs, Tiles, WellFormed, Coalesce, Sized, Chain, Link;
    var a, c := Below(xStart, p, b, s), Above(p, b, s, hi);
    Around(p, b, s, 0);
    LastFree(p);
    var left, right := [xStart] + FreeAddrs(p), FreeAddrs(s) + [hi];
    assert FreeList(xStart, p + [b] + s, hi) == left + right;
    ChainJoin(m, left, right);
    if EndsFree(p) {
      var x := p[|p| - 1].addr;
      assert left == a + [x];
      ChainJoin(m, a, [x]);
    }
    if StartsFree(s) {
      assert right == [next] + c;
      ChainJoin(m, [next], c);
    }
  }

  lemma NewChainDistinct(p: seq<Block>, b: Block, s: seq<Block>, lo: nat, hi: nat, xStart: nat)
    requires WellFormed(p + [b] + s, lo, hi) && !(lo <= xStart <= hi)
    ensures var a, x, c := Below(xStart, p, b, s), Merged(p, b, s).1.addr, Above(p, b, s, hi);
            && (forall i | 0 <= i < |a| :: a[i] != x)
            && (forall i | 0 <= i < |a| - 1 :: a[i] != a[|a| - 1])
            && (forall i | 0 <= i < |c| - 1 :: c[i] != x && c[i] != a[|a| - 1])
  {
    hide FreeBytes, LiveCount, NoFreeNeighbours, TotalSize, FreeAddrs, Tiles, WellFormed, Coalesce, Sized;
    FreeApart(p, b, s, lo, hi);
    BlocksApart(p, b, s, lo, hi);
    LastFree(p);
    SuffixOf(s);
    var a, c := Below(xStart, p, b, s), Above(p, b, s, hi);
    var f, g := FreeAddrs(p), FreeAddrs(s);
    var d := if StartsFree(s) then 1 else 0;
    assert forall i | 0 < i < |a| :: a[i] == f[i - 1];
    assert forall i | 0 <= i < |c| - 1 :: c[i] == g[i + d];
    forall i | 0 <= i < |a| - 1 ensures a[i] != a[|a| - 1] {
      assert a[|a| - 1] == f[|a| - 2];
    }
  }

  lemma SuffixOf(s: seq<Block>)
    ensures StartsFree(s) ==> FreeAddrs(s) == [s[0].addr] + FreeAddrs(s[1..])
  {
  }

  lemma InsertedChain(m: map<nat, BlockLink>, m': map<nat, BlockLink>, p: seq<Block>, b: Block, s: seq<Block>,
                      lo: nat, hi: nat, xStart: nat, iter: nat, next: nat)
    requires WellFormed(p + [b] + s, lo, hi) && !(lo <= xStart <= hi) && !b.free
    requires Chain(m, FreeList(xStart, p + [b] + s, hi))
    requires Between(p, b, s, xStart, hi, iter, next)
    requires EndsFree(p) ==> iter == p[|p| - 1].addr
    requires StartsFree(s) ==> FreeAddrs(s) == [next] + FreeAddrs(s[1..])
    requires var x := Merged(p, b, s).1.addr;
             && Link(m', x, Above(p, b, s, hi)[0])
             && (!EndsFree(p) ==> Link(m', iter, x))
             && forall y | y in m && y != x && y != iter :: y in m' && m'[y] == m[y]
    ensures Chain(m', FreeList(xStart, Coalesce(p, b.addr, b.size, s), hi))
  {
    hide FreeBytes, LiveCount, NoFreeNeighbours, TotalSize, FreeAddrs, Tiles, WellFormed, Coalesce, Sized, Chain,
      Link, Below, Above;
    var (p', x, s') := Merged(p, b, s);
    var a, c := Below(xStart, p, b, s), Above(p, b, s, hi);
    OldChain(m, p, b, s, hi, xStart, iter, next);
    NewChainDistinct(p, b, s, lo, hi, xStart);
    Relink(m, m', a, x.addr, c, EndsFree(p));
    NewFreeList(p, b, s, hi, xStart);
  }

  lemma MergedFits(p: seq<Block>, b: Block, s: seq<Block>, lo: nat, hi: nat)
    requires !b.free && WellFormed(p + [b] + s, lo, hi)
    ensures Merged(p, b, s).1.size <= hi - lo
  {
    hide FreeBytes, LiveCount, FreeAddrs, Tiles, TotalSize, Sized, NoFreeNeighbours;
    var bs := p + [b] + s;
    assert bs[|p|] == b && bs[..|p|] == p && bs[|p| + 1..] == s;
    ReleaseKeeps(bs, |p|, lo, hi);
    var (p', x, s') := Merged(p, b, s);
    assert Release(bs, |p|)[|p'|] == x;
    AddrsInRange(Release(bs, |p|), lo, |p'|);
  }

  lemma NewFreeList(p: seq<Block>, b: Block, s: seq<Block>, hi: nat, xStart: nat)
    ensures FreeList(xStart, Coalesce(p, b.addr, b.size, s), hi)
         == Below(xStart, p, b, s) + [Merged(p, b, s).1.addr] + Above(p, b, s, hi)
  {
    hide FreeBytes, LiveCount, TotalSize, FreeAddrs, Tiles, Coalesce;
    var (p', x, s') := Merged(p, b, s);
    Around(p', x, s', 0);
  }

  // ----- Taking a block out of the free list -----

  lemma Rejoin(m: map<nat, BlockLink>, m': map<nat, BlockLink>, a: seq<nat>, c: seq<nat>)
    requires a != [] && c != [] && Chain(m, a) && Chain(m, c)
    requires forall i | 0 <= i < |a| - 1 :: a[i] in m && a[i] in m' && m'[a[i]].next == m[a[i]].next
    requires forall i | 0 <= i < |c| - 1 :: c[i] in m && c[i] in m' && m'[c[i]].next == m[c[i]].next
    requires Link(m', a[|a| - 1], c[0])
    ensures Chain(m', a + c)
  {
    ChainFrame(m, m', a);
    ChainFrame(m, m', c);
    ChainJoin(m', a, c);
  }

  lemma ChainKeys(m: map<nat, BlockLink>, l: seq<nat>)
    requires Chain(m, l)
    ensures forall i | 0 <= i < |l| - 1 :: l[i] in m
  {
    forall i | 0 <= i < |l| - 1 ensures l[i] in m {
      var j := i + 1;
      assert Link(m, l[i], l[j]);
    }
  }

  /** The free-list entry before a block, the list head included. */
  ghost function Predecessor(xStart: nat, p: seq<Block>): nat
  {
    if FreeAddrs(p) == [] then xStart else FreeAddrs(p)[|FreeAddrs(p)| - 1]
  }

  ghost predicate OnlyChanged(m: map<nat, BlockLink>, m': map<nat, BlockLink>, changed: set<nat>)
  {
    forall y | y in m && y !in changed :: y in m' && m'[y] == m[y]
  }

  /** `m'` is `m` with `b` handed out and replaced in the free list by what was carved off it. */
  ghost predicate CarvedMemory(m: map<nat, BlockLink>, m': map<nat, BlockLink>, p: seq<Block>, b: Block, s: seq<Block>,
                               wanted: nat, xStart: nat, pxEnd: nat)
    requires Fits(b, wanted)
  {
    var prev, c := Predecessor(xStart, p), Carve(b, wanted);
    var next := (FreeAddrs(s) + [pxEnd])[0];
    && OnlyChanged(m, m', {prev, b.addr} + (if |c| == 2 then {c[1].addr} else {}))
    && b.addr in m' && m'[b.addr].next == NULL && m'[b.addr].size == c[0].size + ALLOCATED_BIT
    && (|c| == 2 ==> c[1].addr in m' && m'[c[1].addr].next == next && m'[c[1].addr].size == c[1].size)
    && prev in m && prev in m' && m'[prev].size == m[prev].size
    && m'[prev].next == if |c| == 2 then c[1].addr else next
  }

  lemma CarvedHeaders(m: map<nat, BlockLink>, m': map<nat, BlockLink>, p: seq<Block>, b: Block, s: seq<Block>,
                      wanted: nat, lo: nat, hi: nat, xStart: nat)
    requires WellFormed(p + [b] + s, lo, hi) && !(lo <= xStart < hi)
    requires Fits(b, wanted) && MINIMUM_BLOCK_SIZE <= wanted && b.size < ALLOCATED_BIT
    requires Headers(m, p) && Headers(m, s)
    requires CarvedMemory(m, m', p, b, s, wanted, xStart, hi)
    ensures Headers(m', p + Carve(b, wanted) + s)
  {
    hide FreeBytes, LiveCount, NoFreeNeighbours, TotalSize, FreeAddrs, Tiles, WellFormed, Sized, Carve;
    var prev, c := Predecessor(xStart, p), Carve(b, wanted);
    BlocksApart(p, b, s, lo, hi);
    CarveShape(b, wanted);
    var changed := {b.addr} + (if |c| == 2 then {c[1].addr} else {});
    PredecessorFree(p, b, s, lo, hi, xStart);
    HeadersKept(m, m', p, changed, prev);
    HeadersKept(m, m', s, changed, prev);
  }

  lemma CarveShape(b: Block, wanted: nat)
    requires Fits(b, wanted)
    ensures var c := Carve(b, wanted);
            && |c| == (if b.size - wanted > MINIMUM_BLOCK_SIZE then 2 else 1)
            && (|c| == 1 ==> c[0].size == b.size)
            && c[0].addr == b.addr && !c[0].free && wanted <= c[0].size <= b.size
            && (|c| == 2 ==> c[1] == Block(b.addr + wanted, b.size - wanted, true) && c[0].size == wanted < b.size)
  {
  }

  lemma PredecessorFree(p: seq<Block>, b: Block, s: seq<Block>, lo: nat, hi: nat, xStart: nat)
    requires WellFormed(p + [b] + s, lo, hi) && !(lo <= xStart < hi)
    ensures forall i | 0 <= i < |p| && p[i].addr == Predecessor(xStart, p) :: p[i].free
    ensures forall i | 0 <= i < |s| :: s[i].addr != Predecessor(xStart, p)
  {
    hide FreeBytes, LiveCount, NoFreeNeighbours, TotalSize, FreeAddrs, Tiles, WellFormed, Sized;
    BlocksApart(p, b, s, lo, hi);
    LastFree(p);
    if FreeAddrs(p) != [] {
      var j :| 0 <= j < |p| && p[j].free && p[j].addr == Predecessor(xStart, p);
      assert forall i | 0 <= i < |p| && i != j :: p[i].addr != p[j].addr;
    }
  }

  lemma CarvedPieces(m: map<nat, BlockLink>, p: seq<Block>, b: nat, s: seq<Block>, hi: nat, xStart: nat)
    requires Chain(m, [xStart] + FreeAddrs(p) + [b] + (FreeAddrs(s) + [hi]))
    ensures Chain(m, [xStart] + FreeAddrs(p)) && Chain(m, FreeAddrs(s) + [hi])
    ensures forall i | 0 <= i < |FreeAddrs(p)| - 1 :: FreeAddrs(p)[i] in m
    ensures FreeAddrs(p) != [] ==> xStart in m
    ensures forall i | 0 <= i < |FreeAddrs(s)| :: FreeAddrs(s)[i] in m
  {
    hide FreeAddrs, Chain;
    var a, c := [xStart] + FreeAddrs(p), FreeAddrs(s) + [hi];
    ChainJoin(m, a, [b]);
    ChainJoin(m, a + [b], c);
    ChainKeys(m, a);
    ChainKeys(m, c);
    assert forall i | 0 <= i < |FreeAddrs(p)| :: FreeAddrs(p)[i] == a[i + 1];
    assert FreeAddrs(p) != [] ==> a[0] in m;
    assert forall i | 0 <= i < |c| - 1 :: c[i] == FreeAddrs(s)[i];
  }

  lemma CarvedChain(m: map<nat, BlockLink>, m': map<nat, BlockLink>, p: seq<Block>, b: Block, s: seq<Block>,
                    wanted: nat, lo: nat, hi: nat, xStart: nat)
    requires WellFormed(p + [b] + s, lo, hi) && !(lo <= xStart <= hi)
    requires Fits(b, wanted) && MINIMUM_BLOCK_SIZE <= wanted && wanted % BYTE_ALIGNMENT == 0
    requires Chain(m, [xStart] + FreeAddrs(p) + [b.addr] + (FreeAddrs(s) + [hi]))
    requires CarvedMemory(m, m', p, b, s, wanted, xStart, hi)
    ensures Chain(m', FreeList(xStart, p + Carve(b, wanted) + s, hi))
  {
    hide FreeAddrs, WellFormed, Carve, Chain;
    var cs := Carve(b, wanted);
    var a, c := [xStart] + FreeAddrs(p), FreeAddrs(s) + [hi];
    CarveShape(b, wanted);
    CarvedFree(p, b, s, wanted, lo, hi);
    CarvedPieces(m, p, b.addr, s, hi, xStart);
    CarvedFrame(m, m', p, b, s, wanted, lo, hi, xStart);
    assert Predecessor(xStart, p) == a[|a| - 1];
    if |cs| == 2 {
      var x := cs[1].addr;
      Rejoin(m, m', a, [x]);
      ChainFrame(m, m', c);
      ChainKeys(m', c);
      ChainKeys(m', a + [x]);
      Rejoin(m', m', a + [x], c);
      assert FreeList(xStart, p + cs + s, hi) == a + [x] + c;
    } else {
      Rejoin(m, m', a, c);
      assert FreeList(xStart, p + cs + s, hi) == a + c;
    }
  }

  lemma CarvedFree(p: seq<Block>, b: Block, s: seq<Block>, wanted: nat, lo: nat, hi: nat)
    requires Fits(b, wanted)
    ensures var c := Carve(b, wanted);
            FreeAddrs(p + c + s) == FreeAddrs(p) + (if |c| == 2 then [c[1].addr] else []) + FreeAddrs(s)
  {
    hide FreeBytes, LiveCount, NoFreeNeighbours, TotalSize, FreeAddrs, Tiles, WellFormed, Sized;
    var c := Carve(b, wanted);
    Concat(p, c, lo);
    Concat(p + c, s, lo);
    Singleton(c[0], lo);
    if |c| == 2 {
      assert c == [c[0]] + [c[1]];
      Concat([c[0]], [c[1]], lo);
      Singleton(c[1], lo);
    }
  }

  /** Handing a block out touches no other entry of the free list than the one before it. */
  lemma CarvedFrame(m: map<nat, BlockLink>, m': map<nat, BlockLink>, p: seq<Block>, b: Block, s: seq<Block>,
                    wanted: nat, lo: nat, hi: nat, xStart: nat)
    requires WellFormed(p + [b] + s, lo, hi) && !(lo <= xStart <= hi)
    requires Fits(b, wanted) && MINIMUM_BLOCK_SIZE <= wanted
    requires CarvedMemory(m, m', p, b, s, wanted, xStart, hi)
    requires forall i | 0 <= i < |FreeAddrs(p)| - 1 :: FreeAddrs(p)[i] in m
    requires FreeAddrs(p) != [] ==> xStart in m
    requires forall i | 0 <= i < |FreeAddrs(s)| :: FreeAddrs(s)[i] in m
    ensures var a, c := [xStart] + FreeAddrs(p), FreeAddrs(s) + [hi];
            && (forall i | 0 <= i < |a| - 1 :: a[i] in m && a[i] in m' && m'[a[i]] == m[a[i]])
            && (forall i | 0 <= i < |c| - 1 :: c[i] in m && c[i] in m' && m'[c[i]] == m[c[i]])
  {
    hide FreeBytes, LiveCount, NoFreeNeighbours, TotalSize, FreeAddrs, Tiles, WellFormed, Sized, Carve;
    FreeApart(p, b, s, lo, hi);
    BlocksApart(p, b, s, lo, hi);
    CarveShape(b, wanted);
    var a, c := [xStart] + FreeAddrs(p), FreeAddrs(s) + [hi];
    var prev := Predecessor(xStart, p);
    var f, g := FreeAddrs(p), FreeAddrs(s);
    forall i | 0 <= i < |a| - 1
      ensures a[i] in m && a[i] in m' && m'[a[i]] == m[a[i]]
    {
      assert a[i] == if i == 0 then xStart else f[i - 1];
      assert prev == f[|f| - 1];
    }
    forall i | 0 <= i < |c| - 1
      ensures c[i] in m && c[i] in m' && m'[c[i]] == m[c[i]]
    {
      assert c[i] == g[i];
      AboveCarved(p, b, s, wanted, lo, hi, i);
    }
  }

  lemma AboveCarved(p: seq<Block>, b: Block, s: seq<Block>, wanted: nat, lo: nat, hi: nat, i: nat)
    requires WellFormed(p + [b] + s, lo, hi) && Fits(b, wanted) && i < |FreeAddrs(s)|
    ensures b.addr + b.size <= FreeAddrs(s)[i]
  {
    hide FreeBytes, LiveCount, NoFreeNeighbours, TotalSize, FreeAddrs, Tiles, WellFormed, Sized;
    Pieces(p, b, s, lo, hi);
    FreeAddrsSorted(s, b.addr + b.size);
  }

  // ----- Searching the free list -----

  lemma FreeHeader(m: map<nat, BlockLink>, bs: seq<Block>, lo: nat, c: nat)
    requires Headers(m, bs) && Tiles(bs, lo) && Sized(bs) && c < |FreeAddrs(bs)|
    ensures FreeAddrs(bs)[c] in m && lo <= FreeAddrs(bs)[c]
    ensures m[FreeAddrs(bs)[c]].size > 0
  {
    FreeAddrsSorted(bs, lo);
    var k := FreeBlockAt(bs, c);
    assert HeaderOf(m, bs[k]);
  }

  /** No free block before the one reached is large enough, so it is the first fit. */
  lemma FitFound(m: map<nat, BlockLink>, bs: seq<Block>, wanted: nat, k: nat)
    requires Headers(m, bs) && k <= |bs|
    requires forall c | 0 <= c < |FreeAddrs(bs[..k])| ::
               FreeAddrs(bs[..k])[c] in m && m[FreeAddrs(bs[..k])[c]].size < wanted
    requires k < |bs| ==> bs[k].free && m[bs[k].addr].size >= wanted
    ensures FirstFit(bs, wanted) == k
  {
    hide FreeAddrs;
    forall j | 0 <= j < k
      ensures !Fits(bs[j], wanted)
    {
      assert HeaderOf(m, bs[j]);
      if bs[j].free {
        var c := FreeAddrOf(bs[..k], j);
      }
    }
    if k < |bs| {
      assert HeaderOf(m, bs[k]);
    }
  }

  /** What the links around a free block say before it is taken out. */
  lemma Unlinked(m: map<nat, BlockLink>, p: seq<Block>, b: Block, s: seq<Block>, lo: nat, hi: nat, xStart: nat)
    requires WellFormed(p + [b] + s, lo, hi) && b.free
    requires Chain(m, [xStart] + FreeAddrs(p) + [b.addr] + (FreeAddrs(s) + [hi])) && Sentinels(m, xStart, hi)
    ensures var prev := Predecessor(xStart, p);
            && prev in m && (prev == xStart || lo <= prev < b.addr)
            && Link(m, b.addr, (FreeAddrs(s) + [hi])[0])
    ensures lo <= b.addr && b.addr + b.size <= hi
  {
    hide FreeAddrs, Chain, WellFormed;
    FreeApart(p, b, s, lo, hi);
    BlocksApart(p, b, s, lo, hi);
    var a, c := [xStart] + FreeAddrs(p), FreeAddrs(s) + [hi];
    ChainJoin(m, a, [b.addr]);
    ChainJoin(m, a + [b.addr], c);
    assert Predecessor(xStart, p) == a[|a| - 1];
  }

  /** A free block about to be handed out: its header, and the entry pointing at it. */
  lemma BlockToTake(m: map<nat, BlockLink>, bs: seq<Block>, k: nat, lo: nat, hi: nat, xStart: nat)
    requires WellFormed(bs, lo, hi) && k < |bs| && bs[k].free && !(lo <= xStart <= hi)
    requires Represents(m, xStart, bs, hi)
    ensures var b, prev := bs[k], Predecessor(xStart, bs[..k]);
            && prev in m && (prev == xStart || lo <= prev < b.addr) && lo <= b.addr && b.addr + b.size <= hi
            && b.addr in m && m[b.addr] == BlockLink((FreeAddrs(bs[k + 1..]) + [hi])[0], b.size)
    ensures bs[k].size <= FreeBytes(bs)
  {
    hide FreeAddrs, Chain, WellFormed, FreeBytes;
    var p, b, s := bs[..k], bs[k], bs[k + 1..];
    SplitAt(bs, k);
    Around(p, b, s, lo);
    FreeBytesBound(bs, k);
    assert HeaderOf(m, b);
    assert FreeList(xStart, bs, hi) == [xStart] + FreeAddrs(p) + [b.addr] + (FreeAddrs(s) + [hi]);
    Unlinked(m, p, b, s, lo, hi, xStart);
  }

  lemma BlockTaken(m: map<nat, BlockLink>, m': map<nat, BlockLink>, bs: seq<Block>, k: nat, wanted: nat,
                   lo: nat, hi: nat, xStart: nat)
    requires WellFormed(bs, lo, hi) && k < |bs| && Fits(bs[k], wanted) && !(lo <= xStart <= hi)
    requires MINIMUM_BLOCK_SIZE <= wanted && wanted % BYTE_ALIGNMENT == 0
    requires Represents(m, xStart, bs, hi)
    requires CarvedMemory(m, m', bs[..k], bs[k], bs[k + 1..], wanted, xStart, hi)
    ensures Represents(m', xStart, Allocate(bs, k, wanted), hi)
  {
    hide FreeAddrs, Chain, WellFormed, Carve;
    var p, b, s := bs[..k], bs[k], bs[k + 1..];
    SplitAt(bs, k);
    Around(p, b, s, lo);
    assert HeaderOf(m, b);
    assert FreeList(xStart, bs, hi) == [xStart] + FreeAddrs(p) + [b.addr] + (FreeAddrs(s) + [hi]);
    Unlinked(m, p, b, s, lo, hi, xStart);
    CarveShape(b, wanted);
    CarvedHeaders(m, m', p, b, s, wanted, lo, hi, xStart);
    CarvedChain(m, m', p, b, s, wanted, lo, hi, xStart);
  }

  lemma EndIsNotABlock(bs: seq<Block>, k: nat, lo: nat, hi: nat)
    requires WellFormed(bs, lo, hi) && k <= |bs|
    ensures k < |bs| ==> lo <= bs[k].addr < hi
  {
    if k < |bs| {
      AddrsInRange(bs, lo, k);
    }
  }

  lemma NothingFits(bs: seq<Block>, wanted: nat)
    requires wanted > FreeBytes(bs)
    ensures FirstFit(bs, wanted) == |bs|
  {
    var k := FirstFit(bs, wanted);
    if k < |bs| {
      FreeBytesBound(bs, k);
    }
  }

  lemma BlockToFree(m: map<nat, BlockLink>, bs: seq<Block>, k: nat, lo: nat, hi: nat, xStart: nat)
    requires WellFormed(bs, lo, hi) && k < |bs| && !bs[k].free
    requires Represents(m, xStart, bs, hi)
    ensures bs[k].addr in m && m[bs[k].addr] == BlockLink(NULL, bs[k].size + ALLOCATED_BIT)
    ensures FreeBytes(bs) + bs[k].size <= hi - lo && LiveCount(bs) > 0
  {
    hide FreeAddrs, Chain;
    assert HeaderOf(m, bs[k]);
    ReleaseKeeps(bs, k, lo, hi);
    FreeAtMostTotal(Release(bs, k));
  }

  lemma {:induction false} FreeAtMostTotal(bs: seq<Block>)
    ensures FreeBytes(bs) <= TotalSize(bs)
  {
    if bs != [] {
      FreeAtMostTotal(bs[1..]);
    }
  }

  /** Clearing the allocated bit leaves everything else as it was. */
  lemma FreedHeader(m: map<nat, BlockLink>, m': map<nat, BlockLink>, bs: seq<Block>, k: nat, lo: nat, hi: nat,
                    xStart: nat)
    requires WellFormed(bs, lo, hi) && k < |bs| && !bs[k].free && !(lo <= xStart <= hi)
    requires Represents(m, xStart, bs, hi)
    requires bs[k].addr in m && m' == m[bs[k].addr := BlockLink(NULL, bs[k].size)]
    ensures Headers(m', bs[..k]) && Headers(m', bs[k + 1..]) && HeaderOf(m', bs[k].(free := true))
    ensures Chain(m', FreeList(xStart, bs, hi)) && Sentinels(m', xStart, hi)
  {
    hide FreeAddrs, WellFormed, Chain;
    var p, b, s := bs[..k], bs[k], bs[k + 1..];
    SplitAt(bs, k);
    BlocksApart(p, b, s, lo, hi);
    HeadersKept(m, m', p, {b.addr}, b.addr);
    HeadersKept(m, m', s, {b.addr}, b.addr);
    assert HeaderOf(m, b);
    var l := FreeList(xStart, bs, hi);
    FreeApart(p, b, s, lo, hi);
    Around(p, b, s, lo);
    ChainKeys(m, l);
    assert l == [xStart] + FreeAddrs(p) + FreeAddrs(s) + [hi];
    ChainFrame(m, m', l);
  }

  lemma FreeBelowEnd(bs: seq<Block>, lo: nat, hi: nat)
    requires WellFormed(bs, lo, hi)
    ensures forall c | 0 <= c < |FreeAddrs(bs)| :: lo <= FreeAddrs(bs)[c] < hi
  {
    hide FreeAddrs;
    FreeAddrsSorted(bs, lo);
  }

  // ----- Walking by block size -----

  /** The address reached from `a` after `n` steps, each as long as the size its header gives. */
  ghost function Walk(m: map<nat, BlockLink>, a: nat, n: nat): nat
    decreases n
  {
    if n == 0 || a !in m then a else Walk(m, a + m[a].size % ALLOCATED_BIT, n - 1)
  }

  /** Walking by block size from the start of the heap visits every block and ends exactly at the end. */
  lemma {:induction false} WalkVisitsBlocks(m: map<nat, BlockLink>, bs: seq<Block>, lo: nat, n: nat)
    requires Headers(m, bs) && Tiles(bs, lo) && n <= |bs|
    ensures Walk(m, lo, n) == if n < |bs| then bs[n].addr else lo + TotalSize(bs)
  {
    if n > 0 {
      assert HeaderOf(m, bs[0]);
      forall i | 0 <= i < |bs[1..]| ensures HeaderOf(m, bs[1..][i]) {
        assert HeaderOf(m, bs[i + 1]);
      }
      WalkVisitsBlocks(m, bs[1..], lo + bs[0].size, n - 1);
    }
  }

  // ----- The header writes of inserting and of taking, as relations on memory -----

  /** Sizes that inserting after `iter` adds up stay representable. */
  ghost predicate Spliceable(m: map<nat, BlockLink>, iter: nat, block: nat, pxEnd: nat)
    requires iter in m && block in m
  {
    var next := m[iter].next;
    && (iter + m[iter].size == block ==> m[iter].size + m[block].size <= SIZE_MAX)
    && (block + m[block].size == next && next != pxEnd ==>
          && next in m && m[block].size + m[next].size <= SIZE_MAX
          && (iter + m[iter].size == block ==> m[iter].size + m[block].size + m[next].size <= SIZE_MAX))
  }

  ghost predicate SplicedMemory(m: map<nat, BlockLink>, m': map<nat, BlockLink>, iter: nat, block: nat, pxEnd: nat)
    requires iter in m && block in m && Spliceable(m, iter, block, pxEnd)
  {
    var next := m[iter].next;
    var left := iter + m[iter].size == block;
    var right := block + m[block].size == next && next != pxEnd;
    var x := if left then iter else block;
    && OnlyChanged(m, m', {iter, x})
    && x in m' && iter in m'
    && m'[x].size == (if left then m[iter].size else 0) + m[block].size + (if right then m[next].size else 0)
    && m'[x].next == (if right then m[next].next else next)
    && (!left ==> m'[iter] == BlockLink(block, m[iter].size))
  }

  ghost predicate UnlinkedMemory(m: map<nat, BlockLink>, m': map<nat, BlockLink>, prev: nat, block: nat, wanted: SizeT)
    requires prev in m && block in m && wanted <= m[block].size
  {
    var split := m[block].size - wanted > MINIMUM_BLOCK_SIZE;
    && OnlyChanged(m, m', {prev, block} + (if split then {block + wanted} else {}))
    && prev in m' && block in m'
    && m'[prev] == BlockLink(if split then block + wanted else m[block].next, m[prev].size)
    && m'[block].size == (if split then wanted else m[block].size)
    && (split ==> block + wanted in m' && m'[block + wanted] == BlockLink(m[block].next, m[block].size - wanted))
  }

  lemma PlaceToInsert(m: map<nat, BlockLink>, bs: seq<Block>, k: nat, lo: nat, hi: nat, xStart: nat)
    requires WellFormed(bs, lo, hi) && k < |bs| && !bs[k].free
    requires Chain(m, FreeList(xStart, bs, hi))
    ensures var f := FreeAddrs(bs[..k]); forall i | 0 <= i < |f| :: f[i] < bs[k].addr
    ensures var g := FreeAddrs(bs[k + 1..]); forall i | 0 <= i < |g| :: bs[k].addr < g[i]
    ensures lo <= bs[k].addr < hi
    ensures Chain(m, [xStart] + FreeAddrs(bs[..k]) + (FreeAddrs(bs[k + 1..]) + [hi]))
  {
    hide FreeAddrs, Chain, WellFormed;
    var p, b, s := bs[..k], bs[k], bs[k + 1..];
    SplitAt(bs, k);
    FreeApart(p, b, s, lo, hi);
    BlocksApart(p, b, s, lo, hi);
    Around(p, b, s, lo);
    assert FreeList(xStart, bs, hi) == [xStart] + FreeAddrs(p) + (FreeAddrs(s) + [hi]);
  }

  /** Memory with block `k` no longer marked allocated but not yet in the free list; `iter` comes before it there. */
  ghost predicate ReadyToInsert(m: map<nat, BlockLink>, bs: seq<Block>, k: nat, lo: nat, hi: nat, xStart: nat,
                                iter: nat)
  {
    && WellFormed(bs, lo, hi) && hi <= SIZE_MAX && hi - lo < ALLOCATED_BIT && !(lo <= xStart <= hi)
    && k < |bs| && !bs[k].free
    && Headers(m, bs[..k]) && Headers(m, bs[k + 1..]) && HeaderOf(m, bs[k].(free := true))
    && Chain(m, FreeList(xStart, bs, hi)) && Sentinels(m, xStart, hi)
    && iter == Predecessor(xStart, bs[..k])
    && Link(m, iter, (FreeAddrs(bs[k + 1..]) + [hi])[0])
  }

  lemma SpliceFits(m: map<nat, BlockLink>, bs: seq<Block>, k: nat, lo: nat, hi: nat, xStart: nat, iter: nat)
    requires ReadyToInsert(m, bs, k, lo, hi, xStart, iter)
    ensures var block, next := bs[k].addr, m[iter].next;
            && block in m && iter != block && next != iter && next != block
            && Spliceable(m, iter, block, hi)
  {
    hide FreeAddrs, Chain, WellFormed, Coalesce;
    var p, b, s := bs[..k], bs[k], bs[k + 1..];
    var next := m[iter].next;
    SplitAt(bs, k);
    BlocksApart(p, b, s, lo, hi);
    TouchesLeft(m, p, b, s, lo, hi, xStart, iter, next);
    TouchesRight(p, b, s, lo, hi, xStart, iter, next);
    FreeApart(p, b, s, lo, hi);
    MergedFits(p, b, s, lo, hi);
    if StartsFree(s) {
      assert HeaderOf(m, s[0]);
    }
  }

  lemma BlockInserted(m: map<nat, BlockLink>, m': map<nat, BlockLink>, bs: seq<Block>, k: nat,
                      lo: nat, hi: nat, xStart: nat, iter: nat)
    requires ReadyToInsert(m, bs, k, lo, hi, xStart, iter)
    requires bs[k].addr in m && Spliceable(m, iter, bs[k].addr, hi)
    requires SplicedMemory(m, m', iter, bs[k].addr, hi)
    ensures Represents(m', xStart, Release(bs, k), hi)
  {
    hide FreeAddrs, Chain, WellFormed, Coalesce;
    var p, b, s := bs[..k], bs[k], bs[k + 1..];
    var next := m[iter].next;
    SplitAt(bs, k);
    SplicedIsMerged(m, m', p, b, s, lo, hi, xStart, iter);
    BlocksApart(p, b, s, lo, hi);
    TouchesLeft(m, p, b, s, lo, hi, xStart, iter, next);
    TouchesRight(p, b, s, lo, hi, xStart, iter, next);
    InsertedHeaders(m, m', p, b, s, lo, hi, xStart, iter, next);
    InsertedChain(m, m', p, b, s, lo, hi, xStart, iter, next);
    FreeApart(p, b, s, lo, hi);
  }

  /** What the header writes produce is the merged block, linked to the rest of the free list. */
  lemma SplicedIsMerged(m: map<nat, BlockLink>, m': map<nat, BlockLink>, p: seq<Block>, b: Block, s: seq<Block>,
                        lo: nat, hi: nat, xStart: nat, iter: nat)
    requires WellFormed(p + [b] + s, lo, hi) && hi - lo < ALLOCATED_BIT && !b.free && !(lo <= xStart <= hi)
    requires Headers(m, p) && Headers(m, s) && HeaderOf(m, b.(free := true))
    requires Chain(m, FreeList(xStart, p + [b] + s, hi)) && Sentinels(m, xStart, hi)
    requires iter == Predecessor(xStart, p) && Link(m, iter, (FreeAddrs(s) + [hi])[0])
    requires Spliceable(m, iter, b.addr, hi) && SplicedMemory(m, m', iter, b.addr, hi)
    ensures var x := Merged(p, b, s).1;
            && x.addr in m' && m'[x.addr].size == x.size < ALLOCATED_BIT
            && Link(m', x.addr, Above(p, b, s, hi)[0])
            && (!EndsFree(p) ==> Link(m', iter, x.addr) && m'[iter].size == m[iter].size)
            && forall y | y in m && y != x.addr && y != iter :: y in m' && m'[y] == m[y]
  {
    hide FreeAddrs, Chain, WellFormed, Coalesce, Above, FreeList;
    var next := m[iter].next;
    BlocksApart(p, b, s, lo, hi);
    TouchesLeft(m, p, b, s, lo, hi, xStart, iter, next);
    TouchesRight(p, b, s, lo, hi, xStart, iter, next);
    OldChain(m, p, b, s, hi, xStart, iter, next);
    MergedFits(p, b, s, lo, hi);
    if StartsFree(s) {
      assert HeaderOf(m, s[0]);
    }
  }

  /** Marking the block taken completes handing it out. */
  lemma TakenMemory(m: map<nat, BlockLink>, m1: map<nat, BlockLink>, m2: map<nat, BlockLink>, p: seq<Block>, b: Block,
                    s: seq<Block>, wanted: nat, xStart: nat, hi: nat)
    requires Fits(b, wanted) && 0 < wanted <= SIZE_MAX && b.size < ALLOCATED_BIT
    requires b.addr in m && m[b.addr] == BlockLink((FreeAddrs(s) + [hi])[0], b.size)
    requires var prev := Predecessor(xStart, p); prev in m && prev != b.addr && prev != b.addr + wanted
    requires UnlinkedMemory(m, m1, Predecessor(xStart, p), b.addr, wanted)
    requires m2 == m1[b.addr := BlockLink(NULL, m1[b.addr].size + ALLOCATED_BIT)]
    ensures CarvedMemory(m, m2, p, b, s, wanted, xStart, hi)
    ensures Carve(b, wanted)[0].size == m1[b.addr].size
  {
    hide FreeAddrs;
  }

  // ----- What the headers leave of the application's bytes -----

  /** The address lies under none of the headers. */
  ghost predicate Misses(q: nat, headers: set<nat>)
  {
    forall a | a in headers :: !(a <= q < a + HEAP_STRUCT_SIZE)
  }

  /** Bytes before and after headers have been stored at some addresses. */
  ghost predicate Untouched(d: map<nat, Byte>, d': map<nat, Byte>, headers: set<nat>)
  {
    forall q | q in d && Misses(q, headers) :: q in d' && d'[q] == d[q]
  }

  lemma UntouchedTwice(d0: map<nat, Byte>, d1: map<nat, Byte>, d2: map<nat, Byte>, some: set<nat>, others: set<nat>,
                       all: set<nat>)
    requires Untouched(d0, d1, some) && Untouched(d1, d2, others) && some <= all && others <= all
    ensures Untouched(d0, d2, all)
  {
    forall q | q in d0 && Misses(q, all) ensures q in d2 && d2[q] == d0[q] {
      assert Misses(q, some) && Misses(q, others);
    }
  }

  /** What lies in a payload that is live before and after is what it was. */
  ghost predicate Survives(bs: seq<Block>, bs': seq<Block>, d: map<nat, Byte>, d': map<nat, Byte>)
  {
    forall q | q in d && Owned(bs, q) && Owned(bs', q) :: q in d' && d'[q] == d[q]
  }

  lemma PredecessorMisses(bs: seq<Block>, k: nat, lo: nat, hi: nat, xStart: nat, q: nat)
    requires WellFormed(bs, lo, hi) && k < |bs| && Owned(bs, q) && (xStart + HEAP_STRUCT_SIZE <= lo || hi <= xStart)
    ensures var prev := Predecessor(xStart, bs[..k]); !(prev <= q < prev + HEAP_STRUCT_SIZE)
  {
    hide FreeAddrs, WellFormed;
    HeadersMissPayloads(bs, lo, hi, k, q);
    if FreeAddrs(bs[..k]) != [] {
      var j := FreeBlockAt(bs[..k], |FreeAddrs(bs[..k])| - 1);
      HeadersMissPayloads(bs, lo, hi, j, q);
    }
  }

  /** The addresses at which taking a block stores headers. */
  ghost function TakenHeaders(bs: seq<Block>, k: nat, wanted: nat, xStart: nat): set<nat>
    requires k < |bs| && Fits(bs[k], wanted)
  {
    {Predecessor(xStart, bs[..k]), bs[k].addr}
    + (if bs[k].size - wanted > MINIMUM_BLOCK_SIZE then {bs[k].addr + wanted} else {})
  }

  lemma TakingSpares(bs: seq<Block>, k: nat, wanted: nat, lo: nat, hi: nat, xStart: nat, d: map<nat, Byte>,
                     d': map<nat, Byte>)
    requires WellFormed(bs, lo, hi) && k < |bs| && Fits(bs[k], wanted)
    requires MINIMUM_BLOCK_SIZE <= wanted && wanted % BYTE_ALIGNMENT == 0
    requires xStart + HEAP_STRUCT_SIZE <= lo || hi <= xStart
    requires Untouched(d, d', TakenHeaders(bs, k, wanted, xStart))
    ensures Survives(bs, Allocate(bs, k, wanted), d, d')
  {
    var after, headers := Allocate(bs, k, wanted), TakenHeaders(bs, k, wanted, xStart);
    assert bs[k].size - wanted > MINIMUM_BLOCK_SIZE ==> after[k + 1].addr == bs[k].addr + wanted;
    AllocateKeeps(bs, k, wanted, lo, hi);
    hide WellFormed, Owned, Predecessor, Allocate;
    forall q | q in d && Owned(bs, q) && Owned(after, q) ensures Misses(q, headers) {
      PredecessorMisses(bs, k, lo, hi, xStart, q);
      HeadersMissPayloads(bs, lo, hi, k, q);
      if bs[k].size - wanted > MINIMUM_BLOCK_SIZE {
        HeadersMissPayloads(after, lo, hi, k + 1, q);
      }
    }
  }

  /** So does marking the block taken, in two stores. */
  lemma MarkingSpares(bs: seq<Block>, k: nat, wanted: nat, lo: nat, hi: nat, xStart: nat, d0: map<nat, Byte>,
                      d1: map<nat, Byte>, d2: map<nat, Byte>, d3: map<nat, Byte>)
    requires WellFormed(bs, lo, hi) && k < |bs| && Fits(bs[k], wanted)
    requires MINIMUM_BLOCK_SIZE <= wanted && wanted % BYTE_ALIGNMENT == 0
    requires xStart + HEAP_STRUCT_SIZE <= lo || hi <= xStart
    requires Untouched(d0, d1, TakenHeaders(bs, k, wanted, xStart))
    requires Untouched(d1, d2, {bs[k].addr}) && Untouched(d2, d3, {bs[k].addr})
    ensures Survives(bs, Allocate(bs, k, wanted), d0, d3)
  {
    hide WellFormed, Untouched, Survives, Predecessor, Allocate;
    var headers := TakenHeaders(bs, k, wanted, xStart);
    UntouchedTwice(d0, d1, d2, headers, {bs[k].addr}, headers);
    UntouchedTwice(d0, d2, d3, headers, {bs[k].addr}, headers);
    TakingSpares(bs, k, wanted, lo, hi, xStart, d0, d3);
  }

  lemma ReleasingSpares(bs: seq<Block>, k: nat, lo: nat, hi: nat, xStart: nat, d: map<nat, Byte>, d': map<nat, Byte>)
    requires WellFormed(bs, lo, hi) && k < |bs| && !bs[k].free
    requires xStart + HEAP_STRUCT_SIZE <= lo || hi <= xStart
    requires Untouched(d, d', {Predecessor(xStart, bs[..k]), bs[k].addr})
    ensures Survives(bs, Release(bs, k), d, d')
  {
    hide WellFormed, Owned, Predecessor, Release;
    forall q | q in d && Owned(bs, q) ensures Misses(q, {Predecessor(xStart, bs[..k]), bs[k].addr}) {
      PredecessorMisses(bs, k, lo, hi, xStart, q);
      HeadersMissPayloads(bs, lo, hi, k, q);
    }
  }

  /** Memory once the application has stored a byte: what would have to be read over it is no header any more. */
  function Forgotten(m: map<nat, BlockLink>, q: nat): map<nat, BlockLink>
  {
    map a | a in m && !(a <= q < a + HEAP_STRUCT_SIZE) :: m[a]
  }

  lemma ForgottenThere(m: map<nat, BlockLink>, q: nat)
    ensures forall a :: a in Forgotten(m, q) <==> a in m && (q < a || q >= a + 8)
  {
  }

  /** A byte stored inside a live payload disturbs no block and no link. */
  lemma RepresentsStill(m: map<nat, BlockLink>, bs: seq<Block>, lo: nat, hi: nat, xStart: nat, q: nat)
    requires WellFormed(bs, lo, hi) && Represents(m, xStart, bs, hi) && Owned(bs, q)
    requires xStart + HEAP_STRUCT_SIZE <= lo || hi <= xStart
    ensures Represents(Forgotten(m, q), xStart, bs, hi)
  {
    hide WellFormed, Owned, FreeAddrs, Chain;
    var m', f, l := Forgotten(m, q), FreeAddrs(bs), FreeList(xStart, bs, hi);
    forall i | 0 <= i < |bs| ensures HeaderOf(m', bs[i]) && lo <= q < hi {
      HeadersMissPayloads(bs, lo, hi, i, q);
      assert HeaderOf(m, bs[i]);
    }
    assert |bs| > 0 by { SomeBlock(bs, q); }
    assert HeaderOf(m', bs[0]);
    forall i | 0 <= i < |l| - 1 ensures l[i] in m && l[i] in m' && m'[l[i]].next == m[l[i]].next {
      if i > 0 {
        var k := FreeBlockAt(bs, i - 1);
        assert HeaderOf(m', bs[k]) && l[i] == f[i - 1];
      }
    }
    ChainFrame(m, m', l);
  }

  lemma SomeBlock(bs: seq<Block>, q: nat)
    requires Owned(bs, q)
    ensures bs != []
  {
  }
}
