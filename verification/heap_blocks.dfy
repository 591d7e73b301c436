/** The heap as a sequence of blocks in address order: what allocating and releasing do to it. */
module HeapBlocks {

  const BYTE_ALIGNMENT := 8                      // portBYTE_ALIGNMENT
  const HEAP_STRUCT_SIZE := 8                    // two 32-bit words, already aligned
  const MINIMUM_BLOCK_SIZE := 2 * HEAP_STRUCT_SIZE
  const ALLOCATED_BIT := 0x8000_0000
  const SIZE_MAX := 0xFFFF_FFFF

  datatype Block = Block(addr: nat, size: nat, free: bool)

  // ----- Walking the blocks -----

  /** The blocks follow one another without a gap, the first one at `lo`. */
  ghost predicate Tiles(bs: seq<Block>, lo: nat)
  {
    bs == [] || (bs[0].addr == lo && Tiles(bs[1..], lo + bs[0].size))
  }

  ghost function TotalSize(bs: seq<Block>): nat
  {
    if bs == [] then 0 else bs[0].size + TotalSize(bs[1..])
  }

  ghost function FreeBytes(bs: seq<Block>): nat
  {
    if bs == [] then 0 else (if bs[0].free then bs[0].size else 0) + FreeBytes(bs[1..])
  }

  ghost function FreeAddrs(bs: seq<Block>): seq<nat>
  {
    if bs == [] then [] else (if bs[0].free then [bs[0].addr] else []) + FreeAddrs(bs[1..])
  }

  ghost function LiveCount(bs: seq<Block>): nat
  {
    if bs == [] then 0 else (if bs[0].free then 0 else 1) + LiveCount(bs[1..])
  }

  ghost predicate Sized(bs: seq<Block>)
  {
    forall i | 0 <= i < |bs| :: bs[i].size >= MINIMUM_BLOCK_SIZE && bs[i].size % BYTE_ALIGNMENT == 0
  }

  ghost predicate NoFreeNeighbours(bs: seq<Block>)
  {
    forall i, j | 0 <= i && j == i + 1 && j < |bs| :: !(bs[i].free && bs[j].free)
  }

  /** What every heap state keeps: the blocks tile `lo..hi` exactly, are aligned, and no two free ones touch. */
  ghost predicate WellFormed(bs: seq<Block>, lo: nat, hi: nat)
  {
    && Tiles(bs, lo) && lo + TotalSize(bs) == hi
    && Sized(bs) && NoFreeNeighbours(bs)
    && lo % BYTE_ALIGNMENT == 0
  }

  lemma {:induction false} Concat(a: seq<Block>, b: seq<Block>, lo: nat)
    ensures Tiles(a + b, lo) <==> Tiles(a, lo) && Tiles(b, lo + TotalSize(a))
    ensures TotalSize(a + b) == TotalSize(a) + TotalSize(b)
    ensures FreeBytes(a + b) == FreeBytes(a) + FreeBytes(b)
    ensures FreeAddrs(a + b) == FreeAddrs(a) + FreeAddrs(b)
    ensures LiveCount(a + b) == LiveCount(a) + LiveCount(b)
  {
    if a == [] {
      assert a + b == b;
    } else {
      Concat(a[1..], b, lo + a[0].size);
      FromFirst(a + b, lo);
      FromFirst(a, lo);
      assert (a + b)[0] == a[0] && (a + b)[1..] == a[1..] + b;
      hide Tiles, TotalSize, FreeBytes, FreeAddrs, LiveCount;
    }
  }

  lemma FromFirst(bs: seq<Block>, lo: nat)
    requires bs != []
    ensures Tiles(bs, lo) <==> bs[0].addr == lo && Tiles(bs[1..], lo + bs[0].size)
    ensures TotalSize(bs) == bs[0].size + TotalSize(bs[1..])
    ensures FreeBytes(bs) == (if bs[0].free then bs[0].size else 0) + FreeBytes(bs[1..])
    ensures FreeAddrs(bs) == (if bs[0].free then [bs[0].addr] else []) + FreeAddrs(bs[1..])
    ensures LiveCount(bs) == (if bs[0].free then 0 else 1) + LiveCount(bs[1..])
  {
  }

  /** The same facts for a block in the middle. */
  lemma Around(p: seq<Block>, b: Block, s: seq<Block>, lo: nat)
    ensures var bs := p + [b] + s;
            && (Tiles(bs, lo) <==> Tiles(p, lo) && b.addr == lo + TotalSize(p) && Tiles(s, b.addr + b.size))
            && TotalSize(bs) == TotalSize(p) + b.size + TotalSize(s)
            && FreeBytes(bs) == FreeBytes(p) + (if b.free then b.size else 0) + FreeBytes(s)
            && FreeAddrs(bs) == FreeAddrs(p) + (if b.free then [b.addr] else []) + FreeAddrs(s)
            && LiveCount(bs) == LiveCount(p) + (if b.free then 0 else 1) + LiveCount(s)
  {
    assert p + [b] + s == p + ([b] + s);
    Concat(p, [b] + s, lo);
    assert ([b] + s)[1..] == s;
  }

  lemma SplitAt(bs: seq<Block>, k: nat)
    requires k < |bs|
    ensures bs == bs[..k] + [bs[k]] + bs[k + 1..]
  {
  }

  lemma {:induction false} AddrsInRange(bs: seq<Block>, lo: nat, k: nat)
    requires Tiles(bs, lo) && k < |bs|
    ensures bs[k].addr == lo + TotalSize(bs[..k])
    ensures bs[k].addr + bs[k].size <= lo + TotalSize(bs)
  {
    SplitAt(bs, k);
    Around(bs[..k], bs[k], bs[k + 1..], lo);
  }

  lemma AddrsOrdered(bs: seq<Block>, lo: nat, j: nat, k: nat)
    requires Tiles(bs, lo) && j < k < |bs|
    ensures bs[j].addr + bs[j].size <= bs[k].addr
  {
    SplitAt(bs, k);
    Around(bs[..k], bs[k], bs[k + 1..], lo);
    AddrsInRange(bs[..k], lo, j);
  }

  /** Free-list addresses lie in the range tiled and increase strictly. */
  lemma {:induction false} FreeAddrsSorted(bs: seq<Block>, lo: nat)
    requires Tiles(bs, lo) && Sized(bs)
    ensures forall i | 0 <= i < |FreeAddrs(bs)| :: lo <= FreeAddrs(bs)[i] < lo + TotalSize(bs)
    ensures forall i, j | 0 <= i < j < |FreeAddrs(bs)| :: FreeAddrs(bs)[i] < FreeAddrs(bs)[j]
  {
    if bs != [] {
      FreeAddrsSorted(bs[1..], lo + bs[0].size);
    }
  }

  /** The i-th entry of the free list is the i-th free block. */
  lemma {:induction false} FreeBlockAt(bs: seq<Block>, i: nat) returns (k: nat)
    requires i < |FreeAddrs(bs)|
    ensures k < |bs| && bs[k].free && bs[k].addr == FreeAddrs(bs)[i]
    ensures FreeAddrs(bs[..k]) == FreeAddrs(bs)[..i]
  {
    if bs[0].free && i == 0 {
      k := 0;
    } else {
      var d := if bs[0].free then 1 else 0;
      var k' := FreeBlockAt(bs[1..], i - d);
      k := k' + 1;
      assert bs[..k][1..] == bs[1..][..k'];
    }
  }

  lemma {:induction false} FreeAddrOf(bs: seq<Block>, k: nat) returns (i: nat)
    requires k < |bs| && bs[k].free
    ensures i < |FreeAddrs(bs)| && FreeAddrs(bs)[i] == bs[k].addr
  {
    SplitAt(bs, k);
    Around(bs[..k], bs[k], bs[k + 1..], 0);
    i := |FreeAddrs(bs[..k])|;
  }

  // ----- Allocation -----

  ghost predicate Fits(b: Block, wanted: nat)
  {
    b.free && b.size >= wanted
  }

  /** Index of the lowest-addressed free block of at least `wanted` bytes, `|bs|` if there is none. */
  ghost function FirstFit(bs: seq<Block>, wanted: nat): (k: nat)
    ensures k <= |bs|
    ensures k < |bs| ==> Fits(bs[k], wanted)
    ensures forall j | 0 <= j < k :: !Fits(bs[j], wanted)
  {
    if bs == [] || Fits(bs[0], wanted) then 0 else 1 + FirstFit(bs[1..], wanted)
  }

  /** Block `k` becomes live; what is left over becomes a free block of its own when it is large enough. */
  ghost function Allocate(bs: seq<Block>, k: nat, wanted: nat): seq<Block>
    requires k < |bs| && Fits(bs[k], wanted)
  {
    var b := bs[k];
    bs[..k] + Carve(b, wanted) + bs[k + 1..]
  }

  ghost function Carve(b: Block, wanted: nat): seq<Block>
    requires Fits(b, wanted)
  {
    if b.size - wanted > MINIMUM_BLOCK_SIZE then
      [Block(b.addr, wanted, false), Block(b.addr + wanted, b.size - wanted, true)]
    else
      [Block(b.addr, b.size, false)]
  }

  // ----- Release -----

  ghost predicate EndsFree(p: seq<Block>)
  {
    p != [] && p[|p| - 1].free
  }

  ghost predicate StartsFree(s: seq<Block>)
  {
    s != [] && s[0].free
  }

  /** Block `k` becomes free and absorbs a free block on either side. */
  ghost function Release(bs: seq<Block>, k: nat): seq<Block>
    requires k < |bs| && !bs[k].free
  {
    Coalesce(bs[..k], bs[k].addr, bs[k].size, bs[k + 1..])
  }

  ghost function Coalesce(p: seq<Block>, addr: nat, size: nat, s: seq<Block>): seq<Block>
  {
    var (p', addr', size') :=
      if EndsFree(p) then (p[..|p| - 1], p[|p| - 1].addr, p[|p| - 1].size + size) else (p, addr, size);
    var (s', size'') :=
      if StartsFree(s) then (s[1..], size' + s[0].size) else (s, size');
    p' + [Block(addr', size'', true)] + s'
  }

  // ----- What the two operations keep -----

  lemma Neighbours(a: seq<Block>, b: seq<Block>)
    ensures Sized(a + b) <==> Sized(a) && Sized(b)
    ensures NoFreeNeighbours(a + b)
       <==> NoFreeNeighbours(a) && NoFreeNeighbours(b) && !(EndsFree(a) && StartsFree(b))
  {
    var c := a + b;
    assert forall i | 0 <= i < |a| :: a[i] == c[i];
    assert forall i | 0 <= i < |b| :: b[i] == c[|a| + i];
    if EndsFree(a) && StartsFree(b) {
      assert c[|a| - 1].free && c[|a|].free;
    }
  }

  lemma WellFormedAround(p: seq<Block>, m: seq<Block>, s: seq<Block>, lo: nat, hi: nat)
    requires m != []
    ensures WellFormed(p + m + s, lo, hi)
       <==> && Tiles(p, lo) && Tiles(m, lo + TotalSize(p)) && Tiles(s, lo + TotalSize(p) + TotalSize(m))
            && lo + TotalSize(p) + TotalSize(m) + TotalSize(s) == hi && lo % BYTE_ALIGNMENT == 0
            && Sized(p) && Sized(m) && Sized(s)
            && NoFreeNeighbours(p) && NoFreeNeighbours(m) && NoFreeNeighbours(s)
            && !(EndsFree(p) && m[0].free) && !(m[|m| - 1].free && StartsFree(s))
    ensures FreeBytes(p + m + s) == FreeBytes(p) + FreeBytes(m) + FreeBytes(s)
    ensures LiveCount(p + m + s) == LiveCount(p) + LiveCount(m) + LiveCount(s)
    ensures FreeAddrs(p + m + s) == FreeAddrs(p) + FreeAddrs(m) + FreeAddrs(s)
  {
    Concat(p, m, lo);
    Concat(p + m, s, lo);
    Neighbours(p, m);
    Neighbours(p + m, s);
    assert EndsFree(p + m) <==> m[|m| - 1].free;
  }

  lemma CarveKeeps(b: Block, wanted: nat)
    requires Fits(b, wanted) && Sized([b])
    requires wanted >= MINIMUM_BLOCK_SIZE && wanted % BYTE_ALIGNMENT == 0
    ensures var c := Carve(b, wanted);
            && Tiles(c, b.addr) && TotalSize(c) == b.size && Sized(c) && NoFreeNeighbours(c)
            && FreeBytes(c) == b.size - c[0].size && LiveCount(c) == 1
            && FreeAddrs(c) == if |c| == 2 then [c[1].addr] else []
  {
    var c := Carve(b, wanted);
    assert [b][0] == b;
    Singleton(c[0], b.addr);
    if |c| == 2 {
      assert c == [c[0]] + [c[1]];
      Concat([c[0]], [c[1]], b.addr);
      Singleton(c[1], c[1].addr);
    }
  }

  lemma AllocateKeeps(bs: seq<Block>, k: nat, wanted: nat, lo: nat, hi: nat)
    requires WellFormed(bs, lo, hi) && k < |bs| && Fits(bs[k], wanted)
    requires wanted >= MINIMUM_BLOCK_SIZE && wanted % BYTE_ALIGNMENT == 0
    ensures WellFormed(Allocate(bs, k, wanted), lo, hi)
    ensures FreeBytes(Allocate(bs, k, wanted)) == FreeBytes(bs) - Carve(bs[k], wanted)[0].size
    ensures LiveCount(Allocate(bs, k, wanted)) == LiveCount(bs) + 1
    ensures FreeAddrs(Allocate(bs, k, wanted))
         == FreeAddrs(bs[..k]) + FreeAddrs(Carve(bs[k], wanted)) + FreeAddrs(bs[k + 1..])
  {
    hide FreeAddrs, FreeBytes, TotalSize, Tiles, LiveCount, Sized, NoFreeNeighbours;
    var p, b, s := bs[..k], bs[k], bs[k + 1..];
    SplitAt(bs, k);
    WellFormedAround(p, [b], s, lo, hi);
    Singleton(b, lo + TotalSize(p));
    CarveKeeps(b, wanted);
    WellFormedAround(p, Carve(b, wanted), s, lo, hi);
  }

  lemma Singleton(b: Block, lo: nat)
    ensures Tiles([b], lo) <==> b.addr == lo
    ensures TotalSize([b]) == b.size && FreeBytes([b]) == (if b.free then b.size else 0)
    ensures LiveCount([b]) == (if b.free then 0 else 1)
    ensures FreeAddrs([b]) == if b.free then [b.addr] else []
    ensures NoFreeNeighbours([b])
    ensures Sized([b]) <==> b.size >= MINIMUM_BLOCK_SIZE && b.size % BYTE_ALIGNMENT == 0
  {
    assert [b][1..] == [];
    assert [b][0] == b;
  }

  /** Absorbing on the left: the block and a free predecessor become one. */
  lemma MergeLeft(p: seq<Block>, b: Block, s: seq<Block>, lo: nat, hi: nat)
    requires EndsFree(p) && !b.free && WellFormed(p + [b] + s, lo, hi)
    ensures var a := p[|p| - 1];
            var p', b' := p[..|p| - 1], Block(a.addr, a.size + b.size, false);
            && WellFormed(p' + [b'] + s, lo, hi) && !EndsFree(p')
            && FreeBytes(p' + [b'] + s) == FreeBytes(p + [b] + s) - a.size
            && LiveCount(p' + [b'] + s) == LiveCount(p + [b] + s)
  {
    hide FreeAddrs, FreeBytes, TotalSize, Tiles, LiveCount, Sized, NoFreeNeighbours;
    var a, p' := p[|p| - 1], p[..|p| - 1];
    var b' := Block(a.addr, a.size + b.size, false);
    assert p + [b] + s == p' + [a] + ([b] + s);
    WellFormedAround(p', [a], [b] + s, lo, hi);
    Concat([b], s, a.addr + a.size);
    Neighbours([b], s);
    Singleton(a, lo + TotalSize(p'));
    Singleton(b, a.addr + a.size);
    Singleton(b', lo + TotalSize(p'));
    WellFormedAround(p', [b'], s, lo, hi);
  }

  /** Absorbing on the right: the block and a free successor become one. */
  lemma MergeRight(p: seq<Block>, b: Block, s: seq<Block>, lo: nat, hi: nat)
    requires StartsFree(s) && !b.free && WellFormed(p + [b] + s, lo, hi)
    ensures var b' := Block(b.addr, b.size + s[0].size, false);
            && WellFormed(p + [b'] + s[1..], lo, hi) && !StartsFree(s[1..])
            && FreeBytes(p + [b'] + s[1..]) == FreeBytes(p + [b] + s) - s[0].size
            && LiveCount(p + [b'] + s[1..]) == LiveCount(p + [b] + s)
  {
    hide FreeAddrs, FreeBytes, TotalSize, Tiles, LiveCount, Sized, NoFreeNeighbours;
    var c, s' := s[0], s[1..];
    var b' := Block(b.addr, b.size + c.size, false);
    assert p + [b] + s == (p + [b]) + [c] + s';
    WellFormedAround(p + [b], [c], s', lo, hi);
    Concat(p, [b], lo);
    Neighbours(p, [b]);
    Singleton(b, lo + TotalSize(p));
    Singleton(c, b.addr + b.size);
    Singleton(b', lo + TotalSize(p));
    WellFormedAround(p, [b'], s', lo, hi);
  }

  lemma SetFree(p: seq<Block>, b: Block, s: seq<Block>, lo: nat, hi: nat)
    requires !b.free && WellFormed(p + [b] + s, lo, hi) && !EndsFree(p) && !StartsFree(s)
    ensures var bs' := p + [b.(free := true)] + s;
            && WellFormed(bs', lo, hi)
            && FreeBytes(bs') == FreeBytes(p + [b] + s) + b.size
            && LiveCount(bs') == LiveCount(p + [b] + s) - 1
  {
    WellFormedAround(p, [b], s, lo, hi);
    Singleton(b, lo + TotalSize(p));
    Singleton(b.(free := true), b.addr);
    WellFormedAround(p, [b.(free := true)], s, lo, hi);
  }

  lemma ReleaseShape(bs: seq<Block>, k: nat)
    requires k < |bs| && !bs[k].free
    ensures var p, b, s := bs[..k], bs[k], bs[k + 1..];
            var (p', b') := if EndsFree(p) then (p[..|p| - 1], Block(p[|p| - 1].addr, p[|p| - 1].size + b.size,
                 false)) else (p, b);
            var (s', b'') := if StartsFree(s) then (s[1..], Block(b'.addr, b'.size + s[0].size, false)) else (s, b');
            Release(bs, k) == p' + [b''.(free := true)] + s'
  {
  }

  lemma ReleaseKeeps(bs: seq<Block>, k: nat, lo: nat, hi: nat)
    requires WellFormed(bs, lo, hi) && k < |bs| && !bs[k].free
    ensures WellFormed(Release(bs, k), lo, hi)
    ensures FreeBytes(Release(bs, k)) == FreeBytes(bs) + bs[k].size
    ensures LiveCount(Release(bs, k)) == LiveCount(bs) - 1
  {
    hide FreeBytes, WellFormed, LiveCount, Release;
    var p, b, s := bs[..k], bs[k], bs[k + 1..];
    SplitAt(bs, k);
    ReleaseShape(bs, k);
    if EndsFree(p) {
      MergeLeft(p, b, s, lo, hi);
      p, b := p[..|p| - 1], Block(p[|p| - 1].addr, p[|p| - 1].size + b.size, false);
    }
    if StartsFree(s) {
      MergeRight(p, b, s, lo, hi);
      b, s := Block(b.addr, b.size + s[0].size, false), s[1..];
    }
    SetFree(p, b, s, lo, hi);
  }

  /** Releasing a block straight after allocating it gives back the very same blocks, split or not. */
  lemma AllocateThenRelease(bs: seq<Block>, wanted: nat, lo: nat, hi: nat)
    requires WellFormed(bs, lo, hi)
    requires FirstFit(bs, wanted) < |bs|
    ensures var k := FirstFit(bs, wanted);
            Release(Allocate(bs, k, wanted), k) == bs
  {
    var k := FirstFit(bs, wanted);
    var p, b, s := bs[..k], bs[k], bs[k + 1..];
    SplitAt(bs, k);
    var c := Carve(b, wanted);
    var after := Allocate(bs, k, wanted);
    assert after[k] == c[0];
    assert after[..k] == p;
    assert after[k + 1..] == c[1..] + s;
    assert !EndsFree(p);
    if |c| == 2 {
      assert (c[1..] + s)[0] == c[1] && (c[1..] + s)[1..] == s;
    } else {
      assert c[1..] + s == s;
      assert !StartsFree(s);
    }
    assert Release(after, k) == p + [b] + s;
  }

  lemma AllocatedAt(bs: seq<Block>, k: nat, wanted: nat)
    requires k < |bs| && Fits(bs[k], wanted)
    ensures var after := Allocate(bs, k, wanted);
            k < |after| && !after[k].free && after[k].addr == bs[k].addr && after[k].size >= wanted
  {
  }

  /** The payload handed out for a live block: everything after its header. */
  ghost function Payload(b: Block): (int, int)
  {
    (b.addr + HEAP_STRUCT_SIZE, b.addr + b.size)
  }

  /** Payloads of live blocks are aligned, inside the heap, and pairwise disjoint. */
  lemma PayloadsDisjoint(bs: seq<Block>, lo: nat, hi: nat, j: nat, k: nat)
    requires WellFormed(bs, lo, hi) && j < k < |bs|
    ensures Payload(bs[j]).1 <= Payload(bs[k]).0
    ensures lo <= Payload(bs[j]).0 < Payload(bs[j]).1 && Payload(bs[k]).1 <= hi
    ensures Payload(bs[k]).0 % BYTE_ALIGNMENT == 0
  {
    AddrsOrdered(bs, lo, j, k);
    AddrsInRange(bs, lo, j);
    AddrsInRange(bs, lo, k);
    TotalAligned(bs[..k]);
  }

  lemma {:induction false} TotalAligned(bs: seq<Block>)
    requires Sized(bs)
    ensures TotalSize(bs) % BYTE_ALIGNMENT == 0
  {
    if bs != [] {
      TotalAligned(bs[1..]);
    }
  }

  lemma FreeBytesBound(bs: seq<Block>, k: nat)
    requires k < |bs| && bs[k].free
    ensures bs[k].size <= FreeBytes(bs)
  {
    SplitAt(bs, k);
    Around(bs[..k], bs[k], bs[k + 1..], 0);
  }

  /** An address inside the payload of a live block. */
  ghost predicate Owned(bs: seq<Block>, q: nat)
  {
    exists k | 0 <= k < |bs| :: !bs[k].free && Payload(bs[k]).0 <= q < Payload(bs[k]).1
  }

  /** A live block belongs to the application from the eighth byte on, to its end. */
  lemma OwnedIff(bs: seq<Block>, q: nat)
    ensures Owned(bs, q) <==> exists k | 0 <= k < |bs| :: !bs[k].free && bs[k].addr + 8 <= q < bs[k].addr + bs[k].size
  {
    if k :| 0 <= k < |bs| && !bs[k].free && bs[k].addr + 8 <= q < bs[k].addr + bs[k].size {
      assert Payload(bs[k]).0 <= q < Payload(bs[k]).1;
    }
  }

  /** No header, of whichever block, lies over a live payload. */
  lemma HeadersMissPayloads(bs: seq<Block>, lo: nat, hi: nat, i: nat, q: nat)
    requires WellFormed(bs, lo, hi) && i < |bs| && Owned(bs, q)
    ensures !(bs[i].addr <= q < bs[i].addr + HEAP_STRUCT_SIZE) && lo <= q < hi
  {
    var k :| 0 <= k < |bs| && !bs[k].free && Payload(bs[k]).0 <= q < Payload(bs[k]).1;
    hide Tiles, TotalSize, NoFreeNeighbours;
    AddrsInRange(bs, lo, k);
    if i < k {
      AddrsOrdered(bs, lo, i, k);
    } else if k < i {
      AddrsOrdered(bs, lo, k, i);
    }
  }
}
