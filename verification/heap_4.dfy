/** The allocator: block headers in memory, a free list threaded through them, and the counters. */
module Heap4 {
  import opened Bytes
  import opened HeapBlocks
  import opened HeapMemory

  const TOTAL_HEAP_SIZE := 4096                  // configTOTAL_HEAP_SIZE
  const MAX_DELAY := 0xFFFF                      // portMAX_DELAY with 16-bit ticks
  const COUNTER_MODULUS := 0x1_0000_0000

  function RoundUp(n: nat): nat
  {
    (n + BYTE_ALIGNMENT - 1) / BYTE_ALIGNMENT * BYTE_ALIGNMENT
  }

  /** Bytes a request really takes: the header added, rounded up; 0 when that is not representable. */
  function AdjustedSize(wanted: SizeT): (w: SizeT)
    ensures w == if wanted == 0 || RoundUp(wanted + HEAP_STRUCT_SIZE) > SIZE_MAX then 0
                 else RoundUp(wanted + HEAP_STRUCT_SIZE)
    ensures w != 0 ==> w % BYTE_ALIGNMENT == 0
    ensures w != 0 ==> wanted + HEAP_STRUCT_SIZE <= w < wanted + HEAP_STRUCT_SIZE + BYTE_ALIGNMENT
  {
    if wanted == 0 || wanted > SIZE_MAX - HEAP_STRUCT_SIZE then 0
    else
      var w := wanted + HEAP_STRUCT_SIZE;
      if w % BYTE_ALIGNMENT == 0 then w
      else
        var pad := BYTE_ALIGNMENT - w % BYTE_ALIGNMENT;
        if w > SIZE_MAX - pad then 0 else w + pad
  }

  /** A request that can be met: the lowest block that fits exists. */
  ghost predicate Satisfiable(bs: seq<Block>, wanted: SizeT)
  {
    var w := AdjustedSize(wanted);
    0 < w < ALLOCATED_BIT && FirstFit(bs, w) < |bs|
  }

  /** The sizes that can never be allocated, and those too big for a block. */
  lemma SizesInNumbers(wanted: SizeT)
    ensures AdjustedSize(wanted) == 0 <==> wanted == 0 || wanted > 0xFFFF_FFF0
    ensures 0 < AdjustedSize(wanted) < ALLOCATED_BIT <==> 1 <= wanted <= 0x7FFF_FFF0
  {
  }

  /** A request can be met exactly if it is for at least one byte, and for no more than fit below the top bit, and some
      free block has room for it behind a header of 8 bytes. */
  lemma SatisfiableIff(bs: seq<Block>, wanted: SizeT)
    requires Sized(bs)
    ensures Satisfiable(bs, wanted) <==>
              1 <= wanted <= 0x7FFF_FFF0 && exists j | 0 <= j < |bs| :: bs[j].free && bs[j].size >= wanted + 8
  {
    SizesInNumbers(wanted);
    var w := AdjustedSize(wanted);
    forall j | 0 <= j < |bs| ensures w != 0 ==> (bs[j].size >= w <==> bs[j].size >= wanted + 8) {
      LeastMultiple(bs[j].size, wanted);
    }
    if FirstFit(bs, w) < |bs| {
      assert Fits(bs[FirstFit(bs, w)], w);
    } else {
      assert forall j | 0 <= j < |bs| :: !Fits(bs[j], w);
    }
  }

  lemma LeastMultiple(size: nat, wanted: SizeT)
    requires size % BYTE_ALIGNMENT == 0
    ensures var w := AdjustedSize(wanted); w != 0 ==> (size >= w <==> size >= wanted + 8)
  {
  }

  /** What is handed out, in numbers: the free block of the lowest address with room for the bytes wanted and a header
      of 8; at most 31 bytes more than wanted, header and padding included; and a remainder becomes a block of its own
      exactly if it has more than 16 bytes, right behind it and free. */
  lemma HandedOut(bs: seq<Block>, wanted: SizeT)
    requires Sized(bs) && Satisfiable(bs, wanted)
    ensures var w := AdjustedSize(wanted);
            var k := FirstFit(bs, w);
            && w % 8 == 0 && wanted + 8 <= w < wanted + 16
            && k < |bs| && bs[k].free && bs[k].size >= wanted + 8
            && (forall j | 0 <= j < k :: bs[j].free ==> bs[j].size < wanted + 8)
            && var after := Allocate(bs, k, w);
            && k < |after| && after[..k] == bs[..k] && after[k].addr == bs[k].addr && !after[k].free
            && wanted + 8 <= after[k].size < wanted + 32
            && if bs[k].size - w > 16 then
                 && after[k].size == w && |after| == |bs| + 1 && after[k + 2..] == bs[k + 1..]
                 && after[k + 1] == Block(bs[k].addr + w, bs[k].size - w, true)
               else after[k].size == bs[k].size && |after| == |bs| && after[k + 1..] == bs[k + 1..]
  {
    SizesInNumbers(wanted);
    var w := AdjustedSize(wanted);
    var k := FirstFit(bs, w);
    forall j | 0 <= j < k ensures bs[j].free ==> bs[j].size < wanted + 8 {
      assert !Fits(bs[j], w);
      LeastMultiple(bs[j].size, wanted);
    }
    hide AdjustedSize, FirstFit, RoundUp;
    var c := Carve(bs[k], w);
    var after := bs[..k] + c + bs[k + 1..];
    assert after[..k] == bs[..k] && after[k + |c|..] == bs[k + 1..];
  }

  /** The two counters, which wrap at 32 bits, still differ by the number of live blocks. */
  ghost predicate Balanced(allocations: nat, frees: nat, live: nat)
  {
    (allocations - frees - live) % COUNTER_MODULUS == 0
  }

  lemma BalancedStep(allocations: nat, frees: nat, live: nat)
    requires Balanced(allocations, frees, live)
    ensures Balanced((allocations + 1) % COUNTER_MODULUS, frees, live + 1)
    ensures live > 0 ==> Balanced(allocations, (frees + 1) % COUNTER_MODULUS, live - 1)
  {
  }

  function Lower(a: int, b: int): int
  {
    if b < a then b else a
  }

  class Heap {
    const ucHeap: nat                            // address of the byte array the heap lives in
    const xStart: nat                            // address of the header that starts the free list
    var memory: map<nat, BlockLink>              // the headers, by address
    var data: map<nat, Byte>                     // the application's bytes, where no header has been stored over them
    var pxEnd: nat
    var xFreeBytesRemaining: SizeT
    var xMinimumEverFreeBytesRemaining: SizeT
    var xNumberOfSuccessfulAllocations: SizeT
    var xNumberOfSuccessfulFrees: SizeT
    ghost var blocks: seq<Block>

    /** Where the linker put the array and the list head: apart, and below the end of memory. */
    ghost predicate Placed()
    {
      && 0 < ucHeap && ucHeap + TOTAL_HEAP_SIZE <= SIZE_MAX
      && (xStart + HEAP_STRUCT_SIZE <= ucHeap || ucHeap + TOTAL_HEAP_SIZE <= xStart)
    }

    ghost function Start(): nat
    {
      RoundUp(ucHeap)
    }

    ghost function End(): nat
      requires Placed()
    {
      (ucHeap + TOTAL_HEAP_SIZE - HEAP_STRUCT_SIZE) / BYTE_ALIGNMENT * BYTE_ALIGNMENT
    }

    /** One free block over everything: the heap as initialised. */
    ghost function InitialBlocks(): seq<Block>
      requires Placed()
    {
      [Block(Start(), End() - Start(), true)]
    }

    /** The blocks a call works on: those of an uninitialised heap are the initial ones. */
    ghost function CurrentBlocks(): seq<Block>
      requires Placed()
      reads this
    {
      if pxEnd == NULL then InitialBlocks() else blocks
    }

    /** The least number of free bytes so far, or what an uninitialised heap will start from. */
    ghost function Floor(): int
      requires Placed()
      reads this
    {
      if pxEnd == NULL then End() - Start() else xMinimumEverFreeBytesRemaining
    }

    ghost predicate Initialised()
      reads this
    {
      && Placed()
      && pxEnd == End()
      && WellFormed(blocks, Start(), pxEnd)
      && Represents(memory, xStart, blocks, pxEnd)
      && xFreeBytesRemaining == FreeBytes(blocks)
      && xMinimumEverFreeBytesRemaining <= xFreeBytesRemaining
      && Balanced(xNumberOfSuccessfulAllocations, xNumberOfSuccessfulFrees, LiveCount(blocks))
    }

    ghost predicate Valid()
      reads this
    {
      && Placed()
      && if pxEnd != NULL then Initialised()
         else
           && blocks == [] && xNumberOfSuccessfulAllocations == xNumberOfSuccessfulFrees == 0
           && xStart in memory && memory[xStart] == BlockLink(NULL, 0)
    }

    lemma CurrentWellFormed()
      requires Valid()
      ensures WellFormed(CurrentBlocks(), Start(), End())
    {
      hide RoundUp, FreeBytes, LiveCount, Represents, Balanced;
      Bounds();
      if pxEnd == NULL {
        Singleton(InitialBlocks()[0], Start());
      }
    }

    /** There are never fewer free bytes than the recorded minimum. */
    lemma FloorHolds()
      requires Valid()
      ensures Floor() <= FreeBytes(CurrentBlocks())
    {
      hide RoundUp, WellFormed, LiveCount, Represents, Balanced;
      Bounds();
      if pxEnd == NULL {
        Singleton(InitialBlocks()[0], Start());
      }
    }

    lemma Bounds()
      requires Placed()
      ensures 0 < ucHeap <= Start() < ucHeap + BYTE_ALIGNMENT && Start() % BYTE_ALIGNMENT == 0
      ensures ucHeap + TOTAL_HEAP_SIZE - 2 * BYTE_ALIGNMENT < End() <= ucHeap + TOTAL_HEAP_SIZE - HEAP_STRUCT_SIZE
      ensures (End() - Start()) % BYTE_ALIGNMENT == 0
      ensures End() <= SIZE_MAX && !(Start() <= xStart <= End())
      ensures xStart + HEAP_STRUCT_SIZE <= Start() || End() <= xStart
    {
    }

    constructor (ucHeap: nat, xStart: nat)
      requires 0 < ucHeap && ucHeap + TOTAL_HEAP_SIZE <= SIZE_MAX
      requires xStart + HEAP_STRUCT_SIZE <= ucHeap || ucHeap + TOTAL_HEAP_SIZE <= xStart
      ensures Valid() && pxEnd == NULL && this.ucHeap == ucHeap && this.xStart == xStart && data == map[]
      ensures xFreeBytesRemaining == xMinimumEverFreeBytesRemaining == 0
      ensures xNumberOfSuccessfulAllocations == xNumberOfSuccessfulFrees == 0
    {
      this.ucHeap := ucHeap;
      this.xStart := xStart;
      memory, data := map[xStart := BlockLink(NULL, 0)], map[];
      pxEnd := NULL;
      xFreeBytesRemaining, xMinimumEverFreeBytesRemaining := 0, 0;
      xNumberOfSuccessfulAllocations, xNumberOfSuccessfulFrees := 0, 0;
      blocks := [];
    }

    /** A header is stored over whatever bytes lie there. */
    method Store(a: nat, link: BlockLink)
      modifies this`memory, this`data
      ensures memory == old(memory)[a := link] && Untouched(old(data), data, {a})
      ensures forall q | q in data :: q < a || q >= a + 8
    {
      memory := memory[a := link];
      data := map q | q in data && !(a <= q < a + HEAP_STRUCT_SIZE) :: data[q];
    }

    /** The application stores a byte in a payload it holds, over whatever could once be read there as a header. */
    method Write(q: nat, b: Byte)
      requires Valid() && Owned(CurrentBlocks(), q)
      modifies this`memory, this`data
      ensures Valid() && blocks == old(blocks) && data == old(data)[q := b]
      ensures forall a | a in memory :: q < a || q >= a + 8
    {
      hide FreeAddrs, FreeBytes, LiveCount, WellFormed, Represents, Start, End, Balanced, RoundUp, Forgotten;
      Bounds();
      if pxEnd == NULL {
        assert false;
      }
      RepresentsStill(memory, blocks, Start(), pxEnd, xStart, q);
      ForgottenThere(memory, q);
      memory := Forgotten(memory, q);
      data := data[q := b];
    }

    method AlignedStart() returns (start: nat, total: nat)
      requires Placed()
      ensures start == Start() && start + total == ucHeap + TOTAL_HEAP_SIZE
    {
      start, total := ucHeap, TOTAL_HEAP_SIZE;
      if start % BYTE_ALIGNMENT != 0 {
        start := start + (BYTE_ALIGNMENT - 1);
        start := start - start % BYTE_ALIGNMENT;
        total := total - (start - ucHeap);
      }
    }

    method HeapInit()
      requires Valid() && pxEnd == NULL
      modifies this
      ensures Initialised() && blocks == InitialBlocks() && pxEnd != NULL
      ensures |blocks| == 1 && blocks[0].free && blocks[0].addr + blocks[0].size == pxEnd
      ensures blocks[0].addr % 8 == 0 && ucHeap <= blocks[0].addr < ucHeap + 8
      ensures pxEnd % 8 == 0 && ucHeap + 4096 - 16 < pxEnd <= ucHeap + 4096 - 8
      ensures xMinimumEverFreeBytesRemaining == xFreeBytesRemaining == old(Floor())
    {
      hide FreeAddrs, FreeBytes, LiveCount, WellFormed, Represents, Start, End, RoundUp;
      Bounds();
      var start, total := AlignedStart();
      EndAligned();
      Store(xStart, BlockLink(start, 0));

      var end := start + total;
      end := end - HEAP_STRUCT_SIZE;
      end := end - end % BYTE_ALIGNMENT;
      pxEnd := end;
      Store(end, BlockLink(NULL, 0));
      Store(start, BlockLink(end, end - start));

      xMinimumEverFreeBytesRemaining := end - start;
      xFreeBytesRemaining := end - start;
      blocks := [Block(start, end - start, true)];
      OneFreeBlock(memory, xStart, blocks[0], end);
    }

    lemma NothingOwned()
      requires Placed()
      ensures forall q: nat :: !Owned(InitialBlocks(), q)
    {
      hide Start, End;
      Bounds();
    }

    lemma EndAligned()
      requires Placed()
      ensures var top := ucHeap + TOTAL_HEAP_SIZE - HEAP_STRUCT_SIZE; top - top % BYTE_ALIGNMENT == End()
    {
    }

    /** The last free-list entry below `toInsert`: the loop at the head of the insertion. */
    method FindPredecessor(toInsert: nat, ghost p: seq<Block>, ghost s: seq<Block>) returns (iter: nat)
      requires forall i | 0 <= i < |FreeAddrs(p)| :: FreeAddrs(p)[i] < toInsert
      requires forall i | 0 <= i < |FreeAddrs(s)| :: toInsert < FreeAddrs(s)[i]
      requires toInsert < pxEnd
      requires Chain(memory, [xStart] + FreeAddrs(p) + (FreeAddrs(s) + [pxEnd]))
      ensures iter == Predecessor(xStart, p)
      ensures Link(memory, iter, (FreeAddrs(s) + [pxEnd])[0])
    {
      ghost var l := [xStart] + FreeAddrs(p) + (FreeAddrs(s) + [pxEnd]);
      iter := xStart;
      ghost var i, j := 0, 1;
      assert Link(memory, l[i], l[j]);
      while memory[iter].next < toInsert
        invariant 0 <= i <= |FreeAddrs(p)| && j == i + 1 && iter == l[i] && Link(memory, l[i], l[j])
        decreases |l| - i
      {
        iter := memory[iter].next;
        i, j := i + 1, j + 1;
        assert Link(memory, l[i], l[j]);
      }
    }

    /** The header writes of the insertion, in terms of the headers read. */
    method SpliceAfter(iter: nat, toInsert: nat)
      requires iter in memory && toInsert in memory
      requires iter != toInsert && memory[iter].next != iter && memory[iter].next != toInsert
      requires Spliceable(memory, iter, toInsert, pxEnd)
      modifies this`memory, this`data
      ensures SplicedMemory(old(memory), memory, iter, toInsert, pxEnd)
      ensures Untouched(old(data), data, {iter, toInsert})
    {
      var block := toInsert;
      if iter + memory[iter].size == block {
        Store(iter, BlockLink(memory[iter].next, memory[iter].size + memory[block].size));
        block := iter;
      }
      if block + memory[block].size == memory[iter].next {
        if memory[iter].next != pxEnd {
          Store(block, BlockLink(memory[block].next, memory[block].size + memory[memory[iter].next].size));
          Store(block, BlockLink(memory[memory[iter].next].next, memory[block].size));
        } else {
          Store(block, BlockLink(pxEnd, memory[block].size));
        }
      } else {
        Store(block, BlockLink(memory[iter].next, memory[block].size));
      }
      if iter != block {
        Store(iter, BlockLink(block, memory[iter].size));
      }
    }

    /** Links a block being released into the free list, merging it with free neighbours. */
    method InsertBlockIntoFreeList(toInsert: nat, ghost k: nat)
      requires Placed() && pxEnd == End() && WellFormed(blocks, Start(), pxEnd)
      requires k < |blocks| && !blocks[k].free && blocks[k].addr == toInsert
      requires Headers(memory, blocks[..k]) && Headers(memory, blocks[k + 1..])
      requires HeaderOf(memory, blocks[k].(free := true))
      requires Chain(memory, FreeList(xStart, blocks, pxEnd)) && Sentinels(memory, xStart, pxEnd)
      modifies this`memory, this`data
      ensures Represents(memory, xStart, Release(blocks, k), pxEnd)
      ensures Untouched(old(data), data, {Predecessor(xStart, blocks[..k]), toInsert})
    {
      hide FreeAddrs, WellFormed, Chain, Headers, HeaderOf, FreeList, Sentinels, Represents, Release, SplicedMemory,
        Start, End, Untouched, Predecessor;
      Bounds();
      ghost var p, s := blocks[..k], blocks[k + 1..];
      ghost var m := memory;
      PlaceToInsert(m, blocks, k, Start(), pxEnd, xStart);
      var iter := FindPredecessor(toInsert, p, s);
      SpliceFits(m, blocks, k, Start(), pxEnd, xStart, iter);
      SpliceAfter(iter, toInsert);
      BlockInserted(m, memory, blocks, k, Start(), pxEnd, xStart, iter);
    }

    /** The first free block that is large enough, and the free-list entry before it. */
    method FindFit(wanted: SizeT) returns (prev: nat, block: nat, ghost k: nat)
      requires Initialised() && 0 < wanted
      ensures k == FirstFit(blocks, wanted)
      ensures FirstFit(blocks, wanted) == |blocks| ==> block == pxEnd
      ensures FirstFit(blocks, wanted) < |blocks| ==>
                && block == blocks[FirstFit(blocks, wanted)].addr
                && prev == Predecessor(xStart, blocks[..FirstFit(blocks, wanted)])
    {
      hide FreeBytes, LiveCount, TotalSize, Tiles, Sized, NoFreeNeighbours, Start, End;
      ghost var f := FreeAddrs(blocks);
      ghost var l := FreeList(xStart, blocks, pxEnd);
      forall c | 0 <= c < |f|
        ensures f[c] in memory && f[c] > 0
      {
        Bounds();
        FreeHeader(memory, blocks, Start(), c);
      }
      prev := xStart;
      ghost var i, j := 0, 1;
      assert Link(memory, l[i], l[j]);
      block := memory[xStart].next;
      Bounds();
      assert forall c | 0 <= c < |f| :: l[c + 1] == f[c];
      while memory[block].size < wanted && memory[block].next != NULL
        invariant 0 <= i <= |f| && j == i + 1 && prev == l[i] && block == l[j] && block in memory
        invariant forall c | 0 <= c < i :: memory[f[c]].size < wanted
        decreases |l| - i
      {
        prev := block;
        block := memory[block].next;
        assert block != NULL;
        i, j := i + 1, j + 1;
        assert Link(memory, l[i], l[j]);
      }
      if i < |f| {
        assert block == f[i];
        ghost var j' := j + 1;
        assert Link(memory, l[j], l[j']) && l[j'] > 0;
        k := FreeBlockAt(blocks, i);
        assert prev == Predecessor(xStart, blocks[..k]);
      } else {
        k := |blocks|;
        assert blocks[..k] == blocks;
      }
      FitFound(memory, blocks, wanted, k);
    }

    /** Unlinks a free block and, when enough is left over, links the rest in its place. */
    method Unlink(prev: nat, block: nat, wanted: SizeT)
      requires prev in memory && block in memory && prev != block
      requires 0 < wanted <= memory[block].size && block + wanted != prev
      modifies this`memory, this`data
      ensures UnlinkedMemory(old(memory), memory, prev, block, wanted)
      ensures block in memory && memory[block].size
           == if old(memory)[block].size - wanted > MINIMUM_BLOCK_SIZE then wanted else old(memory)[block].size
      ensures var split := old(memory)[block].size - wanted > MINIMUM_BLOCK_SIZE;
              Untouched(old(data), data, {prev, block} + (if split then {block + wanted} else {}))
    {
      Store(prev, BlockLink(memory[block].next, memory[prev].size));
      if memory[block].size - wanted > MINIMUM_BLOCK_SIZE {
        var newBlock := block + wanted;
        Store(newBlock, BlockLink(NULL, memory[block].size - wanted));
        Store(block, BlockLink(memory[block].next, wanted));
        Store(newBlock, BlockLink(memory[prev].next, memory[newBlock].size));
        Store(prev, BlockLink(newBlock, memory[prev].size));
      }
    }

    method Debit(bytes: SizeT)
      requires bytes <= xFreeBytesRemaining
      modifies this`xFreeBytesRemaining, this`xMinimumEverFreeBytesRemaining
      ensures xFreeBytesRemaining == old(xFreeBytesRemaining) - bytes
      ensures xMinimumEverFreeBytesRemaining
           == if xFreeBytesRemaining < old(xMinimumEverFreeBytesRemaining) then xFreeBytesRemaining
              else old(xMinimumEverFreeBytesRemaining)
    {
      xFreeBytesRemaining := xFreeBytesRemaining - bytes;
      if xFreeBytesRemaining < xMinimumEverFreeBytesRemaining {
        xMinimumEverFreeBytesRemaining := xFreeBytesRemaining;
      }
    }

    /** Takes the block found out of the free list, splitting it when enough is left over, and marks it. */
    method CarveOut(prev: nat, block: nat, wanted: SizeT, ghost k: nat)
      requires Initialised() && MINIMUM_BLOCK_SIZE <= wanted < ALLOCATED_BIT && wanted % BYTE_ALIGNMENT == 0
      requires k < |blocks| && Fits(blocks[k], wanted) && block == blocks[k].addr
      requires prev == Predecessor(xStart, blocks[..k])
      modifies this`memory, this`data, this`xFreeBytesRemaining, this`xMinimumEverFreeBytesRemaining
      ensures Represents(memory, xStart, Allocate(blocks, k, wanted), pxEnd)
      ensures Survives(blocks, Allocate(blocks, k, wanted), old(data), data)
      ensures xFreeBytesRemaining == old(xFreeBytesRemaining) - Carve(blocks[k], wanted)[0].size
      ensures xMinimumEverFreeBytesRemaining == Lower(old(xMinimumEverFreeBytesRemaining), xFreeBytesRemaining)
    {
      hide FreeAddrs, FreeBytes, LiveCount, WellFormed, Represents, Carve, Allocate, Start, End, Balanced,
        UnlinkedMemory, CarvedMemory, RoundUp, Predecessor, Untouched, Survives, Placed;
      ghost var m, d := memory, data;
      Bounds();
      BlockToTake(m, blocks, k, Start(), pxEnd, xStart);
      CarveShape(blocks[k], wanted);

      Unlink(prev, block, wanted);
      Debit(memory[block].size);
      ghost var m1, d1 := memory, data;
      Store(block, BlockLink(memory[block].next, memory[block].size + ALLOCATED_BIT));
      ghost var d2 := data;
      Store(block, BlockLink(NULL, memory[block].size));

      TakenMemory(m, m1, memory, blocks[..k], blocks[k], blocks[k + 1..], wanted, xStart, pxEnd);
      BlockTaken(m, memory, blocks, k, wanted, Start(), pxEnd, xStart);
      MarkingSpares(blocks, k, wanted, Start(), pxEnd, xStart, d, d1, d2, data);
    }

    /** The whole of what pvPortMalloc does once it has found a block. */
    method TakeBlock(prev: nat, block: nat, wanted: SizeT, ghost k: nat)
      requires Initialised() && MINIMUM_BLOCK_SIZE <= wanted < ALLOCATED_BIT && wanted % BYTE_ALIGNMENT == 0
      requires k < |blocks| && Fits(blocks[k], wanted) && block == blocks[k].addr
      requires prev == Predecessor(xStart, blocks[..k])
      modifies this`memory, this`data, this`blocks, this`xFreeBytesRemaining, this`xMinimumEverFreeBytesRemaining,
               this`xNumberOfSuccessfulAllocations
      ensures Initialised() && blocks == Allocate(old(blocks), k, wanted)
      ensures xNumberOfSuccessfulAllocations == (old(xNumberOfSuccessfulAllocations) + 1) % COUNTER_MODULUS
      ensures xMinimumEverFreeBytesRemaining == Lower(old(xMinimumEverFreeBytesRemaining), xFreeBytesRemaining)
      ensures Survives(old(blocks), blocks, old(data), data)
    {
      hide FreeAddrs, FreeBytes, LiveCount, WellFormed, Represents, Carve, Allocate, Start, End, Balanced, RoundUp,
        Predecessor, Survives, Placed;
      AllocateKeeps(blocks, k, wanted, Start(), pxEnd);
      BalancedStep(xNumberOfSuccessfulAllocations, xNumberOfSuccessfulFrees, LiveCount(blocks));
      CarveOut(prev, block, wanted, k);
      xNumberOfSuccessfulAllocations := (xNumberOfSuccessfulAllocations + 1) % COUNTER_MODULUS;
      blocks := Allocate(blocks, k, wanted);
    }

    /** pvPortMalloc: NULL exactly when the request cannot be met, else the lowest block that fits. */
    method Malloc(xWantedSize: SizeT) returns (pv: nat)
      requires Valid()
      modifies this
      ensures Initialised() && pxEnd != NULL
      ensures pv == NULL <==> !Satisfiable(old(CurrentBlocks()), xWantedSize)
      ensures pv == NULL ==> blocks == old(CurrentBlocks()) && (old(pxEnd) != NULL ==> unchanged(this))
      ensures pv != NULL ==>
        var bs, w := old(CurrentBlocks()), AdjustedSize(xWantedSize);
        var k := FirstFit(bs, w);
        && pv == Payload(bs[k]).0 == bs[k].addr + 8 && blocks == Allocate(bs, k, w)
      ensures xMinimumEverFreeBytesRemaining == Lower(old(Floor()), xFreeBytesRemaining)
      ensures Survives(old(CurrentBlocks()), blocks, old(data), data)
    {
      hide FreeAddrs, FreeBytes, LiveCount, WellFormed, Represents, Carve, Allocate, Start, End, Balanced, FirstFit,
        RoundUp;
      var wanted := AdjustedSize(xWantedSize);
      pv := NULL;
      if pxEnd == NULL {
        NothingOwned();
        HeapInit();
      }
      Bounds();
      if wanted < ALLOCATED_BIT {
        if wanted > 0 && wanted <= xFreeBytesRemaining {
          var prev, block;
          ghost var k;
          prev, block, k := FindFit(wanted);
          EndIsNotABlock(blocks, k, Start(), pxEnd);
          if block != pxEnd {
            pv := block + HEAP_STRUCT_SIZE;
            TakeBlock(prev, block, wanted, k);
          }
        } else if wanted > 0 {
          NothingFits(blocks, wanted);
        }
      }
    }

    /** The middle of vPortFree: the block is no longer allocated, its bytes count as free, and it joins the list. */
    method ReleaseBlock(link: nat, ghost k: nat)
      requires Initialised() && k < |blocks| && !blocks[k].free && link == blocks[k].addr
      modifies this`memory, this`data, this`xFreeBytesRemaining
      ensures Represents(memory, xStart, Release(blocks, k), pxEnd)
      ensures Survives(blocks, Release(blocks, k), old(data), data)
      ensures xFreeBytesRemaining == old(xFreeBytesRemaining) + blocks[k].size
    {
      hide FreeAddrs, FreeBytes, LiveCount, WellFormed, Represents, Release, Start, End, Balanced, Headers, HeaderOf,
        Chain, Sentinels, FreeList, RoundUp, Placed, Untouched, Survives, Predecessor;
      Bounds();
      ghost var m, d := memory, data;
      BlockToFree(m, blocks, k, Start(), pxEnd, xStart);
      assert memory[link].size >= ALLOCATED_BIT && memory[link].next == NULL;
      Store(link, BlockLink(NULL, memory[link].size - ALLOCATED_BIT));
      ghost var d1 := data;
      FreedHeader(m, memory, blocks, k, Start(), pxEnd, xStart);
      xFreeBytesRemaining := xFreeBytesRemaining + memory[link].size;
      InsertBlockIntoFreeList(link, k);
      ghost var headers := {Predecessor(xStart, blocks[..k]), link};
      UntouchedTwice(d, d1, data, {link}, headers, headers);
      ReleasingSpares(blocks, k, Start(), pxEnd, xStart, d, data);
    }

    /** vPortFree: a live block given back is merged with its free neighbours; NULL is ignored. */
    method Free(pv: nat, ghost k: nat)
      requires Valid()
      requires pv != NULL ==> k < |blocks| && !blocks[k].free && pv == Payload(blocks[k]).0
      modifies this
      ensures Valid() && pxEnd == old(pxEnd)
      ensures blocks == if pv == NULL then old(blocks) else Release(old(blocks), k)
      ensures pv == NULL ==> unchanged(this)
      ensures xMinimumEverFreeBytesRemaining == old(xMinimumEverFreeBytesRemaining)
      ensures Survives(old(CurrentBlocks()), CurrentBlocks(), old(data), data)
    {
      if pv != NULL {
        hide FreeAddrs, FreeBytes, LiveCount, WellFormed, Represents, Release, Start, End, Balanced, RoundUp, Placed,
          Survives;
        Bounds();
        BlockToFree(memory, blocks, k, Start(), pxEnd, xStart);
        ReleaseKeeps(blocks, k, Start(), pxEnd);
        BalancedStep(xNumberOfSuccessfulAllocations, xNumberOfSuccessfulFrees, LiveCount(blocks));
        ReleaseBlock(pv - HEAP_STRUCT_SIZE, k);
        xNumberOfSuccessfulFrees := (xNumberOfSuccessfulFrees + 1) % COUNTER_MODULUS;
        blocks := Release(blocks, k);
      }
    }

    /** vPortGetHeapStats: an uninitialised heap has no free blocks. */
    method GetHeapStats() returns (count: nat, largest: nat, smallest: nat)
      requires Valid()
      ensures count == |FreeAddrs(blocks)|
      ensures forall k | 0 <= k < |blocks| && blocks[k].free :: smallest <= blocks[k].size <= largest
      ensures count == 0 ==> largest == 0 && smallest == 0xFFFF
      ensures count > 0 ==> exists k :: 0 <= k < |blocks| && blocks[k].free && blocks[k].size == largest
      ensures count > 0 ==> exists k :: 0 <= k < |blocks| && blocks[k].free && blocks[k].size == smallest
    {
      hide WellFormed, FreeBytes, LiveCount, Start, End, Balanced, RoundUp;
      count, largest, smallest := 0, 0, MAX_DELAY;
      Bounds();
      if pxEnd != NULL {
        FirstIsNotNull();
      }
      if memory[xStart].next != NULL {
        count, largest, smallest := WalkFreeList();
      }
    }

    lemma FirstIsNotNull()
      requires Initialised() && pxEnd != NULL
      ensures xStart in memory && memory[xStart].next != NULL
    {
      hide FreeBytes, LiveCount, Start, End, Balanced, FreeAddrs, TotalSize, Tiles, Sized, NoFreeNeighbours, RoundUp;
      ghost var f, l, i, j := FreeAddrs(blocks), FreeList(xStart, blocks, pxEnd), 0, 1;
      assert Link(memory, l[i], l[j]);
      if f != [] {
        Bounds();
        FreeHeader(memory, blocks, Start(), 0);
      }
    }

    /** The second walk of the free list, which agrees with the blocks. */
    method WalkFreeList() returns (count: nat, largest: nat, smallest: nat)
      requires Initialised()
      ensures count == |FreeAddrs(blocks)|
      ensures forall k | 0 <= k < |blocks| && blocks[k].free :: smallest <= blocks[k].size <= largest
      ensures count == 0 ==> largest == 0 && smallest == MAX_DELAY
      ensures count > 0 ==> exists k :: 0 <= k < |blocks| && blocks[k].free && blocks[k].size == largest
      ensures count > 0 ==> exists k :: 0 <= k < |blocks| && blocks[k].free && blocks[k].size == smallest
    {
      hide FreeBytes, LiveCount, TotalSize, Tiles, NoFreeNeighbours, Start, End, Balanced, FreeAddrs, Sized;
      count, largest, smallest := 0, 0, MAX_DELAY;
      ghost var f, l := FreeAddrs(blocks), FreeList(xStart, blocks, pxEnd);
      Bounds();
      var block := memory[xStart].next;
      ghost var i, j := 0, 1;
      ghost var a, b := 0, 0;
      FreeBelowEnd(blocks, Start(), pxEnd);
      assert Link(memory, l[i], l[j]);
      while block != pxEnd
        invariant 0 <= i <= |f| && j == i + 1 && block == l[j] && count == i
        invariant forall c | 0 <= c < i :: f[c] in memory && smallest <= memory[f[c]].size <= largest
        invariant i == 0 ==> largest == 0 && smallest == MAX_DELAY
        invariant i > 0 ==> a < |blocks| && blocks[a].free && blocks[a].size == largest
        invariant i > 0 ==> b < |blocks| && blocks[b].free && blocks[b].size == smallest
        decreases |l| - i
      {
        assert block == f[i];
        ghost var k := FreeBlockAt(blocks, i);
        AddrsInRange(blocks, Start(), k);
        SizedAt(blocks, k);
        assert HeaderOf(memory, blocks[k]);
        count := count + 1;
        if memory[block].size > largest {
          largest, a := memory[block].size, k;
        }
        if memory[block].size < smallest {
          smallest, b := memory[block].size, k;
        }
        i, j := i + 1, j + 1;
        assert Link(memory, l[i], l[j]);
        block := memory[block].next;
      }
      forall k | 0 <= k < |blocks| && blocks[k].free
        ensures smallest <= blocks[k].size <= largest
      {
        var c := FreeAddrOf(blocks, k);
        assert HeaderOf(memory, blocks[k]);
      }
    }
  }

  /** Releasing a block straight after allocating it restores the blocks, the free list and the free-byte count; the
      first allocation leaves the heap initialised. */
  method MallocThenFree(heap: Heap, xWantedSize: SizeT) returns (pv: nat)
    requires heap.Valid()
    modifies heap
    ensures heap.Initialised() && heap.blocks == old(heap.CurrentBlocks())
    ensures FreeList(heap.xStart, heap.blocks, heap.pxEnd)
         == FreeList(heap.xStart, old(heap.CurrentBlocks()), heap.End())
    ensures heap.xFreeBytesRemaining == FreeBytes(old(heap.CurrentBlocks()))
  {
    hide FreeAddrs, FreeBytes, LiveCount, WellFormed, Represents, Allocate, Release, Balanced, FreeList;
    ghost var bs := heap.CurrentBlocks();
    ghost var k := FirstFit(bs, AdjustedSize(xWantedSize));
    heap.Bounds();
    heap.CurrentWellFormed();
    pv := heap.Malloc(xWantedSize);
    if pv != NULL {
      AllocateThenRelease(bs, AdjustedSize(xWantedSize), heap.Start(), heap.End());
      AllocatedAt(bs, k, AdjustedSize(xWantedSize));
      heap.Free(pv, k);
    }
  }

  // ----- Whole runs -----

  /** A call of the allocator, or a byte the application stores in what it holds. A release names what an allocation
      has returned, or NULL. */
  datatype Call = Allocation(wanted: SizeT) | Releasing(pv: nat) | Writing(q: nat, b: Byte)

  /** Which live block a pointer is the payload of. */
  ghost function LiveAt(bs: seq<Block>, pv: nat): (k: nat)
    ensures k <= |bs|
    ensures k < |bs| ==> !bs[k].free && Payload(bs[k]).0 == pv
  {
    if j :| 0 <= j < |bs| && !bs[j].free && Payload(bs[j]).0 == pv then j else |bs|
  }

  ghost function AfterCall(bs: seq<Block>, c: Call): seq<Block>
  {
    match c
    case Allocation(wanted) =>
      var w := AdjustedSize(wanted);
      if Satisfiable(bs, wanted) then Allocate(bs, FirstFit(bs, w), w) else bs
    case Releasing(pv) =>
      var k := LiveAt(bs, pv);
      if pv != NULL && k < |bs| then Release(bs, k) else bs
    case Writing(_, _) => bs
  }

  /** The blocks after a sequence of calls. */
  ghost function AfterCalls(bs: seq<Block>, calls: seq<Call>): seq<Block>
    decreases |calls|
  {
    if calls == [] then bs else AfterCalls(AfterCall(bs, calls[0]), calls[1..])
  }

  /** Every release is of a block live at the time, or of NULL, and every byte is stored in a live payload. */
  ghost predicate Legal(bs: seq<Block>, calls: seq<Call>)
    decreases |calls|
  {
    calls != [] ==>
      && (calls[0].Releasing? ==> calls[0].pv == NULL || LiveAt(bs, calls[0].pv) < |bs|)
      && (calls[0].Writing? ==> Owned(bs, calls[0].q))
      && Legal(AfterCall(bs, calls[0]), calls[1..])
  }

  /** What the application has stored and still holds. */
  ghost function Kept(bs: seq<Block>, calls: seq<Call>, d: map<nat, Byte>): map<nat, Byte>
    decreases |calls|
  {
    if calls == [] then d else Kept(AfterCall(bs, calls[0]), calls[1..], KeptBy(bs, calls[0], d))
  }

  ghost function KeptBy(bs: seq<Block>, c: Call, d: map<nat, Byte>): map<nat, Byte>
  {
    match c
    case Writing(q, b) => d[q := b]
    case _ => map q | q in d && Owned(AfterCall(bs, c), q) :: d[q]
  }

  /** What has been stored in live payloads can be read there. */
  ghost predicate Readable(bs: seq<Block>, d: map<nat, Byte>, data: map<nat, Byte>)
  {
    forall q | q in d :: Owned(bs, q) && q in data && data[q] == d[q]
  }

  /** The fewest bytes that were free, starting from `floor`. */
  ghost function LeastFree(floor: int, bs: seq<Block>, calls: seq<Call>): int
    decreases |calls|
  {
    if calls == [] then floor
    else
      var next := AfterCall(bs, calls[0]);
      LeastFree(Lower(floor, FreeBytes(next)), next, calls[1..])
  }

  lemma CallsSplit(bs: seq<Block>, calls: seq<Call>, n: nat)
    requires 0 < n <= |calls|
    ensures AfterCalls(bs, calls[..n]) == AfterCalls(AfterCall(bs, calls[0]), calls[1..][..n - 1])
  {
    assert calls[..n][0] == calls[0] && calls[..n][1..] == calls[1..][..n - 1];
  }

  /** That is the least over all the states of the run, if `floor` is no more than what is free to begin with. */
  lemma {:induction false} LeastFreeIsLeast(floor: int, bs: seq<Block>, calls: seq<Call>)
    requires floor <= FreeBytes(bs)
    ensures forall n | 0 <= n <= |calls| :: LeastFree(floor, bs, calls) <= FreeBytes(AfterCalls(bs, calls[..n]))
    ensures LeastFree(floor, bs, calls) <= floor
    ensures LeastFree(floor, bs, calls) == floor
            || exists n | 0 < n <= |calls| :: LeastFree(floor, bs, calls) == FreeBytes(AfterCalls(bs, calls[..n]))
    decreases |calls|
  {
    hide AfterCall, FreeBytes;
    assert calls[..0] == [];
    if calls != [] {
      var next := AfterCall(bs, calls[0]);
      var low := Lower(floor, FreeBytes(next));
      LeastFreeIsLeast(low, next, calls[1..]);
      forall n | 0 < n <= |calls|
        ensures LeastFree(floor, bs, calls) <= FreeBytes(AfterCalls(bs, calls[..n]))
      {
        CallsSplit(bs, calls, n);
      }
      CallsSplit(bs, calls, 1);
      assert calls[1..][..0] == [];
      if LeastFree(low, next, calls[1..]) != low {
        var m :| 0 < m <= |calls[1..]|
                 && LeastFree(low, next, calls[1..]) == FreeBytes(AfterCalls(next, calls[1..][..m]));
        CallsSplit(bs, calls, m + 1);
      }
    }
  }

  /** Any sequence of calls on the running heap, with the application storing bytes in between: headers, links and
      counters keep describing the blocks, the blocks become those of the calls, every byte stored in a payload that is
      still held is there, and the minimum ever is the least of the free bytes. */
  method RunCalls(heap: Heap, calls: seq<Call>, ghost d: map<nat, Byte>)
    requires heap.Valid() && Legal(heap.CurrentBlocks(), calls)
    requires Readable(heap.CurrentBlocks(), d, heap.data)
    modifies heap
    ensures heap.Valid() && heap.CurrentBlocks() == AfterCalls(old(heap.CurrentBlocks()), calls)
    ensures Readable(heap.CurrentBlocks(), Kept(old(heap.CurrentBlocks()), calls, d), heap.data)
    ensures heap.Floor() == LeastFree(old(heap.Floor()), old(heap.CurrentBlocks()), calls)
    decreases |calls|
  {
    if calls != [] {
      RunCall(heap, calls[0], d);
      ghost var bs := old(heap.CurrentBlocks());
      RunCalls(heap, calls[1..], KeptBy(bs, calls[0], d));
    }
  }

  method RunCall(heap: Heap, c: Call, ghost d: map<nat, Byte>)
    requires heap.Valid() && Legal(heap.CurrentBlocks(), [c]) && Readable(heap.CurrentBlocks(), d, heap.data)
    modifies heap
    ensures heap.Valid() && heap.CurrentBlocks() == AfterCall(old(heap.CurrentBlocks()), c)
    ensures Readable(heap.CurrentBlocks(), KeptBy(old(heap.CurrentBlocks()), c, d), heap.data)
    ensures heap.Floor() == Lower(old(heap.Floor()), FreeBytes(heap.CurrentBlocks()))
  {
    hide FreeAddrs, FreeBytes, LiveCount, WellFormed, Represents, Allocate, Release, Balanced, Satisfiable, FirstFit,
      LiveAt, RoundUp, Owned, Survives, Readable, KeptBy;
    ghost var bs, was := heap.CurrentBlocks(), heap.data;
    match c {
      case Allocation(wanted) =>
        var _ := heap.Malloc(wanted);
        StillReadable(bs, c, d, was, heap.data);
      case Releasing(pv) =>
        ghost var k := LiveAt(bs, pv);
        heap.Free(pv, k);
        heap.FloorHolds();
        StillReadable(bs, c, d, was, heap.data);
      case Writing(q, b) =>
        heap.Write(q, b);
        heap.FloorHolds();
        WrittenReadable(bs, q, b, d, was);
    }
  }

  lemma StillReadable(bs: seq<Block>, c: Call, d: map<nat, Byte>, was: map<nat, Byte>, now: map<nat, Byte>)
    requires Readable(bs, d, was) && !c.Writing? && Survives(bs, AfterCall(bs, c), was, now)
    ensures Readable(AfterCall(bs, c), KeptBy(bs, c, d), now)
  {
    hide Owned, AfterCall;
  }

  lemma WrittenReadable(bs: seq<Block>, q: nat, b: Byte, d: map<nat, Byte>, was: map<nat, Byte>)
    requires Readable(bs, d, was) && Owned(bs, q)
    ensures Readable(bs, KeptBy(bs, Writing(q, b), d), was[q := b])
  {
    hide Owned;
  }

  lemma {:induction false} RunsKeepHeap(bs: seq<Block>, calls: seq<Call>, lo: nat, hi: nat)
    requires WellFormed(bs, lo, hi)
    ensures WellFormed(AfterCalls(bs, calls), lo, hi)
    decreases |calls|
  {
    hide WellFormed, Allocate, Release, FirstFit, RoundUp;
    if calls != [] {
      match calls[0] {
        case Allocation(wanted) =>
          if Satisfiable(bs, wanted) {
            var w := AdjustedSize(wanted);
            AtLeastMinimum(wanted);
            AllocateKeeps(bs, FirstFit(bs, w), w, lo, hi);
          }
        case Releasing(pv) =>
          var k := LiveAt(bs, pv);
          if k < |bs| {
            ReleaseKeeps(bs, k, lo, hi);
          }
        case Writing(_, _) =>
      }
      RunsKeepHeap(AfterCall(bs, calls[0]), calls[1..], lo, hi);
    }
  }

  lemma AtLeastMinimum(wanted: SizeT)
    ensures AdjustedSize(wanted) != 0 ==> AdjustedSize(wanted) >= MINIMUM_BLOCK_SIZE
  {
  }

  /** Memory with the list head, one free block and the end marker in it represents that block. */
  lemma OneFreeBlock(m: map<nat, BlockLink>, xStart: nat, b: Block, end: nat)
    requires b.free && b.addr + b.size == end && b.addr > 0 && b.addr % BYTE_ALIGNMENT == 0
    requires MINIMUM_BLOCK_SIZE <= b.size < ALLOCATED_BIT && b.size % BYTE_ALIGNMENT == 0
    requires xStart in m && b.addr in m && end in m && xStart != b.addr
    requires m[xStart] == BlockLink(b.addr, 0) && m[end] == BlockLink(NULL, 0) && m[b.addr] == BlockLink(end, b.size)
    ensures WellFormed([b], b.addr, end) && Represents(m, xStart, [b], end)
    ensures FreeBytes([b]) == b.size && LiveCount([b]) == 0
  {
    hide FreeAddrs, FreeBytes, LiveCount, TotalSize, Tiles, Sized, NoFreeNeighbours;
    Singleton(b, b.addr);
    assert FreeList(xStart, [b], end) == [xStart, b.addr, end];
  }
}
