/** heap_4.c: first-fit allocation over an address-ordered intrusive free list, with splitting,
    two-sided coalescing, head and tail canaries, and a side table of live blocks. */
module Heap4 {
  import opened MachineWord
  import opened HeapGaps
  import opened HeapLinks
  import opened HeapLinking
  import opened AllocTable
  import opened HeapState
  import HeapRuns

  class Heap {
    const ucHeap: int        // address of the heap array
    const totalSize: int     // its length, configTOTAL_HEAP_SIZE
    const xStart: int        // address of the static list head, outside the array

    var pxEnd: int
    var xFreeBytesRemaining: int
    var xMinimumEverFreeBytesRemaining: int
    var xBlockAllocatedBit: int
    var next: Words          // pxNextFreeBlock of the header at an address
    var size: Words          // xBlockSize of the header at an address
    var canary: Words        // head_canary of the header at an address
    var words: Words         // every other word of the heap: payloads and tail canaries
    const allocList: array<int>

    ghost var live: seq<Chunk>        // live blocks in address order
    ghost var order: seq<int>         // live block addresses in allocation order
    ghost var history: seq<int>       // free byte count after initialisation and after every change
    ghost var within: bool            // never more than 255 blocks live at once

    ghost function Lo(): int { AlignUp(ucHeap) }
    ghost function Hi(): int { AlignDown(ucHeap + totalSize - HEADER_SIZE) }
    ghost function FreeList(): seq<Chunk> reads this { Gaps(Lo(), live, Hi()) }

    /** The array is in the 32-bit address space, away from null and from the xStart structure, and
        has room for the end marker and one block. */
    ghost predicate Placed() {
      && 0 < ucHeap && ucHeap + totalSize <= WORD_LIMIT && totalSize < ALLOCATED_BIT
      && Lo() + HEADER_SIZE <= Hi() && xStart != NULL
      && !(Lo() <= xStart <= Hi()) && (xStart + HEADER_SIZE <= Lo() || Hi() < xStart)
    }

    /** Block structure and byte counters of an initialised heap. */
    ghost predicate Core()
      reads this
    {
      && Placed() && pxEnd == Hi() && xBlockAllocatedBit == ALLOCATED_BIT
      && Aligned(live)
      && Structure(Lo(), Hi(), xStart, live, next, size)
      && history != [] && history[|history| - 1] == xFreeBytesRemaining == Total(FreeList())
      && xMinimumEverFreeBytesRemaining == Least(history)
    }

    /** The debug records: allocation order, side table and canaries. */
    ghost predicate Records()
      reads this, allocList
    {
      && SameBlocks(order, live)
      && (within ==> |live| < SLOTS && Holds(allocList[..], order))
      && LiveCanaries(canary, words, live)
      && (|history| > 1 ==> FreeCanaries(canary, FreeList()))
    }

    ghost predicate Valid()
      reads this, allocList
    {
      && Placed() && allocList.Length == SLOTS && Records()
      && if pxEnd == NULL then live == [] && history == [] else Core()
    }

    constructor (ucHeap: int, totalSize: int, xStart: int)
      requires 0 < ucHeap && ucHeap + totalSize <= WORD_LIMIT && totalSize < ALLOCATED_BIT
      requires AlignUp(ucHeap) + HEADER_SIZE <= AlignDown(ucHeap + totalSize - HEADER_SIZE)
      requires xStart != NULL && (xStart + HEADER_SIZE <= ucHeap || ucHeap + totalSize <= xStart)
      ensures Valid() && pxEnd == NULL && live == []
      ensures FreeList() == [Chunk(Lo(), Hi() - Lo())]
    {
      this.ucHeap, this.totalSize, this.xStart := ucHeap, totalSize, xStart;
      pxEnd, xFreeBytesRemaining, xMinimumEverFreeBytesRemaining, xBlockAllocatedBit := NULL, 0, 0, 0;
      next, size, canary, words := map[], map[], map[], map[];
      allocList := new int[SLOTS](i => 0);
      live, order, history, within := [], [], [], true;
      new;
      AlignUpIs(ucHeap);
      AlignUpIs(ucHeap + totalSize - HEADER_SIZE);
      assert allocList[..0] == [];
    }

    /** The free byte counts since the heap was set up, counting the set-up that the next call makes. */
    ghost function Counts(): seq<int>
      reads this
    {
      if pxEnd == NULL then [Hi() - Lo()] else history
    }

    /** The two counters: the bytes that are free, and the fewest that ever were. */
    lemma CountersExact()
      requires Valid() && pxEnd != NULL
      ensures history != [] && xFreeBytesRemaining == Total(FreeList()) == history[|history| - 1]
      ensures xMinimumEverFreeBytesRemaining in history
      ensures forall k :: 0 <= k < |history| ==> xMinimumEverFreeBytesRemaining <= history[k]
    {
      hide Structure, SameBlocks, Holds, LiveCanaries, FreeCanaries, Placed, Aligned, Total, Gaps;
      LeastExact(history);
    }

    /** What Core gives the search and the split. */
    lemma CoreFacts()
      requires Core()
      ensures 0 < Lo() && NULL < pxEnd && LiveOK(Lo(), live, Hi())
      ensures Seg(next, size, xStart, FreeList(), pxEnd)
      ensures pxEnd in next && next[pxEnd] == NULL && pxEnd in size && size[pxEnd] == 0
      ensures forall k :: 0 <= k < |FreeList()| ==>
        && 0 < FreeList()[k].addr < pxEnd && FreeList()[k].size <= xFreeBytesRemaining
        && FreeList()[k].addr % ALIGNMENT == 0 && FreeList()[k].size % ALIGNMENT == 0
    {
      hide LiveOK, Gaps, AlignUp, AlignDown, Seg, LiveHeaders, HoldHeaders, Total;
      AlignUpIs(ucHeap);
      AlignUpIs(ucHeap + totalSize - HEADER_SIZE);
      FreeFacts(Lo(), live, Hi());
    }

    // ----------------------------------------------------- prvInsertBlockIntoFreeList

    method InsertBlockIntoFreeList(block: int, ghost lo: int, ghost f: seq<Chunk>)
      requires Seg(next, size, xStart, f, pxEnd)
      requires Separated(lo, f, pxEnd) && !(lo <= xStart <= pxEnd)
      requires xStart in size && size[xStart] == 0 && pxEnd in size
      requires block in size && 0 < size[block] && lo <= block && block + size[block] <= pxEnd
      requires Apart(f, Chunk(block, size[block]))
      modifies this`next, this`size
      ensures Seg(next, size, xStart, InsertFree(f, Chunk(block, old(size)[block])), pxEnd)
      ensures Outside(old(next), next, xStart, f, block) && Outside(old(size), size, xStart, f, block)
      ensures xStart in size && size[xStart] == 0
    {
      hide Seg, InsertAt, InsertFree, Separated;
      ghost var c := Chunk(block, size[block]);
      var pxIterator, p := FindPlace(block, lo, f);
      ghost var pre, post := f[..p], f[p..];
      assert pre + post == f;
      PlaceHere(next, size, xStart, lo, f, p, c, pxEnd);
      Link(block, pxIterator, lo, pre, post);
    }

    /** The search loop: stops at the last free header below the block. */
    method FindPlace(block: int, ghost lo: int, ghost f: seq<Chunk>) returns (pxIterator: int, ghost p: nat)
      requires Seg(next, size, xStart, f, pxEnd)
      requires xStart in size && size[xStart] == 0 && block <= pxEnd
      ensures p <= |f| && pxIterator == LastNode(xStart, f[..p]) && pxIterator in next && pxIterator in size
      ensures Seg(next, size, xStart, f[..p], FirstNode(f[p..], pxEnd))
      ensures Seg(next, size, pxIterator, f[p..], pxEnd)
      ensures forall k :: 0 <= k < p ==> f[k].addr < block
      ensures size[pxIterator] == if p == 0 then 0 else f[p - 1].size
      ensures block <= FirstNode(f[p..], pxEnd)
    {
      hide Seg;
      pxIterator, p := xStart, 0;
      assert f[..0] == [] && f[0..] == f;
      SegReads(next, size, xStart, f, 0, pxEnd);
      while next[pxIterator] < block
        invariant 0 <= p <= |f|
        invariant pxIterator == LastNode(xStart, f[..p]) && pxIterator in next && pxIterator in size
        invariant next[pxIterator] == FirstNode(f[p..], pxEnd)
        invariant Seg(next, size, xStart, f[..p], FirstNode(f[p..], pxEnd))
        invariant Seg(next, size, pxIterator, f[p..], pxEnd)
        invariant forall k :: 0 <= k < p ==> f[k].addr < block
        invariant size[pxIterator] == if p == 0 then 0 else f[p - 1].size
        decreases |f| - p
      {
        AdvanceSeg(next, size, xStart, f, p, pxEnd);
        pxIterator := next[pxIterator];
        p := p + 1;
      }
    }

    /** The second half of prvInsertBlockIntoFreeList: joining and relinking at the place found. */
    method Link(block: int, pxIterator: int, ghost lo: int, ghost pre: seq<Chunk>, ghost post: seq<Chunk>)
      requires block in size && pxIterator in size && pxIterator in next && pxEnd in size
      requires Place(next, size, xStart, lo, pre, Chunk(block, size[block]), post, pxEnd)
      requires pxIterator == LastNode(xStart, pre)
      requires size[pxIterator] == if pre == [] then 0 else pre[|pre| - 1].size
      modifies this`next, this`size
      ensures Seg(next, size, xStart, InsertAt(pre + post, Chunk(block, old(size)[block]), |pre|), pxEnd)
      ensures forall a :: a in old(next) && a != block && a != pxIterator ==> a in next && next[a] == old(next)[a]
      ensures forall a :: a in old(size) && a != block && a != pxIterator ==> a in size && size[a] == old(size)[a]
      ensures pre == [] && xStart != block ==> xStart in size && size[xStart] == 0
    {
      hide Seg, Place, InsertAt;
      ghost var c := Chunk(block, size[block]);
      ghost var next0, size0 := next, size;
      LinkReads(next, size, xStart, lo, pre, c, post, pxEnd);
      var pxBlockToInsert := block;
      if pxIterator + size[pxIterator] == pxBlockToInsert {
        size := size[pxIterator := size[pxIterator] + size[pxBlockToInsert]];
        pxBlockToInsert := pxIterator;
      }
      if pxBlockToInsert + size[pxBlockToInsert] == next[pxIterator] {
        if next[pxIterator] != pxEnd {
          size := size[pxBlockToInsert := size[pxBlockToInsert] + size[next[pxIterator]]];
          next := next[pxBlockToInsert := next[next[pxIterator]]];
        } else {
          next := next[pxBlockToInsert := pxEnd];
        }
      } else {
        next := next[pxBlockToInsert := next[pxIterator]];
      }
      if pxIterator != pxBlockToInsert {
        next := next[pxIterator := pxBlockToInsert];
      }
      LinkCorrect(next0, size0, next, size, xStart, lo, pre, c, post, pxEnd);
    }

    // ------------------------------------------------------------------ prvHeapInit

    /** The aligned start of the heap and the address of its end marker. */
    method AlignedArea() returns (pucAlignedHeap: int, uxAddress: int)
      ensures ucHeap <= pucAlignedHeap == Lo() && uxAddress == Hi()
    {
      hide AlignDown, AlignUp;
      AlignUpIs(ucHeap);
      uxAddress := ucHeap;
      var xTotalHeapSize := totalSize;
      if uxAddress % ALIGNMENT != 0 {
        uxAddress := uxAddress + (ALIGNMENT - 1);
        uxAddress := AlignDown(uxAddress);
        xTotalHeapSize := xTotalHeapSize - (uxAddress - ucHeap);
      }
      pucAlignedHeap := uxAddress;
      uxAddress := pucAlignedHeap + xTotalHeapSize;
      uxAddress := uxAddress - HEADER_SIZE;
      uxAddress := AlignDown(uxAddress);
    }

    method HeapInit()
      requires Valid() && pxEnd == NULL
      modifies this`pxEnd, this`next, this`size, this`xFreeBytesRemaining,
               this`xMinimumEverFreeBytesRemaining, this`xBlockAllocatedBit, this`history
      ensures Core() && Records() && pxEnd != NULL && history == [Hi() - Lo()]
    {
      hide Structure, AlignDown, AlignUp, Gaps, Least, LiveCanaries, Holds, SameBlocks, FreeCanaries;
      var pucAlignedHeap, uxAddress := AlignedArea();
      var bytes := uxAddress - pucAlignedHeap;
      InitialStructure(Lo(), Hi(), xStart, next, size);
      pxEnd := uxAddress;
      next := next[xStart := pucAlignedHeap][uxAddress := NULL][pucAlignedHeap := uxAddress];
      size := size[xStart := 0][uxAddress := 0][pucAlignedHeap := bytes];
      xMinimumEverFreeBytesRemaining, xFreeBytesRemaining, history := bytes, bytes, [bytes];
      xBlockAllocatedBit := ALLOCATED_BIT;
      InitialRecords(canary, words, xFreeBytesRemaining);
    }

    // -------------------------------------------------------- vPortUpdateFreeBlockList

    method UpdateFreeBlockList(ghost f: seq<Chunk>)
      requires Seg(next, size, xStart, f, pxEnd) && forall k :: 0 <= k < |f| ==> 0 < f[k].addr
      requires pxEnd in next && next[pxEnd] == NULL && 0 < pxEnd
      modifies this`canary
      ensures FreeCanaries(canary, f)
      ensures Outside(old(canary), canary, xStart, f, xStart)
    {
      hide Seg;
      ghost var p := 0;
      assert f[..0] == [] && f[0..] == f;
      SegReads(next, size, xStart, f, 0, pxEnd);
      if f != [] { AdvanceSeg(next, size, xStart, f, 0, pxEnd); }
      var start := xStart;
      canary := canary[start := HEAD_CANARY_PATTERN];
      start := next[start];
      while next[start] != NULL
        invariant 0 <= p <= |f|
        invariant start == FirstNode(f[p..], pxEnd) && start in next
        invariant p < |f| ==> next[start] == FirstNode(f[p + 1..], pxEnd)
        invariant Seg(next, size, LastNode(xStart, f[..p]), f[p..], pxEnd)
        invariant Seg(next, size, xStart, f[..p], FirstNode(f[p..], pxEnd))
        invariant FreeCanaries(canary, f[..p])
        invariant Outside(old(canary), canary, xStart, f, xStart)
        decreases |f| - p
      {
        canary := canary[start := HEAD_CANARY_PATTERN];
        assert f[..p + 1] == f[..p] + [f[p]];
        AdvanceSeg(next, size, xStart, f, p, pxEnd);
        start := next[start];
        p := p + 1;
        if p < |f| { AdvanceSeg(next, size, xStart, f, p, pxEnd); }
      }
      assert f[..p] == f;
    }

    // ----------------------------------------------------------------- vPortAddToList

    /** Stamps both canaries of a block and records it, then refreshes the free headers. */
    method AddToList(pointer: int, ghost f: seq<Chunk>)
      requires allocList.Length == SLOTS && pointer in size
      requires Seg(next, size, xStart, f, pxEnd) && forall k :: 0 <= k < |f| ==> 0 < f[k].addr
      requires pxEnd in next && next[pxEnd] == NULL && 0 < pxEnd
      requires pointer != xStart && forall k :: 0 <= k < |f| ==> f[k].addr != pointer
      modifies this`canary, this`words, allocList
      ensures words == old(words)[pointer + ClearBit(size[pointer]) - TAIL_CANARY_SIZE := TAIL_CANARY_PATTERN]
      ensures pointer in canary && canary[pointer] == HEAD_CANARY_PATTERN
      ensures FreeCanaries(canary, f)
      ensures Outside(old(canary), canary, xStart, f, pointer)
      ensures allocList[..] == Added(old(allocList[..]), pointer)
    {
      hide Seg;
      canary := canary[pointer := HEAD_CANARY_PATTERN];
      words := words[pointer + ClearBit(size[pointer]) - TAIL_CANARY_SIZE := TAIL_CANARY_PATTERN];
      AddEntry(allocList, pointer);
      UpdateFreeBlockList(f);
    }

    // ------------------------------------------------------------------- pvPortMalloc

    /** The first-fit search of pvPortMalloc. */
    method SearchFit(want: int, ghost f: seq<Chunk>) returns (prev: int, block: int)
      requires Seg(next, size, xStart, f, pxEnd) && 0 < want
      requires forall k :: 0 <= k < |f| ==> 0 < f[k].addr < pxEnd
      requires pxEnd in next && next[pxEnd] == NULL && pxEnd in size && size[pxEnd] == 0 && NULL < pxEnd
      ensures prev == LastNode(xStart, f[..FirstFit(f, want)])
      ensures block == FirstNode(f[FirstFit(f, want)..], pxEnd)
      ensures prev in next && next[prev] == block
    {
      hide Seg;
      ghost var p := 0;
      assert f[..0] == [] && f[0..] == f;
      SegReads(next, size, xStart, f, 0, pxEnd);
      if f != [] { AdvanceSeg(next, size, xStart, f, 0, pxEnd); }
      prev := xStart;
      block := next[xStart];
      while size[block] < want && next[block] != NULL
        invariant 0 <= p <= FirstFit(f, want)
        invariant prev == LastNode(xStart, f[..p]) && block == FirstNode(f[p..], pxEnd)
        invariant block in size && block in next && prev in next && next[prev] == block
        invariant p < |f| ==> size[block] == f[p].size && next[block] == FirstNode(f[p + 1..], pxEnd)
        invariant Seg(next, size, LastNode(xStart, f[..p]), f[p..], pxEnd)
        invariant Seg(next, size, xStart, f[..p], FirstNode(f[p..], pxEnd))
        decreases |f| - p
      {
        AdvanceSeg(next, size, xStart, f, p, pxEnd);
        prev := block;
        block := next[block];
        p := p + 1;
        if p < |f| { AdvanceSeg(next, size, xStart, f, p, pxEnd); }
      }
    }

    /** The branch of pvPortMalloc that splits the i-th free block, already unlinked. */
    method SplitBlock(block: int, want: int, ghost next0: Words, ghost size0: Words, ghost f: seq<Chunk>, ghost i: nat)
      requires i < |f| && Separated(Lo(), f, pxEnd) && !(Lo() <= xStart <= pxEnd)
      requires Lo() <= f[i].addr == block && f[i].End() <= pxEnd
      requires block in size && size[block] == f[i].size && 0 < want < f[i].size
      requires size == size0 && xStart in size && size[xStart] == 0 && pxEnd in size
      requires Seg(next, size, xStart, f[..i] + f[i + 1..], pxEnd)
      requires Outside(next0, next, xStart, f, block + want)
      modifies this`next, this`size
      ensures Seg(next, size, xStart, Carved(f, i, want), pxEnd)
      ensures Outside(next0, next, xStart, f, block + want) && Outside(size0, size, xStart, f, block + want)
      ensures block in size && size[block] == want && xStart in size && size[xStart] == 0
    {
      hide Seg, Carved, InsertFree, Separated, AlignUp, AlignDown;
      ghost var g := f[..i] + f[i + 1..];
      SplitFacts(next, size, xStart, Lo(), f, pxEnd, i, want);
      var newBlock := block + want;
      size := size[newBlock := size[block] - want];
      size := size[block := want];
      ghost var next1, size1 := next, size;
      InsertBlockIntoFreeList(newBlock, Lo(), g);
      OutsideAfter(next0, next1, next, xStart, f, i, newBlock);
      OutsideAfter(size0, size1, size, xStart, f, i, newBlock);
    }

    /** Unlinks the i-th free block, splits it when worthwhile, and marks it allocated. */
    method TakeBlock(prev: int, block: int, want: int, ghost i: nat)
      requires Placed() && pxEnd == Hi() && Structure(Lo(), Hi(), xStart, live, next, size)
      requires i < |FreeList()| && prev == LastNode(xStart, FreeList()[..i]) && block == FreeList()[i].addr
      requires HEADER_SIZE + TAIL_CANARY_SIZE <= want <= FreeList()[i].size
      modifies this`next, this`size, this`xFreeBytesRemaining, this`xMinimumEverFreeBytesRemaining
      ensures var c := Chunk(block, Taken(FreeList()[i].size, want));
        && Structure(Lo(), Hi(), xStart, InsertLive(live, c), next, size)
        && xFreeBytesRemaining == old(xFreeBytesRemaining) - c.size
      ensures xMinimumEverFreeBytesRemaining == Min(old(xMinimumEverFreeBytesRemaining), xFreeBytesRemaining)
    {
      hide Seg, Gaps, LiveOK, Carved, InsertFree, Separated, Structure, AlignUp, AlignDown;
      ghost var f := FreeList();
      ghost var taken := Taken(f[i].size, want);
      ghost var next0, size0 := next, size;
      TakeStart(Lo(), live, Hi(), xStart, next, size, i);
      AlignUpIs(ucHeap);
      AlignUpIs(ucHeap + totalSize - HEADER_SIZE);
      next := next[prev := next[block]];
      if size[block] - want > MINIMUM_BLOCK_SIZE {
        SplitBlock(block, want, next0, size0, f, i);
        FinishTake(Lo(), Hi(), xStart, live, next0, size0, next, size, i, taken, block + want);
      } else {
        WholeBlock(f, i);
        FinishTake(Lo(), Hi(), xStart, live, next0, size0, next, size, i, taken, block);
      }
      assert size[block] == taken;
      xFreeBytesRemaining := xFreeBytesRemaining - size[block];
      if xFreeBytesRemaining < xMinimumEverFreeBytesRemaining {
        xMinimumEverFreeBytesRemaining := xFreeBytesRemaining;
      }
      size := size[block := SetBit(size[block])];
      next := next[block := NULL];
    }

    /** The part of pvPortMalloc between suspending the scheduler and recording the block. */
    method Allocate(xWantedSize: int) returns (pvReturn: int, ghost c: Chunk)
      requires Core() && 0 <= xWantedSize < WORD_LIMIT
      modifies this`next, this`size, this`xFreeBytesRemaining, this`xMinimumEverFreeBytesRemaining,
               this`live, this`history
      ensures Core()
      ensures !Satisfiable(old(FreeList()), xWantedSize) ==>
        pvReturn == NULL && live == old(live) && history == old(history)
      ensures Satisfiable(old(FreeList()), xWantedSize) ==>
        && Allocated(old(live), live, old(FreeList()), FreeList(), RequestSize(xWantedSize), pvReturn)
        && history == old(history) + [xFreeBytesRemaining] && |history| > 1
        && HEADER_SIZE < pvReturn && pvReturn % ALIGNMENT == 0
      ensures pvReturn != NULL ==>
        pvReturn == c.addr + HEADER_SIZE && live == InsertLive(old(live), c) && !HasBlock(old(live), c.addr)
    {
      hide LiveOK, Gaps, Structure, AlignUp, AlignDown, Add32, Least, Total, Aligned, AlignedChunk, InsertLive,
           Carved, Seg, FirstFit, RequestSize, HasBlock, Allocated;
      ghost var f := FreeList();
      AlignUpIs(ucHeap);
      AlignUpIs(ucHeap + totalSize - HEADER_SIZE);
      pvReturn, c := NULL, Chunk(0, 0);
      var want := xWantedSize;
      if want < xBlockAllocatedBit {
        if want > 0 {
          RequestExact(want);
          want := Add32(want, HEADER_SIZE);
          want := Add32(want, TAIL_CANARY_SIZE);
          if want % ALIGNMENT != 0 {
            want := Add32(want, ALIGNMENT - want % ALIGNMENT);
          }
        }
        CoreFacts();
        if want > 0 && want <= xFreeBytesRemaining {
          var pxPreviousBlock, pxBlock := SearchFit(want, f);
          if pxBlock != pxEnd {
            ghost var i := FirstFit(f, want);
            c := Chunk(pxBlock, Taken(f[i].size, want));
            CarvedIsNew(Lo(), live, Hi(), i);
            pvReturn := next[pxPreviousBlock] + HEADER_SIZE;
            TakeBlock(pxPreviousBlock, pxBlock, want, i);
            AllocateFacts(Lo(), live, Hi(), i, c.size);
            AllocatedIs(live, f, i, want);
            LeastSnoc(history, xFreeBytesRemaining);
            live := InsertLive(live, c);
            history := history + [xFreeBytesRemaining];
          }
        }
      }
    }

    /** The first call sets the heap up. */
    method InitialiseOnce()
      requires Valid()
      modifies this`pxEnd, this`next, this`size, this`xFreeBytesRemaining,
               this`xMinimumEverFreeBytesRemaining, this`xBlockAllocatedBit, this`history
      ensures Core() && Records() && pxEnd != NULL && allocList.Length == SLOTS
      ensures history == old(Counts())
    {
      hide Structure, SameBlocks, Holds, LiveCanaries, FreeCanaries, Least, Total, Aligned, Placed;
      if pxEnd == NULL { HeapInit(); }
    }

    /** pvPortMalloc. */
    method Malloc(xWantedSize: int) returns (pvReturn: int)
      requires Valid() && 0 <= xWantedSize < WORD_LIMIT
      modifies this, allocList
      ensures Valid() && pxEnd != NULL
      ensures if Satisfiable(old(FreeList()), xWantedSize)
        then
          && Allocated(old(live), live, old(FreeList()), FreeList(), RequestSize(xWantedSize), pvReturn)
          && pvReturn != NULL && pvReturn % ALIGNMENT == 0
          && order == old(order) + [pvReturn - HEADER_SIZE]
          && within == (old(within) && |live| < SLOTS)
          && FreeCanaries(canary, FreeList())
          && history == old(Counts()) + [xFreeBytesRemaining]
        else
          && history == old(Counts())
          && pvReturn == NULL && live == old(live) && order == old(order) && words == old(words)
          && within == old(within) && allocList[..] == old(allocList[..])
      ensures live == HeapRuns.Step(Lo(), old(live), Hi(), HeapRuns.Alloc(xWantedSize))
    {
      hide Valid, Core, Structure, Gaps, Carved, InsertLive, SameBlocks, Holds, LiveCanaries, FreeCanaries, Placed,
           FirstFit, RequestSize, HasBlock, Satisfiable, Allocated, AlignUp, AlignDown;
      InitialiseOnce();
      ghost var live0 := live;
      ghost var c;
      pvReturn, c := Allocate(xWantedSize);
      if pvReturn != NULL {
        RecordBlock(pvReturn - HEADER_SIZE, live0, c);
      }
      HeapRuns.AllocatedIsStep(Lo(), live0, live, Hi(), xWantedSize, FreeList(), pvReturn);
      CoreIsValid();
    }

    lemma CoreIsValid()
      requires Core() && Records() && allocList.Length == SLOTS && pxEnd != NULL
      ensures Valid()
    {}

    /** Recording a freshly carved block restores every debug record. */
    method RecordBlock(pointer: int, ghost live0: seq<Chunk>, ghost c: Chunk)
      requires allocList.Length == SLOTS && Core()
      requires live == InsertLive(live0, c) && !HasBlock(live0, c.addr) && pointer == c.addr != NULL
      requires SameBlocks(order, live0) && LiveCanaries(canary, words, live0)
      requires within ==> |live0| < SLOTS && Holds(allocList[..], order)
      modifies this`canary, this`words, this`order, this`within, allocList
      ensures Core() && Records() && FreeCanaries(canary, FreeList())
      ensures order == old(order) + [c.addr] && within == (old(within) && |live| < SLOTS)
    {
      hide Structure, Least, Aligned, Total, Placed, Gaps, InsertLive, Holds, LiveCanaries, SameBlocks, HasBlock;
      Recorded(live0, c);
      ghost var canary0, table0 := canary, allocList[..];
      AddToList(pointer, FreeList());
      OrderGrow(order, live0, c);
      CanariesGrow(Lo(), Hi(), xStart, live0, c, canary0, canary, old(words));
      if within { OrderTable(table0, order, live0, c.addr); }
      order := order + [c.addr];
      within := within && |live| < SLOTS;
    }

    /** What the recorder needs to know about the block just carved. */
    lemma Recorded(live0: seq<Chunk>, c: Chunk)
      requires Core() && live == InsertLive(live0, c)
      ensures c.addr in size && ClearBit(size[c.addr]) == c.size && c.addr != xStart
      ensures forall k :: 0 <= k < |FreeList()| ==> FreeList()[k].addr != c.addr && 0 < FreeList()[k].addr
      ensures Seg(next, size, xStart, FreeList(), pxEnd) && NULL < pxEnd
      ensures pxEnd in next && next[pxEnd] == NULL
      ensures LiveOK(Lo(), live, Hi()) && !(Lo() <= xStart <= Hi())
    {
      hide LiveOK, Gaps, AlignUp, AlignDown, Seg, HoldHeaders, Total, InsertLive;
      CoreFacts();
      InsertLiveMembers(live0, c);
      assert c in live;
      FreeNotLive(Lo(), live, Hi(), c);
      var j :| 0 <= j < |live| && live[j] == c;
      LiveAt(Lo(), live, Hi(), j);
    }

    // --------------------------------------------------------------------- vPortFree

    /** The block structure half of vPortFree, for a block known to be live. */
    method Release(pxLink: int)
      requires Core() && HasBlock(live, pxLink)
      modifies this`next, this`size, this`xFreeBytesRemaining, this`live, this`history
      ensures Core() && |history| > 1 && history == old(history) + [xFreeBytesRemaining]
      ensures live == RemoveAt(old(live), IndexOf(old(live), pxLink))
      ensures FreeList() == InsertFree(old(FreeList()), old(live)[IndexOf(old(live), pxLink)])
    {
      hide Gaps, LiveOK, Seg, InsertFree, HoldHeaders, RemoveAt, Total, Least, AlignUp, AlignDown, Separated, Apart,
           Aligned;
      ghost var k := IndexOf(live, pxLink);
      ghost var f, next0, size0 := FreeList(), next, size;
      CoreFacts();
      LiveAt(Lo(), live, Hi(), k);
      LiveApart(Lo(), live, Hi(), k);
      GapsSeparated(Lo(), live, Hi());
      SegIgnores(next, size, xStart, f, pxEnd, pxLink, next[pxLink], ClearBit(size[pxLink]));
      size := size[pxLink := ClearBit(size[pxLink])];
      assert next[pxLink := next[pxLink]] == next;
      xFreeBytesRemaining := xFreeBytesRemaining + size[pxLink];
      InsertBlockIntoFreeList(pxLink, Lo(), f);
      OutsideUpdate(size0, size, xStart, f, pxLink, live[k].size);
      ReleaseStructure(Lo(), Hi(), xStart, live, next0, size0, next, size, k);
      AlignedShrink(live, k);
      LeastIsAtMostLast(history);
      LeastSnoc(history, xFreeBytesRemaining);
      live := RemoveAt(live, k);
      history := history + [xFreeBytesRemaining];
    }

    /** Forgetting a released block: the side table first, then the free headers are refreshed. */
    method Forget(pxLink: int, ghost live0: seq<Chunk>, ghost k: nat)
      requires allocList.Length == SLOTS && Core() && |history| > 1
      requires k < |live0| && live0[k].addr == pxLink && LiveOK(Lo(), live0, Hi()) && live == RemoveAt(live0, k)
      requires SameBlocks(order, live0) && LiveCanaries(canary, words, live0)
      requires within ==> |live0| < SLOTS && Holds(allocList[..], order)
      modifies this`canary, this`order, allocList
      ensures Core() && Records() && FreeCanaries(canary, FreeList())
      ensures order == Without(old(order), pxLink)
    {
      hide Structure, Least, Aligned, Total, Placed, Gaps, RemoveAt, Holds, LiveCanaries, SameBlocks, Without, Removed,
           LiveOK;
      ghost var canary0, table0 := canary, allocList[..];
      var code := RemoveEntry(allocList, pxLink);
      ListFacts();
      UpdateFreeBlockList(FreeList());
      OrderShrink(Lo(), Hi(), order, live0, k);
      CanariesShrink(Lo(), Hi(), xStart, live0, k, FreeList(), canary0, canary, words);
      if within { TableShrink(table0, order, live0, pxLink); }
      RemoveLength(live0, k);
      order := Without(order, pxLink);
    }

    lemma ListFacts()
      requires Core()
      ensures Seg(next, size, xStart, FreeList(), pxEnd) && NULL < pxEnd && pxEnd in next && next[pxEnd] == NULL
      ensures forall k :: 0 <= k < |FreeList()| ==> 0 < FreeList()[k].addr
      ensures LiveOK(Lo(), live, Hi()) && !(Lo() <= xStart <= Hi())
    {
      hide LiveOK, Gaps, AlignUp, AlignDown, Seg, LiveHeaders, HoldHeaders, Total;
      CoreFacts();
    }

    lemma FreeHeader(k: nat)
      requires Core() && k < |FreeList()|
      ensures FreeList()[k].addr in size && FreeList()[k].addr in next
      ensures size[FreeList()[k].addr] == FreeList()[k].size < ALLOCATED_BIT
      ensures !HasBlock(live, FreeList()[k].addr)
    {
      hide LiveOK, Gaps, AlignUp, AlignDown, Seg, LiveHeaders, HoldHeaders, Total, HasBlock;
      CoreFacts();
      AlignUpIs(ucHeap);
      AlignUpIs(ucHeap + totalSize - HEADER_SIZE);
      SegOwns(next, size, xStart, FreeList(), pxEnd, k);
      GapAt(Lo(), live, Hi(), k);
      CarvedIsNew(Lo(), live, Hi(), k);
    }

    /** vPortFree.  `ok` is whether the two configASSERT checks hold; a second free of a block whose
        address still heads a free block is caught by them and changes nothing.  A block that its
        first free merged into the one before it has no header any more. */
    method Free(pv: int) returns (ok: bool)
      requires Valid()
      requires pv == NULL || (pxEnd != NULL &&
        (HasBlock(live, pv - HEADER_SIZE) || HasBlock(FreeList(), pv - HEADER_SIZE)))
      modifies this, allocList
      ensures Valid() && words == old(words) && within == old(within)
      ensures xMinimumEverFreeBytesRemaining == old(xMinimumEverFreeBytesRemaining)
      ensures if pv != NULL && HasBlock(old(live), pv - HEADER_SIZE)
        then
          var k := IndexOf(old(live), pv - HEADER_SIZE);
          && ok && live == RemoveAt(old(live), k)
          && FreeList() == InsertFree(old(FreeList()), old(live)[k])
          && order == Without(old(order), pv - HEADER_SIZE)
          && FreeCanaries(canary, FreeList())
          && history == old(history) + [xFreeBytesRemaining]
          && live == HeapRuns.Step(Lo(), old(live), Hi(), HeapRuns.Release(pv - HEADER_SIZE))
        else
          && ok == (pv == NULL) && live == old(live) && order == old(order) && history == old(history)
          && next == old(next) && size == old(size) && allocList[..] == old(allocList[..])
    {
      hide Valid, Core, Structure, Gaps, InsertFree, RemoveAt, SameBlocks, Holds, LiveCanaries, FreeCanaries, Placed,
           HasBlock, AlignUp, AlignDown, Without, Removed;
      ok := true;
      if pv != NULL {
        var pxLink := pv - HEADER_SIZE;
        HeaderSaysLive(pxLink);
        ok := ALLOCATED_BIT <= size[pxLink] && next[pxLink] == NULL;
        if ALLOCATED_BIT <= size[pxLink] {
          if next[pxLink] == NULL {
            ghost var live0, k := live, IndexOf(live, pxLink);
            ghost var table0 := allocList[..];
            ListFacts();
            Release(pxLink);
            ListFacts();
            Forget(pxLink, live0, k);
            CoreIsValid();
          }
        }
      }
    }

    /** A header is marked allocated exactly when its block is live. */
    lemma HeaderSaysLive(a: int)
      requires Valid() && pxEnd != NULL && (HasBlock(live, a) || HasBlock(FreeList(), a))
      ensures a in size && a in next
      ensures ALLOCATED_BIT <= size[a] <==> HasBlock(live, a)
      ensures HasBlock(live, a) ==> next[a] == NULL
      ensures Core() && Records() && allocList.Length == SLOTS
    {
      hide Gaps, LiveOK, Seg, InsertFree, HoldHeaders, Total, Least, SameBlocks, LiveCanaries, Holds;
      if HasBlock(live, a) {
        LargeEnough(Lo(), live, Hi(), IndexOf(live, a));
      } else {
        var k :| 0 <= k < |FreeList()| && FreeList()[k].addr == a;
        FreeHeader(k);
      }
    }

    // ------------------------------------------------------------------ the application

    /** The owner of a block writes one aligned word of its payload.  This is a raw memory write: it
        lands in whatever header field lies at that address, and yet no header and no canary that
        matters is touched. */
    method ClientWrite(pv: int, a: int, v: int)
      requires Valid() && HasBlock(live, pv - HEADER_SIZE) && a % 4 == 0
      requires pv <= a && a + 4 <= live[IndexOf(live, pv - HEADER_SIZE)].End() - TAIL_CANARY_SIZE
      modifies this`words, this`canary, this`next, this`size
      ensures Valid() && words == old(words)[a := v]
      ensures canary == old(canary)[a - CANARY_OFFSET := v]
      ensures next == old(next)[a - NEXT_OFFSET := v] && size == old(size)[a - SIZE_OFFSET := v]
    {
      hide Gaps, LiveOK, Structure, SameBlocks, Holds, Least, Total, Aligned, FreeCanaries, LiveCanaries;
      assert pxEnd != NULL;
      ghost var i := IndexOf(live, pv - HEADER_SIZE);
      WriteKeeps(Lo(), Hi(), xStart, live, next, size, canary, words, i, a, v);
      words := words[a := v];
      canary := canary[a - CANARY_OFFSET := v];
      next := next[a - NEXT_OFFSET := v];
      size := size[a - SIZE_OFFSET := v];
    }
  }
}
