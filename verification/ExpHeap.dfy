/** The expandable heap as the repository runs it: lists edited in place, with search loops.
    Every method is tied to the functions of `ExpHeapSpec`. */
module ExpHeap {
  import opened Alignment
  import opened ExpHeapLayout
  import opened ExpHeapSpec
  import opened ExpHeapRuns
  import opened ExpHeapWords
  import opened ExpHeapMeaning

  lemma PutBetween(front: seq<Block>, b: Block, back: seq<Block>)
    ensures (front + back)[..|front|] + [b] + (front + back)[|front|..] == front + [b] + back
  {
    assert (front + back)[..|front|] == front && (front + back)[|front|..] == back;
  }

  /** What stays in front of a region that is returned, and what stays behind it. */
  ghost function FrontOf(free: seq<Block>, lo: int): seq<Block> {
    free[..if MergesBefore(free, lo) then Rank(free, lo) - 1 else Rank(free, lo)]
  }

  ghost function BackOf(free: seq<Block>, lo: int, hi: int): seq<Block> {
    free[if MergesAfter(free, lo, hi) then Rank(free, lo) + 1 else Rank(free, lo)..]
  }

  class HeapHead {
    var heapStart: int
    var heapEnd: int
    var freeList: seq<Block>
    var usedList: seq<Block>
    var mode: Mode
    var useMargins: bool

    ghost function State(): Heap
      reads this
    {
      Heap(heapStart, heapEnd, freeList, usedList, mode, useMargins)
    }

    ghost predicate Valid()
      reads this
    {
      Inv(State()) && FourAligned(State())
    }

    /** `InitializeExpHeap` on a range that `CreateExpHeap` has rounded and checked. */
    constructor Initialize(start: int, end: int)
      requires 0 <= start < WORD_LIMIT && 0 <= end < WORD_LIMIT && start % 4 == 0
      ensures State() == FreshWord(start, end)
      ensures Valid() <==> end - start >= MINIMUM_REGION
    {
      heapStart, heapEnd := start, end;
      freeList, usedList := [WordFree(start, end)], [];
      mode, useMargins := FirstFit, false;
      new;
      FreshWordIsWellFormed(start, end);
      if end - start >= MINIMUM_REGION { assert FreeOk(FreeBlock(start, end)); }
    }

    /** Returns the region [lo, hi) to the free list. On failure the list is untouched, although
        the code only decides to fail after it has tried to merge. */
    method CoalesceFreedRegion(lo: int, hi: int) returns (ok: bool)
      requires Canonical(freeList) && Clear(freeList, lo, hi) && lo < hi
      modifies this`freeList
      ensures ok == Insertable(old(freeList), lo, hi)
      ensures freeList == if ok then Insert(old(freeList), lo, hi) else old(freeList)
    {
      ghost var before := freeList;
      var i := 0;
      while i < |freeList| && freeList[i].addr < lo
        invariant 0 <= i <= |freeList|
        invariant forall j | 0 <= j < i :: freeList[j].addr < lo
      {
        i := i + 1;
      }
      RankIs(freeList, lo, i);
      var start, end, insertion := MergeNeighbours(lo, hi, i);
      if end - start < MINIMUM_REGION {
        NotInsertableMergesNothing(before, lo, hi);
        return false;
      }
      PutBetween(FrontOf(before, lo), FreeBlock(start, end), BackOf(before, lo, hi));
      freeList := freeList[..insertion] + [FreeBlock(start, end)] + freeList[insertion..];
      return true;
    }

    /** Takes the free block that begins at `hi` and the one that ends at `lo` out of the list; `i` is the
        index of the first block behind `lo`. */
    method MergeNeighbours(lo: int, hi: int, i: nat) returns (start: int, end: int, insertion: nat)
      requires Canonical(freeList) && i == Rank(freeList, lo)
      modifies this`freeList
      ensures start == MergedStart(old(freeList), lo) && end == MergedEnd(old(freeList), lo, hi)
      ensures freeList == FrontOf(old(freeList), lo) + BackOf(old(freeList), lo, hi)
              && insertion == |FrontOf(old(freeList), lo)|
    {
      start, end := lo, hi;
      if i < |freeList| && freeList[i].addr == hi {
        end := End(freeList[i]);
        freeList := Remove(freeList, i);
      }
      insertion := i;
      if i > 0 && End(freeList[i - 1]) == lo {
        start := freeList[i - 1].addr;
        freeList := Remove(freeList, i - 1);
        insertion := i - 1;
      }
    }

    /** Turns `size` bytes at `mem` into a used block, in place of free block `i`. */
    method ConvertFreeBlockToUsedBlock(i: nat, mem: int, size: int, direction: Direction)
      requires i < |freeList| && freeList[i].padding == 0
      modifies this`freeList, this`usedList
      ensures State() == AfterWordCarve(old(State()), i, mem, size, direction)
    {
      var b := freeList[i];
      ghost var before, behind, front, back := freeList[..i], freeList[i + 1..], [], [];
      var frontStart, frontEnd := RegionStart(b), Word(mem - HEADER);
      var backStart, backEnd := Word(mem + size), End(b);
      freeList := Remove(freeList, i);
      var it := i;
      var frontMargin := Word(frontEnd - frontStart);
      if frontMargin < MINIMUM_REGION || (direction.Front? && !useMargins && frontMargin < MAXIMUM_PADDING_ALIGNMENT) {
        frontEnd := frontStart;
      } else {
        front := [WordFree(frontStart, frontEnd)];
        PutBetween(before, front[0], behind);
        freeList := freeList[..it] + [WordFree(frontStart, frontEnd)] + freeList[it..];
        it := it + 1;
      }
      assert freeList == before + front + behind && it == |before + front|;
      var backMargin := Word(backEnd - backStart);
      if backMargin < MINIMUM_REGION || (direction.Back? && !useMargins && backMargin < MAXIMUM_PADDING_ALIGNMENT) {
        backEnd := backStart;
      } else {
        back := [WordFree(backStart, backEnd)];
        PutBetween(before + front, back[0], behind);
        freeList := freeList[..it] + [WordFree(backStart, backEnd)] + freeList[it..];
      }
      assert freeList == (before + front) + back + behind;
      assert (before + front) + back == before + (front + back);
      assert front + back == WordPieces(b, mem, size, direction, useMargins);
      var start := Word(mem - HEADER);
      var padding := Word(start - frontEnd) % MAXIMUM_PADDING_ALIGNMENT;
      usedList := usedList + [Block(start, Word(backStart - start - HEADER), padding)];
    }

    /** The search of `AllocateFromHead`: low addresses first. */
    method SearchFromHead(size: int, a: int) returns (found: int)
      requires InWords(freeList) && IsPowerOfTwo(a) && a < 0x8000_0000
      ensures found == Search(freeList, size, a, Front, mode)
    {
      found := -1;
      var bestSize := WORD_LIMIT - 1;
      var i := 0;
      while i < |freeList|
        invariant 0 <= i <= |freeList| && -1 <= found < |freeList|
        invariant Scan(freeList, size, a, Front, mode, i, found, bestSize) == Search(freeList, size, a, Front, mode)
      {
        var b := freeList[i];
        var offset := Word(MemWord(b, a) - PayloadStart(b));
        TestInWords(b, size, a);
        if b.size >= Word(size + offset) && bestSize > b.size {
          found, bestSize := i, b.size;
          if mode.FirstFit? || bestSize == size {
            return;
          }
        }
        i := i + 1;
      }
    }

    /** The search of `AllocateFromTail`: high addresses first. */
    method SearchFromTail(size: int, a: int) returns (found: int)
      requires InWords(freeList) && IsPowerOfTwo(a) && a < 0x8000_0000
      ensures found == Search(freeList, size, a, Back, mode)
    {
      found := -1;
      var bestSize := WORD_LIMIT - 1;
      var i := |freeList|;
      while i > 0
        invariant 0 <= i <= |freeList| && -1 <= found < |freeList|
        invariant Scan(freeList, size, a, Back, mode, |freeList| - i, found, bestSize)
                  == Search(freeList, size, a, Back, mode)
      {
        i := i - 1;
        var b := freeList[i];
        var offset := Word(MemWord(b, a) - PayloadStart(b));
        TestInWords(b, size, a);
        if b.size >= Word(size + offset) && bestSize > b.size {
          found, bestSize := i, b.size;
          if mode.FirstFit? || bestSize == size {
            return;
          }
        }
      }
    }

    /** Carves `size` bytes out of free block `found`, or reports failure when that is -1. */
    method AllocateFound(found: int, size: int, a: int, direction: Direction) returns (mem: int)
      requires IsPowerOfTwo(a) && -1 <= found < |freeList| && (found != -1 ==> freeList[found].padding == 0)
      modifies this`freeList, this`usedList
      ensures mem == if found == -1 then 0 else MemWord(old(freeList)[found], a)
      ensures State() == if found == -1 then old(State())
                         else AfterWordCarve(old(State()), found, MemWord(old(freeList)[found], a), size, direction)
    {
      if found == -1 {
        return 0;
      }
      mem := MemWord(freeList[found], a);
      ConvertFreeBlockToUsedBlock(found, mem, size, direction);
    }

    /** A positive alignment allocates from the head, a negative one from the tail. */
    method AllocateFromEnd(size: int, align: int) returns (mem: int)
      requires LegalAlignment(align) && InWords(freeList)
      requires forall i | 0 <= i < |freeList| :: freeList[i].padding == 0
      modifies this`freeList, this`usedList
      ensures var i := Search(old(freeList), size, Abs(align), DirectionOf(align), mode);
              && mem == (if i == -1 then 0 else MemWord(old(freeList)[i], Abs(align)))
              && State() == if i == -1 then old(State())
                            else AfterWordCarve(old(State()), i, mem, size, DirectionOf(align))
    {
      if align >= 0 {
        var i := SearchFromHead(size, align);
        mem := AllocateFound(i, size, align, Front);
      } else {
        var i := SearchFromTail(size, -align);
        mem := AllocateFound(i, size, -align, Back);
      }
    }

    /** Corrects the alignment and the size, and allocates. */
    method AllocateCorrected(size: nat, alignment: int) returns (mem: int)
      requires Valid() && LegalAlignment(alignment) && size < WORD_LIMIT
      modifies this`freeList, this`usedList
      ensures State() == AllocateWord(old(State()), size, alignment)
      ensures var i := PickWord(old(State()), size, alignment);
              mem == if i == -1 then 0 else MemWord(old(freeList)[i], EffectiveAlignment(alignment))
    {
      var align := alignment;
      if align == 1 || align == 2 {
        align := 4;
      } else if align == -1 || align == -2 {
        align := -4;
      }
      ghost var h := State();
      assert Abs(align) == EffectiveAlignment(alignment) && DirectionOf(align) == DirectionOf(alignment);
      var n := RoundUpWord(if size == 0 then 1 else size);
      AllocateReady(h, size, alignment);
      mem := AllocateFromEnd(n, align);
    }

    /** `AllocateFromExpHeap`, for every size. A safe request does what is intended: then the result is
        0 exactly when nothing fits. */
    method Allocate(size: nat, alignment: int) returns (mem: int)
      requires Valid() && LegalAlignment(alignment) && size < WORD_LIMIT
      modifies this`freeList, this`usedList
      ensures State() == AllocateWord(old(State()), size, alignment)
      ensures var i := PickWord(old(State()), size, alignment);
              mem == if i == -1 then 0 else MemWord(old(freeList)[i], EffectiveAlignment(alignment))
      ensures RequestSafe(size, alignment) ==>
                && Valid() && State() == Apply(old(State()), Op.Allocate(size, alignment))
                && (mem != 0 <==> RoundSize(size) <= AllocatableSize(old(freeList), Abs(alignment)))
                && (mem != 0 ==> IsAligned(mem, EffectiveAlignment(alignment)))
                && Allocated(old(State()), State(), size, alignment, mem)
    {
      ghost var h := State();
      mem := AllocateCorrected(size, alignment);
      if RequestSafe(size, alignment) { AllocateOutcome(h, size, alignment, State(), mem); }
    }

    /** `FreeToExpHeap`. Its assertion that coalescing succeeds always holds. */
    method Free(mem: int)
      requires Valid() && IsUsed(State(), mem)
      modifies this`freeList, this`usedList
      ensures Valid() && State() == Apply(old(State()), Op.Free(mem))
      ensures Freed(old(State()), State(), mem)
    {
      FreeOutcome(State(), mem);
      FreeingIsFreed(State(), mem);
      var k := IndexOf(usedList, mem);
      var u := usedList[k];
      usedList := Remove(usedList, k);
      var ok := CoalesceFreedRegion(RegionStart(u), End(u));
      assert ok;
      assert State() == Apply(old(State()), Op.Free(mem));
    }

    /** The growing half of `ResizeExpHeapMemoryBlock`. */
    method Grow(k: nat, size: int) returns (newSize: int)
      requires Valid() && k < |usedList| && usedList[k].size < size
      modifies this`freeList, this`usedList
      ensures State() == AfterGrow(old(State()), k, size)
      ensures newSize == if CanGrow(old(State()), k, size) then usedList[k].size else 0
    {
      var u := usedList[k];
      var mem := PayloadStart(u);
      var j := 0;
      while j < |freeList| && freeList[j].addr != End(u)
        invariant 0 <= j <= |freeList|
        invariant forall m | 0 <= m < j :: freeList[m].addr != End(u)
      {
        j := j + 1;
      }
      NextFreeBlock(freeList, End(u), j);
      if j == |freeList| || size > u.size + HEADER + freeList[j].size {
        return 0;
      }
      var newStart, newEnd := mem + size, End(freeList[j]);
      freeList := Remove(freeList, j);
      if newEnd - newStart < MINIMUM_REGION {
        newStart := newEnd;
      }
      usedList := usedList[k := u.(size := newStart - mem)];
      if newEnd - newStart >= MINIMUM_REGION {
        freeList := freeList[..j] + [FreeBlock(newStart, newEnd)] + freeList[j..];
      }
      assert freeList == TakeHead(old(freeList), j, mem + size);
      newSize := usedList[k].size;
    }

    /** The shrinking half: a failed attempt restores the block size and nothing else changed. */
    method Shrink(k: nat, size: int) returns (newSize: int)
      requires k < |usedList| && 0 <= size < usedList[k].size
      requires Canonical(freeList) && Clear(freeList, PayloadStart(usedList[k]) + size, End(usedList[k]))
      modifies this`freeList, this`usedList
      ensures State() == AfterShrink(old(State()), k, size)
      ensures newSize == usedList[k].size
    {
      var u := usedList[k];
      ghost var h := State();
      usedList := usedList[k := u.(size := size)];
      var ok := CoalesceFreedRegion(PayloadStart(u) + size, End(u));
      if !ok {
        usedList := usedList[k := u];
        assert usedList == h.used;
      }
      newSize := usedList[k].size;
      ShrunkState(h, State(), k, size);
    }

    /** `ResizeExpHeapMemoryBlock`, for every size. Returns the new payload size, or 0 when the block
        cannot grow. */
    method Resize(mem: int, size: nat) returns (newSize: int)
      requires Valid() && IsUsed(State(), mem) && size < WORD_LIMIT
      modifies this`freeList, this`usedList
      ensures var k := IndexOf(old(usedList), mem);
              && State() == ResizeWord(old(State()), k, size)
              && newSize == (var n := Word(RoundUp(size));
                             if n > old(usedList)[k].size && !CanGrow(old(State()), k, n) then 0 else usedList[k].size)
              && (Valid() <==> ResizeSafe(size) || !CanVanish(old(State()), k))
      ensures ResizeSafe(size) ==> Resized(old(State()), State(), mem, size, newSize)
    {
      var k := IndexOf(usedList, mem);
      var n := RoundUpWord(size);
      RoundUpIsWord(size);
      ResizeIsSoundIff(State(), k, size);
      ResizeWordAligned(State(), k, size);
      if ResizeSafe(size) { ResizeOutcome(State(), k, size); }
      if n == usedList[k].size {
        newSize := n;
      } else if n > usedList[k].size {
        newSize := Grow(k, n);
      } else {
        ShrunkRegionIsClear(State(), k, n);
        newSize := Shrink(k, n);
      }
    }

    /** `AdjustExpHeap`: gives a trailing free block back to the caller as a memory range. */
    method AdjustHeap() returns (address: int, size: int)
      requires Valid()
      modifies this`freeList, this`heapEnd
      ensures Valid() && State() == Apply(old(State()), Op.Adjust)
      ensures address == heapEnd && address + size == old(heapEnd)
      ensures size != 0 <==> CanAdjust(old(State()))
      ensures Adjusted(old(State()), State(), address, size)
    {
      AdjustingIsAdjusted(State());
      StepKeepsInv(State(), Op.Adjust);
      StepKeepsAligned(State(), Op.Adjust);
      if freeList == [] {
        return heapEnd, 0;
      }
      var block := freeList[|freeList| - 1];
      if End(block) != heapEnd {
        return heapEnd, 0;
      }
      assert FreeOk(block);
      freeList := freeList[..|freeList| - 1];
      size := block.size + HEADER;
      heapEnd := heapEnd - size;
      address := heapEnd;
    }

    /** `GetExpHeapTotalFreeSize`: the free bytes of the layout, without the headers. */
    method GetTotalFreeSize() returns (total: int)
      requires Valid()
      ensures total == Bytes(freeList) - HEADER * |freeList|
    {
      total := 0;
      var i := 0;
      while i < |freeList|
        invariant 0 <= i <= |freeList|
        invariant total == Bytes(freeList[..i]) - HEADER * i
      {
        assert FreeOk(freeList[i]);
        assert freeList[..i + 1][..i] == freeList[..i];
        total := total + freeList[i].size;
        i := i + 1;
      }
      assert freeList[..i] == freeList;
    }

    /** `GetExpHeapAllocatableSize`, for every alignment with an absolute value. */
    method GetAllocatableSize(alignment: int) returns (maxSize: int)
      requires -0x8000_0000 < alignment < 0x8000_0000
      ensures maxSize == AllocatableSizeMask(freeList, Abs(alignment))
      ensures InWords(freeList) && LegalAlignment(alignment)
              ==> maxSize == AllocatableSizeWord(freeList, Abs(alignment))
    {
      var a := Abs(alignment);
      maxSize := 0;
      var minOffset := WORD_LIMIT - 1;
      var i := 0;
      while i < |freeList|
        invariant 0 <= i <= |freeList|
        invariant maxSize == AllocatableSizeMask(freeList[..i], a) && maxSize >= 0
      {
        var blockStart, blockEnd := AlignWord(PayloadStart(freeList[i]), a), End(freeList[i]);
        if blockStart < blockEnd {
          var blockSize, offset := blockEnd - blockStart, Word(blockStart - PayloadStart(freeList[i]));
          if blockSize > maxSize || (blockSize == maxSize && offset < minOffset) {
            maxSize, minOffset := blockSize, offset;
          }
        }
        assert freeList[..i + 1][..i] == freeList[..i];
        i := i + 1;
      }
      assert freeList[..i] == freeList;
      if InWords(freeList) && LegalAlignment(alignment) { MaskQueryIsWord(freeList, a); }
    }
  }

  // ----- Creation -----

  function RangeStart(address: int): int { Word(address + 3) / 4 * 4 }

  function RangeEnd(address: int, size: int): int { Word(address + size) / 4 * 4 }

  /** The check of `CreateExpHeap` counts one block header, but not the heap head in front of it. */
  predicate Creates(address: int, size: int) { RangeEnd(address, size) - RangeStart(address) >= MINIMUM_REGION }

  /** The heap handed out; `headSize` is sizeof(HeapHead). */
  function Created(address: int, size: int, headSize: int): Heap {
    FreshWord(Word(RangeStart(address) + headSize), RangeEnd(address, size))
  }

  method CreateExpHeap(address: int, size: int, headSize: int) returns (heap: HeapHead?)
    requires 0 <= address < WORD_LIMIT && 0 <= size < WORD_LIMIT && 0 < headSize < WORD_LIMIT && headSize % 4 == 0
    ensures heap != null <==> Creates(address, size)
    ensures heap != null ==> fresh(heap) && heap.State() == Created(address, size, headSize)
    ensures heap != null ==> (heap.Valid() <==> Inv(Created(address, size, headSize)))
  {
    var end := RangeEnd(address, size);
    var start := RangeStart(address);
    if start > end || end - start < HEADER + MINIMUM_FREE_BLOCK_SIZE {
      return null;
    }
    RangeInWords(address, size);
    HeadInWords(start, headSize);
    FreshWordIsWellFormed(Word(start + headSize), end);
    heap := new HeapHead.Initialize(Word(start + headSize), end);
  }

  lemma RangeInWords(address: int, size: int)
    ensures 0 <= RangeStart(address) < WORD_LIMIT && RangeStart(address) % 4 == 0
    ensures 0 <= RangeEnd(address, size) < WORD_LIMIT
  {
  }

  lemma HeadInWords(start: int, headSize: int)
    requires 0 <= start < WORD_LIMIT && start % 4 == 0 && 0 < headSize < WORD_LIMIT && headSize % 4 == 0
    ensures 0 <= Word(start + headSize) < WORD_LIMIT && Word(start + headSize) % 4 == 0
  {
    WordIs(start + headSize);
    FourDivides(start, headSize);
  }

  lemma FourDivides(x: int, y: int)
    requires x % 4 == 0 && y % 4 == 0
    ensures (x + y) % 4 == 0 && (x + y - WORD_LIMIT) % 4 == 0
  {
  }

  /** A heap that is handed out is sound, and lies behind its head, if and only if the range also holds
      that head. */
  lemma CreatedIsSoundIff(address: int, size: int, headSize: int)
    requires 0 <= address < WORD_LIMIT && 0 <= size < WORD_LIMIT && 0 < headSize < WORD_LIMIT
    ensures Inv(Created(address, size, headSize))
            && Created(address, size, headSize).start == RangeStart(address) + headSize
       <==> RangeEnd(address, size) - RangeStart(address) >= headSize + MINIMUM_REGION
  {
    RangeInWords(address, size);
    WordIs(RangeStart(address) + headSize);
    FreshWordIsWellFormed(Word(RangeStart(address) + headSize), RangeEnd(address, size));
  }

  /** The heap handed out, for memory that does not wrap: its range is all of the memory between
      multiples of four, and everything behind the heap head is free. `s` and `e` are these multiples. */
  lemma CreatedIsInside(address: int, size: int, headSize: int, s: int, e: int)
    requires 0 <= address && 0 <= size && address + size < WORD_LIMIT && address + 3 < WORD_LIMIT && headSize > 0
    requires s % 4 == 0 && address <= s < address + 4 && e % 4 == 0 && address + size - 4 < e <= address + size
    ensures Creates(address, size) <==> s + 0x24 <= e
    ensures s + headSize + 0x24 <= e ==>
              var h := Created(address, size, headSize);
              && h.start == s + headSize && h.end == e && h.used == [] && h.mode.FirstFit? && !h.useMargins
              && forall x :: IsFree(h, x) <==> h.start <= x < e
  {
    WordIs(address + 3);
    WordIs(address + size);
    assert RangeStart(address) == s && RangeEnd(address, size) == e;
    if s + headSize + 0x24 <= e {
      WordIs(s + headSize);
      FreshCoversAll(s + headSize, e);
    }
  }

  lemma FreshCoversAll(start: int, end: int)
    requires 0 <= start && start + 0x24 <= end < WORD_LIMIT
    ensures forall x :: IsFree(FreshWord(start, end), x) <==> start <= x < end
  {
    WordIs(end - start - HEADER);
    var h := FreshWord(start, end);
    forall x ensures IsFree(h, x) <==> start <= x < end {
      assert h.free[0].addr <= x < h.free[0].addr + 0x20 + h.free[0].size <==> start <= x < end;
    }
  }

  lemma BrokenRange()
    ensures RangeStart(0x1000) == 0x1000 && RangeEnd(0x1000, 0x24) == 0x1024
  {
    WordIs(0x1003);
    WordIs(0x1024);
  }

  /** A broken heap: for 36 bytes at 0x1000 a heap is handed out whose free block would have to start
      behind the heap head, which alone leaves no room for it. */
  lemma BrokenHeapIsHandedOut(headSize: int)
    requires 0 < headSize < WORD_LIMIT - 0x1000
    ensures Creates(0x1000, 0x24) && !Inv(Created(0x1000, 0x24, headSize))
  {
    BrokenRange();
    WordIs(0x1000 + headSize);
    CreatedIsSoundIff(0x1000, 0x24, headSize);
  }

  lemma RankIs(free: seq<Block>, lo: int, p: int)
    requires IsRank(free, lo, p)
    ensures Rank(free, lo) == p
  {
  }

  /** `AlignUp` to four, in words. */
  function RoundUpWord(size: int): int { Word(size + 3) / 4 * 4 }

  lemma RoundUpIsWord(size: int)
    requires 0 <= size < WORD_LIMIT
    ensures RoundUpWord(size) == Word(RoundUp(size)) && 0 <= Word(RoundUp(size)) < WORD_LIMIT
  {
    WordIs(size + 3);
    WordIs(RoundUp(size));
  }

  /** The sum in the fit test, with the offset as a difference of words. */
  lemma TestInWords(b: Block, size: int, a: int)
    requires IsPowerOfTwo(a) && a < 0x8000_0000 && 0 <= b.addr && PayloadStart(b) < WORD_LIMIT
    ensures b.size >= Word(size + Word(MemWord(b, a) - PayloadStart(b))) <==> Accepts(b, size, a)
  {
    AlignedReaches(b, a);
    WordIs(Offset(b, a));
    assert Word(-PayloadStart(b)) == WORD_LIMIT - PayloadStart(b);
  }

  lemma FreeIsUnpadded(h: Heap)
    requires Inv(h)
    ensures forall i | 0 <= i < |h.free| :: h.free[i].padding == 0
  {
    forall i | 0 <= i < |h.free| ensures h.free[i].padding == 0 { assert FreeOk(h.free[i]); }
  }

  /** What the body of `Allocate` relies on. */
  lemma AllocateReady(h: Heap, size: nat, alignment: int)
    requires Inv(h) && LegalAlignment(alignment) && size < WORD_LIMIT
    ensures InWords(h.free) && RoundUpWord(if size == 0 then 1 else size) == RoundWord(size)
    ensures forall i | 0 <= i < |h.free| :: h.free[i].padding == 0
    ensures EffectiveAlignment(alignment) < 0x8000_0000
  {
    RoundUpIsWord(if size == 0 then 1 else size);
    HeapInWords(h);
    FreeIsUnpadded(h);
  }

  /** Everything a safe `Allocate` has to deliver, in terms of the state before the call. */
  lemma AllocateOutcome(h: Heap, size: nat, alignment: int, r: Heap, mem: int)
    requires Inv(h) && FourAligned(h) && Legal(h, Op.Allocate(size, alignment))
    requires r == AllocateWord(h, size, alignment)
    requires var i := PickWord(h, size, alignment);
             mem == if i == -1 then 0 else MemWord(h.free[i], EffectiveAlignment(alignment))
    ensures Inv(r) && FourAligned(r) && r == Apply(h, Op.Allocate(size, alignment))
    ensures mem != 0 <==> RoundSize(size) <= AllocatableSize(h.free, Abs(alignment))
    ensures mem != 0 ==> IsAligned(mem, EffectiveAlignment(alignment))
    ensures Allocated(h, r, size, alignment, mem)
  {
    RoundSizeMeaning(size);
    AllocatableIffQuery(h, size, alignment);
    SafePickIsExact(h, size, alignment);
    SafeRequestIsExact(h, size, alignment);
    StepKeepsInv(h, Op.Allocate(size, alignment));
    StepKeepsAligned(h, Op.Allocate(size, alignment));
    if PickFor(h, size, alignment) != -1 {
      PickedAddress(h.free[PickFor(h, size, alignment)], RoundSize(size), EffectiveAlignment(alignment));
      AllocationIsAllocated(h, size, alignment, MemFor(h.free[PickFor(h, size, alignment)], alignment));
    } else {
      AllocationIsAllocated(h, size, alignment, 0);
    }
  }

  lemma PickedAddress(b: Block, size: int, a: int)
    requires IsPowerOfTwo(a) && FreeOk(b) && 0 <= b.addr && End(b) < WORD_LIMIT && Fits(b, size, a) && size > 0
    ensures MemWord(b, a) == AlignUp(PayloadStart(b), a) != 0 && IsAligned(MemWord(b, a), a)
  {
    AlignUpBounds(PayloadStart(b), a);
    AlignUpIsAligned(PayloadStart(b), a);
    WordIs(AlignUp(PayloadStart(b), a));
  }

  lemma ShrunkState(h: Heap, r: Heap, k: nat, size: int)
    requires k < |h.used|
    requires var u := h.used[k];
             if Insertable(h.free, PayloadStart(u) + size, End(u))
             then r == h.(free := Insert(h.free, PayloadStart(u) + size, End(u)), used := h.used[k := u.(size := size)])
             else r == h
    ensures r == AfterShrink(h, k, size)
  {
  }

  lemma ShrunkRegionIsClear(h: Heap, k: nat, size: int)
    requires Inv(h) && k < |h.used| && 0 <= size < h.used[k].size
    ensures Canonical(h.free) && Clear(h.free, PayloadStart(h.used[k]) + size, End(h.used[k]))
  {
    assert UsedOk(h.used[k]) && Clear(h.free, RegionStart(h.used[k]), End(h.used[k]));
  }

  /** Everything `Free` has to deliver, in terms of the state before the call. */
  lemma FreeOutcome(h: Heap, mem: int)
    requires Inv(h) && FourAligned(h) && Legal(h, Op.Free(mem))
    ensures Inv(Apply(h, Op.Free(mem))) && FourAligned(Apply(h, Op.Free(mem)))
    ensures var k := IndexOf(h.used, mem);
            && k < |h.used| && Apply(h, Op.Free(mem)) == AfterFree(h, k)
            && Canonical(h.free) && Clear(h.free, RegionStart(h.used[k]), End(h.used[k]))
            && RegionStart(h.used[k]) < End(h.used[k]) && Insertable(h.free, RegionStart(h.used[k]), End(h.used[k]))
  {
    StepKeepsInv(h, Op.Free(mem));
    StepKeepsAligned(h, Op.Free(mem));
    assert UsedOk(h.used[IndexOf(h.used, mem)]);
  }

  /** What a resize to a size in range comes to. */
  lemma ResizeOutcome(h: Heap, k: nat, size: nat)
    requires Inv(h) && k < |h.used| && ResizeSafe(size)
    ensures ResizeWord(h, k, size) == AfterResize(h, k, size)
    ensures var n := RoundUp(size);
            Word(n) == n &&
            Resized(h, AfterResize(h, k, size), PayloadStart(h.used[k]), size,
                    if n > h.used[k].size && !CanGrow(h, k, n) then 0 else AfterResize(h, k, size).used[k].size)
  {
    var n := RoundUp(size);
    WordIs(n);
    var fails := n > h.used[k].size && !CanGrow(h, k, n);
    ResizingIsResized(h, k, size, if fails then 0 else AfterResize(h, k, size).used[k].size);
  }

  lemma ResizeWordAligned(h: Heap, k: nat, size: nat)
    requires Inv(h) && FourAligned(h) && k < |h.used|
    ensures FourAligned(ResizeWord(h, k, size))
  {
    var s := Word(RoundUp(size));
    assert s % 4 == 0;
    if s < h.used[k].size { ShrinkAligned(h, k, s); }
    else if s > h.used[k].size { GrowAligned(h, k, s); }
  }

  /** Looking for a block that starts at `lo` by walking the list finds the one `Rank` names. */
  lemma NextFreeBlock(free: seq<Block>, lo: int, j: nat)
    requires Canonical(free) && j <= |free|
    requires forall m | 0 <= m < j :: free[m].addr != lo
    requires j < |free| ==> free[j].addr == lo
    ensures j < |free| ==> Rank(free, lo) == j
    ensures j == |free| ==> !(Rank(free, lo) < |free| && free[Rank(free, lo)].addr == lo)
  {
    if j < |free| {
      Around(free, j);
      forall m | 0 <= m < j ensures free[m].addr < lo { assert FreeOk(free[m]); }
      RankIs(free, lo, j);
    }
  }
}
