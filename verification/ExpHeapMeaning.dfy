/** What the heap operations do, said by addresses alone: which bytes are free before and after, which
    block an allocation takes, and what it returns. */
module ExpHeapMeaning {
  import opened Alignment
  import opened Division
  import opened ExpHeapLayout
  import opened ExpHeapSpec
  import opened ExpHeapRuns

  /** The byte at `x` belongs to a free block, header or payload. */
  ghost predicate IsFree(h: Heap, x: int) {
    exists i | 0 <= i < |h.free| :: h.free[i].addr <= x < h.free[i].addr + 0x20 + h.free[i].size
  }

  ghost predicate AllFree(h: Heap, lo: int, hi: int) { forall x | lo <= x < hi :: IsFree(h, x) }

  /** From `h` to `r` exactly the bytes in [lo, hi) stop being free. */
  ghost predicate Taken(h: Heap, r: Heap, lo: int, hi: int) {
    forall x :: IsFree(r, x) <==> IsFree(h, x) && !(lo <= x < hi)
  }

  /** From `h` to `r` exactly the bytes in [lo, hi) become free. */
  ghost predicate Given(h: Heap, r: Heap, lo: int, hi: int) {
    forall x :: IsFree(r, x) <==> IsFree(h, x) || lo <= x < hi
  }

  function Top(b: Block): int { b.addr + 0x20 + b.size }

  // ----- Allocation -----

  /** `n` is the least positive multiple of four that holds `size` bytes. */
  predicate Needs(size: int, n: int) { n > 0 && n % 4 == 0 && size <= n && (n == 4 || n - 4 < size) }

  /** `m` is the first multiple of `a` behind the header of `b`, and `n` bytes from there are in the block. */
  ghost predicate Offers(b: Block, n: int, a: int, m: int) {
    IsMultiple(m, a) && b.addr + 0x20 <= m < b.addr + 0x20 + a && m + n <= Top(b)
  }

  /** Block `i` comes before block `j`: the lower address from the head, the higher one from the tail;
      in best fit the smaller block, and on a tie the same. */
  predicate Before(h: Heap, fromHead: bool, i: int, j: int)
    requires 0 <= i < |h.free| && 0 <= j < |h.free|
  {
    var nearer := if fromHead then h.free[i].addr < h.free[j].addr else h.free[i].addr > h.free[j].addr;
    match h.mode
    case FirstFit => nearer
    case BestFit => h.free[i].size < h.free[j].size || (h.free[i].size == h.free[j].size && nearer)
  }

  ghost predicate IsBest(h: Heap, n: int, a: int, fromHead: bool, i: int, mem: int) {
    && 0 <= i < |h.free| && Offers(h.free[i], n, a, mem)
    && forall j, m | 0 <= j < |h.free| && j != i && Offers(h.free[j], n, a, m) :: Before(h, fromHead, i, j)
  }

  /** Whether the bytes in front of the new block stay free; else they become its padding. */
  predicate KeptInFront(front: int, fromHead: bool, useMargins: bool) {
    front >= 0x24 && (front >= 0x80 || useMargins || !fromHead)
  }

  /** Whether the bytes behind the new block stay free; else they are lost. */
  predicate KeptBehind(back: int, fromHead: bool, useMargins: bool) {
    back >= 0x24 && (back >= 0x80 || useMargins || fromHead)
  }

  ghost predicate TakenFrom(h: Heap, r: Heap, b: Block, n: int, fromHead: bool, mem: int) {
    var lo := if KeptInFront(mem - 0x20 - b.addr, fromHead, h.useMargins) then mem - 0x20 else b.addr;
    var hi := if KeptBehind(Top(b) - (mem + n), fromHead, h.useMargins) then mem + n else Top(b);
    Taken(h, r, lo, hi) && r == h.(free := r.free, used := h.used + [Block(mem - 0x20, n, mem - 0x20 - lo)])
  }

  ghost predicate AllocatedAs(h: Heap, r: Heap, n: int, a: int, fromHead: bool, mem: int) {
    if mem == 0 then r == h && forall j, m | 0 <= j < |h.free| :: !Offers(h.free[j], n, a, m)
    else exists i :: IsBest(h, n, a, fromHead, i, mem) && TakenFrom(h, r, h.free[i], n, fromHead, mem)
  }

  /** What an allocation is for: the best of the blocks that offer the room, from the head for a positive
      alignment and from the tail for a negative one; or nothing when no block does. */
  ghost predicate Allocated(h: Heap, r: Heap, size: int, alignment: int, mem: int) {
    var abs := if alignment < 0 then -alignment else alignment;
    exists n :: Needs(size, n) && AllocatedAs(h, r, n, if abs < 4 then 4 else abs, alignment > 0, mem)
  }

  lemma FreeIsCovered(h: Heap)
    ensures forall x :: IsFree(h, x) <==> Covered(h.free, x)
  {
    forall x ensures IsFree(h, x) <==> Covered(h.free, x) {
      if IsFree(h, x) {
        var i :| 0 <= i < |h.free| && h.free[i].addr <= x < h.free[i].addr + 0x20 + h.free[i].size;
        assert h.free[i].addr <= x < End(h.free[i]);
      }
      if Covered(h.free, x) {
        var i :| 0 <= i < |h.free| && h.free[i].addr <= x < End(h.free[i]);
        assert h.free[i].addr <= x < h.free[i].addr + 0x20 + h.free[i].size;
      }
    }
  }

  /** Two multiples less than `a` apart are the same. */
  lemma OneMultiple(x: int, y: int, a: int)
    requires a > 0 && IsMultiple(x, a) && IsMultiple(y, a) && x - a < y < x + a
    ensures x == y
  {
    var p :| x == p * a;
    var q :| y == q * a;
    if p < q { MultiplesApart(p, q, a); }
    if q < p { MultiplesApart(q, p, a); }
  }

  lemma OffersIs(b: Block, n: int, a: int, m: int)
    requires IsPowerOfTwo(a)
    ensures Offers(b, n, a, m) <==> m == AlignUp(PayloadStart(b), a) && Fits(b, n, a)
  {
    var y := AlignUp(PayloadStart(b), a);
    AlignUpBounds(PayloadStart(b), a);
    AlignUpIsAligned(PayloadStart(b), a);
    var q := AlignedIsMultiple(y, a);
    if Offers(b, n, a, m) { OneMultiple(m, y, a); }
  }

  lemma ChosenIsBest(h: Heap, n: int, a: int, direction: Direction, i: int, mem: int)
    requires Canonical(h.free) && IsPowerOfTwo(a) && Chosen(h.free, n, a, direction, h.mode, i)
    requires mem == AlignUp(PayloadStart(h.free[i]), a)
    ensures IsBest(h, n, a, direction.Front?, i, mem)
  {
    OffersIs(h.free[i], n, a, mem);
    Around(h.free, i);
    forall j, m | 0 <= j < |h.free| && j != i && Offers(h.free[j], n, a, m)
      ensures Before(h, direction.Front?, i, j)
    {
      OffersIs(h.free[j], n, a, m);
      Around(h.free, j);
    }
  }

  lemma CarveTakes(h: Heap, i: nat, mem: int, n: int, direction: Direction)
    requires Inv(h) && i < |h.free| && FitsAt(h.free[i], mem, n)
    ensures TakenFrom(h, AfterCarve(h, i, mem, n, direction), h.free[i], n, direction.Front?, mem)
  {
    var r := AfterCarve(h, i, mem, n, direction);
    CarveMeaning(h.free, i, mem, n, direction, h.useMargins);
    CarvedRegion(h.free[i], mem, n, direction, h.useMargins);
    FreeIsCovered(h);
    FreeIsCovered(r);
  }

  lemma RoundSizeNeeds(size: nat)
    ensures Needs(size, RoundSize(size))
  {
  }

  /** A safe allocation does just that. */
  lemma AllocationIsAllocated(h: Heap, size: nat, alignment: int, mem: int)
    requires Inv(h) && Legal(h, Op.Allocate(size, alignment))
    requires var i := PickFor(h, size, alignment); mem == if i == -1 then 0 else MemFor(h.free[i], alignment)
    requires PickFor(h, size, alignment) != -1 ==> mem != 0
    ensures Allocated(h, Apply(h, Op.Allocate(size, alignment)), size, alignment, mem)
  {
    var n, a, i := RoundSize(size), EffectiveAlignment(alignment), PickFor(h, size, alignment);
    var r := Apply(h, Op.Allocate(size, alignment));
    RoundSizeNeeds(size);
    if i == -1 {
      forall j, m | 0 <= j < |h.free| ensures !Offers(h.free[j], n, a, m) { OffersIs(h.free[j], n, a, m); }
    } else {
      FitMeaning(h.free[i], size, alignment);
      ChosenIsBest(h, n, a, DirectionOf(alignment), i, mem);
      CarveTakes(h, i, mem, n, DirectionOf(alignment));
    }
    assert AllocatedAs(h, r, n, a, alignment > 0, mem);
  }

  // ----- Freeing -----

  /** Freeing the block at `mem` gives its whole region back, and only that. */
  ghost predicate Freed(h: Heap, r: Heap, mem: int) {
    exists k :: 0 <= k < |h.used| && FreedAs(h, r, mem, k)
  }

  ghost predicate FreedAs(h: Heap, r: Heap, mem: int, k: int)
    requires 0 <= k < |h.used|
  {
    var u := h.used[k];
    && u.addr + 0x20 == mem && Given(h, r, u.addr - u.padding, Top(u))
    && r == h.(free := r.free, used := h.used[..k] + h.used[k + 1..])
  }

  lemma FreeingIsFreed(h: Heap, mem: int)
    requires Inv(h) && Legal(h, Op.Free(mem)) && IsUsed(h, mem)
    ensures Freed(h, Apply(h, Op.Free(mem)), mem)
  {
    var k := IndexOf(h.used, mem);
    var r := Apply(h, Op.Free(mem));
    FreeKeepsInv(h, k);
    assert UsedOk(h.used[k]) && Clear(h.free, RegionStart(h.used[k]), End(h.used[k]));
    InsertMeaning(h.free, RegionStart(h.used[k]), End(h.used[k]));
    FreeIsCovered(h);
    FreeIsCovered(r);
    assert FreedAs(h, r, mem, k);
  }

  // ----- Resizing -----

  predicate Sized(h: Heap, r: Heap, k: int, size: int)
    requires 0 <= k < |h.used|
  {
    r == h.(free := r.free, used := h.used[k := Block(h.used[k].addr, size, h.used[k].padding)])
  }

  /** Block `k` grows to at least `n` bytes if and only if all bytes from its end up to there are free: to
      `n` exactly when a header and four bytes are free behind, and up to the next byte that is not free
      otherwise. */
  ghost predicate Grown(h: Heap, r: Heap, k: int, n: int, newSize: int)
    requires 0 <= k < |h.used|
  {
    var u := h.used[k];
    var mem := u.addr + 0x20;
    if AllFree(h, Top(u), mem + n) then
      && Sized(h, r, k, newSize) && Taken(h, r, Top(u), mem + newSize)
      && n <= newSize < n + 0x24 && AllFree(h, Top(u), mem + newSize)
      && (if AllFree(h, mem + n, mem + n + 0x24) then newSize == n else !IsFree(h, mem + newSize))
    else r == h && newSize == 0
  }

  /** Block `k` shrinks to `n` bytes, giving back all bytes behind, unless these are fewer than a header
      and four bytes and the byte behind the block is not free. */
  ghost predicate Shrunk(h: Heap, r: Heap, k: int, n: int, newSize: int)
    requires 0 <= k < |h.used|
  {
    var u := h.used[k];
    if u.size - n < 0x24 && !IsFree(h, Top(u)) then r == h && newSize == u.size
    else Sized(h, r, k, n) && Given(h, r, u.addr + 0x20 + n, Top(u)) && newSize == n
  }

  ghost predicate ResizedAs(h: Heap, r: Heap, k: int, n: int, newSize: int)
    requires 0 <= k < |h.used|
  {
    if n == h.used[k].size then r == h && newSize == n
    else if n > h.used[k].size then Grown(h, r, k, n, newSize)
    else Shrunk(h, r, k, n, newSize)
  }

  /** What resizing the block at `mem` to `size` bytes, rounded up to a multiple of four, is for. */
  ghost predicate Resized(h: Heap, r: Heap, mem: int, size: int, newSize: int) {
    exists k, n :: 0 <= k < |h.used| && h.used[k].addr + 0x20 == mem && n % 4 == 0 && size <= n < size + 4
                   && ResizedAs(h, r, k, n, newSize)
  }

  lemma RankOfBlock(free: seq<Block>, i: nat)
    requires Canonical(free) && i < |free|
    ensures Rank(free, free[i].addr) == i
  {
    Around(free, i);
  }

  /** A free block that follows a used one begins at its end. */
  lemma FreeBehindBegins(h: Heap, k: nat)
    requires Inv(h) && k < |h.used| && IsFree(h, End(h.used[k]))
    ensures var j := Rank(h.free, End(h.used[k])); j < |h.free| && h.free[j].addr == End(h.used[k])
  {
    var u := h.used[k];
    assert UsedOk(u) && Clear(h.free, RegionStart(u), End(u));
    var i :| 0 <= i < |h.free| && h.free[i].addr <= End(u) < h.free[i].addr + 0x20 + h.free[i].size;
    assert h.free[i].addr == End(u);
    RankOfBlock(h.free, i);
  }

  /** All bytes of a free block are free, and the byte behind it is not. */
  lemma BlockIsFree(h: Heap, j: nat)
    requires Canonical(h.free) && j < |h.free|
    ensures AllFree(h, h.free[j].addr, End(h.free[j])) && !IsFree(h, End(h.free[j])) && FreeOk(h.free[j])
  {
    Around(h.free, j);
  }

  lemma FreeBehind(h: Heap, k: nat, j: nat)
    requires Inv(h) && k < |h.used| && j == Rank(h.free, End(h.used[k]))
    ensures IsFree(h, End(h.used[k])) <==> j < |h.free| && h.free[j].addr == End(h.used[k])
    ensures j < |h.free| && h.free[j].addr == End(h.used[k]) ==>
              AllFree(h, End(h.used[k]), End(h.free[j])) && !IsFree(h, End(h.free[j])) && FreeOk(h.free[j])
  {
    if IsFree(h, End(h.used[k])) { FreeBehindBegins(h, k); }
    if j < |h.free| && h.free[j].addr == End(h.used[k]) { BlockIsFree(h, j); }
  }

  lemma GrowTakes(h: Heap, k: nat, n: int, j: nat)
    requires Inv(h) && k < |h.used| && h.used[k].size < n && CanGrow(h, k, n) && j == Rank(h.free, End(h.used[k]))
    ensures var r, end := AfterGrow(h, k, n), GrownEnd(h.free[j], PayloadStart(h.used[k]) + n);
            && Taken(h, r, End(h.used[k]), end) && Sized(h, r, k, end - PayloadStart(h.used[k]))
            && r.used[k].size == end - PayloadStart(h.used[k])
  {
    TakeHeadMeaning(h.free, j, PayloadStart(h.used[k]) + n);
    FreeIsCovered(h);
    FreeIsCovered(AfterGrow(h, k, n));
  }

  lemma GrowIsGrown(h: Heap, k: nat, n: int)
    requires Inv(h) && k < |h.used| && h.used[k].size < n
    ensures Grown(h, AfterGrow(h, k, n), k, n, if CanGrow(h, k, n) then AfterGrow(h, k, n).used[k].size else 0)
  {
    var u, r := h.used[k], AfterGrow(h, k, n);
    var j := Rank(h.free, End(u));
    FreeBehind(h, k, j);
    if CanGrow(h, k, n) {
      GrowTakes(h, k, n, j);
    } else if j < |h.free| && h.free[j].addr == End(u) {
      assert !IsFree(h, End(h.free[j]));
    } else {
      assert !IsFree(h, End(u));
    }
  }

  lemma ShrinkIsShrunk(h: Heap, k: nat, n: int)
    requires Inv(h) && k < |h.used| && MINIMUM_FREE_BLOCK_SIZE <= n < h.used[k].size
    ensures Shrunk(h, AfterShrink(h, k, n), k, n, AfterShrink(h, k, n).used[k].size)
  {
    var u, r := h.used[k], AfterShrink(h, k, n);
    var lo := PayloadStart(u) + n;
    FreeBehind(h, k, Rank(h.free, End(u)));
    MergesAfterIff(h, k, lo);
    ShrinkFailsWhen(h, k, n);
    if r != h {
      ShrinkFrees(h, k, n);
      FreeIsCovered(h);
      FreeIsCovered(r);
    }
  }

  /** No free block lies between the end of a kept part and the end of its block. */
  lemma MergesAfterIff(h: Heap, k: nat, lo: int)
    requires Inv(h) && k < |h.used| && RegionStart(h.used[k]) < lo <= End(h.used[k])
    ensures Rank(h.free, lo) == Rank(h.free, End(h.used[k]))
  {
    var p, q := Rank(h.free, lo), Rank(h.free, End(h.used[k]));
    assert Clear(h.free, RegionStart(h.used[k]), End(h.used[k]));
    if p < q { Around(h.free, p); }
  }

  /** A resize to a size that rounding keeps in range does just that. */
  lemma ResizingIsResized(h: Heap, k: nat, size: nat, newSize: int)
    requires Inv(h) && k < |h.used| && ResizeSafe(size)
    requires var n := RoundUp(size);
             newSize == if n > h.used[k].size && !CanGrow(h, k, n) then 0 else AfterResize(h, k, size).used[k].size
    ensures Resized(h, AfterResize(h, k, size), PayloadStart(h.used[k]), size, newSize)
  {
    var n, r := RoundUp(size), AfterResize(h, k, size);
    if n > h.used[k].size {
      GrowIsGrown(h, k, n);
    } else if n < h.used[k].size {
      ShrinkIsShrunk(h, k, n);
    }
    ResizedBy(h, r, k, n, size, newSize);
  }

  lemma ResizedBy(h: Heap, r: Heap, k: nat, n: int, size: int, newSize: int)
    requires k < |h.used| && n % 4 == 0 && size <= n < size + 4 && ResizedAs(h, r, k, n, newSize)
    ensures Resized(h, r, PayloadStart(h.used[k]), size, newSize)
  {
  }

  // ----- Adjusting -----

  /** The heap gives up all free bytes at its end, and only those. */
  ghost predicate Adjusted(h: Heap, r: Heap, address: int, size: int) {
    && size >= 0 && address == r.end == h.end - size && AllFree(h, address, h.end) && !IsFree(h, address - 1)
    && Taken(h, r, address, h.end) && r == h.(free := r.free, end := r.end)
  }

  lemma AdjustingIsAdjusted(h: Heap)
    requires Inv(h)
    ensures Adjusted(h, AfterAdjust(h), AfterAdjust(h).end, h.end - AfterAdjust(h).end)
  {
    var r := AfterAdjust(h);
    FreeIsCovered(h);
    FreeIsCovered(r);
    if h.free != [] {
      var n := |h.free| - 1;
      Around(h.free, n);
      assert h.free == h.free[..n] + [h.free[n]];
      forall x ensures Covered(h.free, x) <==> Covered(h.free[..n], x) || h.free[n].addr <= x < End(h.free[n]) {
        CoveredConcat(h.free[..n], [h.free[n]], x);
        CoveredOne(h.free[n], x);
      }
    }
  }
}
