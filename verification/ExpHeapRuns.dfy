/** Runs of the expandable heap: which operations may be asked for, what each does, and what
    holds after any sequence of them. */
module ExpHeapRuns {
  import opened Alignment
  import opened ExpHeapLayout
  import opened ExpHeapSpec

  datatype Op =
    | Allocate(size: nat, alignment: int)
    | Free(mem: int)
    | Resize(mem: int, size: nat)
    | Adjust
    | SetMode(mode: Mode)
    | SetMargins(useMargins: bool)

  ghost predicate Legal(h: Heap, op: Op) {
    match op
    case Allocate(size, alignment) => LegalAlignment(alignment) && RequestSafe(size, alignment)
    case Free(mem) => IsUsed(h, mem)
    case Resize(mem, size) => IsUsed(h, mem) && ResizeSafe(size)
    case _ => true
  }

  ghost function PickFor(h: Heap, size: int, alignment: int): int
    requires LegalAlignment(alignment)
  {
    Pick(h.free, RoundSize(size), EffectiveAlignment(alignment), DirectionOf(alignment), h.mode)
  }

  function MemFor(b: Block, alignment: int): int
    requires LegalAlignment(alignment)
  {
    AlignUp(PayloadStart(b), EffectiveAlignment(alignment))
  }

  lemma RoundSizeMeaning(size: int)
    requires size >= 0
    ensures RoundSize(size) % 4 == 0 && 4 <= RoundSize(size) && size <= RoundSize(size) < size + 5
  {
  }

  lemma FitMeaning(b: Block, size: int, alignment: int)
    requires LegalAlignment(alignment) && size >= 0
    ensures Fits(b, RoundSize(size), EffectiveAlignment(alignment))
            <==> FitsAt(b, MemFor(b, alignment), RoundSize(size))
  {
    RoundSizeMeaning(size);
    var a := EffectiveAlignment(alignment);
    AlignUpBounds(PayloadStart(b), a);
  }

  /** The bytes an operation loses for good. */
  ghost function DroppedBy(h: Heap, op: Op): int
    requires Legal(h, op)
  {
    if op.Allocate? && PickFor(h, op.size, op.alignment) != -1 then
      var b := h.free[PickFor(h, op.size, op.alignment)];
      Dropped(b, MemFor(b, op.alignment), RoundSize(op.size), DirectionOf(op.alignment), h.useMargins)
    else 0
  }

  /** What an allocation is meant to do. */
  ghost function AfterAllocate(h: Heap, size: int, alignment: int): Heap
    requires LegalAlignment(alignment)
  {
    var i := PickFor(h, size, alignment);
    if i == -1 then h else
      AlignUpBounds(PayloadStart(h.free[i]), EffectiveAlignment(alignment));
      AfterCarve(h, i, MemFor(h.free[i], alignment), RoundSize(size), DirectionOf(alignment))
  }

  /** The effect of one operation. `Free` may rely on its coalescing step: see `StepKeepsInv`. */
  ghost function Apply(h: Heap, op: Op): Heap
    requires Legal(h, op)
  {
    match op
    case Allocate(size, alignment) => AfterAllocate(h, size, alignment)
    case Free(mem) =>
      var k := IndexOf(h.used, mem);
      if Insertable(h.free, RegionStart(h.used[k]), End(h.used[k])) then AfterFree(h, k) else h
    case Resize(mem, size) => AfterResize(h, IndexOf(h.used, mem), size)
    case Adjust => AfterAdjust(h)
    case SetMode(mode) => h.(mode := mode)
    case SetMargins(useMargins) => h.(useMargins := useMargins)
  }

  /** The assertion inside `FreeToExpHeap`: the coalescing step reports success. */
  ghost predicate FreeSucceeds(h: Heap, mem: int)
    requires IsUsed(h, mem)
  {
    var u := h.used[IndexOf(h.used, mem)];
    Insertable(h.free, RegionStart(u), End(u))
  }

  /** Every operation keeps the layout, moves only the end of the heap, and accounts for every
      byte. Freeing a used block never fails its own assertion. */
  lemma StepKeepsInv(h: Heap, op: Op)
    requires Inv(h) && Legal(h, op)
    ensures Inv(Apply(h, op))
    ensures Apply(h, op).start == h.start && Apply(h, op).end <= h.end
    ensures Slack(Apply(h, op)) == Slack(h) + DroppedBy(h, op)
    ensures op.Free? ==> FreeSucceeds(h, op.mem)
  {
    match op
    case Allocate(size, alignment) => AllocateKeepsInv(h, size, alignment);
    case Free(mem) =>
      FreeKeepsInv(h, IndexOf(h.used, mem));
      FreeSlack(h, IndexOf(h.used, mem));
    case Resize(mem, size) =>
      ResizeKeepsInv(h, IndexOf(h.used, mem), size);
      ResizeSlack(h, IndexOf(h.used, mem), size);
    case Adjust =>
      AdjustKeepsInv(h);
      AdjustSlack(h);
    case _ =>
  }

  lemma AllocateKeepsInv(h: Heap, size: nat, alignment: int)
    requires Inv(h) && Legal(h, Allocate(size, alignment))
    ensures Inv(Apply(h, Allocate(size, alignment)))
    ensures Slack(Apply(h, Allocate(size, alignment))) == Slack(h) + DroppedBy(h, Allocate(size, alignment))
  {
    if PickFor(h, size, alignment) != -1 {
      var i, mem, taken := ApplyAllocate(h, size, alignment);
      CarveKeepsInv(h, i, mem, RoundSize(size), DirectionOf(alignment));
      CarveSlack(h, i, mem, RoundSize(size), DirectionOf(alignment));
    }
  }

  lemma ResizeKeepsInv(h: Heap, k: nat, size: nat)
    requires Inv(h) && k < |h.used| && 0 < size
    ensures Inv(AfterResize(h, k, size))
  {
    var s := RoundUp(size);
    assert s >= 4;
    if s > h.used[k].size { GrowKeepsInv(h, k, s); }
    else if s < h.used[k].size { ShrinkKeepsInv(h, k, s); }
  }

  // ----- Four-byte alignment -----

  ghost predicate FreeAligned(free: seq<Block>) {
    forall i | 0 <= i < |free| :: free[i].addr % 4 == 0
  }

  /** Every block and every region starts at a multiple of four. */
  ghost predicate FourAligned(h: Heap) {
    && h.start % 4 == 0 && FreeAligned(h.free)
    && forall k | 0 <= k < |h.used| :: h.used[k].addr % 4 == 0 && h.used[k].padding % 4 == 0
  }

  lemma InsertAligned(free: seq<Block>, lo: int, hi: int)
    requires FreeAligned(free) && lo % 4 == 0 && Insertable(free, lo, hi)
    ensures FreeAligned(Insert(free, lo, hi))
  {
  }

  lemma CarveAligned(free: seq<Block>, i: nat, mem: int, size: int, direction: Direction, useMargins: bool)
    requires FreeAligned(free) && i < |free| && mem % 4 == 0 && size % 4 == 0
    ensures FreeAligned(Carve(free, i, mem, size, direction, useMargins))
    ensures CarvedBlock(free[i], mem, size, direction, useMargins).padding % 4 == 0
  {
  }

  lemma MemForAligned(b: Block, alignment: int)
    requires LegalAlignment(alignment)
    ensures IsAligned(MemFor(b, alignment), EffectiveAlignment(alignment)) && MemFor(b, alignment) % 4 == 0
  {
    AlignUpIsAligned(PayloadStart(b), EffectiveAlignment(alignment));
    AlignedIsFourAligned(MemFor(b, alignment), EffectiveAlignment(alignment));
  }

  lemma StepKeepsAligned(h: Heap, op: Op)
    requires FourAligned(h) && Legal(h, op)
    ensures FourAligned(Apply(h, op))
  {
    match op
    case Allocate(size, alignment) => AllocateAligned(h, size, alignment);
    case Free(mem) =>
      var u := h.used[IndexOf(h.used, mem)];
      if FreeSucceeds(h, mem) { InsertAligned(h.free, RegionStart(u), End(u)); }
    case Resize(mem, size) => ResizeAligned(h, IndexOf(h.used, mem), size);
    case _ =>
  }

  lemma AllocateAligned(h: Heap, size: nat, alignment: int)
    requires FourAligned(h) && Legal(h, Allocate(size, alignment))
    ensures FourAligned(Apply(h, Allocate(size, alignment)))
  {
    var i := PickFor(h, size, alignment);
    if i != -1 {
      AlignUpBounds(PayloadStart(h.free[i]), EffectiveAlignment(alignment));
      MemForAligned(h.free[i], alignment);
      RoundSizeMeaning(size);
      AfterCarveAligned(h, i, MemFor(h.free[i], alignment), RoundSize(size), DirectionOf(alignment));
    }
  }

  lemma AfterCarveAligned(h: Heap, i: nat, mem: int, size: int, direction: Direction)
    requires FourAligned(h) && i < |h.free| && PayloadStart(h.free[i]) <= mem && mem % 4 == 0 && size % 4 == 0
    ensures FourAligned(AfterCarve(h, i, mem, size, direction))
  {
    CarveAligned(h.free, i, mem, size, direction, h.useMargins);
  }

  lemma ResizeAligned(h: Heap, k: nat, size: nat)
    requires FourAligned(h) && k < |h.used|
    ensures FourAligned(AfterResize(h, k, size))
  {
    var s := RoundUp(size);
    assert s % 4 == 0;
    if s < h.used[k].size { ShrinkAligned(h, k, s); }
    else if s > h.used[k].size { GrowAligned(h, k, s); }
  }

  /** A new size moves no block. */
  lemma UsedAligned(h: Heap, free: seq<Block>, k: nat, s: int)
    requires FourAligned(h) && k < |h.used| && FreeAligned(free)
    ensures FourAligned(h.(free := free, used := h.used[k := h.used[k].(size := s)]))
  {
  }

  lemma ShrinkAligned(h: Heap, k: nat, s: int)
    requires FourAligned(h) && k < |h.used| && s % 4 == 0
    ensures FourAligned(AfterShrink(h, k, s))
  {
    var lo, hi := PayloadStart(h.used[k]) + s, End(h.used[k]);
    if Insertable(h.free, lo, hi) {
      InsertAligned(h.free, lo, hi);
      UsedAligned(h, Insert(h.free, lo, hi), k, s);
      assert AfterShrink(h, k, s) == h.(free := Insert(h.free, lo, hi), used := h.used[k := h.used[k].(size := s)]);
    }
  }

  lemma GrowAligned(h: Heap, k: nat, s: int)
    requires FourAligned(h) && k < |h.used| && s % 4 == 0
    ensures FourAligned(AfterGrow(h, k, s))
  {
    if CanGrow(h, k, s) {
      TakeHeadAligned(h.free, Rank(h.free, End(h.used[k])), PayloadStart(h.used[k]) + s);
    }
  }

  lemma TakeHeadAligned(free: seq<Block>, j: nat, wanted: int)
    requires FreeAligned(free) && j < |free| && wanted % 4 == 0
    ensures FreeAligned(TakeHead(free, j, wanted))
  {
  }

  // ----- Byte conservation -----

  lemma DroppedBound(b: Block, mem: int, size: int, direction: Direction, useMargins: bool)
    requires FitsAt(b, mem, size)
    ensures 0 <= Dropped(b, mem, size, direction, useMargins) < MAXIMUM_PADDING_ALIGNMENT
    ensures direction.Front? || useMargins ==> Dropped(b, mem, size, direction, useMargins) < MINIMUM_REGION
  {
  }

  lemma CarveSlack(h: Heap, i: nat, mem: int, size: int, direction: Direction)
    requires Canonical(h.free) && i < |h.free| && FitsAt(h.free[i], mem, size)
    ensures Slack(AfterCarve(h, i, mem, size, direction))
            == Slack(h) + Dropped(h.free[i], mem, size, direction, h.useMargins)
  {
    var u := CarvedBlock(h.free[i], mem, size, direction, h.useMargins);
    assert FreeOk(h.free[i]);
    CarvedRegion(h.free[i], mem, size, direction, h.useMargins);
    CarveBytes(h.free, i, mem, size, direction, h.useMargins);
    BytesConcat(h.used, [u]);
    BytesOne(u);
  }

  lemma FreeSlack(h: Heap, k: nat)
    requires Canonical(h.free) && k < |h.used| && Insertable(h.free, RegionStart(h.used[k]), End(h.used[k]))
    ensures Slack(AfterFree(h, k)) == Slack(h)
  {
    InsertBytes(h.free, RegionStart(h.used[k]), End(h.used[k]));
    BytesRemove(h.used, k);
  }

  lemma BytesRemove(s: seq<Block>, k: nat)
    requires k < |s|
    ensures Bytes(Remove(s, k)) == Bytes(s) - (End(s[k]) - RegionStart(s[k]))
  {
    BytesReplace(s, k, k + 1, []);
    assert Remove(s, k) == s[..k] + [] + s[k + 1..];
    assert s[k..k + 1] == [s[k]];
    BytesOne(s[k]);
  }

  lemma BytesUpdate(s: seq<Block>, k: nat, v: Block)
    requires k < |s| && RegionStart(v) == RegionStart(s[k])
    ensures Bytes(s[k := v]) == Bytes(s) - End(s[k]) + End(v)
  {
    assert s[k := v] == s[..k] + [v] + s[k + 1..];
    BytesReplace(s, k, k + 1, [v]);
    assert s[k..k + 1] == [s[k]];
    BytesOne(s[k]);
    BytesOne(v);
  }

  lemma ResizeSlack(h: Heap, k: nat, size: nat)
    requires Canonical(h.free) && k < |h.used| && 0 < size
    ensures Slack(AfterResize(h, k, size)) == Slack(h)
  {
    var u := h.used[k];
    var s := RoundUp(size);
    if s > u.size { GrowSlack(h, k, s); }
    else if s < u.size { ShrinkSlack(h, k, s); }
  }

  lemma ShrinkSlack(h: Heap, k: nat, size: int)
    requires Canonical(h.free) && k < |h.used| && size < h.used[k].size
    ensures Slack(AfterShrink(h, k, size)) == Slack(h)
  {
    var u, v := h.used[k], h.used[k].(size := size);
    ShrinkIs(h, k, size);
    if Insertable(h.free, End(v), End(u)) { ShrunkSlack(h, k, v); }
  }

  lemma ShrinkIs(h: Heap, k: nat, size: int)
    requires Canonical(h.free) && k < |h.used| && size < h.used[k].size
    ensures var u, v := h.used[k], h.used[k].(size := size);
            if Insertable(h.free, End(v), End(u))
            then AfterShrink(h, k, size) == h.(free := Insert(h.free, End(v), End(u)), used := h.used[k := v])
            else AfterShrink(h, k, size) == h
  {
  }

  lemma ShrunkSlack(h: Heap, k: nat, v: Block)
    requires Canonical(h.free) && k < |h.used| && RegionStart(v) == RegionStart(h.used[k])
    requires End(v) <= End(h.used[k]) && Insertable(h.free, End(v), End(h.used[k]))
    ensures Slack(h.(free := Insert(h.free, End(v), End(h.used[k])), used := h.used[k := v])) == Slack(h)
  {
    InsertBytes(h.free, End(v), End(h.used[k]));
    MovedSlack(h, k, v, Insert(h.free, End(v), End(h.used[k])));
  }

  /** Bytes that move between block `k` and the free list are not lost. */
  lemma MovedSlack(h: Heap, k: nat, v: Block, free: seq<Block>)
    requires k < |h.used| && RegionStart(v) == RegionStart(h.used[k])
    requires Bytes(free) == Bytes(h.free) + End(h.used[k]) - End(v)
    ensures Slack(h.(free := free, used := h.used[k := v])) == Slack(h)
  {
    BytesUpdate(h.used, k, v);
  }

  lemma GrowSlack(h: Heap, k: nat, size: int)
    requires Canonical(h.free) && k < |h.used| && h.used[k].size < size
    ensures Slack(AfterGrow(h, k, size)) == Slack(h)
  {
    if CanGrow(h, k, size) {
      var u := h.used[k];
      var j := Rank(h.free, End(u));
      var wanted := PayloadStart(u) + size;
      var v := u.(size := GrownEnd(h.free[j], wanted) - PayloadStart(u));
      var r := AfterGrow(h, k, size);
      assert r == h.(free := TakeHead(h.free, j, wanted), used := h.used[k := v]);
      assert Bytes(r.free) == Bytes(h.free) + End(u) - End(v) by { TakeHeadBytes(h.free, j, wanted); }
      MovedSlack(h, k, v, r.free);
    }
  }

  lemma TakeHeadBytes(free: seq<Block>, j: nat, wanted: int)
    requires Canonical(free) && j < |free|
    ensures Bytes(TakeHead(free, j, wanted)) == Bytes(free) - (GrownEnd(free[j], wanted) - free[j].addr)
  {
    var b := free[j];
    var mid := if GrownEnd(b, wanted) == End(b) then [] else [FreeBlock(wanted, End(b))];
    BytesReplace(free, j, j + 1, mid);
    FreeBytesRange(free, j, j + 1);
    BytesOne(FreeBlock(wanted, End(b)));
  }

  lemma AdjustSlack(h: Heap)
    requires Canonical(h.free)
    ensures Slack(AfterAdjust(h)) == Slack(h)
  {
    if CanAdjust(h) {
      assert FreeOk(h.free[|h.free| - 1]);
    }
  }

  // ----- Runs -----

  ghost predicate LegalRun(h: Heap, ops: seq<Op>)
    decreases |ops|
  {
    ops == [] || (Legal(h, ops[0]) && LegalRun(Apply(h, ops[0]), ops[1..]))
  }

  ghost function Run(h: Heap, ops: seq<Op>): Heap
    requires LegalRun(h, ops)
    decreases |ops|
  {
    if ops == [] then h else Run(Apply(h, ops[0]), ops[1..])
  }

  ghost function LostIn(h: Heap, ops: seq<Op>): int
    requires LegalRun(h, ops)
    decreases |ops|
  {
    if ops == [] then 0 else DroppedBy(h, ops[0]) + LostIn(Apply(h, ops[0]), ops[1..])
  }

  function Allocations(ops: seq<Op>): nat {
    if ops == [] then 0 else (if ops[0].Allocate? then 1 else 0) + Allocations(ops[1..])
  }

  lemma DroppedByBound(h: Heap, op: Op)
    requires Inv(h) && Legal(h, op)
    ensures 0 <= DroppedBy(h, op) <= if op.Allocate? then 0x7F else 0
  {
    if op.Allocate? && PickFor(h, op.size, op.alignment) != -1 {
      var b := h.free[PickFor(h, op.size, op.alignment)];
      FitMeaning(b, op.size, op.alignment);
      DroppedBound(b, MemFor(b, op.alignment), RoundSize(op.size), DirectionOf(op.alignment), h.useMargins);
    }
  }

  /** Safety and byte conservation over every run. Slack never shrinks: only allocations lose
      bytes, less than 0x80 each, and no later operation recovers them. */
  lemma {:induction false} RunKeepsLayout(h: Heap, ops: seq<Op>)
    requires Inv(h) && FourAligned(h) && LegalRun(h, ops)
    ensures Inv(Run(h, ops)) && FourAligned(Run(h, ops))
    ensures Slack(Run(h, ops)) == Slack(h) + LostIn(h, ops)
    ensures 0 <= LostIn(h, ops) <= 0x7F * Allocations(ops)
    ensures Run(h, ops).start == h.start && Run(h, ops).end <= h.end
    decreases |ops|
  {
    if ops != [] {
      StepKeepsInv(h, ops[0]);
      StepKeepsAligned(h, ops[0]);
      DroppedByBound(h, ops[0]);
      RunKeepsLayout(Apply(h, ops[0]), ops[1..]);
    }
  }

  // ----- Creation -----

  /** The heap `InitializeExpHeap` sets up over [start, end). */
  function Fresh(start: int, end: int): Heap {
    Heap(start, end, [FreeBlock(start, end)], [], FirstFit, false)
  }

  lemma FreshIsWellFormed(start: int, end: int)
    requires 0 <= start && end < WORD_LIMIT
    ensures Inv(Fresh(start, end)) <==> end - start >= MINIMUM_REGION
    ensures Slack(Fresh(start, end)) == 0
  {
    BytesOne(FreeBlock(start, end));
    if end - start >= MINIMUM_REGION { assert FreeOk(FreeBlock(start, end)); }
    if Inv(Fresh(start, end)) { assert FreeOk(Fresh(start, end).free[0]); }
  }

  /** Once every block has been freed, the heap is one free block again exactly when no
      allocation of the run lost a byte. */
  lemma AllFreedRestoresHeap(start: int, end: int, ops: seq<Op>)
    requires 0 <= start && start + MINIMUM_REGION <= end < WORD_LIMIT && start % 4 == 0
    requires Inv(Fresh(start, end)) && LegalRun(Fresh(start, end), ops)
    requires Run(Fresh(start, end), ops).used == []
    ensures var h := Run(Fresh(start, end), ops);
            LostIn(Fresh(start, end), ops) == 0
            <==> h.free == if h.end == start then [] else [FreeBlock(start, h.end)]
  {
    var h := Run(Fresh(start, end), ops);
    FreshIsWellFormed(start, end);
    RunKeepsLayout(Fresh(start, end), ops);
    forall i | 0 <= i < |h.free| ensures start <= h.free[i].addr && End(h.free[i]) <= h.end {
      assert FreeOk(h.free[i]);
    }
    CanonicalBytes(h.free, start, h.end);
    BytesOne(FreeBlock(start, h.end));
  }

  // ----- Allocate, then free -----

  lemma IndexOfUsed(h: Heap, k: nat)
    requires Inv(h) && k < |h.used|
    ensures IndexOf(h.used, PayloadStart(h.used[k])) == k
  {
    forall j | 0 <= j < k { UsedDistinct(h, j, k); }
  }

  lemma UsedDistinct(h: Heap, j: nat, k: nat)
    requires Inv(h) && j < k < |h.used|
    ensures PayloadStart(h.used[j]) != PayloadStart(h.used[k])
  {
    Others(h.used, j);
    Others(h.used, k);
    assert Apart(h.used[j], h.used[k]);
  }

  /** Freeing a block that was just allocated restores the whole heap, except for a dropped
      tail: then the block that was carved ends where the allocation ended. */
  lemma AllocateThenFree(h: Heap, size: nat, alignment: int) returns (i: int, mem: int, taken: Heap, freed: Heap)
    requires Inv(h) && Legal(h, Allocate(size, alignment)) && PickFor(h, size, alignment) != -1
    ensures i == PickFor(h, size, alignment) && 0 <= i < |h.free| && mem == MemFor(h.free[i], alignment)
    ensures taken == Apply(h, Allocate(size, alignment))
    ensures Legal(taken, Free(mem)) && freed == Apply(taken, Free(mem))
    ensures freed == Restored(h, i, mem, RoundSize(size), DroppedBy(h, Allocate(size, alignment)))
  {
    i, mem, taken := ApplyAllocate(h, size, alignment);
    freed := CarveThenFree(h, i, mem, RoundSize(size), DirectionOf(alignment), taken,
        DroppedBy(h, Allocate(size, alignment)));
  }

  lemma ApplyAllocate(h: Heap, size: nat, alignment: int) returns (i: int, mem: int, taken: Heap)
    requires Inv(h) && Legal(h, Allocate(size, alignment)) && PickFor(h, size, alignment) != -1
    ensures i == PickFor(h, size, alignment) && 0 <= i < |h.free| && mem == MemFor(h.free[i], alignment)
    ensures FreeOk(h.free[i]) && FitsAt(h.free[i], mem, RoundSize(size))
    ensures taken == AfterCarve(h, i, mem, RoundSize(size), DirectionOf(alignment))
            == Apply(h, Allocate(size, alignment))
    ensures DroppedBy(h, Allocate(size, alignment))
            == Dropped(h.free[i], mem, RoundSize(size), DirectionOf(alignment), h.useMargins)
  {
    i := PickFor(h, size, alignment);
    mem := MemFor(h.free[i], alignment);
    FitMeaning(h.free[i], size, alignment);
    taken := Apply(h, Allocate(size, alignment));
  }

  /** The heap in which free block `i` ends at `end`. */
  function CutAt(h: Heap, i: nat, end: int): Heap
    requires i < |h.free|
  {
    h.(free := h.free[i := FreeBlock(h.free[i].addr, end)])
  }

  function CutBy(h: Heap, i: nat, drop: int): Heap
    requires i < |h.free|
  {
    CutAt(h, i, End(h.free[i]) - drop)
  }

  /** The heap `h` again, or, when `drop` bytes were lost, `h` with free block `i` cut at the end of
      the `size` bytes at `mem`. */
  function Restored(h: Heap, i: nat, mem: int, size: int, drop: int): Heap
    requires i < |h.free|
  {
    if drop == 0 then h else CutAt(h, i, mem + size)
  }

  lemma CutMeaning(h: Heap, i: nat, mem: int, size: int, direction: Direction)
    requires Canonical(h.free) && i < |h.free|
    ensures var drop := Dropped(h.free[i], mem, size, direction, h.useMargins);
            CutBy(h, i, drop) == Restored(h, i, mem, size, drop)
  {
    assert FreeOk(h.free[i]);
    assert FreeBlock(h.free[i].addr, End(h.free[i])) == h.free[i];
    assert h.free[i := h.free[i]] == h.free;
  }

  lemma CarveThenFreeCuts(h: Heap, i: nat, mem: int, size: int, direction: Direction, taken: Heap)
    requires Canonical(h.free) && i < |h.free| && FitsAt(h.free[i], mem, size)
    requires taken == AfterCarve(h, i, mem, size, direction) && IndexOf(taken.used, mem) == |h.used|
    ensures Legal(taken, Free(mem))
    ensures Apply(taken, Free(mem))
            == CutBy(h, i, Dropped(h.free[i], mem, size, direction, h.useMargins))
  {
    CarveInsertRoundTrip(h.free, i, mem, size, direction, h.useMargins);
    FreeLast(h, i, CarvedBlock(h.free[i], mem, size, direction, h.useMargins), taken,
             Dropped(h.free[i], mem, size, direction, h.useMargins), mem);
  }

  lemma CarveThenFree(h: Heap, i: nat, mem: int, size: int, direction: Direction, taken: Heap, drop: int)
      returns (freed: Heap)
    requires Inv(h) && i < |h.free| && FitsAt(h.free[i], mem, size)
    requires taken == AfterCarve(h, i, mem, size, direction)
    requires drop == Dropped(h.free[i], mem, size, direction, h.useMargins)
    ensures Legal(taken, Free(mem)) && freed == Apply(taken, Free(mem))
    ensures freed == Restored(h, i, mem, size, drop)
  {
    CarvedIsLast(h, i, mem, size, direction);
    CarveThenFreeCuts(h, i, mem, size, direction, taken);
    CutMeaning(h, i, mem, size, direction);
    freed := Apply(taken, Free(mem));
  }

  lemma CarvedIsLast(h: Heap, i: nat, mem: int, size: int, direction: Direction)
    requires Inv(h) && i < |h.free| && FitsAt(h.free[i], mem, size)
    ensures IndexOf(AfterCarve(h, i, mem, size, direction).used, mem) == |h.used|
  {
    CarveKeepsInv(h, i, mem, size, direction);
    IndexOfUsed(AfterCarve(h, i, mem, size, direction), |h.used|);
  }

  lemma FreeLast(h: Heap, i: nat, u: Block, taken: Heap, drop: int, mem: int)
    requires i < |h.free| && taken == h.(free := taken.free, used := h.used + [u])
    requires IndexOf(taken.used, mem) == |h.used|
    requires Restores(h.free, i, taken.free, RegionStart(u), End(u), drop)
    ensures Legal(taken, Free(mem))
    ensures Apply(taken, Free(mem)) == CutBy(h, i, drop)
  {
    assert taken.used[|h.used|] == u;
    assert Remove(taken.used, |h.used|) == h.used;
  }

  /** A heap of 72 bytes in which 32 bytes are allocated and freed again. */
  const TINY := Fresh(0x1000, 0x1048)
  const TINY_RUN := [Allocate(0x20, 4), Free(0x1020)]

  lemma FreshIsSound(start: int, end: int)
    requires 0 <= start && start + MINIMUM_REGION <= end < WORD_LIMIT && start % 4 == 0
    ensures Inv(Fresh(start, end)) && FourAligned(Fresh(start, end))
    ensures Fresh(start, end).free == [Block(start, end - start - HEADER, 0)]
  {
    FreshIsWellFormed(start, end);
  }

  lemma FourIsLegal()
    ensures IsPowerOfTwo(4) && LegalAlignment(4) && EffectiveAlignment(4) == 4 && RequestSafe(0x20, 4)
            && RoundSize(0x20) == 0x20
  {
    AlignUpSmall(0);
  }

  lemma TinyPicks(b: Block, h: Heap)
    requires b == Block(0x1000, 0x28, 0) && h.free == [b] && IsPowerOfTwo(4)
    ensures AlignUp(PayloadStart(b), 4) == 0x1020 && Pick(h.free, 0x20, 4, Front, h.mode) == 0
    ensures Dropped(b, 0x1020, 0x20, Front, h.useMargins) == 8
  {
    AlignUpSmall(PayloadStart(b));
    assert Fits(h.free[0], 0x20, 4);
    assert SomeFit(h.free, 0x20, 4);
  }

  lemma TinyAllocates()
    ensures Inv(TINY) && FourAligned(TINY) && Legal(TINY, Allocate(0x20, 4))
    ensures PickFor(TINY, 0x20, 4) == 0 && MemFor(TINY.free[0], 4) == 0x1020 && DroppedBy(TINY, Allocate(0x20, 4)) == 8
  {
    FreshIsSound(0x1000, 0x1048);
    FourIsLegal();
    TinyPicks(TINY.free[0], TINY);
  }

  lemma RunOfOne(h: Heap, op: Op)
    requires Legal(h, op)
    ensures LegalRun(h, [op]) && Run(h, [op]) == Apply(h, op) && LostIn(h, [op]) == DroppedBy(h, op)
  {
    assert [op][1..] == [];
    assert Run(Apply(h, op), []) == Apply(h, op) && LostIn(Apply(h, op), []) == 0;
  }

  lemma RunOfTwo(h: Heap, op: Op, next: Op)
    requires Legal(h, op) && Legal(Apply(h, op), next)
    ensures LegalRun(h, [op, next]) && Run(h, [op, next]) == Apply(Apply(h, op), next)
    ensures LostIn(h, [op, next]) == DroppedBy(h, op) + DroppedBy(Apply(h, op), next)
  {
    assert [op, next][1..] == [next];
    RunOfOne(Apply(h, op), next);
  }

  lemma TinyGivesBack(freed: Heap)
    requires freed == Restored(TINY, 0, 0x1020, 0x20, 8)
    ensures freed.used == [] && freed.free == [FreeBlock(0x1000, 0x1040)] != TINY.free
  {
  }

  /** The loss is real: this run ends with everything freed, and eight bytes short. */
  lemma SomeRunLosesBytes()
    ensures LegalRun(TINY, TINY_RUN) && Run(TINY, TINY_RUN).used == [] && LostIn(TINY, TINY_RUN) == 8
    ensures Run(TINY, TINY_RUN).free == [FreeBlock(0x1000, 0x1040)] != TINY.free
  {
    TinyAllocates();
    var i, mem, taken, freed := AllocateThenFree(TINY, 0x20, 4);
    TinyGivesBack(freed);
    RunOfTwo(TINY, Allocate(0x20, 4), Free(0x1020));
  }

  // ----- A failed shrink -----

  /** A shrink whose tail is too small to stand alone and has no free block behind it leaves
      the whole heap as it was. Every other shrink takes effect. */
  lemma ShrinkFailsWhen(h: Heap, k: nat, size: int)
    requires Inv(h) && k < |h.used| && 0 <= size < h.used[k].size
    ensures AfterShrink(h, k, size) == h
            <==> !MergesAfter(h.free, PayloadStart(h.used[k]) + size, End(h.used[k]))
                 && h.used[k].size - size < MINIMUM_REGION
    ensures AfterShrink(h, k, size) != h
            ==> AfterShrink(h, k, size).used == h.used[k := h.used[k].(size := size)]
  {
    var u := h.used[k];
    assert UsedOk(u);
    NothingEndsInside(h, k, PayloadStart(u) + size);
    InsertableWithoutPredecessor(h.free, PayloadStart(u) + size, End(u));
    assert h.used[k := u.(size := size)][k] != u;
  }

  /** A shrink that takes effect frees exactly the bytes above the new size. */
  lemma ShrinkFrees(h: Heap, k: nat, size: int)
    requires Inv(h) && k < |h.used| && MINIMUM_FREE_BLOCK_SIZE <= size < h.used[k].size
    requires AfterShrink(h, k, size) != h
    ensures forall x :: Covered(AfterShrink(h, k, size).free, x)
                        <==> Covered(h.free, x) || PayloadStart(h.used[k]) + size <= x < End(h.used[k])
  {
    var lo, hi := PayloadStart(h.used[k]) + size, End(h.used[k]);
    assert UsedOk(h.used[k]) && Clear(h.free, lo, hi);
    assert AfterShrink(h, k, size).free == Insert(h.free, lo, hi);
    InsertMeaning(h.free, lo, hi);
  }

  lemma InsertableWithoutPredecessor(free: seq<Block>, lo: int, hi: int)
    requires Canonical(free) && lo < hi && !MergesBefore(free, lo)
    ensures Insertable(free, lo, hi) <==> MergesAfter(free, lo, hi) || hi - lo >= MINIMUM_REGION
  {
    var p := Rank(free, lo);
    assert p < |free| ==> FreeOk(free[p]);
  }

  lemma NothingEndsInside(h: Heap, k: nat, lo: int)
    requires Inv(h) && k < |h.used| && RegionStart(h.used[k]) < lo < End(h.used[k])
    ensures !MergesBefore(h.free, lo)
  {
    var p := Rank(h.free, lo);
    assert Clear(h.free, RegionStart(h.used[k]), End(h.used[k]));
  }

  // ----- The size query -----

  function AllocatableIn(b: Block, a: int): int
    requires IsPowerOfTwo(a)
  {
    if AlignUp(PayloadStart(b), a) < End(b) then End(b) - AlignUp(PayloadStart(b), a) else 0
  }

  /** The largest aligned payload any single free block offers. */
  function AllocatableSize(free: seq<Block>, a: int): int
    requires IsPowerOfTwo(a)
  {
    if free == [] then 0 else
      var rest := AllocatableSize(free[..|free| - 1], a);
      var last := AllocatableIn(free[|free| - 1], a);
      if last > rest then last else rest
  }

  lemma {:induction false} AllocatableSizeIsMaximum(free: seq<Block>, a: int)
    requires IsPowerOfTwo(a)
    ensures AllocatableSize(free, a) >= 0
    ensures forall i | 0 <= i < |free| :: AllocatableIn(free[i], a) <= AllocatableSize(free, a)
    ensures AllocatableSize(free, a) > 0
            ==> exists i | 0 <= i < |free| :: AllocatableIn(free[i], a) == AllocatableSize(free, a)
  {
    if free != [] {
      var n := |free| - 1;
      var front := free[..n];
      AllocatableSizeIsMaximum(front, a);
      if AllocatableSize(free, a) > 0 && AllocatableIn(free[n], a) <= AllocatableSize(front, a) {
        var i :| 0 <= i < |front| && AllocatableIn(front[i], a) == AllocatableSize(front, a);
        assert free[i] == front[i];
      }
      forall i | 0 <= i < |free| ensures AllocatableIn(free[i], a) <= AllocatableSize(free, a) {
        if i < n { assert free[i] == front[i]; }
      }
    }
  }

  /** Payloads start at multiples of four, so alignments 1 and 2 ask for nothing more than 4. */
  lemma SmallAlignments(b: Block, alignment: int)
    requires LegalAlignment(alignment) && b.addr % 4 == 0
    ensures AlignUp(PayloadStart(b), Abs(alignment)) == AlignUp(PayloadStart(b), EffectiveAlignment(alignment))
  {
    AlignUpSmall(PayloadStart(b));
    assert !IsPowerOfTwo(3);
  }

  /** An allocation succeeds exactly when its rounded size is at most what the size query
      reports, for both directions and both search modes. */
  lemma AllocatableIffQuery(h: Heap, size: nat, alignment: int)
    requires Inv(h) && FourAligned(h) && Legal(h, Allocate(size, alignment))
    ensures PickFor(h, size, alignment) != -1
            <==> RoundSize(size) <= AllocatableSize(h.free, Abs(alignment))
  {
    var n, a := RoundSize(size), EffectiveAlignment(alignment);
    RoundSizeMeaning(size);
    AllocatableSizeIsMaximum(h.free, Abs(alignment));
    forall i | 0 <= i < |h.free|
      ensures Fits(h.free[i], n, a) <==> n <= AllocatableIn(h.free[i], Abs(alignment))
    {
      SmallAlignments(h.free[i], alignment);
    }
  }
}
