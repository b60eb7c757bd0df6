/** The unit heap as the code has it: a free list threaded through the first word of each free
    unit. `memory` maps the address of a unit to that word; callers own the words of live units. */
module UnitHeap {
  import opened Alignment
  import opened Division
  import opened UnitPool
  import opened UnitRuns

  const NULL := 0
  const WORD_LIMIT := 0x1_0000_0000_0000_0000
  const MINIMUM_ALIGNMENT := 4
  const POINTER_SIZE := 8

  // ----- The free list in memory -----

  /** The numbers on the list are numbers of units. */
  predicate InUnits(free: seq<int>, units: seq<int>) { forall i | 0 <= i < |free| :: 0 <= free[i] < |units| }

  /** The pointer to the unit at position `i` of the free list, null past its end. */
  function Link(units: seq<int>, free: seq<int>, i: nat): int {
    if i < |free| && 0 <= free[i] < |units| then units[free[i]] else NULL
  }

  predicate Threaded(memory: map<int, int>, units: seq<int>, free: seq<int>, i: nat) {
    var p := Link(units, free, i);
    p in memory && memory[p] == Link(units, free, i + 1)
  }

  /** Following the pointers from `head` visits the free list in order and ends in null. */
  predicate Chain(memory: map<int, int>, head: int, units: seq<int>, free: seq<int>) {
    head == Link(units, free, 0) && forall i | 0 <= i < |free| :: Threaded(memory, units, free, i)
  }

  lemma ChainPop(memory: map<int, int>, head: int, units: seq<int>, free: seq<int>)
    requires Chain(memory, head, units, free) && free != []
    ensures head in memory && Chain(memory, memory[head], units, free[1..])
  {
    assert Threaded(memory, units, free, 0);
    forall i | 0 <= i < |free| - 1 ensures Threaded(memory, units, free[1..], i) {
      assert Threaded(memory, units, free, i + 1);
    }
  }

  /** Writing to a unit that is not on the list leaves the list alone. */
  lemma ChainWrite(memory: map<int, int>, head: int, units: seq<int>, size: int, free: seq<int>, k: nat, value: int)
    requires Chain(memory, head, units, free) && size > 0 && Spaced(units, size)
    requires k < |units| && k !in free && InUnits(free, units)
    ensures Chain(memory[units[k] := value], head, units, free)
  {
    var m := memory[units[k] := value];
    forall i | 0 <= i < |free| ensures Threaded(m, units, free, i) {
      assert Threaded(memory, units, free, i);
      UnitsDiffer(units, size, free[i], k);
    }
  }

  lemma ChainPush(memory: map<int, int>, head: int, units: seq<int>, size: int, free: seq<int>, k: nat)
    requires Chain(memory, head, units, free) && size > 0 && Spaced(units, size)
    requires k < |units| && k !in free && InUnits(free, units)
    ensures Chain(memory[units[k] := head], units[k], units, [k] + free)
  {
    var m := memory[units[k] := head];
    ChainWrite(memory, head, units, size, free, k, head);
    forall i | 0 <= i < 1 + |free| ensures Threaded(m, units, [k] + free, i) {
      if i > 0 { assert Threaded(m, units, free, i - 1); }
    }
  }

  /** Units that are not on the list do not matter to it. */
  lemma ChainMoreUnits(memory: map<int, int>, head: int, units: seq<int>, free: seq<int>, more: seq<int>)
    requires Chain(memory, head, units, free) && InUnits(free, units)
    ensures Chain(memory, head, units + more, free) && InUnits(free, units + more)
  {
    forall i | 0 <= i < |free| ensures Threaded(memory, units + more, free, i) {
      assert Threaded(memory, units, free, i);
    }
  }

  /** The list while units are being appended: the last pointer is not written yet. */
  predicate OpenChain(memory: map<int, int>, head: int, units: seq<int>, free: seq<int>) {
    && free != [] && head == Link(units, free, 0)
    && forall i | 0 <= i < |free| - 1 :: Threaded(memory, units, free, i)
  }

  predicate Distinct(free: seq<int>) { forall i, j | 0 <= i < j < |free| :: free[i] != free[j] }

  lemma OpenAppend(memory: map<int, int>, head: int, units: seq<int>, size: int, free: seq<int>, k: nat)
    requires OpenChain(memory, head, units, free) && size > 0 && Spaced(units, size)
    requires Distinct(free) && InUnits(free, units) && k < |units|
    ensures OpenChain(memory[units[free[|free| - 1]] := units[k]], head, units, free + [k])
  {
    var n := |free| - 1;
    var m := memory[units[free[n]] := units[k]];
    forall i | 0 <= i <= n ensures Threaded(m, units, free + [k], i) {
      if i < n {
        assert Threaded(memory, units, free, i);
        UnitsDiffer(units, size, free[i], free[n]);
      }
    }
  }

  lemma OpenClose(memory: map<int, int>, head: int, units: seq<int>, size: int, free: seq<int>)
    requires OpenChain(memory, head, units, free) && size > 0 && Spaced(units, size)
    requires Distinct(free) && InUnits(free, units)
    ensures Chain(memory[units[free[|free| - 1]] := NULL], head, units, free)
  {
    var n := |free| - 1;
    var m := memory[units[free[n]] := NULL];
    forall i | 0 <= i <= n ensures Threaded(m, units, free, i) {
      if i < n {
        assert Threaded(memory, units, free, i);
        UnitsDiffer(units, size, free[i], free[n]);
      }
    }
  }

  // ----- The heap -----

  class UnitHeapHead {
    var memory: map<int, int>
    var head: int
    var heapStart: int
    var heapEnd: int
    var unitSize: int
    var alignment: int
    var numUnits: int
    ghost var pool: Pool

    /** The addresses of the units, by their numbers in `pool`. */
    ghost var units: seq<int>

    /** The bytes of the range that belong to no unit. */
    ghost var waste: int

    ghost function State(): Heap
      reads this
    {
      Heap(heapStart, heapEnd, unitSize, units, waste, pool)
    }

    ghost predicate Valid()
      reads this
    {
      HeapOk(State()) && Chain(memory, head, units, pool.free) && numUnits == |Live(pool)|
    }

    /** The second half of `CreateUnitHeap`: units [0, count) from `start` on, all free. */
    constructor (start: int, unitSize: int, alignment: int, count: int)
      requires start > 0 && unitSize > 0 && count > 0
      ensures Valid() && State() == New(start, unitSize, count) && this.alignment == alignment
    {
      head, heapStart, heapEnd := start, start, start + count * unitSize;
      this.unitSize, this.alignment, numUnits := unitSize, alignment, 0;
      pool := Pool(count, Range(0, count));
      units, waste := Units(start, unitSize, count), 0;
      memory := map[];
      new;
      NewIsOk(start, unitSize, count);
      AppendUnits(head, count, 0, [0]);
      assert [0] + Range(1, count) == Range(0, count);
    }

    /** The loop `CreateUnitHeap` and `ExtendUnitHeap` end with: `more - 1` units after `tail`, which is
        unit `k` and the last one on the list so far. */
    method AppendUnits(tail: int, more: int, ghost k: nat, ghost free: seq<int>)
      requires unitSize > 0 && Spaced(units, unitSize) && more > 0 && k + more == |units|
      requires forall i | 0 <= i < more :: units[k + i] == Addr(tail, unitSize, i)
      requires Distinct(free) && InUnits(free, units) && OpenChain(memory, head, units, free)
      requires free[|free| - 1] == k && forall i | 0 <= i < |free| :: free[i] <= k
      modifies this`memory
      ensures Chain(memory, head, units, free + Range(k + 1, k + more))
    {
      var cur := tail;
      var i := 0;
      ghost var list := free;
      assert units[k + 0] == Addr(tail, unitSize, 0);
      while i < more - 1
        invariant 0 <= i <= more - 1 && cur == Addr(tail, unitSize, i) == units[k + i]
        invariant list == free + Range(k + 1, k + 1 + i) && Distinct(list) && InUnits(list, units)
                  && list[|list| - 1] == k + i
        invariant OpenChain(memory, head, units, list)
      {
        assert units[k + (i + 1)] == Addr(tail, unitSize, i + 1);
        OpenAppend(memory, head, units, unitSize, list, k + i + 1);
        memory := memory[cur := cur + unitSize];
        cur := memory[cur];
        i := i + 1;
        list := list + [k + i];
        assert Range(k + 1, k + 1 + i) == Range(k + 1, k + i) + [k + i];
      }
      OpenClose(memory, head, units, unitSize, list);
      memory := memory[cur := NULL];
    }

    /** `size` bytes, at least one unit's, are added behind the heap: as many units as fit, and whatever
        is left over stays unused. */
    method Extend(size: int)
      requires Valid() && size >= unitSize
      modifies this`memory, this`head, this`heapEnd, this`pool, this`units, this`waste
      ensures Valid() && State() == UnitRuns.Apply(old(State()), ExtendBy(size))
    {
      var newUnits := (heapEnd + size - heapEnd) / unitSize;
      assert newUnits == NewUnits(State(), size);
      StepKeepsOk(State(), ExtendBy(size));
      LinkUnits(newUnits);
      heapEnd := heapEnd + size;
      waste := waste + size % unitSize;
      ExtendKeepsPool(pool, newUnits);
      pool := UnitPool.Apply(pool, UnitPool.Extend(newUnits));
    }

    /** Links that many units behind the end of the heap. */
    method LinkUnits(more: nat)
      requires Valid() && more > 0 && Spaced(units + Units(heapEnd, unitSize, more), unitSize)
      modifies this`memory, this`head, this`units
      ensures units == old(units) + Units(heapEnd, unitSize, more)
      ensures Chain(memory, head, units, pool.free + Range(pool.count, pool.count + more))
    {
      ghost var k, free := pool.count, pool.free;
      ChainMoreUnits(memory, head, units, free, Units(heapEnd, unitSize, more));
      units := units + Units(heapEnd, unitSize, more);
      var tail := AttachEnd(k);
      FreeWithEnd(pool, more);
      AppendUnits(tail, more, k, free + [k]);
    }

    /** Links the end of the heap, which is unit `k`, as the last unit of the free list. */
    method AttachEnd(ghost k: nat) returns (tail: int)
      requires unitSize > 0 && Spaced(units, unitSize) && k < |units| && units[k] == heapEnd
      requires PoolOk(pool) && pool.count == k && Chain(memory, head, units, pool.free)
      modifies this`memory, this`head
      ensures tail == heapEnd && OpenChain(memory, head, units, pool.free + [k])
    {
      ghost var free := pool.free;
      if head != NULL {
        tail := FindTail();
        OpenAppend(memory, head, units, unitSize, free, k);
        memory := memory[tail := heapEnd];
        tail := memory[tail];
        OpenClose(memory, head, units, unitSize, free + [k]);
        memory := memory[tail := NULL];
      } else {
        head := heapEnd;
        tail := head;
        memory := memory[tail := NULL];
      }
    }

    /** The last unit of a free list that is not empty. */
    method FindTail() returns (tail: int)
      requires Spaced(units, unitSize) && InUnits(pool.free, units) && Chain(memory, head, units, pool.free)
               && head != NULL
      ensures pool.free != [] && tail == units[pool.free[|pool.free| - 1]]
    {
      tail := head;
      ghost var i := 0;
      while tail in memory && memory[tail] != NULL
        invariant 0 <= i < |pool.free| && tail == Link(units, pool.free, i)
        decreases |pool.free| - i
      {
        assert Threaded(memory, units, pool.free, i);
        tail := memory[tail];
        i := i + 1;
      }
      assert Threaded(memory, units, pool.free, i);
    }

    /** Pops the first free unit; null when there is none. */
    method Allocate() returns (unit: int)
      requires Valid()
      modifies this`head, this`numUnits, this`pool
      ensures Valid() && State() == UnitRuns.Apply(old(State()), AllocateUnit)
      ensures var k := NextUnit(old(pool));
              if k == -1 then unit == NULL && |Live(old(pool))| == pool.count
              else
                && 0 <= k < |units| && unit == units[k] && unit != NULL
                && (IsPowerOfTwo(alignment) && UnitsAligned(units, alignment) ==> IsAligned(unit, alignment))
                && k !in Live(old(pool)) && k in Live(pool)
    {
      StepKeepsPool(pool, UnitPool.Allocate);
      if pool.free != [] { ChainPop(memory, head, units, pool.free); }
      if head != NULL {
        unit := head;
        head := memory[unit];
        pool := UnitPool.Apply(pool, UnitPool.Allocate);
        numUnits := numUnits + 1;
      } else {
        unit := NULL;
      }
    }

    /** Pushes a live unit back; freeing null does nothing. */
    method Free(block: int, ghost k: nat)
      requires Valid() && (block != NULL ==> k in Live(pool) && block == units[k])
      modifies this`memory, this`head, this`numUnits, this`pool
      ensures Valid() && State() == if block == NULL then old(State()) else UnitRuns.Apply(old(State()), FreeUnit(k))
    {
      if block == NULL {
        return;
      }
      StepKeepsPool(pool, UnitPool.Free(k));
      ChainPush(memory, head, units, unitSize, pool.free, k);
      memory := memory[block := head];
      head := block;
      pool := UnitPool.Apply(pool, UnitPool.Free(k));
      numUnits := numUnits - 1;
    }

    /** A caller writes to a live unit it holds: the free list does not notice. */
    method WriteToUnit(block: int, value: int, ghost k: nat)
      requires Valid() && k in Live(pool) && block == units[k]
      modifies this`memory
      ensures Valid() && memory == old(memory)[block := value]
    {
      ChainWrite(memory, head, units, unitSize, pool.free, k, value);
      memory := memory[block := value];
    }

    /** Walks the free list. Together with the used units these are all that the heap range holds, exactly
        as long as less than a unit of it is wasted. */
    method GetFreeCount() returns (count: int)
      requires Valid()
      ensures count == |pool.free| && count + |Live(pool)| == pool.count
      ensures count + |Live(pool)| == (heapEnd - heapStart) / unitSize <==> waste < unitSize
    {
      count := 0;
      var cur := head;
      while cur != NULL
        invariant 0 <= count <= |pool.free| && cur == Link(units, pool.free, count)
        decreases |pool.free| - count
      {
        assert Threaded(memory, units, pool.free, count);
        cur := memory[cur];
        count := count + 1;
      }
      CountIsQuotientIff(State());
    }

    method GetUsedCount() returns (count: int)
      requires Valid()
      ensures count == |Live(pool)|
    {
      count := numUnits;
    }
  }

  lemma FreeWithEnd(p: Pool, n: nat)
    requires PoolOk(p) && n > 0
    ensures Distinct(p.free + [p.count]) && forall i | 0 <= i <= |p.free| :: 0 <= (p.free + [p.count])[i] <= p.count
    ensures p.free + [p.count] + Range(p.count + 1, p.count + n) == p.free + Range(p.count, p.count + n)
  {
  }

  // ----- Creation -----

  /** Where the heap head goes: in front of the units, behind them, or elsewhere. */
  datatype Placement = Head | Tail | External

  function AlignDown4(x: int): int { x / 4 * 4 }

  function Effective(alignment: int): int { if alignment == 1 || alignment == 2 then MINIMUM_ALIGNMENT else alignment }

  function RegionStart(address: int, alignment: int, placement: Placement, headSize: int): int
    requires alignment > 0
  {
    MaskUp(if placement.Head? then RoundUp4(address) + headSize else address, alignment)
  }

  function RoundUp4(x: int): int { (x + 3) / 4 * 4 }

  function RegionEnd(address: int, size: int, placement: Placement, headSize: int): int {
    AlignDown4(address + size - (if placement.Tail? then headSize else 0))
  }

  /** The region lies inside the memory given, and clear of the head when the head is inside. It is
      aligned when the alignment is a power of two. */
  lemma RegionInside(address: int, size: int, alignment: int, placement: Placement, headSize: int)
    requires alignment > 0 && headSize > 0
    ensures var s, e := RegionStart(address, alignment, placement, headSize),
            RegionEnd(address, size, placement, headSize);
            && address <= s && e <= address + size
            && (placement.Head? ==> RoundUp4(address) + headSize <= s)
            && (placement.Tail? ==> e + headSize <= address + size)
    ensures IsPowerOfTwo(alignment) ==> IsAligned(RegionStart(address, alignment, placement, headSize), alignment)
  {
    if IsPowerOfTwo(alignment) {
      var from := if placement.Head? then RoundUp4(address) + headSize else address;
      MaskUpIsAlignUp(from, alignment);
      AlignUpIsAligned(from, alignment);
    }
  }

  /** With its head at `head`, a heap can have its units in [s, e). */
  predicate HasPlace(address: int, size: int, placement: Placement, headSize: int, head: int, s: int, e: int) {
    && address <= s && e <= address + size && e % MINIMUM_ALIGNMENT == 0 && head % MINIMUM_ALIGNMENT == 0
    && (placement.Head? ==> address <= head && head + headSize <= s)
    && (placement.Tail? ==> head == e && head + headSize <= address + size)
  }

  /** The region is one of those, */
  lemma RegionHasPlace(address: int, size: int, alignment: int, placement: Placement, headSize: int)
    requires alignment > 0 && headSize > 0
    ensures var s, e := RegionStart(address, alignment, placement, headSize),
            RegionEnd(address, size, placement, headSize);
            HasPlace(address, size, placement, headSize, if placement.Tail? then e else RoundUp4(address), s, e)
  {
  }

  /** and the largest: it holds every one that begins at a whole alignment. For an alignment that is no
      power of two it begins less than that behind the first address the units may have. */
  lemma RegionIsLargest(address: int, size: int, alignment: int, placement: Placement, headSize: int, head: int,
                        y: int, z: int)
    requires alignment > 0 && headSize > 0 && HasPlace(address, size, placement, headSize, head, y, z)
    ensures z <= RegionEnd(address, size, placement, headSize)
    ensures RegionStart(address, alignment, placement, headSize) < y + alignment
    ensures IsPowerOfTwo(alignment) && IsAligned(y, alignment) ==>
              RegionStart(address, alignment, placement, headSize) <= y
  {
    var from := if placement.Head? then RoundUp4(address) + headSize else address;
    assert from <= y;
    if IsPowerOfTwo(alignment) && IsAligned(y, alignment) {
      MaskUpIsAlignUp(from, alignment);
      AlignUpLeast(from, alignment, y);
    }
  }

  /** The units are the smallest ones of whole alignments that the asked size fits in. */
  lemma UnitIsLeast(unitSize: int, alignment: int, u: int)
    requires IsPowerOfTwo(alignment) && IsAligned(u, alignment) && unitSize <= u
    ensures unitSize <= MaskUp(unitSize, alignment) <= u && IsAligned(MaskUp(unitSize, alignment), alignment)
  {
    UnitRounded(unitSize, alignment);
    MaskUpIsAlignUp(unitSize, alignment);
    AlignUpLeast(unitSize, alignment, u);
  }

  /** `CreateUnitHeap`; `headSize` is sizeof(HeapHead). There is a heap exactly when one unit fits; its
      units are aligned when the alignment is a power of two. */
  method CreateUnitHeap(address: int, size: int, unitSize: int, alignment: int, placement: Placement, headSize: int)
    returns (heap: UnitHeapHead?)
    requires address > 0 && size >= 0 && headSize > 0 && unitSize >= POINTER_SIZE
    requires alignment in {1, 2} || (alignment >= MINIMUM_ALIGNMENT && alignment % MINIMUM_ALIGNMENT == 0)
    requires address + size >= headSize && address + size + headSize + alignment + 3 < WORD_LIMIT
    requires unitSize + alignment + 3 < WORD_LIMIT
    ensures var a := Effective(alignment);
            var s, e := RegionStart(address, a, placement, headSize), RegionEnd(address, size, placement, headSize);
            var u := MaskUp(unitSize, a);
            && (heap != null <==> s + u <= e)
            && (heap != null ==>
                  && fresh(heap) && heap.Valid() && heap.alignment == a && heap.pool.count > 0 && Live(heap.pool) == {}
                  && heap.State() == New(s, u, heap.pool.count) && heap.heapEnd <= e < heap.heapEnd + u
                  && (IsPowerOfTwo(a) ==> AlignedHeap(heap.State(), a)))
  {
    var a := Effective(alignment);
    RegionInside(address, size, a, placement, headSize);
    UnitRounded(unitSize, a);
    var heapStart, heapEnd := RegionStart(address, a, placement, headSize),
        RegionEnd(address, size, placement, headSize);
    var u := MaskUp(unitSize, a);
    if heapStart > heapEnd {
      return null;
    }
    var maxUnits := (heapEnd - heapStart) / u;
    UnitsThatFit(heapStart, heapEnd, u);
    if maxUnits == 0 {
      return null;
    }
    heap := new UnitHeapHead(heapStart, u, a, maxUnits);
    NewIsOk(heapStart, u, maxUnits);
    if IsPowerOfTwo(a) { NewIsAligned(heapStart, u, maxUnits, a); }
  }

  lemma UnitsThatFit(start: int, end: int, size: int)
    requires start <= end && size > 0
    ensures var n := (end - start) / size;
            n >= 0 && (n > 0 <==> start + size <= end) && start + n * size <= end < start + n * size + size
  {
    Quotient(end - start, size);
    if (end - start) / size > 1 { MultiplesApart(1, (end - start) / size, size); }
  }

  lemma UnitRounded(unitSize: int, a: int)
    requires a > 0
    ensures unitSize <= MaskUp(unitSize, a) && (IsPowerOfTwo(a) ==> IsAligned(MaskUp(unitSize, a), a))
  {
    if IsPowerOfTwo(a) {
      MaskUpIsAlignUp(unitSize, a);
      AlignUpIsAligned(unitSize, a);
    }
  }

  /** An alignment of 12 passes the checks, and the first unit at address 1 is put at 4. */
  lemma TwelveIsNoAlignment()
    ensures Effective(12) == 12 >= MINIMUM_ALIGNMENT && 12 % MINIMUM_ALIGNMENT == 0
    ensures RegionStart(1, 12, External, 0x40) == 4 && !IsMultiple(4, 12)
  {
    assert And(12, 11) == 8;
    forall q ensures 4 != q * 12 {}
  }
}
