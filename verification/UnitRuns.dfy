/** The unit heap by addresses: where its units are, and what any run of it keeps. */
module UnitRuns {
  import opened Alignment
  import opened Division
  import opened UnitPool

  // ----- Units and addresses -----

  /** The address `k` units of `size` bytes after `start`. */
  function Addr(start: int, size: int, k: int): int {
    if k <= 0 then start else Addr(start, size, k - 1) + size
  }

  lemma {:induction false} AddrIs(start: int, size: int, k: nat)
    ensures Addr(start, size, k) == start + k * size
  {
    if k > 0 {
      AddrIs(start, size, k - 1);
      assert (k - 1) * size + size == k * size;
    }
  }

  /** The units of an area, one behind the other. */
  function Units(start: int, size: int, n: nat): (r: seq<int>)
    ensures |r| == n && forall k | 0 <= k < n :: r[k] == Addr(start, size, k)
  {
    if n == 0 then [] else Units(start, size, n - 1) + [Addr(start, size, n - 1)]
  }

  predicate GapAt(units: seq<int>, size: int, k: int)
    requires 0 < k < |units|
  {
    units[k - 1] + size <= units[k]
  }

  /** Units do not overlap: each begins at or behind the end of the one before it. */
  predicate Spaced(units: seq<int>, size: int) {
    && (forall k | 0 <= k < |units| :: units[k] > 0)
    && forall k | 0 < k < |units| :: GapAt(units, size, k)
  }

  lemma {:induction false} SpacedApart(units: seq<int>, size: int, j: int, k: int)
    requires size > 0 && Spaced(units, size) && 0 <= j < k < |units|
    ensures units[j] + size <= units[k]
    decreases k
  {
    assert GapAt(units, size, k);
    if j < k - 1 { SpacedApart(units, size, j, k - 1); }
  }

  lemma UnitsDiffer(units: seq<int>, size: int, j: int, k: int)
    requires size > 0 && Spaced(units, size) && 0 <= j < |units| && 0 <= k < |units| && j != k
    ensures units[j] != units[k]
  {
    if j < k { SpacedApart(units, size, j, k); } else { SpacedApart(units, size, k, j); }
  }

  predicate Inside(units: seq<int>, start: int, end: int, size: int) {
    forall k | 0 <= k < |units| :: start <= units[k] && units[k] + size <= end
  }

  lemma {:induction false} UnitsInside(start: int, size: int, n: nat, k: nat)
    requires size > 0 && start > 0 && k < n
    ensures start <= Units(start, size, n)[k] && Units(start, size, n)[k] + size <= Addr(start, size, n)
    decreases n
  {
    if k == n - 1 {
      if k > 0 { UnitsInside(start, size, n - 1, k - 1); }
    } else {
      UnitsInside(start, size, n - 1, k);
    }
  }

  /** More units behind the last one. */
  lemma UnitsBehind(units: seq<int>, start: int, size: int, n: nat)
    requires size > 0 && start > 0 && Spaced(units, size) && forall k | 0 <= k < |units| :: units[k] + size <= start
    ensures Spaced(units + Units(start, size, n), size)
  {
    var all := units + Units(start, size, n);
    forall k | 0 <= k < |all| ensures all[k] > 0 {
      if k >= |units| { UnitsInside(start, size, n, k - |units|); }
    }
    forall k | 0 < k < |all| ensures GapAt(all, size, k) {
      if k < |units| { assert GapAt(units, size, k); }
    }
  }

  lemma {:induction false} AlignedSum(x: int, y: int, a: int)
    requires IsPowerOfTwo(a) && IsAligned(x, a)
    ensures IsAligned(x + y, a) <==> IsAligned(y, a)
    decreases a
  {
    if a > 1 {
      AlignedSum(x / 2, y / 2, a / 2);
      assert (x + y) / 2 == x / 2 + y / 2;
    }
  }

  lemma {:induction false} AddrAligned(start: int, size: int, k: nat, a: int)
    requires IsPowerOfTwo(a) && IsAligned(start, a) && IsAligned(size, a)
    ensures IsAligned(Addr(start, size, k), a)
  {
    if k > 0 {
      AddrAligned(start, size, k - 1, a);
      AlignedSum(Addr(start, size, k - 1), size, a);
    }
  }

  /** The units of the area of a new heap. */
  lemma AreaFacts(start: int, size: int, count: nat)
    requires start > 0 && size > 0
    ensures Addr(start, size, count) == start + count * size && start + count * size >= start
    ensures Spaced(Units(start, size, count), size)
    ensures forall k | 0 <= k < count ::
              start <= Units(start, size, count)[k] && Units(start, size, count)[k] + size <= start + count * size
  {
    AddrIs(start, size, count);
    UnitsBehind([], start, size, count);
    assert [] + Units(start, size, count) == Units(start, size, count);
    forall k | 0 <= k < count
      ensures start <= Units(start, size, count)[k] && Units(start, size, count)[k] + size <= start + count * size
    {
      UnitsInside(start, size, count, k);
    }
    if count > 0 { MultiplesApart(0, count, size); }
  }

  /** As many units as fit into `bytes`. */
  lemma AreaFits(start: int, size: int, bytes: int)
    requires start > 0 && 0 < size <= bytes
    ensures bytes / size > 0 && Addr(start, size, bytes / size) <= start + bytes
    ensures forall k | 0 <= k < bytes / size ::
              start <= Units(start, size, bytes / size)[k]
                  && Units(start, size, bytes / size)[k] + size <= start + bytes
  {
    Quotient(bytes, size);
    AreaFacts(start, size, bytes / size);
  }

  lemma AreaAligned(start: int, size: int, n: nat, a: int)
    requires IsPowerOfTwo(a) && IsAligned(start, a) && IsAligned(size, a)
    ensures forall k | 0 <= k < n :: IsAligned(Units(start, size, n)[k], a)
    ensures IsAligned(start + n * size, a)
  {
    forall k | 0 <= k < n ensures IsAligned(Units(start, size, n)[k], a) { AddrAligned(start, size, k, a); }
    AddrAligned(start, size, n, a);
    AddrIs(start, size, n);
  }

  // ----- The heap -----

  /** `end` is the heap end, `units` are the addresses of the units by their numbers in `pool`, and
      `waste` counts the bytes that were added and belong to no unit. */
  datatype Heap = Heap(start: int, end: int, size: int, units: seq<int>, waste: int, pool: Pool)

  predicate HeapOk(h: Heap) {
    && h.size > 0 && 0 < h.start <= h.end && h.waste >= 0 && h.end == h.start + h.pool.count * h.size + h.waste
    && PoolOk(h.pool) && |h.units| == h.pool.count && Spaced(h.units, h.size) && Inside(h.units, h.start, h.end, h.size)
  }

  datatype Request = AllocateUnit | FreeUnit(unit: int) | ExtendBy(bytes: int)

  /** Only live units are freed, and a heap grows by at least one unit. */
  predicate Legal(h: Heap, r: Request) {
    && h.size > 0
    && match r
       case AllocateUnit => true
       case FreeUnit(k) => k in Live(h.pool)
       case ExtendBy(bytes) => bytes >= h.size
  }

  /** As many new units as fit follow the heap end. */
  function NewUnits(h: Heap, bytes: int): (n: nat)
    requires 0 < h.size <= bytes
  {
    Quotient(bytes, h.size);
    bytes / h.size
  }

  function Apply(h: Heap, r: Request): Heap
    requires Legal(h, r)
  {
    match r
    case AllocateUnit => h.(pool := UnitPool.Apply(h.pool, Allocate))
    case FreeUnit(k) => h.(pool := UnitPool.Apply(h.pool, Free(k)))
    case ExtendBy(bytes) =>
      var n := NewUnits(h, bytes);
      Heap(h.start, h.end + bytes, h.size, h.units + Units(h.end, h.size, n), h.waste + bytes % h.size,
           UnitPool.Apply(h.pool, Extend(n)))
  }

  /** A new heap: `count` units from `start` on, all free. */
  function New(start: int, size: int, count: nat): Heap {
    Heap(start, start + count * size, size, Units(start, size, count), 0, Pool(count, Range(0, count)))
  }

  lemma NewIsOk(start: int, size: int, count: nat)
    requires start > 0 && size > 0
    ensures HeapOk(New(start, size, count)) && Live(New(start, size, count).pool) == {}
  {
    AreaFacts(start, size, count);
    CountsAddUp(Pool(count, Range(0, count)));
  }

  lemma GrowthAddsUp(count: int, n: int, size: int, bytes: int)
    requires size > 0 && bytes >= 0 && n == bytes / size
    ensures (count + n) * size + bytes % size == count * size + bytes
  {
    assert bytes == n * size + bytes % size;
    assert (count + n) * size == count * size + n * size;
  }

  lemma StepKeepsOk(h: Heap, r: Request)
    requires HeapOk(h) && Legal(h, r)
    ensures HeapOk(Apply(h, r))
  {
    match r
    case AllocateUnit => StepKeepsPool(h.pool, Allocate);
    case FreeUnit(k) => StepKeepsPool(h.pool, Free(k));
    case ExtendBy(bytes) =>
      var n := NewUnits(h, bytes);
      AreaFits(h.end, h.size, bytes);
      UnitsBehind(h.units, h.end, h.size, n);
      ExtendKeepsPool(h.pool, n);
      GrowthAddsUp(h.pool.count, n, h.size, bytes);
  }

  /** What each request does: an allocation takes the first unit off the free list, if there is one, and
      a free puts its unit in front. An extension adds as many whole units as the bytes hold, one behind
      the other from the old heap end on; they are free, in order behind all the others. */
  lemma StepMeans(h: Heap, r: Request)
    requires HeapOk(h) && Legal(h, r)
    ensures var q := Apply(h, r);
            match r
            case AllocateUnit =>
              q == h.(pool := q.pool) && q.pool.count == h.pool.count
              && if h.pool.free == [] then q == h else [h.pool.free[0]] + q.pool.free == h.pool.free
            case FreeUnit(k) => q == h.(pool := q.pool) && q.pool == Pool(h.pool.count, [k] + h.pool.free)
            case ExtendBy(bytes) =>
              && q.start == h.start && q.size == h.size && q.end == h.end + bytes
              && |q.units| == q.pool.count >= h.pool.count && h.units <= q.units && h.pool.free <= q.pool.free
              && bytes - h.size < (q.pool.count - h.pool.count) * h.size <= bytes
              && |q.pool.free| - |h.pool.free| == q.pool.count - h.pool.count
              && forall i | 0 <= i < q.pool.count - h.pool.count ::
                   && q.units[h.pool.count + i] == h.end + i * h.size
                   && q.pool.free[|h.pool.free| + i] == h.pool.count + i
  {
    match r
    case AllocateUnit =>
    case FreeUnit(k) =>
    case ExtendBy(bytes) =>
      var q, n := Apply(h, r), NewUnits(h, bytes);
      StepKeepsOk(h, r);
      Quotient(bytes, h.size);
      forall i | 0 <= i < n
        ensures q.units[h.pool.count + i] == h.end + i * h.size && q.pool.free[|h.pool.free| + i] == h.pool.count + i
      {
        AddrIs(h.end, h.size, i);
      }
  }

  /** The units of a heap are as many as its range holds if and only if less than a unit is wasted. */
  lemma CountIsQuotientIff(h: Heap)
    requires HeapOk(h)
    ensures |h.pool.free| + |Live(h.pool)| == h.pool.count
    ensures h.pool.count == (h.end - h.start) / h.size <==> h.waste < h.size
  {
    CountsAddUp(h.pool);
    var q := (h.end - h.start) / h.size;
    Quotient(h.end - h.start, h.size);
    if h.pool.count < q { MultiplesApart(h.pool.count, q, h.size); }
    if q < h.pool.count { MultiplesApart(q, h.pool.count, h.size); }
  }

  // ----- Runs -----

  predicate LegalRun(h: Heap, rs: seq<Request>)
    decreases |rs|
  {
    rs == [] || (Legal(h, rs[0]) && LegalRun(Apply(h, rs[0]), rs[1..]))
  }

  function Run(h: Heap, rs: seq<Request>): Heap
    requires LegalRun(h, rs)
    decreases |rs|
  {
    if rs == [] then h else Run(Apply(h, rs[0]), rs[1..])
  }

  /** The units handed out and not given back, in the order of the calls: what the callers hold. */
  function Held(h: Heap, rs: seq<Request>, held: set<int>): set<int>
    requires LegalRun(h, rs)
    decreases |rs|
  {
    if rs == [] then held
    else
      Held(Apply(h, rs[0]), rs[1..],
           match rs[0]
           case AllocateUnit => if NextUnit(h.pool) == -1 then held else held + {NextUnit(h.pool)}
           case FreeUnit(k) => held - {k}
           case ExtendBy(_) => held)
  }

  /** The sizes of the extensions, in order. */
  function Extensions(rs: seq<Request>): seq<int> {
    if rs == [] then [] else (if rs[0].ExtendBy? then [rs[0].bytes] else []) + Extensions(rs[1..])
  }

  /** What these extensions leave over, all together. */
  function LeftOver(sizes: seq<int>, size: int): int
    requires size > 0
  {
    if sizes == [] then 0 else sizes[0] % size + LeftOver(sizes[1..], size)
  }

  lemma {:induction false} RunKeepsOk(h: Heap, rs: seq<Request>)
    requires HeapOk(h) && LegalRun(h, rs)
    ensures var r := Run(h, rs);
            && HeapOk(r) && r.start == h.start && r.size == h.size
            && r.waste == h.waste + LeftOver(Extensions(rs), h.size)
            && Live(r.pool) == Held(h, rs, Live(h.pool))
    decreases |rs|
  {
    if rs != [] {
      StepKeepsOk(h, rs[0]);
      StepIsHeld(h, rs[0]);
      RunKeepsOk(Apply(h, rs[0]), rs[1..]);
      ExtensionsStep(rs, h.size);
    }
  }

  lemma ExtensionsStep(rs: seq<Request>, size: int)
    requires rs != [] && size > 0
    ensures LeftOver(Extensions(rs), size)
         == (if rs[0].ExtendBy? then rs[0].bytes % size else 0) + LeftOver(Extensions(rs[1..]), size)
  {
    if rs[0].ExtendBy? {
      assert Extensions(rs)[1..] == Extensions(rs[1..]);
    } else {
      assert Extensions(rs) == Extensions(rs[1..]);
    }
  }

  lemma StepIsHeld(h: Heap, r: Request)
    requires HeapOk(h) && Legal(h, r)
    ensures Live(Apply(h, r).pool)
         == match r
            case AllocateUnit => if NextUnit(h.pool) == -1 then Live(h.pool) else Live(h.pool) + {NextUnit(h.pool)}
            case FreeUnit(k) => Live(h.pool) - {k}
            case ExtendBy(_) => Live(h.pool)
  {
    match r
    case AllocateUnit => StepKeepsPool(h.pool, Allocate);
    case FreeUnit(k) => StepKeepsPool(h.pool, Free(k));
    case ExtendBy(bytes) => ExtendKeepsPool(h.pool, NewUnits(h, bytes));
  }

  /** Every run: the units the callers hold are exactly the live ones and the others are free. Free and
      used units together are as many as the heap range holds if and only if what the extensions left
      over is less than a unit. */
  lemma RunCountsIff(start: int, size: int, count: nat, rs: seq<Request>)
    requires start > 0 && size > 0 && LegalRun(New(start, size, count), rs)
    ensures var r := Run(New(start, size, count), rs);
            && Live(r.pool) == Held(New(start, size, count), rs, {})
            && (forall k | 0 <= k < r.pool.count :: k in r.pool.free <==> k !in Live(r.pool))
            && (|r.pool.free| + |Live(r.pool)| == (r.end - r.start) / size <==> LeftOver(Extensions(rs), size) < size)
  {
    NewIsOk(start, size, count);
    RunKeepsOk(New(start, size, count), rs);
    CountIsQuotientIff(Run(New(start, size, count), rs));
  }

  predicate WholeUnits(sizes: seq<int>, size: int)
    requires size > 0
  {
    forall i | 0 <= i < |sizes| :: sizes[i] % size == 0
  }

  lemma {:induction false} NothingLeftOver(sizes: seq<int>, size: int)
    requires size > 0 && WholeUnits(sizes, size)
    ensures LeftOver(sizes, size) == 0
  {
    if sizes != [] { NothingLeftOver(sizes[1..], size); }
  }

  /** So they always are when every extension is a multiple of the unit size. */
  lemma RunCounts(start: int, size: int, count: nat, rs: seq<Request>)
    requires start > 0 && size > 0 && LegalRun(New(start, size, count), rs) && WholeUnits(Extensions(rs), size)
    ensures var r := Run(New(start, size, count), rs); |r.pool.free| + |Live(r.pool)| == (r.end - r.start) / size
  {
    NothingLeftOver(Extensions(rs), size);
    RunCountsIff(start, size, count, rs);
  }

  // ----- Alignment -----

  predicate UnitsAligned(units: seq<int>, a: int)
    requires IsPowerOfTwo(a)
  {
    forall k | 0 <= k < |units| :: IsAligned(units[k], a)
  }

  /** A heap whose units and heap end are aligned. */
  predicate AlignedHeap(h: Heap, a: int)
    requires IsPowerOfTwo(a)
  {
    IsAligned(h.size, a) && IsAligned(h.end, a) && UnitsAligned(h.units, a)
  }

  lemma NewIsAligned(start: int, size: int, count: nat, a: int)
    requires IsPowerOfTwo(a) && IsAligned(start, a) && IsAligned(size, a)
    ensures AlignedHeap(New(start, size, count), a)
  {
    AreaAligned(start, size, count, a);
  }

  /** An extension keeps the units aligned exactly when the heap end in front of it is aligned,
      whatever its own size; that decides about the next one. */
  lemma ExtendAlignedIff(h: Heap, bytes: int, a: int)
    requires HeapOk(h) && Legal(h, ExtendBy(bytes)) && IsPowerOfTwo(a) && IsAligned(h.size, a)
             && UnitsAligned(h.units, a)
    ensures UnitsAligned(Apply(h, ExtendBy(bytes)).units, a) <==> IsAligned(h.end, a)
    ensures IsAligned(h.end, a) ==> (IsAligned(Apply(h, ExtendBy(bytes)).end, a) <==> IsAligned(bytes, a))
  {
    var n := NewUnits(h, bytes);
    AreaFits(h.end, h.size, bytes);
    if IsAligned(h.end, a) {
      AreaAligned(h.end, h.size, n, a);
      AlignedSum(h.end, bytes, a);
    } else {
      assert Apply(h, ExtendBy(bytes)).units[|h.units|] == h.end;
    }
  }

  /** Units stay where they are. */
  lemma {:induction false} RunKeepsUnits(h: Heap, rs: seq<Request>, k: nat)
    requires LegalRun(h, rs) && k < |h.units|
    ensures k < |Run(h, rs).units| && Run(h, rs).units[k] == h.units[k]
    decreases |rs|
  {
    if rs != [] { RunKeepsUnits(Apply(h, rs[0]), rs[1..], k); }
  }

  lemma {:induction false} BehindMisalignedEnd(h: Heap, rs: seq<Request>, a: int)
    requires HeapOk(h) && LegalRun(h, rs) && IsPowerOfTwo(a) && IsAligned(h.size, a)
    requires UnitsAligned(h.units, a) && !IsAligned(h.end, a)
    ensures UnitsAligned(Run(h, rs).units, a) <==> Extensions(rs) == []
    decreases |rs|
  {
    if rs != [] {
      var next := Apply(h, rs[0]);
      StepKeepsOk(h, rs[0]);
      if rs[0].ExtendBy? {
        ExtendAlignedIff(h, rs[0].bytes, a);
        var k :| 0 <= k < |next.units| && !IsAligned(next.units[k], a);
        RunKeepsUnits(next, rs[1..], k);
      } else {
        BehindMisalignedEnd(next, rs[1..], a);
      }
    }
  }

  /** All but the last of these sizes are aligned. */
  predicate EarlierAligned(sizes: seq<int>, a: int)
    requires IsPowerOfTwo(a)
  {
    forall i | 0 <= i < |sizes| - 1 :: IsAligned(sizes[i], a)
  }

  lemma EarlierStep(first: int, rest: seq<int>, a: int)
    requires IsPowerOfTwo(a)
    ensures EarlierAligned([first] + rest, a) <==> rest == [] || (IsAligned(first, a) && EarlierAligned(rest, a))
  {
    var sizes := [first] + rest;
    if rest != [] {
      assert sizes[0] == first;
      forall i | 0 <= i < |rest| ensures sizes[i + 1] == rest[i] {}
    }
  }

  /** In a run of an aligned heap all units are aligned if and only if every extension in front of the
      last one had an aligned size. */
  lemma {:induction false} RunAlignedIff(h: Heap, rs: seq<Request>, a: int)
    requires HeapOk(h) && LegalRun(h, rs) && IsPowerOfTwo(a) && AlignedHeap(h, a)
    ensures UnitsAligned(Run(h, rs).units, a) <==> EarlierAligned(Extensions(rs), a)
    decreases |rs|
  {
    if rs != [] {
      var next := Apply(h, rs[0]);
      StepKeepsOk(h, rs[0]);
      if rs[0].ExtendBy? {
        ExtendAlignedIff(h, rs[0].bytes, a);
        EarlierStep(rs[0].bytes, Extensions(rs[1..]), a);
        if IsAligned(rs[0].bytes, a) {
          RunAlignedIff(next, rs[1..], a);
        } else {
          BehindMisalignedEnd(next, rs[1..], a);
        }
      } else {
        assert Extensions(rs) == Extensions(rs[1..]);
        RunAlignedIff(next, rs[1..], a);
      }
    }
  }

  // ----- Extensions that are no multiple of the unit size -----

  lemma ExtendedByOne(h: Heap, bytes: int)
    requires h.size == 8 && 8 <= bytes < 16
    ensures Legal(h, ExtendBy(bytes))
    ensures var r := Apply(h, ExtendBy(bytes));
            && r.units == h.units + [h.end] && r.pool == Pool(h.pool.count + 1, h.pool.free + [h.pool.count])
            && r.end == h.end + bytes && r.start == h.start && r.size == 8
  {
    assert NewUnits(h, bytes) == 1;
    assert Units(h.end, 8, 1) == [h.end];
    assert Range(h.pool.count, h.pool.count + 1) == [h.pool.count];
  }

  /** A heap of one unit of 8 bytes, extended by 12 bytes twice: three units, where four would fit. */
  lemma TwoExtensionsMiscount()
    ensures var h := New(0x1000, 8, 1);
            && LegalRun(h, [ExtendBy(12), ExtendBy(12)])
            && var r := Run(h, [ExtendBy(12), ExtendBy(12)]);
               |r.pool.free| + |Live(r.pool)| == 3 && (r.end - r.start) / 8 == 4
  {
    var h := New(0x1000, 8, 1);
    var h1 := Apply(h, ExtendBy(12));
    ExtendedByOne(h, 12);
    ExtendedByOne(h1, 12);
    RunOfTwo(h, ExtendBy(12), ExtendBy(12));
    NewIsOk(0x1000, 8, 1);
    StepKeepsOk(h, ExtendBy(12));
    StepKeepsOk(h1, ExtendBy(12));
    CountsAddUp(Apply(h1, ExtendBy(12)).pool);
  }

  lemma RunOfOne(h: Heap, r: Request)
    requires Legal(h, r)
    ensures LegalRun(h, [r]) && Run(h, [r]) == Apply(h, r)
  {
    assert [r][1..] == [];
    assert LegalRun(Apply(h, r), []) && Run(Apply(h, r), []) == Apply(h, r);
  }

  lemma RunOfTwo(h: Heap, r: Request, next: Request)
    requires Legal(h, r) && Legal(Apply(h, r), next)
    ensures LegalRun(h, [r, next]) && Run(h, [r, next]) == Apply(Apply(h, r), next)
  {
    assert [r, next][1..] == [next];
    RunOfOne(Apply(h, r), next);
  }

  lemma EightAligned()
    ensures IsPowerOfTwo(8) && IsAligned(8, 8) && IsAligned(0x1000, 8) && IsAligned(0x1008, 8) && !IsAligned(0x1014, 8)
  {
    assert IsPowerOfTwo(2) && IsPowerOfTwo(4);
    assert !IsAligned(0x405, 2) && !IsAligned(0x80A, 4);
    assert IsAligned(0x400, 2) && IsAligned(0x800, 4) && IsAligned(0x402, 2) && IsAligned(0x804, 4);
  }

  lemma FirstUnit()
    ensures New(0x1000, 8, 1) == Heap(0x1000, 0x1008, 8, [0x1000], 0, Pool(1, [0]))
  {
    assert Units(0x1000, 8, 1) == [0x1000] && Range(0, 1) == [0];
  }

  /** The same heap, aligned to 8, extended by 12 and then by 8 bytes: the last unit, which the third
      allocation returns, is at 0x1014. */
  lemma SecondExtensionMisaligns()
    ensures IsPowerOfTwo(8) && AlignedHeap(New(0x1000, 8, 1), 8) && !IsAligned(0x1014, 8)
    ensures var h := New(0x1000, 8, 1);
            && LegalRun(h, [ExtendBy(12), ExtendBy(8)])
            && var r := Run(h, [ExtendBy(12), ExtendBy(8)]);
               r.pool.free == [0, 1, 2] && r.units == [0x1000, 0x1008, 0x1014]
  {
    EightAligned();
    FirstUnit();
    var h := New(0x1000, 8, 1);
    ExtendedByOne(h, 12);
    ExtendedByOne(Apply(h, ExtendBy(12)), 8);
    RunOfTwo(h, ExtendBy(12), ExtendBy(8));
  }
}
