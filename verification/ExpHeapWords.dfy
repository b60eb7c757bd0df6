/** The expandable heap in the arithmetic of the machine: sizes and addresses are 64-bit words. For
    which requests, resizes and queries that makes no difference, and inputs for which it does. */
module ExpHeapWords {
  import opened Alignment
  import opened Division
  import opened ExpHeapLayout
  import opened ExpHeapSpec
  import opened ExpHeapRuns

  function Word(x: int): int { x % WORD_LIMIT }

  lemma WordIs(x: int)
    ensures 0 <= x < WORD_LIMIT ==> Word(x) == x
    ensures WORD_LIMIT <= x < 2 * WORD_LIMIT ==> Word(x) == x - WORD_LIMIT
  {
  }

  // ----- Allocation -----

  /** The request as `AllocateFromExpHeap` rounds it. */
  function RoundWord(size: int): int { Word(RoundSize(size)) }

  /** The fit test in size_t. */
  predicate Accepts(b: Block, size: int, a: int)
    requires IsPowerOfTwo(a)
  {
    b.size >= Word(size + Offset(b, a))
  }

  /** The index looked at as number `k`. */
  function Nth(free: seq<Block>, direction: Direction, k: int): int {
    if direction.Front? then k else |free| - 1 - k
  }

  /** The search of `AllocateFromHead` and `AllocateFromTail` from the `k`-th block on, with `found`
      the best block so far and `best` its size. */
  function Scan(free: seq<Block>, size: int, a: int, direction: Direction, mode: Mode, k: nat, found: int,
      best: int): (r: int)
    requires IsPowerOfTwo(a) && k <= |free| && -1 <= found < |free|
    ensures -1 <= r < |free|
    decreases |free| - k
  {
    if k == |free| then found else
      var i := Nth(free, direction, k);
      if Accepts(free[i], size, a) && best > free[i].size then
        if mode.FirstFit? || free[i].size == size then i
        else Scan(free, size, a, direction, mode, k + 1, i, free[i].size)
      else Scan(free, size, a, direction, mode, k + 1, found, best)
  }

  function Search(free: seq<Block>, size: int, a: int, direction: Direction, mode: Mode): (r: int)
    requires IsPowerOfTwo(a)
    ensures -1 <= r < |free|
  {
    Scan(free, size, a, direction, mode, 0, -1, WORD_LIMIT - 1)
  }

  function PickWord(h: Heap, size: int, alignment: int): (r: int)
    requires LegalAlignment(alignment)
    ensures -1 <= r < |h.free|
  {
    Search(h.free, RoundWord(size), EffectiveAlignment(alignment), DirectionOf(alignment), h.mode)
  }

  /** The search finds an accepted block whenever there is one. */
  lemma {:induction false} ScanFinds(free: seq<Block>, size: int, a: int, direction: Direction, mode: Mode, k: nat,
      found: int, best: int)
    requires IsPowerOfTwo(a) && k <= |free| && -1 <= found < |free| && (found != -1 ==> Accepts(free[found], size, a))
    ensures var r := Scan(free, size, a, direction, mode, k, found, best);
            && (r != -1 ==> Accepts(free[r], size, a))
            && (r == -1 ==> found == -1
                            && forall m | k <= m < |free| ::
                                 !Accepts(free[Nth(free, direction, m)], size, a)
                                 || best <= free[Nth(free, direction, m)].size)
    decreases |free| - k
  {
    if k < |free| {
      var i := Nth(free, direction, k);
      if Accepts(free[i], size, a) && best > free[i].size {
        if !mode.FirstFit? && free[i].size != size {
          ScanFinds(free, size, a, direction, mode, k + 1, i, free[i].size);
        }
      } else {
        ScanFinds(free, size, a, direction, mode, k + 1, found, best);
      }
    }
  }

  lemma SearchFinds(free: seq<Block>, size: int, a: int, direction: Direction, mode: Mode, j: nat)
    requires IsPowerOfTwo(a) && j < |free| && Accepts(free[j], size, a) && free[j].size < WORD_LIMIT - 1
    ensures var r := Search(free, size, a, direction, mode); r != -1 && Accepts(free[r], size, a)
  {
    ScanFinds(free, size, a, direction, mode, 0, -1, WORD_LIMIT - 1);
    assert Nth(free, direction, Nth(free, direction, j)) == j;
  }

  /** What the search knows after `k` blocks, when it accepts exactly the blocks that fit. */
  ghost predicate Scanned(free: seq<Block>, size: int, a: int, direction: Direction, mode: Mode, k: nat, found: int,
      best: int)
    requires IsPowerOfTwo(a) && k <= |free|
  {
    && -1 <= found < |free|
    && (if found == -1 then best == WORD_LIMIT - 1
        else Fits(free[found], size, a) && mode.BestFit? && best == free[found].size)
    && (found != -1 ==> 0 <= Nth(free, direction, found) < k)
    && forall m | 0 <= m < k && Fits(free[Nth(free, direction, m)], size, a) ::
         found != -1 && (Nth(free, direction, m) == found
             || Preferred(free, direction, mode, found, Nth(free, direction, m)))
  }

  /** The machine accepts block `j` exactly if it fits. */
  ghost predicate ExactAt(free: seq<Block>, size: int, a: int, j: int)
    requires IsPowerOfTwo(a) && 0 <= j < |free|
  {
    && (Accepts(free[j], size, a) <==> Fits(free[j], size, a))
    && free[j].size < WORD_LIMIT - 1 && Offset(free[j], a) >= 0
  }

  ghost predicate Exact(free: seq<Block>, size: int, a: int)
    requires IsPowerOfTwo(a)
  {
    forall j | 0 <= j < |free| :: ExactAt(free, size, a, j)
  }

  lemma NthTwice(free: seq<Block>, direction: Direction, j: int)
    ensures Nth(free, direction, Nth(free, direction, j)) == j
  {
  }

  lemma ScannedNext(free: seq<Block>, size: int, a: int, direction: Direction, mode: Mode, k: nat, found: int,
      best: int)
    requires IsPowerOfTwo(a) && k < |free| && Scanned(free, size, a, direction, mode, k, found, best)
    requires var b := free[Nth(free, direction, k)];
             b.size < WORD_LIMIT - 1 && (Fits(b, size, a) && best > b.size ==> mode.BestFit?)
    ensures var i := Nth(free, direction, k);
            if Fits(free[i], size, a) && best > free[i].size
            then Scanned(free, size, a, direction, mode, k + 1, i, free[i].size)
            else Scanned(free, size, a, direction, mode, k + 1, found, best)
  {
  }

  /** The early exit: a first fit, or a block of exactly the size, which nothing beats. */
  lemma ScannedExit(free: seq<Block>, size: int, a: int, direction: Direction, mode: Mode, k: nat, found: int,
      best: int)
    requires IsPowerOfTwo(a) && k < |free| && Scanned(free, size, a, direction, mode, k, found, best)
             && Exact(free, size, a)
    requires var b := free[Nth(free, direction, k)];
             Fits(b, size, a) && best > b.size && (mode.FirstFit? || b.size == size)
    ensures Chosen(free, size, a, direction, mode, Nth(free, direction, k))
  {
    var i := Nth(free, direction, k);
    forall j | 0 <= j < |free| && j != i && Fits(free[j], size, a) ensures Preferred(free, direction, mode, i, j) {
      assert ExactAt(free, size, a, j);
      NthTwice(free, direction, j);
    }
  }

  lemma ScannedEnd(free: seq<Block>, size: int, a: int, direction: Direction, mode: Mode, found: int, best: int)
    requires IsPowerOfTwo(a) && Scanned(free, size, a, direction, mode, |free|, found, best)
    ensures if found == -1 then !SomeFit(free, size, a) else Chosen(free, size, a, direction, mode, found)
  {
    forall j | 0 <= j < |free| && Fits(free[j], size, a)
      ensures found != -1 && (j == found || Preferred(free, direction, mode, found, j))
    {
      NthTwice(free, direction, j);
    }
  }

  /** When the machine accepts exactly the blocks that fit, its search, early exit included, ends at the
      block that is meant to be chosen. */
  lemma {:induction false} ScanIsChosen(free: seq<Block>, size: int, a: int, direction: Direction, mode: Mode,
      k: nat, found: int, best: int)
    requires IsPowerOfTwo(a) && k <= |free| && Scanned(free, size, a, direction, mode, k, found, best)
             && Exact(free, size, a)
    ensures var r := Scan(free, size, a, direction, mode, k, found, best);
            if r == -1 then !SomeFit(free, size, a) else Chosen(free, size, a, direction, mode, r)
    decreases |free| - k
  {
    if k == |free| {
      ScannedEnd(free, size, a, direction, mode, found, best);
    } else {
      var i := Nth(free, direction, k);
      assert ExactAt(free, size, a, i);
      if Fits(free[i], size, a) && best > free[i].size {
        if mode.FirstFit? || free[i].size == size {
          ScannedExit(free, size, a, direction, mode, k, found, best);
        } else {
          ScannedNext(free, size, a, direction, mode, k, found, best);
          ScanIsChosen(free, size, a, direction, mode, k + 1, i, free[i].size);
        }
      } else {
        ScannedNext(free, size, a, direction, mode, k, found, best);
        ScanIsChosen(free, size, a, direction, mode, k + 1, found, best);
      }
    }
  }

  /** Then the search and the intended choice agree. */
  lemma SearchIsPick(free: seq<Block>, size: int, a: int, direction: Direction, mode: Mode)
    requires IsPowerOfTwo(a) && Exact(free, size, a)
    ensures Search(free, size, a, direction, mode) == Pick(free, size, a, direction, mode)
  {
    ScanIsChosen(free, size, a, direction, mode, 0, -1, WORD_LIMIT - 1);
    var i := Search(free, size, a, direction, mode);
    if i != -1 { ChosenUnique(free, size, a, direction, mode, i, Pick(free, size, a, direction, mode)); }
  }

  function MemWord(b: Block, a: int): int
    requires IsPowerOfTwo(a)
  {
    Word(AlignUp(PayloadStart(b), a))
  }

  function WordFree(lo: int, hi: int): Block { Block(lo, Word(hi - lo - HEADER), 0) }

  function WordPieces(b: Block, mem: int, size: int, direction: Direction, useMargins: bool): seq<Block> {
    var frontEnd, backStart := Word(mem - HEADER), Word(mem + size);
    (if KeepsFront(Word(frontEnd - b.addr), direction, useMargins) then [WordFree(b.addr, frontEnd)] else [])
    + (if KeepsBack(Word(End(b) - backStart), direction, useMargins) then [WordFree(backStart, End(b))] else [])
  }

  function WordUsed(b: Block, mem: int, size: int, direction: Direction, useMargins: bool): Block {
    var start := Word(mem - HEADER);
    var frontEnd := if KeepsFront(Word(start - b.addr), direction, useMargins) then start else b.addr;
    Block(start, Word(Word(mem + size) - start - HEADER), Word(start - frontEnd) % MAXIMUM_PADDING_ALIGNMENT)
  }

  /** `ConvertFreeBlockToUsedBlock`, also for a block that is too small. */
  function AfterWordCarve(h: Heap, i: nat, mem: int, size: int, direction: Direction): Heap
    requires i < |h.free|
  {
    h.(free := h.free[..i] + WordPieces(h.free[i], mem, size, direction, h.useMargins) + h.free[i + 1..],
       used := h.used + [WordUsed(h.free[i], mem, size, direction, h.useMargins)])
  }

  ghost function AllocateWord(h: Heap, size: int, alignment: int): Heap
    requires LegalAlignment(alignment)
  {
    var i := PickWord(h, size, alignment);
    if i == -1 then h
    else AfterWordCarve(h, i, MemWord(h.free[i], EffectiveAlignment(alignment)), RoundWord(size),
        DirectionOf(alignment))
  }

  lemma WordCarveIsCarve(h: Heap, i: nat, mem: int, size: int, direction: Direction)
    requires i < |h.free| && FitsAt(h.free[i], mem, size) && 0 <= h.free[i].addr && End(h.free[i]) < WORD_LIMIT
    ensures AfterWordCarve(h, i, mem, size, direction) == AfterCarve(h, i, mem, size, direction)
  {
    var b := h.free[i];
    WordIs(mem - HEADER);
    WordIs(mem + size);
    WordIs(mem - HEADER - b.addr);
    WordIs(End(b) - (mem + size));
    WordIs(size);
    WordIs(0);
    WordIs(mem - HEADER - b.addr - HEADER);
    WordIs(End(b) - (mem + size) - HEADER);
  }

  /** Offsets are multiples of four below the alignment. */
  lemma OffsetBound(b: Block, a: int)
    requires IsPowerOfTwo(a) && a >= 4 && PayloadStart(b) % 4 == 0
    ensures 0 <= Offset(b, a) <= a - 4
  {
    AlignUpBounds(PayloadStart(b), a);
    AlignUpIsAligned(PayloadStart(b), a);
    AlignedIsFourAligned(AlignUp(PayloadStart(b), a), a);
    SelfAligned(a);
    AlignedIsFourAligned(a, a);
  }

  lemma SelfAligned(a: int)
    requires IsPowerOfTwo(a)
    ensures IsAligned(a, a)
  {
    MultipleIsAligned(1, a);
    assert 1 * a == a;
  }

  /** A sum that stays in size_t is tested right. */
  lemma TestIsExact(b: Block, n: int, a: int)
    requires IsPowerOfTwo(a) && 0 <= n && 0 <= Offset(b, a) && n + Offset(b, a) < WORD_LIMIT
    ensures Accepts(b, n, a) <==> Fits(b, n, a)
  {
    WordIs(n + Offset(b, a));
  }

  lemma SafeBlockIsExact(b: Block, n: int, a: int)
    requires IsPowerOfTwo(a) && 4 <= a && 0 <= n && n + a - 4 < WORD_LIMIT && PayloadStart(b) % 4 == 0
    ensures (Accepts(b, n, a) <==> Fits(b, n, a)) && Offset(b, a) >= 0
  {
    OffsetBound(b, a);
    TestIsExact(b, n, a);
  }

  lemma FreeBlockIsInside(h: Heap, i: nat)
    requires Inv(h) && FourAligned(h) && i < |h.free|
    ensures h.free[i].size < WORD_LIMIT - 1 && PayloadStart(h.free[i]) % 4 == 0
  {
    assert FreeOk(h.free[i]);
  }

  /** For a safe request, the machine's test accepts exactly the blocks that fit. */
  lemma SafeTestIsExact(h: Heap, n: int, a: int, i: nat)
    requires Inv(h) && FourAligned(h) && IsPowerOfTwo(a) && 4 <= a && 0 <= n && n + a - 4 < WORD_LIMIT && i < |h.free|
    ensures ExactAt(h.free, n, a, i)
  {
    FreeBlockIsInside(h, i);
    SafeBlockIsExact(h.free[i], n, a);
  }

  lemma SafeHeapIsExact(h: Heap, n: int, a: int)
    requires Inv(h) && FourAligned(h) && IsPowerOfTwo(a) && 4 <= a && 0 <= n && n + a - 4 < WORD_LIMIT
    ensures Exact(h.free, n, a)
  {
    forall i | 0 <= i < |h.free| ensures ExactAt(h.free, n, a, i) { SafeTestIsExact(h, n, a, i); }
  }

  lemma SafePickIsExact(h: Heap, size: nat, alignment: int)
    requires Inv(h) && FourAligned(h) && LegalAlignment(alignment) && RequestSafe(size, alignment)
    ensures PickWord(h, size, alignment) == PickFor(h, size, alignment)
  {
    RoundSizeMeaning(size);
    WordIs(RoundSize(size));
    SafeHeapIsExact(h, RoundSize(size), EffectiveAlignment(alignment));
    SearchIsPick(h.free, RoundSize(size), EffectiveAlignment(alignment), DirectionOf(alignment), h.mode);
  }

  /** For a safe request, the machine allocates exactly as intended. */
  lemma SafeRequestIsExact(h: Heap, size: nat, alignment: int)
    requires Inv(h) && FourAligned(h) && LegalAlignment(alignment) && RequestSafe(size, alignment)
    ensures AllocateWord(h, size, alignment) == AfterAllocate(h, size, alignment)
  {
    SafePickIsExact(h, size, alignment);
    var i := PickFor(h, size, alignment);
    if i != -1 {
      var a := EffectiveAlignment(alignment);
      var b := h.free[i];
      assert FreeOk(b) && 0 <= b.addr && End(b) < WORD_LIMIT;
      FitMeaning(b, size, alignment);
      RoundSizeMeaning(size);
      WordIs(RoundSize(size));
      WordIs(MemFor(b, alignment));
      WordCarveIsCarve(h, i, MemFor(b, alignment), RoundSize(size), DirectionOf(alignment));
    }
  }

  lemma OnlyMultiple(q: int, a: int, m: int)
    requires a > 0 && m == q * a && 32 * a < m <= 33 * a
    ensures m == 33 * a
  {
    if q < 33 { MultiplesApart(q, 33, a); }
    if q > 33 { MultiplesApart(33, q, a); }
  }

  lemma AlignsTo(x: int, a: int)
    requires IsPowerOfTwo(a) && a >= 4 && x == 32 * a + 4
    ensures AlignUp(x, a) == 33 * a
  {
    MultipleIsAligned(33, a);
    AlignUpLeast(x, a, 33 * a);
    AlignUpBounds(x, a);
    AlignUpIsAligned(x, a);
    var q := AlignedIsMultiple(AlignUp(x, a), a);
    OnlyMultiple(q, a, AlignUp(x, a));
  }

  /** The machine grants the rounded size, whatever the block has. */
  lemma GrantedSize(b: Block, mem: int, size: int, direction: Direction, useMargins: bool)
    requires HEADER <= mem < WORD_LIMIT && 0 <= size < WORD_LIMIT
    ensures WordUsed(b, mem, size, direction, useMargins).size == size
  {
    WordIs(mem - HEADER);
    WordIs(mem + size);
    WordIs(size);
    assert Word(size - WORD_LIMIT) == size;
  }

  /** The heap of one free block of `a` bytes, four bytes behind a multiple of `a`. */
  function Small(a: int): Heap { Fresh(32 * a - 28, 33 * a + 4) }

  lemma SmallIsSound(a: int)
    requires a % 4 == 0 && 4 <= a < 0x8000_0000
    ensures Inv(Small(a)) && FourAligned(Small(a)) && Small(a).free == [Block(32 * a - 28, a, 0)]
  {
    FreshIsSound(32 * a - 28, 33 * a + 4);
  }

  lemma SmallAligns(b: Block, a: int)
    requires IsPowerOfTwo(a) && 4 <= a < 0x8000_0000 && b.addr == 32 * a - 28
    ensures Offset(b, a) == a - 4 && MemWord(b, a) == 33 * a && a % 4 == 0
  {
    SelfAligned(a);
    AlignedIsFourAligned(a, a);
    AlignsTo(PayloadStart(b), a);
    WordIs(33 * a);
  }

  lemma SmallTests(b: Block, a: int, n: int)
    requires IsPowerOfTwo(a) && b.size == a && Offset(b, a) == a - 4 && 4 <= n <= WORD_LIMIT <= n + a - 4
             && a < WORD_LIMIT
    ensures Accepts(b, Word(n), a) && !Fits(b, n, a)
  {
    WordIs(n);
    WordIs(Word(n) + (a - 4));
  }

  lemma OnlyBlock(h: Heap, n: int, m: int, a: int, direction: Direction)
    requires IsPowerOfTwo(a) && |h.free| == 1 && Accepts(h.free[0], m, a) && !Fits(h.free[0], n, a)
             && h.free[0].size < WORD_LIMIT - 1
    ensures Pick(h.free, n, a, direction, h.mode) == -1 && Search(h.free, m, a, direction, h.mode) == 0
  {
    assert !SomeFit(h.free, n, a);
    SearchFinds(h.free, m, a, direction, h.mode, 0);
  }

  /** A sound heap whose one free block the machine takes for a request that is not safe, though the
      block is too small for it: the request is granted in full. */
  lemma UnsafeRequestFails(size: nat, alignment: int) returns (h: Heap)
    requires LegalAlignment(alignment) && size < WORD_LIMIT && !RequestSafe(size, alignment)
    ensures Inv(h) && FourAligned(h) && AfterAllocate(h, size, alignment) == h
    ensures h.end - h.start == EffectiveAlignment(alignment) + HEADER
    ensures var r := AllocateWord(h, size, alignment); |r.used| == 1 && r.used[0].size == RoundWord(size)
  {
    var a := EffectiveAlignment(alignment);
    h := Small(a);
    RoundSizeMeaning(size);
    SmallAligns(h.free[0], a);
    SmallIsSound(a);
    SmallTests(h.free[0], a, RoundSize(size));
    OnlyBlock(h, RoundSize(size), RoundWord(size), a, DirectionOf(alignment));
    GrantsOnly(h, size, alignment);
  }

  lemma GrantsOnly(h: Heap, size: nat, alignment: int)
    requires LegalAlignment(alignment) && h.used == [] && |h.free| == 1 && PickWord(h, size, alignment) == 0
    requires MemWord(h.free[0], EffectiveAlignment(alignment)) >= HEADER
    ensures var r := AllocateWord(h, size, alignment); |r.used| == 1 && r.used[0].size == RoundWord(size)
  {
    var mem := MemWord(h.free[0], EffectiveAlignment(alignment));
    GrantedSize(h.free[0], mem, RoundWord(size), DirectionOf(alignment), h.useMargins);
    assert AllocateWord(h, size, alignment).used
        == [WordUsed(h.free[0], mem, RoundWord(size), DirectionOf(alignment), h.useMargins)];
  }

  /** Machine allocation is the intended one in every sound heap if and only if the request is safe. */
  lemma RequestIsExactIff(size: nat, alignment: int)
    requires LegalAlignment(alignment) && size < WORD_LIMIT
    ensures (forall h | Inv(h) && FourAligned(h) ::
               AllocateWord(h, size, alignment) == AfterAllocate(h, size, alignment))
       <==> RequestSafe(size, alignment)
  {
    if RequestSafe(size, alignment) {
      forall h | Inv(h) && FourAligned(h)
        ensures AllocateWord(h, size, alignment) == AfterAllocate(h, size, alignment)
      {
        SafeRequestIsExact(h, size, alignment);
      }
    } else {
      var h := UnsafeRequestFails(size, alignment);
    }
  }

  /** What an alignment of 4 makes of a block. */
  predicate FourAt(b: Block) {
    && IsPowerOfTwo(4) && Offset(b, 4) == 0 && 4 <= b.size < WORD_LIMIT - 1
    && 0 <= b.addr && PayloadStart(b) < WORD_LIMIT
  }

  lemma FreeIsFour(h: Heap, m: nat)
    requires Inv(h) && FourAligned(h) && m < |h.free|
    ensures FourAt(h.free[m]) && FreeOk(h.free[m])
  {
    assert FreeOk(h.free[m]);
    AlignUpSmall(0);
    OffsetBound(h.free[m], 4);
  }

  lemma TopRequestIsAccepted(h: Heap, size: nat) returns (i: int)
    requires Inv(h) && FourAligned(h) && h.free != [] && WORD_LIMIT - 4 < size < WORD_LIMIT
    ensures IsPowerOfTwo(4) && LegalAlignment(4) && RoundWord(size) == 0 && EffectiveAlignment(4) == 4
    ensures PickFor(h, size, 4) == -1 && i == PickWord(h, size, 4) && 0 <= i < |h.free|
    ensures MemWord(h.free[i], 4) == PayloadStart(h.free[i]) && FreeOk(h.free[i])
    ensures 0 <= h.free[i].addr && PayloadStart(h.free[i]) < WORD_LIMIT
  {
    AlignUpSmall(0);
    assert RoundSize(size) == WORD_LIMIT;
    forall m | 0 <= m < |h.free| ensures FourAt(h.free[m]) { FreeIsFour(h, m); }
    assert Accepts(h.free[0], 0, 4);
    assert !SomeFit(h.free, WORD_LIMIT, 4);
    SearchFinds(h.free, 0, 4, Front, h.mode, 0);
    i := PickWord(h, size, 4);
    FreeIsFour(h, i);
  }

  lemma NoBytes(b: Block, direction: Direction, useMargins: bool)
    requires 0 <= b.addr && PayloadStart(b) < WORD_LIMIT
    ensures WordUsed(b, PayloadStart(b), 0, direction, useMargins).size == 0
  {
    WordIs(b.addr);
    WordIs(PayloadStart(b));
    WordIs(0);
  }

  /** A request within three bytes of 2^64 is rounded to 0: every heap with a free block grants it a
      block of no bytes, and is not sound afterwards. */
  lemma TopRequestGetsNothing(h: Heap, size: nat)
    requires Inv(h) && FourAligned(h) && h.free != [] && WORD_LIMIT - 4 < size < WORD_LIMIT
    ensures IsPowerOfTwo(4) && LegalAlignment(4) && AfterAllocate(h, size, 4) == h
    ensures var r := AllocateWord(h, size, 4); |r.used| == |h.used| + 1 && r.used[|h.used|].size == 0 && !Inv(r)
  {
    var i := TopRequestIsAccepted(h, size);
    NoBytes(h.free[i], Front, h.useMargins);
    var u := WordUsed(h.free[i], PayloadStart(h.free[i]), 0, Front, h.useMargins);
    var r := AllocateWord(h, size, 4);
    assert r.used == h.used + [u];
    assert !UsedOk(r.used[|h.used|]);
  }

  /** A request whose sum with the alignment padding wraps: a heap of 96 bytes grants 2^64 - 8. */
  lemma WrappedSumIsGranted() returns (h: Heap)
    ensures IsPowerOfTwo(64) && LegalAlignment(64) && Inv(h) && FourAligned(h) && h.end - h.start == 96
    ensures AfterAllocate(h, WORD_LIMIT - 8, 64) == h
    ensures var r := AllocateWord(h, WORD_LIMIT - 8, 64); |r.used| == 1 && r.used[0].size == WORD_LIMIT - 8
  {
    SixtyFour();
    h := UnsafeRequestFails(WORD_LIMIT - 8, 64);
    WordIs(WORD_LIMIT - 8);
  }

  lemma SixtyFour()
    ensures IsPowerOfTwo(64) && LegalAlignment(64) && EffectiveAlignment(64) == 64
    ensures RoundSize(WORD_LIMIT - 8) == WORD_LIMIT - 8
  {
    assert IsPowerOfTwo(2) && IsPowerOfTwo(8) && IsPowerOfTwo(32);
  }

  // ----- Resizing -----

  ghost function ResizeWord(h: Heap, k: nat, size: int): Heap
    requires k < |h.used|
  {
    var s := Word(RoundUp(size));
    if s == h.used[k].size then h
    else if s > h.used[k].size then AfterGrow(h, k, s)
    else AfterShrink(h, k, s)
  }

  /** A shrink to no bytes at all takes effect. */
  ghost predicate CanVanish(h: Heap, k: nat)
    requires k < |h.used|
  {
    MergesAfter(h.free, PayloadStart(h.used[k]), End(h.used[k])) || h.used[k].size >= MINIMUM_REGION
  }

  /** Nothing can grow to the size of the address space. */
  lemma TopGrowFails(h: Heap, k: nat)
    requires Inv(h) && k < |h.used|
    ensures AfterGrow(h, k, WORD_LIMIT) == h
  {
    var j := Rank(h.free, End(h.used[k]));
    if j < |h.free| && h.free[j].addr == End(h.used[k]) {
      assert FreeOk(h.free[j]) && UsedOk(h.used[k]);
    }
  }

  /** A machine resize is the intended one if and only if the new size can be rounded, or the block
      cannot vanish. */
  lemma ResizeIsExactIff(h: Heap, k: nat, size: nat)
    requires Inv(h) && k < |h.used| && size < WORD_LIMIT
    ensures ResizeWord(h, k, size) == AfterResize(h, k, size) <==> RoundUp(size) < WORD_LIMIT || !CanVanish(h, k)
  {
    WordIs(RoundUp(size));
    assert UsedOk(h.used[k]) && h.used[k].size < WORD_LIMIT;
    if RoundUp(size) >= WORD_LIMIT {
      TopGrowFails(h, k);
      ShrinkFailsWhen(h, k, 0);
    }
  }

  lemma VanishedIsUnsound(h: Heap, k: nat)
    requires Inv(h) && k < |h.used| && CanVanish(h, k)
    ensures !Inv(AfterShrink(h, k, 0))
  {
    assert UsedOk(h.used[k]);
    ShrinkFailsWhen(h, k, 0);
    assert AfterShrink(h, k, 0).used[k].size == 0;
    assert !UsedOk(AfterShrink(h, k, 0).used[k]);
  }

  lemma ZeroResize(h: Heap, k: nat, size: nat)
    requires Inv(h) && k < |h.used| && Word(RoundUp(size)) == 0
    ensures ResizeWord(h, k, size) == AfterShrink(h, k, 0) && (Inv(AfterShrink(h, k, 0)) <==> !CanVanish(h, k))
  {
    assert UsedOk(h.used[k]);
    if CanVanish(h, k) { VanishedIsUnsound(h, k); } else { ShrinkFailsWhen(h, k, 0); }
  }

  /** It leaves a sound heap if and only if the size is not rounded to 0, or the block cannot vanish. */
  lemma ResizeIsSoundIff(h: Heap, k: nat, size: nat)
    requires Inv(h) && k < |h.used| && size < WORD_LIMIT
    ensures Inv(ResizeWord(h, k, size)) <==> ResizeSafe(size) || !CanVanish(h, k)
  {
    WordIs(RoundUp(size));
    if ResizeSafe(size) {
      ResizeKeepsInv(h, k, size);
      assert ResizeWord(h, k, size) == AfterResize(h, k, size);
    } else {
      ZeroResize(h, k, size);
    }
  }

  // ----- A new heap -----

  /** `InitializeExpHeap`. */
  function FreshWord(start: int, end: int): Heap { Heap(start, end, [WordFree(start, end)], [], FirstFit, false) }

  lemma FreshWordIsWellFormed(start: int, end: int)
    requires 0 <= start < WORD_LIMIT && 0 <= end < WORD_LIMIT
    ensures Inv(FreshWord(start, end)) <==> end - start >= MINIMUM_REGION
    ensures end - start >= MINIMUM_REGION ==> FreshWord(start, end) == Fresh(start, end)
  {
    var n := end - start - HEADER;
    assert Word(n) == if n >= 0 then n else if n >= -WORD_LIMIT then n + WORD_LIMIT else n + 2 * WORD_LIMIT;
    FreshIsWellFormed(start, end);
    if Inv(FreshWord(start, end)) { assert FreeOk(FreshWord(start, end).free[0]); }
  }

  // ----- The size query -----

  function AllocatableInWord(b: Block, a: int): int
    requires IsPowerOfTwo(a)
  {
    if MemWord(b, a) < End(b) then End(b) - MemWord(b, a) else 0
  }

  /** `GetExpHeapAllocatableSize` as the machine computes it. */
  function AllocatableSizeWord(free: seq<Block>, a: int): int
    requires IsPowerOfTwo(a)
  {
    if free == [] then 0 else
      var rest := AllocatableSizeWord(free[..|free| - 1], a);
      var last := AllocatableInWord(free[|free| - 1], a);
      if last > rest then last else rest
  }

  /** The next multiple of the alignment behind the header of some free block is 2^64. */
  predicate TopWraps(free: seq<Block>, a: int)
    requires IsPowerOfTwo(a)
  {
    exists i | 0 <= i < |free| :: AlignUp(PayloadStart(free[i]), a) >= WORD_LIMIT
  }

  ghost predicate InWords(free: seq<Block>) {
    forall i | 0 <= i < |free| :: 0 <= free[i].addr && End(free[i]) < WORD_LIMIT && free[i].size > 0
  }

  lemma HeapInWords(h: Heap)
    requires Inv(h)
    ensures InWords(h.free)
  {
    forall i | 0 <= i < |h.free| ensures 0 <= h.free[i].addr && End(h.free[i]) < WORD_LIMIT && h.free[i].size > 0 {
      assert FreeOk(h.free[i]);
    }
  }

  lemma {:induction false} PowerIsAligned(x: int, a: int)
    requires IsPowerOfTwo(x) && IsPowerOfTwo(a) && a <= x
    ensures IsAligned(x, a)
    decreases a
  {
    if a > 1 { PowerIsAligned(x / 2, a / 2); }
  }

  lemma {:induction false} PowerProduct(x: int, y: int)
    requires IsPowerOfTwo(x) && IsPowerOfTwo(y)
    ensures IsPowerOfTwo(x * y)
    decreases x
  {
    if x == 1 {
      assert x * y == y;
    } else {
      PowerProduct(x / 2, y);
      TwiceIsPower(x / 2 * y);
      assert x * y == 2 * (x / 2 * y);
    }
  }

  lemma TwiceIsPower(x: int)
    requires IsPowerOfTwo(x)
    ensures IsPowerOfTwo(2 * x)
  {
    assert 2 * x / 2 == x;
  }

  lemma WordLimitIsPower()
    ensures IsPowerOfTwo(WORD_LIMIT)
  {
    assert IsPowerOfTwo(16);
    PowerProduct(16, 16);
    PowerProduct(0x100, 0x100);
    PowerProduct(0x1_0000, 0x1_0000);
    PowerProduct(0x1_0000_0000, 0x1_0000_0000);
  }

  /** An aligned address reaches 2^64, but never goes past it. */
  lemma AlignedReaches(b: Block, a: int)
    requires IsPowerOfTwo(a) && a < 0x8000_0000 && 0 <= b.addr && PayloadStart(b) < WORD_LIMIT
    ensures PayloadStart(b) <= AlignUp(PayloadStart(b), a) <= WORD_LIMIT
            && AlignUp(PayloadStart(b), a) < PayloadStart(b) + a
    ensures MemWord(b, a) == if AlignUp(PayloadStart(b), a) == WORD_LIMIT then 0 else AlignUp(PayloadStart(b), a)
  {
    WordLimitIsPower();
    PowerIsAligned(WORD_LIMIT, a);
    AlignUpLeast(PayloadStart(b), a, WORD_LIMIT);
    AlignUpBounds(PayloadStart(b), a);
    WordIs(AlignUp(PayloadStart(b), a));
  }

  lemma {:induction false} SizeWordIsMaximum(free: seq<Block>, a: int)
    requires IsPowerOfTwo(a)
    ensures forall i | 0 <= i < |free| :: AllocatableInWord(free[i], a) <= AllocatableSizeWord(free, a)
  {
    if free != [] {
      var n := |free| - 1;
      SizeWordIsMaximum(free[..n], a);
      forall i | 0 <= i < |free| ensures AllocatableInWord(free[i], a) <= AllocatableSizeWord(free, a) {
        if i < n { assert free[i] == free[..n][i]; }
      }
    }
  }

  lemma {:induction false} QueryIsExact(free: seq<Block>, a: int)
    requires IsPowerOfTwo(a) && a < 0x8000_0000 && InWords(free) && !TopWraps(free, a)
    ensures AllocatableSizeWord(free, a) == AllocatableSize(free, a)
  {
    if free != [] {
      var n := |free| - 1;
      assert forall i | 0 <= i < n :: free[..n][i] == free[i];
      QueryIsExact(free[..n], a);
      AlignedReaches(free[n], a);
    }
  }

  lemma AlignedAtLeast(x: int, a: int)
    requires IsPowerOfTwo(a) && x > 0
    ensures AlignUp(x, a) >= a
  {
    AlignUpBounds(x, a);
    AlignUpIsAligned(x, a);
    var q := AlignedIsMultiple(AlignUp(x, a), a);
    PositiveMultiple(q, a, AlignUp(x, a));
  }

  lemma PositiveMultiple(q: int, a: int, m: int)
    requires a > 0 && m == q * a && m > 0
    ensures m >= a
  {
    if q > 0 { MultiplesApart(0, q, a); }
    if q < 0 { MultiplesApart(q, 0, a); }
  }

  /** Next to a block that wraps, another block offers nothing, or lies below it and offers less than
      what is below. */
  lemma OfferBelow(free: seq<Block>, a: int, i: nat, j: nat)
    requires Canonical(free) && InWords(free) && IsPowerOfTwo(a) && a < 0x8000_0000
    requires i < |free| && j < |free| && AlignUp(PayloadStart(free[i]), a) >= WORD_LIMIT
    ensures AllocatableIn(free[j], a) == 0 || AllocatableIn(free[j], a) + a < free[i].addr
  {
    AlignedReaches(free[i], a);
    AlignedReaches(free[j], a);
    if j < i {
      assert Below(free, j, i);
      AlignedAtLeast(PayloadStart(free[j]), a);
    } else if i < j {
      assert Below(free, i, j);
      AlignUpIsAligned(PayloadStart(free[j]), a);
      AlignUpLeast(PayloadStart(free[i]), a, AlignUp(PayloadStart(free[j]), a));
    }
  }

  /** With a block that wraps, the machine's answer is at least that block's end, and the right one is
      below the block. */
  lemma WrappedQuery(h: Heap, a: int) returns (i: nat)
    requires Inv(h) && IsPowerOfTwo(a) && a < 0x8000_0000 && TopWraps(h.free, a)
    ensures i < |h.free| && AllocatableSizeWord(h.free, a) >= End(h.free[i])
    ensures AllocatableSize(h.free, a) == 0 || AllocatableSize(h.free, a) + a < h.free[i].addr
    ensures 0 <= h.free[i].addr && End(h.free[i]) < WORD_LIMIT && AllocatableSize(h.free, a) >= 0
  {
    HeapInWords(h);
    i :| 0 <= i < |h.free| && AlignUp(PayloadStart(h.free[i]), a) >= WORD_LIMIT;
    AlignedReaches(h.free[i], a);
    SizeWordIsMaximum(h.free, a);
    assert AllocatableInWord(h.free[i], a) == End(h.free[i]);
    AllocatableSizeIsMaximum(h.free, a);
    if AllocatableSize(h.free, a) > 0 {
      var j :| 0 <= j < |h.free| && AllocatableIn(h.free[j], a) == AllocatableSize(h.free, a);
      OfferBelow(h.free, a, i, j);
    }
  }

  /** The machine's size query is right if and only if no free block wraps. */
  lemma QueryIsRightIff(h: Heap, a: int)
    requires Inv(h) && IsPowerOfTwo(a) && a < 0x8000_0000
    ensures AllocatableSizeWord(h.free, a) == AllocatableSize(h.free, a) <==> !TopWraps(h.free, a)
  {
    HeapInWords(h);
    if TopWraps(h.free, a) {
      var i := WrappedQuery(h, a);
    } else {
      QueryIsExact(h.free, a);
    }
  }

  lemma SmallPowers(a: int)
    requires IsPowerOfTwo(a)
    ensures a == 1 || a == 2 || a >= 4
  {
    assert !IsPowerOfTwo(3);
  }

  /** A wrapping block means an alignment of at least four. */
  lemma WrapNeedsAlignment(b: Block, a: int)
    requires IsPowerOfTwo(a) && b.addr % 4 == 0 && PayloadStart(b) < WORD_LIMIT <= AlignUp(PayloadStart(b), a)
    ensures a >= 4
  {
    AlignUpSmall(PayloadStart(b));
    SmallPowers(a);
  }

  /** A request just above what is really there, which the wrapped query promises. */
  lemma PromisedTooMuch(h: Heap, alignment: int) returns (size: nat)
    requires Inv(h) && FourAligned(h) && LegalAlignment(alignment) && TopWraps(h.free, Abs(alignment))
    ensures RequestSafe(size, alignment) && PickWord(h, size, alignment) == -1
    ensures RoundSize(size) <= AllocatableSizeWord(h.free, Abs(alignment))
  {
    HeapInWords(h);
    var t :| 0 <= t < |h.free| && AlignUp(PayloadStart(h.free[t]), Abs(alignment)) >= WORD_LIMIT;
    WrapNeedsAlignment(h.free[t], Abs(alignment));
    var i := WrappedQuery(h, Abs(alignment));
    size := AllocatableSize(h.free, Abs(alignment)) + 1;
    RoundSizeMeaning(size);
    SafePickIsExact(h, size, alignment);
    AllocatableIffQuery(h, size, alignment);
  }

  /** The query tells for every safe request whether it will be granted if and only if no free block
      wraps. */
  lemma QueryAnswersIff(h: Heap, alignment: int)
    requires Inv(h) && FourAligned(h) && LegalAlignment(alignment)
    ensures (forall size: nat | RequestSafe(size, alignment) ::
               PickWord(h, size, alignment) != -1 <==> RoundSize(size) <= AllocatableSizeWord(h.free, Abs(alignment)))
       <==> !TopWraps(h.free, Abs(alignment))
  {
    QueryIsRightIff(h, Abs(alignment));
    if TopWraps(h.free, Abs(alignment)) {
      var size := PromisedTooMuch(h, alignment);
    } else {
      forall size: nat | RequestSafe(size, alignment)
        ensures PickWord(h, size, alignment) != -1 <==> RoundSize(size) <= AllocatableSizeWord(h.free, Abs(alignment))
      {
        SafePickIsExact(h, size, alignment);
        AllocatableIffQuery(h, size, alignment);
      }
    }
  }

  /** A heap that ends four bytes below 2^64 promises nearly all of them, and cannot grant eight. */
  lemma TopHeapPromisesTooMuch()
    ensures var h := Fresh(WORD_LIMIT - 0x40, WORD_LIMIT - 4);
            && Inv(h) && FourAligned(h) && IsPowerOfTwo(64) && LegalAlignment(64)
            && AllocatableSizeWord(h.free, 64) == WORD_LIMIT - 4 && PickWord(h, 8, 64) == -1
  {
    var h := Fresh(WORD_LIMIT - 0x40, WORD_LIMIT - 4);
    FreshIsWellFormed(WORD_LIMIT - 0x40, WORD_LIMIT - 4);
    SixtyFour();
    var b := h.free[0];
    AlignedReaches(b, 64);
    AlignUpIsAligned(PayloadStart(b), 64);
    var q := AlignedIsMultiple(AlignUp(PayloadStart(b), 64), 64);
    assert h.free[..0] == [];
    SafePickIsExact(h, 8, 64);
    assert !SomeFit(h.free, 8, 64);
  }

  // ----- The size query for any alignment -----

  /** `AlignUp` in 64 bits: an alignment of 0 has all bits in its mask. */
  function AlignWord(x: int, a: nat): int {
    if a == 0 then 0 else var y := Word(x + (a - 1)); y - And(y, a - 1)
  }

  function AllocatableAt(b: Block, a: nat): int {
    var start := AlignWord(PayloadStart(b), a);
    if start < End(b) then End(b) - start else 0
  }

  function AllocatableSizeMask(free: seq<Block>, a: nat): int {
    if free == [] then 0 else
      var rest := AllocatableSizeMask(free[..|free| - 1], a);
      var last := AllocatableAt(free[|free| - 1], a);
      if last > rest then last else rest
  }

  lemma {:induction false} AlignUpShift(x: int, d: int, a: int)
    requires IsPowerOfTwo(a) && IsAligned(d, a)
    ensures AlignUp(x + d, a) == AlignUp(x, a) + d
    decreases a
  {
    if a > 1 {
      AlignUpShift((x + 1) / 2, d / 2, a / 2);
      assert (x + d + 1) / 2 == (x + 1) / 2 + d / 2;
    }
  }

  lemma MaskInWord(x: int, a: int)
    requires IsPowerOfTwo(a) && x + (a - 1) < WORD_LIMIT && 0 <= x
    ensures AlignWord(x, a) == AlignUp(x, a)
  {
    WordIs(x + (a - 1));
    MaskUpIsAlignUp(x, a);
  }

  lemma MaskPastWord(x: int, a: int)
    requires IsPowerOfTwo(a) && IsAligned(WORD_LIMIT, a) && WORD_LIMIT <= x + (a - 1) < 2 * WORD_LIMIT
    ensures AlignWord(x, a) == AlignUp(x, a) - WORD_LIMIT >= 0
  {
    WordIs(x + (a - 1));
    AlignUpShift(x - WORD_LIMIT, WORD_LIMIT, a);
    MaskUpIsAlignUp(x - WORD_LIMIT, a);
  }

  /** For powers of two it is the rounding used everywhere else. */
  lemma AlignWordIsMemWord(b: Block, a: int)
    requires IsPowerOfTwo(a) && a < 0x8000_0000 && 0 <= b.addr && PayloadStart(b) < WORD_LIMIT
    ensures AlignWord(PayloadStart(b), a) == MemWord(b, a)
  {
    AlignedReaches(b, a);
    if PayloadStart(b) + (a - 1) < WORD_LIMIT {
      MaskInWord(PayloadStart(b), a);
      AlignUpBounds(PayloadStart(b), a);
    } else {
      WordLimitIsPower();
      PowerIsAligned(WORD_LIMIT, a);
      MaskPastWord(PayloadStart(b), a);
    }
  }

  lemma {:induction false} MaskQueryIsWord(free: seq<Block>, a: int)
    requires IsPowerOfTwo(a) && a < 0x8000_0000 && InWords(free)
    ensures AllocatableSizeMask(free, a) == AllocatableSizeWord(free, a)
  {
    if free != [] {
      var n := |free| - 1;
      assert forall i | 0 <= i < n :: free[..n][i] == free[i];
      MaskQueryIsWord(free[..n], a);
      AlignWordIsMemWord(free[n], a);
    }
  }

  /** The query does not check its alignment: 0 is answered with the end of the last free block. */
  lemma {:induction false} ZeroAlignmentQuery(h: Heap, n: nat)
    requires Inv(h) && 0 < n <= |h.free|
    ensures AllocatableSizeMask(h.free[..n], 0) == End(h.free[n - 1])
  {
    assert FreeOk(h.free[n - 1]) && h.free[..n][..n - 1] == h.free[..n - 1];
    if n > 1 {
      ZeroAlignmentQuery(h, n - 1);
      assert Below(h.free, n - 2, n - 1);
    }
  }
}
