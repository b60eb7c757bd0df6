/** What the operations of the expandable heap do to its state, as functions on values, and what
    every run of them keeps: the layout invariant, byte conservation and bounded slack. */
module ExpHeapSpec {
  import opened Alignment
  import opened ExpHeapLayout

  // Number of values of size_t and uintptr_t
  const WORD_LIMIT := 0x1_0000_0000_0000_0000
  const MINIMUM_ALIGNMENT := 4

  datatype Mode = FirstFit | BestFit

  datatype Heap = Heap(start: int, end: int, free: seq<Block>, used: seq<Block>,
                       mode: Mode, useMargins: bool)

  // ----- Sizes and alignments -----

  function Abs(x: int): int { if x < 0 then -x else x }

  /** What `AllocateFromExpHeap` demands of its alignment. */
  predicate LegalAlignment(alignment: int) { IsPowerOfTwo(Abs(alignment)) && Abs(alignment) < 0x8000_0000 }

  function EffectiveAlignment(alignment: int): (a: int)
    requires LegalAlignment(alignment)
    ensures IsPowerOfTwo(a) && MINIMUM_ALIGNMENT <= a
  {
    assert IsPowerOfTwo(4) && IsPowerOfTwo(2) && !IsPowerOfTwo(3);
    if Abs(alignment) < MINIMUM_ALIGNMENT then MINIMUM_ALIGNMENT else Abs(alignment)
  }

  /** Sizes are rounded to the minimum alignment, four. */
  function RoundUp(size: int): int { (size + 3) / 4 * 4 }

  /** What an allocation request of `size` bytes takes. */
  function RoundSize(size: int): int { RoundUp(if size == 0 then 1 else size) }

  /** Neither the rounding of the size nor the sum in the fit test leaves size_t, in any heap. */
  predicate RequestSafe(size: int, alignment: int)
    requires LegalAlignment(alignment)
  {
    RoundSize(size) + EffectiveAlignment(alignment) - MINIMUM_ALIGNMENT < WORD_LIMIT
  }

  /** A new size that rounding brings neither to zero nor out of size_t. */
  predicate ResizeSafe(size: int) { 0 < RoundUp(size) < WORD_LIMIT }

  // ----- The invariant -----

  ghost predicate Within(s: seq<Block>, lo: int, hi: int) {
    forall i | 0 <= i < |s| :: lo <= RegionStart(s[i]) && End(s[i]) <= hi
  }

  ghost predicate UsedOk(u: Block) {
    u.size >= MINIMUM_FREE_BLOCK_SIZE && 0 <= u.padding < MAXIMUM_PADDING_ALIGNMENT
  }

  ghost predicate Apart(a: Block, b: Block) {
    End(a) <= RegionStart(b) || End(b) <= RegionStart(a)
  }

  ghost predicate ApartAt(used: seq<Block>, k: int, m: int)
    requires 0 <= k < |used| && 0 <= m < |used|
  {
    Apart(used[k], used[m])
  }

  /** Well-formed used blocks whose regions are pairwise disjoint. */
  ghost predicate UsedList(used: seq<Block>) {
    && (forall k | 0 <= k < |used| :: UsedOk(used[k]))
    && (forall k, m | 0 <= k < m < |used| :: ApartAt(used, k, m))
  }

  /** Free blocks ordered and never abutting, payloads of at least four bytes, and all free
      regions and used regions (padding, header, payload) disjoint inside [start, end). */
  ghost predicate Inv(h: Heap) {
    && 0 <= h.start <= h.end < WORD_LIMIT
    && Canonical(h.free) && Within(h.free, h.start, h.end)
    && Within(h.used, h.start, h.end)
    && UsedList(h.used)
    && (forall k | 0 <= k < |h.used| :: Clear(h.free, RegionStart(h.used[k]), End(h.used[k])))
  }

  /** The bytes of the heap that no block owns. */
  function Slack(h: Heap): int { h.end - h.start - Bytes(h.free) - Bytes(h.used) }

  // ----- Choosing a free block -----

  function Offset(b: Block, a: int): int
    requires IsPowerOfTwo(a)
  {
    AlignUp(PayloadStart(b), a) - PayloadStart(b)
  }

  predicate Fits(b: Block, size: int, a: int)
    requires IsPowerOfTwo(a)
  {
    b.size >= size + Offset(b, a)
  }

  /** Block `i` is the better choice than block `j`. */
  predicate Preferred(free: seq<Block>, direction: Direction, mode: Mode, i: nat, j: nat)
    requires i < |free| && j < |free|
  {
    var nearer := if direction.Front? then i < j else j < i;
    if mode.FirstFit? then nearer
    else free[i].size < free[j].size || (free[i].size == free[j].size && nearer)
  }

  ghost predicate Chosen(free: seq<Block>, size: int, a: int, direction: Direction, mode: Mode, i: int)
    requires IsPowerOfTwo(a)
  {
    && 0 <= i < |free| && Fits(free[i], size, a)
    && forall j | 0 <= j < |free| && j != i && Fits(free[j], size, a) :: Preferred(free, direction, mode, i, j)
  }

  ghost predicate SomeFit(free: seq<Block>, size: int, a: int)
    requires IsPowerOfTwo(a)
  {
    exists i | 0 <= i < |free| :: Fits(free[i], size, a)
  }

  lemma ChosenUnique(free: seq<Block>, size: int, a: int, direction: Direction, mode: Mode, i: int, j: int)
    requires IsPowerOfTwo(a) && Chosen(free, size, a, direction, mode, i) && Chosen(free, size, a, direction, mode, j)
    ensures i == j
  {
  }

  lemma {:induction false} ChosenExists(free: seq<Block>, size: int, a: int, direction: Direction, mode: Mode)
      returns (i: int)
    requires IsPowerOfTwo(a) && SomeFit(free, size, a)
    ensures Chosen(free, size, a, direction, mode, i)
  {
    var n := |free| - 1;
    var front := free[..n];
    if SomeFit(front, size, a) {
      i := ChosenExists(front, size, a, direction, mode);
      assert forall j | 0 <= j < n && j != i && Fits(free[j], size, a) ::
          front[j] == free[j] && Preferred(front, direction, mode, i, j);
      if Fits(free[n], size, a) && Preferred(free, direction, mode, n, i) { i := n; }
    } else {
      assert forall j | 0 <= j < n :: front[j] == free[j];
      i := n;
    }
  }

  /** The index the search settles on, or -1. */
  ghost function Pick(free: seq<Block>, size: int, a: int, direction: Direction, mode: Mode): (i: int)
    requires IsPowerOfTwo(a)
    ensures i == -1 || Chosen(free, size, a, direction, mode, i)
    ensures i == -1 <==> !SomeFit(free, size, a)
  {
    if exists i :: Chosen(free, size, a, direction, mode, i) then
      var i :| Chosen(free, size, a, direction, mode, i); i
    else
      assert !SomeFit(free, size, a) by {
        if SomeFit(free, size, a) { var i := ChosenExists(free, size, a, direction, mode); }
      }
      -1
  }

  // ----- Operations -----

  function DirectionOf(alignment: int): Direction { if alignment >= 0 then Front else Back }

  function AfterCarve(h: Heap, i: nat, mem: int, size: int, direction: Direction): Heap
    requires i < |h.free| && PayloadStart(h.free[i]) <= mem
  {
    h.(free := Carve(h.free, i, mem, size, direction, h.useMargins),
       used := h.used + [CarvedBlock(h.free[i], mem, size, direction, h.useMargins)])
  }

  ghost predicate IsUsed(h: Heap, mem: int) {
    exists k | 0 <= k < |h.used| :: PayloadStart(h.used[k]) == mem
  }

  function IndexOf(used: seq<Block>, mem: int): (k: nat)
    ensures k <= |used|
    ensures k < |used| ==> PayloadStart(used[k]) == mem
    ensures forall j | 0 <= j < k :: PayloadStart(used[j]) != mem
  {
    if used == [] || PayloadStart(used[0]) == mem then 0 else
      var k := IndexOf(used[1..], mem);
      assert forall j | 0 < j < k + 1 :: used[j] == used[1..][j - 1];
      k + 1
  }

  function Remove(used: seq<Block>, k: nat): seq<Block>
    requires k < |used|
  {
    used[..k] + used[k + 1..]
  }

  ghost function AfterFree(h: Heap, k: nat): Heap
    requires k < |h.used| && Insertable(h.free, RegionStart(h.used[k]), End(h.used[k]))
  {
    h.(free := Insert(h.free, RegionStart(h.used[k]), End(h.used[k])), used := Remove(h.used, k))
  }

  ghost function AfterShrink(h: Heap, k: nat, size: int): Heap
    requires k < |h.used|
  {
    var u := h.used[k];
    var lo := PayloadStart(u) + size;
    if Insertable(h.free, lo, End(u))
    then h.(free := Insert(h.free, lo, End(u)), used := h.used[k := u.(size := size)])
    else h
  }

  /** Where the free block behind a growing block starts afterwards; a remainder too small to
      be a free block goes to the growing block. */
  function GrownEnd(next: Block, wanted: int): int {
    if End(next) - wanted < MINIMUM_REGION then End(next) else wanted
  }

  function TakeHead(free: seq<Block>, j: nat, wanted: int): seq<Block>
    requires j < |free|
  {
    free[..j]
    + (if GrownEnd(free[j], wanted) == End(free[j]) then [] else [FreeBlock(wanted, End(free[j]))])
    + free[j + 1..]
  }

  ghost predicate CanGrow(h: Heap, k: nat, size: int)
    requires k < |h.used|
  {
    var u := h.used[k];
    var j := Rank(h.free, End(u));
    j < |h.free| && h.free[j].addr == End(u) && size <= u.size + HEADER + h.free[j].size
  }

  ghost function AfterGrow(h: Heap, k: nat, size: int): Heap
    requires k < |h.used|
  {
    var u := h.used[k];
    var j := Rank(h.free, End(u));
    if !CanGrow(h, k, size) then h else
      var wanted := PayloadStart(u) + size;
      h.(free := TakeHead(h.free, j, wanted),
         used := h.used[k := u.(size := GrownEnd(h.free[j], wanted) - PayloadStart(u))])
  }

  ghost function AfterResize(h: Heap, k: nat, size: int): Heap
    requires k < |h.used|
  {
    var s := RoundUp(size);
    if s == h.used[k].size then h
    else if s > h.used[k].size then AfterGrow(h, k, s)
    else AfterShrink(h, k, s)
  }

  predicate CanAdjust(h: Heap) { h.free != [] && End(h.free[|h.free| - 1]) == h.end }

  function AfterAdjust(h: Heap): Heap {
    if CanAdjust(h)
    then h.(free := h.free[..|h.free| - 1], end := h.free[|h.free| - 1].addr)
    else h
  }

  // ----- Every operation keeps the invariant -----

  lemma ClearIsUncovered(free: seq<Block>, lo: int, hi: int, x: int)
    requires Clear(free, lo, hi) && lo <= x < hi
    ensures !Covered(free, x)
  {
  }

  lemma WithinIfCovered(free: seq<Block>, lo: int, hi: int)
    requires Canonical(free)
    requires forall x | Covered(free, x) :: lo <= x < hi
    ensures Within(free, lo, hi)
  {
    forall i | 0 <= i < |free| ensures lo <= RegionStart(free[i]) && End(free[i]) <= hi {
      assert FreeOk(free[i]);
      assert Covered(free, free[i].addr) && Covered(free, End(free[i]) - 1);
    }
  }

  lemma CoveredWithin(free: seq<Block>, lo: int, hi: int, x: int)
    requires Canonical(free) && Within(free, lo, hi) && Covered(free, x)
    ensures lo <= x < hi
  {
    var i :| 0 <= i < |free| && free[i].addr <= x < End(free[i]);
    assert FreeOk(free[i]);
  }

  /** If a new canonical free list covers only what the old list covered outside every used
      region, plus a region that was inside the heap and is in no used region now, the
      invariant carries over. */
  lemma InvFromCover(h: Heap, free: seq<Block>, used: seq<Block>, lo: int, hi: int)
    requires Inv(h) && Canonical(free) && h.start <= lo && hi <= h.end
    requires forall x | Covered(free, x) :: Covered(h.free, x) || lo <= x < hi
    requires Within(used, h.start, h.end) && UsedList(used)
    requires forall k, x | 0 <= k < |used| && RegionStart(used[k]) <= x < End(used[k]) :: !Covered(free, x)
    ensures Inv(h.(free := free, used := used))
  {
    forall x | Covered(free, x) ensures h.start <= x < h.end {
      if Covered(h.free, x) { CoveredWithin(h.free, h.start, h.end, x); }
    }
    WithinIfCovered(free, h.start, h.end);
    forall k | 0 <= k < |used| ensures Clear(free, RegionStart(used[k]), End(used[k])) {
      assert UsedOk(used[k]);
      ClearIfUncovered(free, RegionStart(used[k]), End(used[k]));
    }
  }

  lemma Others(used: seq<Block>, k: nat)
    requires UsedList(used) && k < |used|
    ensures UsedOk(used[k])
    ensures forall m | 0 <= m < |used| && m != k :: Apart(used[m], used[k])
  {
    forall m | 0 <= m < |used| && m != k ensures Apart(used[m], used[k]) {
      assert if m < k then ApartAt(used, m, k) else ApartAt(used, k, m);
    }
  }

  lemma UsedAppend(used: seq<Block>, u: Block)
    requires UsedList(used) && UsedOk(u)
    requires forall k | 0 <= k < |used| :: Apart(used[k], u)
    ensures UsedList(used + [u])
  {
    forall k, m | 0 <= k < m < |used + [u]| ensures ApartAt(used + [u], k, m) {
      if m < |used| { assert ApartAt(used, k, m); }
    }
    forall k | 0 <= k < |used + [u]| ensures UsedOk((used + [u])[k]) {
      if k < |used| { assert UsedOk(used[k]); }
    }
  }

  lemma UsedRemove(used: seq<Block>, k: nat)
    requires UsedList(used) && k < |used|
    ensures UsedList(Remove(used, k))
    ensures forall m | 0 <= m < |Remove(used, k)| :: Remove(used, k)[m] == used[if m < k then m else m + 1]
  {
    var r := Remove(used, k);
    forall m, n | 0 <= m < n < |r| ensures ApartAt(r, m, n) {
      assert ApartAt(used, if m < k then m else m + 1, if n < k then n else n + 1);
    }
    forall m | 0 <= m < |r| ensures UsedOk(r[m]) {
      assert UsedOk(used[if m < k then m else m + 1]);
    }
  }

  lemma UsedReplace(used: seq<Block>, k: nat, v: Block)
    requires UsedList(used) && k < |used| && UsedOk(v)
    requires forall m | 0 <= m < |used| && m != k :: Apart(used[m], v)
    ensures UsedList(used[k := v])
  {
    var r := used[k := v];
    forall m, n | 0 <= m < n < |r| ensures ApartAt(r, m, n) {
      if m != k && n != k { assert ApartAt(used, m, n); }
    }
    forall m | 0 <= m < |r| ensures UsedOk(r[m]) {
      if m != k { assert UsedOk(used[m]); }
    }
  }

  lemma UsedUncovered(h: Heap, k: nat, x: int)
    requires Inv(h) && k < |h.used| && RegionStart(h.used[k]) <= x < End(h.used[k])
    ensures !Covered(h.free, x)
  {
    ClearIsUncovered(h.free, RegionStart(h.used[k]), End(h.used[k]), x);
  }

  lemma InsideFreeIsApart(h: Heap, i: nat, u: Block)
    requires Inv(h) && i < |h.free|
    requires h.free[i].addr <= RegionStart(u) && End(u) <= End(h.free[i])
    ensures forall k | 0 <= k < |h.used| :: Apart(h.used[k], u)
  {
  }

  lemma CarveKeepsInv(h: Heap, i: nat, mem: int, size: int, direction: Direction)
    requires Inv(h) && i < |h.free| && FitsAt(h.free[i], mem, size)
    ensures Inv(AfterCarve(h, i, mem, size, direction))
  {
    var b := h.free[i];
    var u := CarvedBlock(b, mem, size, direction, h.useMargins);
    var used := h.used + [u];
    var free := Carve(h.free, i, mem, size, direction, h.useMargins);
    assert FreeOk(b);
    CarvedRegion(b, mem, size, direction, h.useMargins);
    CarveMeaning(h.free, i, mem, size, direction, h.useMargins);
    InsideFreeIsApart(h, i, u);
    UsedAppend(h.used, u);
    forall k, x | 0 <= k < |used| && RegionStart(used[k]) <= x < End(used[k]) ensures !Covered(free, x) {
      if k < |h.used| { UsedUncovered(h, k, x); }
    }
    InvFromCover(h, free, used, h.start, h.start);
  }

  lemma FreeKeepsInv(h: Heap, k: nat)
    requires Inv(h) && k < |h.used|
    ensures Insertable(h.free, RegionStart(h.used[k]), End(h.used[k]))
    ensures Inv(AfterFree(h, k))
  {
    var u := h.used[k];
    var used := Remove(h.used, k);
    var lo, hi := RegionStart(u), End(u);
    Others(h.used, k);
    UsedRemove(h.used, k);
    MergedGrows(h.free, lo, hi);
    InsertMeaning(h.free, lo, hi);
    var free := Insert(h.free, lo, hi);
    forall m, x | 0 <= m < |used| && RegionStart(used[m]) <= x < End(used[m]) ensures !Covered(free, x) {
      UsedUncovered(h, if m < k then m else m + 1, x);
      assert Apart(h.used[if m < k then m else m + 1], u);
    }
    InvFromCover(h, free, used, lo, hi);
  }

  /** Resizing block `k` to `v` keeps the invariant when the new free list covers nothing of `v`
      and gains at most [lo, hi), which no other block uses. */
  lemma ReplaceKeepsInv(h: Heap, k: nat, v: Block, free: seq<Block>, lo: int, hi: int)
    requires Inv(h) && k < |h.used| && Canonical(free) && h.start <= lo && hi <= h.end
    requires UsedOk(v) && RegionStart(v) == RegionStart(h.used[k]) && End(v) <= h.end
    requires forall m | 0 <= m < |h.used| && m != k :: Apart(h.used[m], v)
    requires forall m | 0 <= m < |h.used| && m != k :: End(h.used[m]) <= lo || hi <= RegionStart(h.used[m])
    requires forall x | Covered(free, x) :: (Covered(h.free, x) || lo <= x < hi) && !(RegionStart(v) <= x < End(v))
    ensures Inv(h.(free := free, used := h.used[k := v]))
  {
    var used := h.used[k := v];
    UsedReplace(h.used, k, v);
    forall m, x | 0 <= m < |used| && RegionStart(used[m]) <= x < End(used[m]) ensures !Covered(free, x) {
      if m != k { UsedUncovered(h, m, x); }
    }
    InvFromCover(h, free, used, lo, hi);
  }

  lemma ShrinkKeepsInv(h: Heap, k: nat, size: int)
    requires Inv(h) && k < |h.used| && size < h.used[k].size && MINIMUM_FREE_BLOCK_SIZE <= size
    ensures Inv(AfterShrink(h, k, size))
  {
    var u := h.used[k];
    var lo := PayloadStart(u) + size;
    var v := u.(size := size);
    if Insertable(h.free, lo, End(u)) {
      assert AfterShrink(h, k, size) == h.(free := Insert(h.free, lo, End(u)), used := h.used[k := v]);
      ShrunkKeepsInv(h, k, lo, v);
    }
  }

  lemma ShrunkKeepsInv(h: Heap, k: nat, lo: int, v: Block)
    requires Inv(h) && k < |h.used| && Insertable(h.free, lo, End(h.used[k]))
    requires PayloadStart(v) < lo == End(v) < End(h.used[k]) && v == h.used[k].(size := v.size)
             && MINIMUM_FREE_BLOCK_SIZE <= v.size
    ensures Inv(h.(free := Insert(h.free, lo, End(h.used[k])), used := h.used[k := v]))
  {
    var u := h.used[k];
    Others(h.used, k);
    assert Clear(h.free, lo, End(u));
    InsertMeaning(h.free, lo, End(u));
    var free := Insert(h.free, lo, End(u));
    forall x | Covered(free, x) ensures !(RegionStart(v) <= x < End(v)) {
      if RegionStart(v) <= x < End(v) { UsedUncovered(h, k, x); }
    }
    forall m | 0 <= m < |h.used| && m != k
      ensures Apart(h.used[m], v) && (End(h.used[m]) <= lo || End(u) <= RegionStart(h.used[m]))
    {
      Others(h.used, m);
      assert Apart(h.used[m], u);
    }
    ReplaceKeepsInv(h, k, v, free, lo, End(u));
  }

  lemma TakeHeadMeaning(free: seq<Block>, j: nat, wanted: int)
    requires Canonical(free) && j < |free|
    requires free[j].addr <= wanted <= End(free[j])
    ensures Canonical(TakeHead(free, j, wanted))
    ensures forall x :: Covered(TakeHead(free, j, wanted), x)
                        <==> Covered(free, x) && !(free[j].addr <= x < GrownEnd(free[j], wanted))
  {
    var b := free[j];
    var mid := if GrownEnd(b, wanted) == End(b) then [] else [FreeBlock(wanted, End(b))];
    Around(free, j);
    if j > 0 { Around(free, j - 1); }
    if j + 1 < |free| { Around(free, j + 1); }
    CanonicalPrefix(free, j);
    CanonicalSuffix(free, j + 1);
    if mid != [] { CanonicalOne(mid[0]); }
    CanonicalConcat(free[..j], mid);
    CanonicalConcat(free[..j] + mid, free[j + 1..]);
    forall x ensures Covered(TakeHead(free, j, wanted), x)
                     <==> Covered(free, x) && !(b.addr <= x < GrownEnd(b, wanted)) {
      TakeHeadCovered(free, j, wanted, x);
    }
  }

  lemma TakeHeadCovered(free: seq<Block>, j: nat, wanted: int, x: int)
    requires Canonical(free) && j < |free| && free[j].addr <= wanted <= End(free[j])
    ensures Covered(TakeHead(free, j, wanted), x)
            <==> Covered(free, x) && !(free[j].addr <= x < GrownEnd(free[j], wanted))
  {
    var b := free[j];
    var mid := if GrownEnd(b, wanted) == End(b) then [] else [FreeBlock(wanted, End(b))];
    Around(free, j);
    CoveredConcat(free[..j] + mid, free[j + 1..], x);
    CoveredConcat(free[..j], mid, x);
    assert Covered(mid, x) <==> GrownEnd(b, wanted) <= x < End(b) by {
      CoveredOne(FreeBlock(wanted, End(b)), x);
    }
    assert free == free[..j] + free[j..];
    CoveredConcat(free[..j], free[j..], x);
    SuffixCovered(free, j, x);
  }

  lemma GrownIsApart(h: Heap, k: nat, j: nat, v: Block)
    requires Inv(h) && k < |h.used| && j < |h.free| && h.free[j].addr == End(h.used[k])
    requires RegionStart(v) == RegionStart(h.used[k]) && End(v) <= End(h.free[j])
    ensures forall m | 0 <= m < |h.used| && m != k :: Apart(h.used[m], v)
  {
    Others(h.used, k);
    forall m | 0 <= m < |h.used| && m != k ensures Apart(h.used[m], v) {
      assert Apart(h.used[m], h.used[k]);
      assert Clear(h.free, RegionStart(h.used[m]), End(h.used[m]));
      Others(h.used, m);
    }
  }

  lemma GrownKeepsInv(h: Heap, k: nat, j: nat, wanted: int, v: Block)
    requires Inv(h) && k < |h.used| && j < |h.free| && h.free[j].addr == End(h.used[k])
    requires End(h.used[k]) < wanted <= End(h.free[j])
    requires v == h.used[k].(size := GrownEnd(h.free[j], wanted) - PayloadStart(h.used[k]))
    ensures Inv(h.(free := TakeHead(h.free, j, wanted), used := h.used[k := v]))
  {
    var u := h.used[k];
    var free := TakeHead(h.free, j, wanted);
    assert UsedOk(u) && FreeOk(h.free[j]) && UsedOk(v);
    TakeHeadMeaning(h.free, j, wanted);
    GrownIsApart(h, k, j, v);
    forall x | Covered(free, x) ensures !(RegionStart(v) <= x < End(v)) {
      if RegionStart(u) <= x < End(u) { UsedUncovered(h, k, x); }
    }
    ReplaceKeepsInv(h, k, v, free, h.start, h.start);
  }

  lemma GrowKeepsInv(h: Heap, k: nat, size: int)
    requires Inv(h) && k < |h.used| && h.used[k].size < size
    ensures Inv(AfterGrow(h, k, size))
  {
    if CanGrow(h, k, size) {
      var u := h.used[k];
      var j := Rank(h.free, End(u));
      var wanted := PayloadStart(u) + size;
      assert UsedOk(u);
      var v := u.(size := GrownEnd(h.free[j], wanted) - PayloadStart(u));
      assert AfterGrow(h, k, size) == h.(free := TakeHead(h.free, j, wanted), used := h.used[k := v]);
      GrownKeepsInv(h, k, j, wanted, v);
    }
  }

  lemma AdjustKeepsInv(h: Heap)
    requires Inv(h)
    ensures Inv(AfterAdjust(h))
  {
    if CanAdjust(h) {
      var n := |h.free| - 1;
      CanonicalPrefix(h.free, n);
      Around(h.free, n);
      forall k | 0 <= k < |h.used| ensures End(h.used[k]) <= h.free[n].addr {
        assert UsedOk(h.used[k]) && Clear(h.free, RegionStart(h.used[k]), End(h.used[k]));
      }
      forall i | 0 <= i < n ensures End(h.free[i]) <= h.free[n].addr { assert FreeOk(h.free[i]); }
    }
  }
}
