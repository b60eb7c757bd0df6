/** The guarded address-space allocator: which pages it may pick, and what a pick guarantees. */
module AddressSpace {
  import opened Division

  const PAGE := 0x1000
  const WORD_LIMIT := 0x1_0000_0000_0000_0000
  const TRIES := 512

  /** `DivideUp` in 64 bits. */
  function DivideUp(v: int, d: int): int
    requires d > 0
  {
    (v + (d - 1)) % WORD_LIMIT / d
  }

  /** It rounds up exactly as long as the sum fits: otherwise the quotient is 0. */
  lemma PagesCoverIff(size: int)
    requires 0 <= size < WORD_LIMIT
    ensures DivideUp(size, PAGE) * PAGE >= size <==> size <= WORD_LIMIT - PAGE
    ensures size <= WORD_LIMIT - PAGE ==> 0 <= DivideUp(size, PAGE) * PAGE < size + PAGE
    ensures size > WORD_LIMIT - PAGE ==> DivideUp(size, PAGE) == 0
  {
    if size > WORD_LIMIT - PAGE {
      assert (size + (PAGE - 1)) % WORD_LIMIT == size + (PAGE - 1) - WORD_LIMIT;
    }
  }

  lemma DivideUpIs(v: int, d: int)
    requires 0 <= v && d > 0 && v + d <= WORD_LIMIT
    ensures var q := DivideUp(v, d); q >= 0 && v <= q * d < v + d
  {
    Quotient(v + (d - 1), d);
  }

  // ----- Memory -----

  /** What `QueryMemory` says about an address. */
  datatype Region = Region(addr: int, size: int, free: bool)

  /** The region reported holds the address; free memory ends below the top of the address space. */
  ghost predicate IsMemory(query: int -> Region) {
    forall a | 0 <= a < WORD_LIMIT ::
      var r := query(a); 0 <= r.addr <= a < r.addr + r.size <= WORD_LIMIT && (r.free ==> r.addr + r.size < WORD_LIMIT)
  }

  predicate CheckFreeSpace(query: int -> Region, address: int, size: int) {
    var r := query(address);
    r.free && (address + size) % WORD_LIMIT <= (r.addr + r.size) % WORD_LIMIT
  }

  predicate InsideFree(query: int -> Region, address: int, size: int) {
    var r := query(address);
    r.free && r.addr <= address && address + size <= r.addr + r.size
  }

  /** The check is right exactly as long as the end of the span does not wrap around. */
  lemma CheckIsRightIff(query: int -> Region, address: int, size: int)
    requires IsMemory(query) && 0 <= address < WORD_LIMIT && 0 <= size && address + size <= WORD_LIMIT + PAGE
    ensures address + size < WORD_LIMIT ==> (CheckFreeSpace(query, address, size) <==> InsideFree(query, address, size))
    ensures address + size >= WORD_LIMIT ==> !InsideFree(query, address, size)
    ensures address + size >= WORD_LIMIT ==>
              (CheckFreeSpace(query, address, size)
               <==> query(address).free && address + size - WORD_LIMIT <= query(address).addr + query(address).size)
  {
    var r := query(address);
    assert 0 <= r.addr <= address < r.addr + r.size <= WORD_LIMIT;
    if address + size >= WORD_LIMIT {
      assert (address + size) % WORD_LIMIT == address + size - WORD_LIMIT;
    }
  }

  // ----- The range of positions -----

  /** Page numbers: the space is [start, end), and `guard` pages stay free on both sides of a span. */
  datatype Space = Space(start: int, end: int, guard: int)

  /** The constructor. */
  function SpaceOf(sa: int, ea: int, gsz: int): Space {
    Space(sa / PAGE, ea / PAGE + DivideUp(gsz, PAGE), DivideUp(gsz, PAGE))
  }

  predicate SpaceOk(sp: Space) {
    && 0 <= sp.start && sp.start * PAGE < WORD_LIMIT && 0 <= sp.guard <= sp.end
    && (sp.end - sp.guard) * PAGE < WORD_LIMIT && sp.end * PAGE <= WORD_LIMIT
  }

  /** What the constructor asks for is enough, except that the last guard page may reach past the top
      of the address space, which it does not when the guard size is a multiple of the page size, and
      that a guard size in the last page of a word leaves no guard at all. */
  lemma SpaceOfOk(sa: int, ea: int, gsz: int)
    requires 0 <= sa < WORD_LIMIT && 0 <= ea && 0 <= gsz && sa >= gsz && ea + gsz < WORD_LIMIT
    ensures SpaceOk(SpaceOf(sa, ea, gsz))
    ensures SpaceOf(sa, ea, gsz).guard * PAGE >= gsz <==> gsz <= WORD_LIMIT - PAGE
    ensures SpaceOf(sa, ea, gsz).end * PAGE < WORD_LIMIT <==> ea / PAGE + DivideUp(gsz, PAGE) < WORD_LIMIT / PAGE
    ensures gsz % PAGE == 0 ==> SpaceOf(sa, ea, gsz).end * PAGE < WORD_LIMIT
  {
    PagesCoverIff(gsz);
  }

  /** The aligned positions with room for a span of `pages` and its guards. */
  predicate Fits(sp: Space, pages: int, alignPages: int, k: int) {
    sp.start <= k * alignPages - sp.guard && k * alignPages + pages + sp.guard <= sp.end
  }

  /** `guard` bytes are the fewest whole pages that hold `gsz` bytes. */
  predicate IsGuard(gsz: int, guard: int) { guard % PAGE == 0 && gsz <= guard < gsz + PAGE }

  /** In bytes: the positions that fit are the ones that begin at the start address, rounded down to a
      page, plus the guard, or above, and end at the end address, rounded down, or below. */
  lemma FitsIff(sa: int, ea: int, gsz: int, guard: int, pages: int, alignPages: int, k: int)
    requires 0 <= sa < WORD_LIMIT && 0 <= ea && 0 <= gsz <= WORD_LIMIT - PAGE && sa >= gsz && ea + gsz < WORD_LIMIT
    requires IsGuard(gsz, guard)
    ensures Fits(SpaceOf(sa, ea, gsz), pages, alignPages, k)
       <==> sa - sa % PAGE + guard <= k * alignPages * PAGE && (k * alignPages + pages) * PAGE <= ea - ea % PAGE
  {
    PagesCoverIff(gsz);
    assert DivideUp(gsz, PAGE) * PAGE == guard;
  }

  /** A start address in the middle of a page is not what the guard is measured from: every position
      leaves the guard above the start address itself exactly when that begins a page, or there is no
      position at all. */
  lemma GuardAboveStartIff(sa: int, ea: int, gsz: int, guard: int, pages: int)
    requires 0 <= sa < WORD_LIMIT && 0 <= ea && 0 <= gsz <= WORD_LIMIT - PAGE && sa >= gsz && ea + gsz < WORD_LIMIT
    requires IsGuard(gsz, guard)
    ensures (forall k | Fits(SpaceOf(sa, ea, gsz), pages, 1, k) :: k * PAGE >= sa + guard)
       <==> sa % PAGE == 0 || sa - sa % PAGE + guard + pages * PAGE > ea - ea % PAGE
  {
    var lowest := (sa - sa % PAGE + guard) / PAGE;
    assert lowest * PAGE == sa - sa % PAGE + guard;
    FitsIff(sa, ea, gsz, guard, pages, 1, lowest);
    assert Fits(SpaceOf(sa, ea, gsz), pages, 1, lowest) <==> (lowest + pages) * PAGE <= ea - ea % PAGE;
    forall k | Fits(SpaceOf(sa, ea, gsz), pages, 1, k)
      ensures lowest * PAGE <= k * PAGE && (k + pages) * PAGE <= ea - ea % PAGE
    {
      FitsIff(sa, ea, gsz, guard, pages, 1, k);
    }
  }

  function RandStart(sp: Space, alignPages: int): int
    requires alignPages > 0
  {
    DivideUp(sp.start + sp.guard, alignPages)
  }

  function RandEnd(sp: Space, pages: int, alignPages: int): int
    requires alignPages > 0
  {
    (sp.end - pages - sp.guard) / alignPages
  }

  /** The positions drawn from, [RandStart, RandEnd], are exactly the ones that fit. */
  lemma RangeIsExact(sp: Space, pages: int, alignPages: int, k: int)
    requires SpaceOk(sp) && 0 <= pages <= sp.end - sp.guard && 0 < alignPages <= WORD_LIMIT / PAGE && k >= 0
    ensures Fits(sp, pages, alignPages, k) <==> RandStart(sp, alignPages) <= k <= RandEnd(sp, pages, alignPages)
  {
    var lo, hi := RandStart(sp, alignPages), RandEnd(sp, pages, alignPages);
    DivideUpIs(sp.start + sp.guard, alignPages);
    Quotient(sp.end - pages - sp.guard, alignPages);
    if k < lo { MultiplesApart(k, lo, alignPages); } else if lo < k { MultiplesApart(lo, k, alignPages); }
    if k < hi { MultiplesApart(k, hi, alignPages); } else if hi < k { MultiplesApart(hi, k, alignPages); }
  }

  // ----- Allocation -----

  function Position(draw: int, lo: int, hi: int): int
    requires lo <= hi
  {
    draw % (hi - lo + 1) + lo
  }

  function PositionOf(sp: Space, pages: int, alignPages: int, draw: int): int
    requires alignPages > 0 && RandStart(sp, alignPages) <= RandEnd(sp, pages, alignPages)
  {
    Position(draw, RandStart(sp, alignPages), RandEnd(sp, pages, alignPages))
  }

  lemma PositionInRange(draw: int, lo: int, hi: int)
    requires lo <= hi && draw >= 0
    ensures lo <= Position(draw, lo, hi) <= hi
    ensures draw <= hi - lo ==> Position(draw, lo, hi) == draw + lo
  {
  }

  /** The span at position `k` with its guards, in bytes. */
  function SpanStart(sp: Space, alignPages: int, k: int): int { (k * alignPages - sp.guard) * PAGE }

  function SpanSize(sp: Space, pages: int): int { (pages + 2 * sp.guard) * PAGE }

  /** What a successful call picked. */
  predicate Picks(sp: Space, query: int -> Region, pages: int, alignPages: int, k: int) {
    && k >= 0 && Fits(sp, pages, alignPages, k)
    && CheckFreeSpace(query, SpanStart(sp, alignPages, k), SpanSize(sp, pages))
  }

  lemma DrawFits(sp: Space, pages: int, alignPages: int, draw: int)
    requires SpaceOk(sp) && 0 <= pages <= sp.end - sp.guard && 0 < alignPages <= WORD_LIMIT / PAGE && draw >= 0
    requires RandStart(sp, alignPages) <= RandEnd(sp, pages, alignPages)
    ensures PositionOf(sp, pages, alignPages, draw) >= 0
    ensures Fits(sp, pages, alignPages, PositionOf(sp, pages, alignPages, draw))
  {
    DivideUpIs(sp.start + sp.guard, alignPages);
    PositionInRange(draw, RandStart(sp, alignPages), RandEnd(sp, pages, alignPages));
    RangeIsExact(sp, pages, alignPages, PositionOf(sp, pages, alignPages, draw));
  }

  /** The first draw that is a pick, or the number of draws. */
  function FirstPick(sp: Space, query: int -> Region, pages: int, alignPages: int, draws: seq<int>): (i: nat)
    requires alignPages > 0 && RandStart(sp, alignPages) <= RandEnd(sp, pages, alignPages)
    ensures i <= |draws|
    ensures i < |draws| ==> Picks(sp, query, pages, alignPages, PositionOf(sp, pages, alignPages, draws[i]))
    ensures forall j | 0 <= j < i :: !Picks(sp, query, pages, alignPages, PositionOf(sp, pages, alignPages, draws[j]))
  {
    if draws == [] || Picks(sp, query, pages, alignPages, PositionOf(sp, pages, alignPages, draws[0])) then 0
    else 1 + FirstPick(sp, query, pages, alignPages, draws[1..])
  }

  lemma FirstPickIs(sp: Space, query: int -> Region, pages: int, alignPages: int, draws: seq<int>, i: nat)
    requires alignPages > 0 && RandStart(sp, alignPages) <= RandEnd(sp, pages, alignPages) && i <= |draws|
    requires i < |draws| ==> Picks(sp, query, pages, alignPages, PositionOf(sp, pages, alignPages, draws[i]))
    requires forall j | 0 <= j < i :: !Picks(sp, query, pages, alignPages, PositionOf(sp, pages, alignPages, draws[j]))
    ensures FirstPick(sp, query, pages, alignPages, draws) == i
  {
  }

  /** A pick lies, with the guard pages on both sides, in one free region if and only if the span does
      not end past the top of the address space; a space that ends below the top has only such picks. */
  lemma PickIsGuardedIff(sp: Space, query: int -> Region, pages: int, alignPages: int, k: int)
    requires SpaceOk(sp) && IsMemory(query) && pages >= 0 && Picks(sp, query, pages, alignPages, k)
    requires pages + 2 * sp.guard > 0
    ensures InsideFree(query, SpanStart(sp, alignPages, k), SpanSize(sp, pages))
       <==> SpanStart(sp, alignPages, k) + SpanSize(sp, pages) < WORD_LIMIT
    ensures sp.end * PAGE < WORD_LIMIT ==> SpanStart(sp, alignPages, k) + SpanSize(sp, pages) < WORD_LIMIT
    ensures sp.start * PAGE <= SpanStart(sp, alignPages, k)
            && SpanStart(sp, alignPages, k) + SpanSize(sp, pages) <= sp.end * PAGE
  {
    CheckIsRightIff(query, SpanStart(sp, alignPages, k), SpanSize(sp, pages));
  }

  /** Whatever the memory looks like, a call for `pages` pages at this alignment picks only spans that
      lie, with their guards, in one free region. */
  ghost predicate GuardsCall(sp: Space, pages: int, alignPages: int) {
    forall query: int -> Region, k: int | IsMemory(query) && Picks(sp, query, pages, alignPages, k) ::
      InsideFree(query, (k * alignPages - sp.guard) * PAGE, (pages + 2 * sp.guard) * PAGE)
  }

  /** There is a position to draw. */
  predicate HasRoom(sp: Space, pages: int, alignPages: int)
    requires alignPages > 0
  {
    pages <= sp.end - sp.guard && RandStart(sp, alignPages) <= RandEnd(sp, pages, alignPages)
  }

  /** The page behind the rear guard of the last position. */
  function LastSpanEnd(sp: Space, pages: int, alignPages: int): int
    requires alignPages > 0
  {
    RandEnd(sp, pages, alignPages) * alignPages + pages + sp.guard
  }

  /** Everything but the last page is free, and reported as one region. */
  const TOP_USED: int -> Region :=
    a => if a < WORD_LIMIT - PAGE then Region(0, WORD_LIMIT - PAGE, true) else Region(WORD_LIMIT - PAGE, PAGE, false)

  lemma TopUsedIsMemory()
    ensures IsMemory(TOP_USED)
  {
  }

  /** A span that ends at the top of the address space passes the check there, without its last page. */
  lemma TopSpanPasses(sp: Space, pages: int, alignPages: int, k: int)
    requires SpaceOk(sp) && pages >= 0 && pages + 2 * sp.guard > 0 && k >= 0 && Fits(sp, pages, alignPages, k)
    requires (k * alignPages + pages + sp.guard) * PAGE >= WORD_LIMIT
    ensures IsMemory(TOP_USED) && Picks(sp, TOP_USED, pages, alignPages, k)
    ensures !InsideFree(TOP_USED, SpanStart(sp, alignPages, k), SpanSize(sp, pages))
  {
    TopUsedIsMemory();
    assert sp.guard > 0;
    assert SpanStart(sp, alignPages, k) + SpanSize(sp, pages) == WORD_LIMIT;
    assert 0 <= SpanStart(sp, alignPages, k) < WORD_LIMIT - PAGE;
  }

  lemma FittingHasRoom(sp: Space, pages: int, alignPages: int, k: int)
    requires SpaceOk(sp) && pages >= 0 && 0 < alignPages <= WORD_LIMIT / PAGE && k >= 0
             && Fits(sp, pages, alignPages, k)
    ensures HasRoom(sp, pages, alignPages) && k * alignPages + pages + sp.guard <= LastSpanEnd(sp, pages, alignPages)
  {
    assert k * alignPages >= 0 by { if k > 0 { MultiplesApart(0, k, alignPages); } }
    RangeIsExact(sp, pages, alignPages, k);
    var last := RandEnd(sp, pages, alignPages);
    if k < last { MultiplesApart(k, last, alignPages); }
  }

  /** A call gets only guarded spans, whatever the memory looks like, if and only if there is no
      position for it or the span at the last one ends below the top of the address space. */
  lemma CallIsGuardedIff(sp: Space, pages: int, alignPages: int)
    requires SpaceOk(sp) && pages >= 0 && pages + 2 * sp.guard > 0 && 0 < alignPages <= WORD_LIMIT / PAGE
    ensures GuardsCall(sp, pages, alignPages)
       <==> !HasRoom(sp, pages, alignPages) || LastSpanEnd(sp, pages, alignPages) * PAGE < WORD_LIMIT
  {
    if HasRoom(sp, pages, alignPages) && LastSpanEnd(sp, pages, alignPages) * PAGE >= WORD_LIMIT {
      var k := RandEnd(sp, pages, alignPages);
      DivideUpIs(sp.start + sp.guard, alignPages);
      RangeIsExact(sp, pages, alignPages, k);
      TopSpanPasses(sp, pages, alignPages, k);
    } else {
      forall query: int -> Region, k: int | IsMemory(query) && Picks(sp, query, pages, alignPages, k)
        ensures InsideFree(query, SpanStart(sp, alignPages, k), SpanSize(sp, pages))
      {
        FittingHasRoom(sp, pages, alignPages, k);
        PickIsGuardedIff(sp, query, pages, alignPages, k);
      }
    }
  }

  /** Every call that asks for memory gets only guarded spans if and only if the space ends below the top
      of the address space, or has no room for a page between guards. */
  lemma SpaceIsGuardedIff(sp: Space)
    requires SpaceOk(sp)
    ensures (forall pages, alignPages | pages > 0 && 0 < alignPages <= WORD_LIMIT / PAGE ::
               GuardsCall(sp, pages, alignPages))
       <==> sp.end * PAGE < WORD_LIMIT || sp.end <= sp.start + 2 * sp.guard
  {
    if sp.end * PAGE < WORD_LIMIT || sp.end <= sp.start + 2 * sp.guard {
      forall pages, alignPages | pages > 0 && 0 < alignPages <= WORD_LIMIT / PAGE
        ensures GuardsCall(sp, pages, alignPages)
      {
        forall query: int -> Region, k: int | IsMemory(query) && Picks(sp, query, pages, alignPages, k)
          ensures InsideFree(query, SpanStart(sp, alignPages, k), SpanSize(sp, pages))
        {
          PickIsGuardedIff(sp, query, pages, alignPages, k);
        }
      }
    } else {
      var k := sp.end - sp.guard - 1;
      assert k * 1 == k;
      TopSpanPasses(sp, 1, 1, k);
      assert !GuardsCall(sp, 1, 1);
    }
  }

  /** Past the top the check can be wrong: a guard size of one byte under the last page, and a pick
      whose rear guard page is not there. */
  lemma GuardPastTheTop()
    ensures var sp := SpaceOf(PAGE, WORD_LIMIT - 2, 1);
            var k := WORD_LIMIT / PAGE - 2;
            && IsMemory(TOP_USED) && Picks(sp, TOP_USED, 1, 1, k)
            && !InsideFree(TOP_USED, SpanStart(sp, 1, k), SpanSize(sp, 1))
  {
    assert DivideUp(1, PAGE) == 1;
  }

  /** No intermediate value of `AllocateSpace` leaves 64 bits, nor does a subtraction go below zero; only
      the end of the span reaches 2^64 when the space does. */
  lemma NothingWraps(sp: Space, pages: int, alignPages: int, k: int)
    requires SpaceOk(sp) && 0 <= pages && 0 < alignPages <= WORD_LIMIT / PAGE
    ensures 0 <= sp.end - sp.guard < WORD_LIMIT && sp.start + sp.guard + alignPages <= WORD_LIMIT
    ensures pages <= sp.end - sp.guard ==>
              0 <= RandStart(sp, alignPages) < WORD_LIMIT && 0 <= RandEnd(sp, pages, alignPages) < WORD_LIMIT - 1
    ensures k >= 0 && Fits(sp, pages, alignPages, k) ==>
              && 0 <= k * alignPages - sp.guard && (k * alignPages + pages) * PAGE < WORD_LIMIT
              && 0 <= SpanStart(sp, alignPages, k) < WORD_LIMIT
              && SpanStart(sp, alignPages, k) + SpanSize(sp, pages) <= sp.end * PAGE <= WORD_LIMIT
  {
    DivideUpIs(sp.start + sp.guard, alignPages);
    if RandStart(sp, alignPages) > sp.start + sp.guard {
      MultiplesApart(sp.start + sp.guard, RandStart(sp, alignPages), alignPages);
    }
    if pages <= sp.end - sp.guard {
      Quotient(sp.end - pages - sp.guard, alignPages);
      if RandEnd(sp, pages, alignPages) > 0 { MultiplesApart(0, RandEnd(sp, pages, alignPages), alignPages); }
    }
  }

  class AddressSpaceAllocator {
    const space: Space

    constructor (sa: int, ea: int, gsz: int)
      requires 0 <= sa < WORD_LIMIT && 0 <= ea && 0 <= gsz && sa >= gsz && ea + gsz < WORD_LIMIT
      ensures space == SpaceOf(sa, ea, gsz) && SpaceOk(space)
    {
      space := SpaceOf(sa, ea, gsz);
      SpaceOfOk(sa, ea, gsz);
    }

    /** `draws` are the random numbers the loop would see. The result is the first drawn position whose
        span, guards included, is reported free; null when no draw hits, or no position fits at all. The
        span covers the size as `PagesCoverIff` says. */
    method AllocateSpace(size: int, align: int, draws: seq<int>, query: int -> Region) returns (address: int)
      requires SpaceOk(space) && 0 <= size < WORD_LIMIT && 0 < align < WORD_LIMIT && align % PAGE == 0
      requires DivideUp(size, PAGE) > 0 || space.guard > 0
      requires |draws| == TRIES && forall i | 0 <= i < TRIES :: 0 <= draws[i] < WORD_LIMIT
      ensures var pages, a := DivideUp(size, PAGE), align / PAGE;
              && (address != 0 ==> exists k :: Picks(space, query, pages, a, k) && address == k * a * PAGE)
              && ((exists k: nat :: Fits(space, pages, a, k)) ==>
                    && RandStart(space, a) <= RandEnd(space, pages, a)
                    && var i := FirstPick(space, query, pages, a, draws);
                       address == if i == TRIES then 0 else PositionOf(space, pages, a, draws[i]) * a * PAGE)
    {
      var pages := DivideUp(size, PAGE);
      var alignPages := align / PAGE;
      PagesCoverIff(size);
      if pages > space.end - space.guard {
        return 0;
      }
      var lo, hi := RandStart(space, alignPages), RandEnd(space, pages, alignPages);
      if lo > hi {
        forall k: nat ensures !Fits(space, pages, alignPages, k) { RangeIsExact(space, pages, alignPages, k); }
        return 0;
      }
      var i := 0;
      while i < TRIES
        invariant 0 <= i <= TRIES
        invariant forall j | 0 <= j < i ::
                  !Picks(space, query, pages, alignPages, PositionOf(space, pages, alignPages, draws[j]))
      {
        DrawFits(space, pages, alignPages, draws[i]);
        ghost var k := PositionOf(space, pages, alignPages, draws[i]);
        var target := (draws[i] % (hi - lo + 1) + lo) * alignPages;
        assert target == k * alignPages;
        assert space.start <= target - space.guard && target + pages + space.guard <= space.end;
        if CheckFreeSpace(query, (target - space.guard) * PAGE, (pages + 2 * space.guard) * PAGE) {
          FirstPickIs(space, query, pages, alignPages, draws, i);
          return target * PAGE;
        }
        i := i + 1;
      }
      FirstPickIs(space, query, pages, alignPages, draws, i);
      return 0;
    }
  }
}
