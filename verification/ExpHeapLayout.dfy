/** The memory layout of the expandable heap: blocks, the packed attribute word, the free list
    as a set of addresses, and the two list edits (`Insert`, `Carve`) every operation is made of.

    Addresses are mathematical integers. A block is a header of `HEADER` bytes at `addr`
    followed by `size` payload bytes; a used block may also own up to 0x7F bytes of alignment
    padding in front of its header, remembered in seven bits of its attribute word. */
module ExpHeapLayout {

  // sizeof(ExpHeapMemoryBlockHead) with 8-byte pointers
  const HEADER := 0x20
  const MINIMUM_FREE_BLOCK_SIZE := 4
  const MINIMUM_REGION := HEADER + MINIMUM_FREE_BLOCK_SIZE
  const MAXIMUM_PADDING_ALIGNMENT := 0x80

  datatype Direction = Front | Back

  /** A block header. `padding` is the 7-bit field of the attribute word; module
      `BlockAttributes` shows that the other two fields of that word leave it alone. */
  datatype Block = Block(addr: int, size: int, padding: int)

  function PayloadStart(b: Block): int { b.addr + HEADER }

  function End(b: Block): int { b.addr + HEADER + b.size }

  function RegionStart(b: Block): int { b.addr - b.padding }

  /** A fresh header has all attribute bits clear. */
  function FreeBlock(lo: int, hi: int): (b: Block)
    ensures b.addr == lo && End(b) == hi && RegionStart(b) == lo
  {
    Block(lo, hi - lo - HEADER, 0)
  }

  // ----- Canonical free lists -----

  ghost predicate FreeOk(b: Block) {
    b.size >= MINIMUM_FREE_BLOCK_SIZE && b.padding == 0
  }

  /** Block `i` lies below block `j` with a gap between them. */
  ghost predicate Below(free: seq<Block>, i: int, j: int)
    requires 0 <= i < |free| && 0 <= j < |free|
  {
    End(free[i]) < free[j].addr
  }

  /** Strictly address-ordered, no two blocks abutting, every block able to hold a payload. */
  ghost predicate Canonical(free: seq<Block>) {
    && (forall i | 0 <= i < |free| :: FreeOk(free[i]))
    && (forall i, j | 0 <= i < j < |free| :: Below(free, i, j))
  }

  /** Where the other blocks lie relative to block `i`. */
  lemma Around(free: seq<Block>, i: nat)
    requires Canonical(free) && i < |free|
    ensures FreeOk(free[i])
    ensures forall k | 0 <= k < i :: End(free[k]) < free[i].addr
    ensures forall k | i < k < |free| :: End(free[i]) < free[k].addr
  {
    forall k | 0 <= k < i ensures End(free[k]) < free[i].addr { assert Below(free, k, i); }
    forall k | i < k < |free| ensures End(free[i]) < free[k].addr { assert Below(free, i, k); }
  }

  lemma CanonicalPrefix(free: seq<Block>, i: nat)
    requires Canonical(free) && i <= |free|
    ensures Canonical(free[..i])
  {
    forall k, m | 0 <= k < m < i ensures Below(free[..i], k, m) { assert Below(free, k, m); }
    forall k | 0 <= k < i ensures FreeOk(free[..i][k]) { assert FreeOk(free[k]); }
  }

  lemma CanonicalSuffix(free: seq<Block>, i: nat)
    requires Canonical(free) && i <= |free|
    ensures Canonical(free[i..])
  {
    forall k, m | 0 <= k < m < |free| - i ensures Below(free[i..], k, m) { assert Below(free, i + k, i + m); }
    forall k | 0 <= k < |free| - i ensures FreeOk(free[i..][k]) { assert FreeOk(free[i + k]); }
  }

  lemma CanonicalOne(b: Block)
    requires FreeOk(b)
    ensures Canonical([b])
  {
  }

  ghost predicate Covered(free: seq<Block>, x: int) {
    exists i | 0 <= i < |free| :: free[i].addr <= x < End(free[i])
  }

  /** No block of the list meets [lo, hi). */
  ghost predicate Clear(free: seq<Block>, lo: int, hi: int) {
    forall i | 0 <= i < |free| :: End(free[i]) <= lo || hi <= free[i].addr
  }

  lemma ClearIfUncovered(free: seq<Block>, lo: int, hi: int)
    requires Canonical(free) && lo < hi
    requires forall x | lo <= x < hi :: !Covered(free, x)
    ensures Clear(free, lo, hi)
  {
    forall i | 0 <= i < |free| ensures End(free[i]) <= lo || hi <= free[i].addr {
      assert FreeOk(free[i]);
      var x := if free[i].addr < lo then lo else free[i].addr;
      assert free[i].addr <= x < End(free[i]) ==> Covered(free, x);
    }
  }

  lemma InsideHead(free: seq<Block>, x: int)
    ensures free != [] && free[0].addr <= x < End(free[0]) ==> Covered(free, x)
  {
  }

  lemma CoveredConcat(a: seq<Block>, b: seq<Block>, x: int)
    ensures Covered(a + b, x) <==> Covered(a, x) || Covered(b, x)
  {
    if Covered(a, x) {
      var i :| 0 <= i < |a| && a[i].addr <= x < End(a[i]);
      assert (a + b)[i] == a[i];
    }
    if Covered(b, x) {
      var i :| 0 <= i < |b| && b[i].addr <= x < End(b[i]);
      assert (a + b)[|a| + i] == b[i];
    }
  }

  lemma CanonicalConcat(a: seq<Block>, b: seq<Block>)
    requires Canonical(a) && Canonical(b)
    requires a != [] && b != [] ==> End(a[|a| - 1]) < b[0].addr
    ensures Canonical(a + b)
  {
    forall i | 0 <= i < |a + b| ensures FreeOk((a + b)[i]) {
      assert if i < |a| then FreeOk(a[i]) else FreeOk(b[i - |a|]);
    }
    forall i, j | 0 <= i < j < |a + b| ensures Below(a + b, i, j) {
      if j < |a| { assert Below(a, i, j); }
      else if |a| <= i { assert Below(b, i - |a|, j - |a|); }
      else {
        Around(a, |a| - 1);
        Around(b, 0);
        assert FreeOk(b[j - |a|]) && FreeOk(a[i]);
      }
    }
  }

  /** A canonical list is determined by the addresses it covers. */
  lemma {:induction false} CanonicalUnique(a: seq<Block>, b: seq<Block>)
    requires Canonical(a) && Canonical(b)
    requires forall x :: Covered(a, x) <==> Covered(b, x)
    ensures a == b
  {
    if a == [] || b == [] {
      if a != [] { Around(a, 0); InsideHead(a, a[0].addr); }
      if b != [] { Around(b, 0); InsideHead(b, b[0].addr); }
    } else {
      HeadsAgree(a, b);
      CanonicalSuffix(a, 1);
      CanonicalSuffix(b, 1);
      forall x ensures Covered(a[1..], x) <==> Covered(b[1..], x) {
        TailCovered(a, x);
        TailCovered(b, x);
      }
      CanonicalUnique(a[1..], b[1..]);
      assert a == [a[0]] + a[1..] && b == [b[0]] + b[1..];
    }
  }

  lemma HeadsAgree(a: seq<Block>, b: seq<Block>)
    requires Canonical(a) && Canonical(b) && a != [] && b != []
    requires forall x :: Covered(a, x) <==> Covered(b, x)
    ensures a[0] == b[0]
  {
    Around(a, 0);
    Around(b, 0);
    InsideHead(a, a[0].addr);
    InsideHead(b, b[0].addr);
    InsideHead(a, End(b[0]));
    InsideHead(b, End(a[0]));
    assert !Covered(a, End(a[0])) && !Covered(b, End(b[0]));
  }

  lemma TailCovered(a: seq<Block>, x: int)
    requires Canonical(a) && a != []
    ensures Covered(a[1..], x) <==> Covered(a, x) && End(a[0]) <= x
  {
    Around(a, 0);
    if Covered(a, x) && End(a[0]) <= x {
      var i :| 0 <= i < |a| && a[i].addr <= x < End(a[i]);
      assert a[1..][i - 1] == a[i];
    }
    if Covered(a[1..], x) {
      var i :| 0 <= i < |a[1..]| && a[1..][i].addr <= x < End(a[1..][i]);
      assert a[1..][i] == a[i + 1];
    }
  }

  // ----- Inserting a region -----

  ghost predicate IsRank(free: seq<Block>, lo: int, p: int) {
    && 0 <= p <= |free|
    && (forall i | 0 <= i < p :: free[i].addr < lo)
    && (p < |free| ==> lo <= free[p].addr)
  }

  lemma {:induction false} RankExists(free: seq<Block>, lo: int) returns (p: int)
    ensures IsRank(free, lo, p)
  {
    p := 0;
    while p < |free| && free[p].addr < lo
      invariant 0 <= p <= |free|
      invariant forall i | 0 <= i < p :: free[i].addr < lo
    {
      p := p + 1;
    }
  }

  /** The number of leading blocks that start below `lo`. */
  ghost function Rank(free: seq<Block>, lo: int): (p: nat)
    ensures IsRank(free, lo, p)
  {
    assert exists p :: IsRank(free, lo, p) by { var p := RankExists(free, lo); }
    var p :| IsRank(free, lo, p);
    p
  }

  ghost function MergesBefore(free: seq<Block>, lo: int): bool {
    var p := Rank(free, lo);
    p > 0 && End(free[p - 1]) == lo
  }

  ghost function MergesAfter(free: seq<Block>, lo: int, hi: int): bool {
    var p := Rank(free, lo);
    p < |free| && free[p].addr == hi
  }

  ghost function MergedStart(free: seq<Block>, lo: int): int {
    if MergesBefore(free, lo) then free[Rank(free, lo) - 1].addr else lo
  }

  ghost function MergedEnd(free: seq<Block>, lo: int, hi: int): int {
    if MergesAfter(free, lo, hi) then End(free[Rank(free, lo)]) else hi
  }

  /** Whether the merged region can hold a header and a minimal payload. */
  ghost predicate Insertable(free: seq<Block>, lo: int, hi: int) {
    MergedEnd(free, lo, hi) - MergedStart(free, lo) >= MINIMUM_REGION
  }

  /** The free list after the region [lo, hi) is returned to it. */
  ghost function Insert(free: seq<Block>, lo: int, hi: int): seq<Block>
    requires Insertable(free, lo, hi)
  {
    var p := Rank(free, lo);
    free[..if MergesBefore(free, lo) then p - 1 else p]
    + [FreeBlock(MergedStart(free, lo), MergedEnd(free, lo, hi))]
    + From(free, if MergesAfter(free, lo, hi) then p + 1 else p)
  }

  /** Everything from index `j` on. */
  function From(s: seq<Block>, j: nat): seq<Block>
    requires j <= |s|
  {
    if j == 0 then s else s[j..]
  }

  lemma PrefixCovered(free: seq<Block>, p: nat, x: int)
    requires Canonical(free) && 0 < p <= |free|
    ensures Covered(free[..p], x) <==> Covered(free[..p - 1], x) || free[p - 1].addr <= x < End(free[p - 1])
  {
    assert free[..p] == free[..p - 1] + [free[p - 1]];
    CoveredConcat(free[..p - 1], [free[p - 1]], x);
    CoveredOne(free[p - 1], x);
  }

  lemma CoveredOne(b: Block, x: int)
    ensures Covered([b], x) <==> b.addr <= x < End(b)
  {
    assert [b][0] == b;
  }

  lemma InsertCovered(free: seq<Block>, lo: int, hi: int, x: int)
    requires Canonical(free) && Clear(free, lo, hi) && lo < hi
    requires Insertable(free, lo, hi)
    ensures Covered(Insert(free, lo, hi), x) <==> Covered(free, x) || lo <= x < hi
  {
    var p := Rank(free, lo);
    var i := if MergesBefore(free, lo) then p - 1 else p;
    var j := if MergesAfter(free, lo, hi) then p + 1 else p;
    var b := FreeBlock(MergedStart(free, lo), MergedEnd(free, lo, hi));
    assert Covered(Insert(free, lo, hi), x)
        <==> Covered(free[..i], x) || b.addr <= x < End(b) || Covered(free[j..], x) by {
      CoveredConcat(free[..i] + [b], free[j..], x);
      CoveredConcat(free[..i], [b], x);
      CoveredOne(b, x);
    }
    assert Covered(free, x) <==> Covered(free[..p], x) || Covered(free[p..], x) by {
      assert free == free[..p] + free[p..];
      CoveredConcat(free[..p], free[p..], x);
    }
    if i < p { PrefixCovered(free, p, x); Around(free, i); }
    if p < j { SuffixCovered(free, p, x); Around(free, p); }
  }

  lemma SuffixCovered(free: seq<Block>, p: nat, x: int)
    requires Canonical(free) && p < |free|
    ensures Covered(free[p..], x) <==> free[p].addr <= x < End(free[p]) || Covered(free[p + 1..], x)
  {
    assert free[p..] == [free[p]] + free[p + 1..];
    CoveredConcat([free[p]], free[p + 1..], x);
    CoveredOne(free[p], x);
  }

  /** Inserting gives the one canonical list that covers the old addresses and the region. */
  lemma InsertMeaning(free: seq<Block>, lo: int, hi: int)
    requires Canonical(free) && Clear(free, lo, hi) && lo < hi
    requires Insertable(free, lo, hi)
    ensures Canonical(Insert(free, lo, hi))
    ensures forall x :: Covered(Insert(free, lo, hi), x) <==> Covered(free, x) || lo <= x < hi
  {
    var p := Rank(free, lo);
    var i := if MergesBefore(free, lo) then p - 1 else p;
    var j := if MergesAfter(free, lo, hi) then p + 1 else p;
    var b := FreeBlock(MergedStart(free, lo), MergedEnd(free, lo, hi));
    MergedGrows(free, lo, hi);
    if i > 0 { Around(free, i - 1); }
    if j < |free| { Around(free, j); }
    assert FreeOk(b);
    CanonicalPrefix(free, i);
    CanonicalSuffix(free, j);
    CanonicalOne(b);
    CanonicalConcat(free[..i], [b]);
    assert (free[..i] + [b])[i] == b;
    CanonicalConcat(free[..i] + [b], free[j..]);
    forall x ensures Covered(Insert(free, lo, hi), x) <==> Covered(free, x) || lo <= x < hi {
      InsertCovered(free, lo, hi, x);
    }
  }

  /** A region too small to keep touches no free block, so nothing was merged. */
  lemma NotInsertableMergesNothing(free: seq<Block>, lo: int, hi: int)
    requires Canonical(free) && Clear(free, lo, hi) && lo <= hi
    requires !Insertable(free, lo, hi)
    ensures !MergesBefore(free, lo) && !MergesAfter(free, lo, hi)
    ensures hi - lo < MINIMUM_REGION
  {
  }

  // ----- Carving a used block out of a free block -----

  function KeepsFront(margin: int, direction: Direction, useMargins: bool): bool {
    !(margin < MINIMUM_REGION
      || (direction.Front? && !useMargins && margin < MAXIMUM_PADDING_ALIGNMENT))
  }

  function KeepsBack(margin: int, direction: Direction, useMargins: bool): bool {
    !(margin < MINIMUM_REGION
      || (direction.Back? && !useMargins && margin < MAXIMUM_PADDING_ALIGNMENT))
  }

  /** `mem` is a payload address at which `size` bytes fit into `b` behind a header. */
  ghost predicate FitsAt(b: Block, mem: int, size: int) {
    PayloadStart(b) <= mem && mem + size <= End(b) && size >= MINIMUM_FREE_BLOCK_SIZE
  }

  function FrontMargin(b: Block, mem: int): int { mem - HEADER - b.addr }

  function BackMargin(b: Block, mem: int, size: int): int { End(b) - (mem + size) }

  /** The bytes behind the used block that neither list keeps. */
  function Dropped(b: Block, mem: int, size: int, direction: Direction, useMargins: bool): int {
    if KeepsBack(BackMargin(b, mem, size), direction, useMargins) then 0 else BackMargin(b, mem, size)
  }

  function CarvedPieces(b: Block, mem: int, size: int, direction: Direction, useMargins: bool): seq<Block> {
    (if KeepsFront(FrontMargin(b, mem), direction, useMargins)
     then [FreeBlock(b.addr, mem - HEADER)] else [])
    + (if KeepsBack(BackMargin(b, mem, size), direction, useMargins)
       then [FreeBlock(mem + size, End(b))] else [])
  }

  /** The free list once block `i` has given up `size` bytes at `mem`. */
  function Carve(free: seq<Block>, i: nat, mem: int, size: int, direction: Direction, useMargins: bool): seq<Block>
    requires i < |free|
  {
    free[..i] + CarvedPieces(free[i], mem, size, direction, useMargins) + free[i + 1..]
  }

  function CarvedPadding(b: Block, mem: int, direction: Direction, useMargins: bool): int {
    if KeepsFront(FrontMargin(b, mem), direction, useMargins) then 0 else FrontMargin(b, mem)
  }

  /** The header of the used block: only seven bits of its padding survive. */
  function CarvedBlock(b: Block, mem: int, size: int, direction: Direction, useMargins: bool): Block {
    Block(mem - HEADER, size, CarvedPadding(b, mem, direction, useMargins) % MAXIMUM_PADDING_ALIGNMENT)
  }

  /** The seven padding bits always recover the start of the region taken from the free block. */
  lemma CarvedRegion(b: Block, mem: int, size: int, direction: Direction, useMargins: bool)
    requires FitsAt(b, mem, size)
    ensures var u := CarvedBlock(b, mem, size, direction, useMargins);
            && RegionStart(u) == mem - HEADER - CarvedPadding(b, mem, direction, useMargins)
            && b.addr <= RegionStart(u) <= u.addr
            && End(u) == mem + size && PayloadStart(u) == mem
  {
  }

  lemma PiecesMeaning(b: Block, mem: int, size: int, direction: Direction, useMargins: bool)
    requires FreeOk(b) && FitsAt(b, mem, size)
    ensures var lo := mem - HEADER - CarvedPadding(b, mem, direction, useMargins);
            var hi := mem + size + Dropped(b, mem, size, direction, useMargins);
            var pieces := CarvedPieces(b, mem, size, direction, useMargins);
            && Canonical(pieces)
            && (forall k | 0 <= k < |pieces| :: b.addr <= pieces[k].addr && End(pieces[k]) <= End(b))
            && (forall x :: Covered(pieces, x) <==> b.addr <= x < End(b) && !(lo <= x < hi))
  {
    var front := if KeepsFront(FrontMargin(b, mem), direction, useMargins)
                 then [FreeBlock(b.addr, mem - HEADER)] else [];
    var back := if KeepsBack(BackMargin(b, mem, size), direction, useMargins)
                then [FreeBlock(mem + size, End(b))] else [];
    CarvedRegion(b, mem, size, direction, useMargins);
    if front != [] { CanonicalOne(front[0]); }
    if back != [] { CanonicalOne(back[0]); }
    CanonicalConcat(front, back);
    forall x ensures Covered(front + back, x) <==> Covered(front, x) || Covered(back, x) {
      CoveredConcat(front, back, x);
    }
    forall x ensures Covered(front, x) ==> b.addr <= x < mem - HEADER
             ensures Covered(back, x) ==> mem + size <= x < End(b) {
    }
    forall x | front != [] && b.addr <= x < mem - HEADER ensures Covered(front, x) {
      CoveredOne(front[0], x);
    }
    forall x | back != [] && mem + size <= x < End(b) ensures Covered(back, x) {
      CoveredOne(back[0], x);
    }
  }

  lemma CarveCovered(free: seq<Block>, i: nat, mem: int, size: int, direction: Direction, useMargins: bool, x: int)
    requires Canonical(free) && i < |free|
    ensures var pieces := CarvedPieces(free[i], mem, size, direction, useMargins);
            Covered(Carve(free, i, mem, size, direction, useMargins), x)
            <==> (if free[i].addr <= x < End(free[i]) then Covered(pieces, x)
                  else Covered(free, x) || Covered(pieces, x))
  {
    var pieces := CarvedPieces(free[i], mem, size, direction, useMargins);
    Around(free, i);
    CoveredConcat(free[..i] + pieces, free[i + 1..], x);
    CoveredConcat(free[..i], pieces, x);
    assert free == free[..i] + free[i..];
    CoveredConcat(free[..i], free[i..], x);
    SuffixCovered(free, i, x);
  }

  /** Carving removes exactly the used region and the dropped tail from the covered addresses. */
  lemma CarveMeaning(free: seq<Block>, i: nat, mem: int, size: int, direction: Direction, useMargins: bool)
    requires Canonical(free) && i < |free| && FitsAt(free[i], mem, size)
    ensures var lo := mem - HEADER - CarvedPadding(free[i], mem, direction, useMargins);
            var hi := mem + size + Dropped(free[i], mem, size, direction, useMargins);
            var r := Carve(free, i, mem, size, direction, useMargins);
            && Canonical(r)
            && (forall x :: Covered(r, x) <==> Covered(free, x) && !(lo <= x < hi))
  {
    var b := free[i];
    var pieces := CarvedPieces(b, mem, size, direction, useMargins);
    var lo := mem - HEADER - CarvedPadding(b, mem, direction, useMargins);
    var hi := mem + size + Dropped(b, mem, size, direction, useMargins);
    var r := Carve(free, i, mem, size, direction, useMargins);
    Around(free, i);
    PiecesMeaning(b, mem, size, direction, useMargins);
    if i > 0 { Around(free, i - 1); }
    if i + 1 < |free| { Around(free, i + 1); }
    CanonicalPrefix(free, i);
    CanonicalSuffix(free, i + 1);
    CanonicalConcat(free[..i], pieces);
    CanonicalConcat(free[..i] + pieces, free[i + 1..]);
    forall x ensures Covered(r, x) <==> Covered(free, x) && !(lo <= x < hi) {
      CarveCovered(free, i, mem, size, direction, useMargins, x);
      if b.addr <= x < End(b) { assert Covered(free, x); }
    }
  }

  // ----- The round trip -----

  /** Inserting [lo, hi) into `r` yields `free` again, with block `i` cut short by `drop` bytes. */
  ghost predicate Restores(free: seq<Block>, i: nat, r: seq<Block>, lo: int, hi: int, drop: int)
    requires i < |free|
  {
    && Clear(r, lo, hi) && Insertable(r, lo, hi)
    && Insert(r, lo, hi) == free[i := FreeBlock(free[i].addr, End(free[i]) - drop)]
  }

  /** Giving back a block that was just carved restores the free list exactly, except that a
      dropped tail stays lost: then the block it came from ends where the used block ended. */
  lemma CarveInsertRoundTrip(free: seq<Block>, i: nat, mem: int, size: int,
                             direction: Direction, useMargins: bool)
    requires Canonical(free) && i < |free| && FitsAt(free[i], mem, size)
    ensures var u := CarvedBlock(free[i], mem, size, direction, useMargins);
            var r := Carve(free, i, mem, size, direction, useMargins);
            var drop := Dropped(free[i], mem, size, direction, useMargins);
            Restores(free, i, r, RegionStart(u), End(u), drop)
  {
    var u := CarvedBlock(free[i], mem, size, direction, useMargins);
    var r := Carve(free, i, mem, size, direction, useMargins);
    var pad := CarvedPadding(free[i], mem, direction, useMargins);
    var drop := Dropped(free[i], mem, size, direction, useMargins);
    var lo, hi := RegionStart(u), End(u);
    assert lo == mem - HEADER - pad && hi == mem + size && free[i].addr <= lo by {
      assert FreeOk(free[i]);
      CarvedRegion(free[i], mem, size, direction, useMargins);
    }
    CarveMeaning(free, i, mem, size, direction, useMargins);
    assert lo + MINIMUM_REGION <= hi;
    assert forall x :: Covered(r, x) <==> Covered(free, x) && !(lo <= x < hi + drop);
    assert 0 <= drop && hi + drop <= End(free[i]) && (drop > 0 ==> hi + drop == End(free[i]));
    GiveBack(free, i, r, RegionStart(u), End(u), Dropped(free[i], mem, size, direction, useMargins));
  }

  lemma GiveBack(free: seq<Block>, i: nat, r: seq<Block>, lo: int, hi: int, drop: int)
    requires Canonical(free) && i < |free| && Canonical(r)
    requires free[i].addr <= lo && lo + MINIMUM_REGION <= hi && 0 <= drop
    requires hi + drop <= End(free[i]) && (drop > 0 ==> hi + drop == End(free[i]))
    requires forall x :: Covered(r, x) <==> Covered(free, x) && !(lo <= x < hi + drop)
    ensures Restores(free, i, r, lo, hi, drop)
  {
    ClearIfUncovered(r, lo, hi);
    MergedGrows(r, lo, hi);
    InsertMeaning(r, lo, hi);
    var target := free[i := FreeBlock(free[i].addr, End(free[i]) - drop)];
    CutCanonical(free, i, drop);
    forall x ensures Covered(Insert(r, lo, hi), x) <==> Covered(target, x) {
      CutCovered(free, i, drop, x);
      assert free[i].addr <= x < End(free[i]) ==> Covered(free, x);
    }
    CanonicalUnique(Insert(r, lo, hi), target);
  }

  lemma MergedGrows(free: seq<Block>, lo: int, hi: int)
    requires Canonical(free)
    ensures MergedStart(free, lo) <= lo && hi <= MergedEnd(free, lo, hi)
    ensures hi - lo >= MINIMUM_REGION ==> Insertable(free, lo, hi)
  {
    var p := Rank(free, lo);
    assert p > 0 ==> FreeOk(free[p - 1]);
    assert p < |free| ==> FreeOk(free[p]);
  }

  lemma CutCanonical(free: seq<Block>, i: nat, drop: int)
    requires Canonical(free) && i < |free| && 0 <= drop
    requires free[i].addr + MINIMUM_REGION <= End(free[i]) - drop
    ensures Canonical(free[i := FreeBlock(free[i].addr, End(free[i]) - drop)])
  {
    var t := free[i := FreeBlock(free[i].addr, End(free[i]) - drop)];
    Around(free, i);
    forall k | 0 <= k < |t| ensures FreeOk(t[k]) { assert FreeOk(free[k]); }
    forall j, k | 0 <= j < k < |t| ensures Below(t, j, k) { assert Below(free, j, k); }
  }

  lemma CutCovered(free: seq<Block>, i: nat, drop: int, x: int)
    requires Canonical(free) && i < |free| && free[i].addr < End(free[i]) - drop && 0 <= drop
    ensures Covered(free[i := FreeBlock(free[i].addr, End(free[i]) - drop)], x)
            <==> Covered(free, x) && !(End(free[i]) - drop <= x < End(free[i]))
  {
    var t := free[i := FreeBlock(free[i].addr, End(free[i]) - drop)];
    Around(free, i);
    if Covered(free, x) {
      var k :| 0 <= k < |free| && free[k].addr <= x < End(free[k]);
      if k != i { assert t[k] == free[k]; } else if x < End(t[i]) { assert t[i].addr <= x < End(t[i]); }
    }
    if Covered(t, x) {
      var k :| 0 <= k < |t| && t[k].addr <= x < End(t[k]);
      assert free[k].addr <= x < End(free[k]);
    }
  }

  // ----- Counting bytes -----

  /** The bytes a list of blocks owns: padding, headers and payloads. */
  function Bytes(s: seq<Block>): int {
    if s == [] then 0 else Bytes(s[..|s| - 1]) + End(s[|s| - 1]) - RegionStart(s[|s| - 1])
  }

  lemma {:induction false} BytesConcat(a: seq<Block>, b: seq<Block>)
    ensures Bytes(a + b) == Bytes(a) + Bytes(b)
  {
    if b == [] {
      assert a + b == a;
    } else {
      assert (a + b)[..|a + b| - 1] == a + b[..|b| - 1];
      BytesConcat(a, b[..|b| - 1]);
    }
  }

  lemma BytesOne(b: Block)
    ensures Bytes([b]) == End(b) - RegionStart(b)
  {
    assert [b][..0] == [];
  }

  /** Replacing a segment of a list changes its byte count by the difference of the segments. */
  lemma BytesReplace(s: seq<Block>, i: nat, j: nat, mid: seq<Block>)
    requires i <= j <= |s|
    ensures Bytes(s[..i] + mid + s[j..]) == Bytes(s) - Bytes(s[i..j]) + Bytes(mid)
  {
    assert s == s[..i] + s[i..j] + s[j..];
    BytesConcat(s[..i] + s[i..j], s[j..]);
    BytesConcat(s[..i], s[i..j]);
    BytesConcat(s[..i] + mid, s[j..]);
    BytesConcat(s[..i], mid);
  }

  lemma InsertBytes(free: seq<Block>, lo: int, hi: int)
    requires Canonical(free) && Insertable(free, lo, hi)
    ensures Bytes(Insert(free, lo, hi)) == Bytes(free) + hi - lo
  {
    var p := Rank(free, lo);
    var i := if MergesBefore(free, lo) then p - 1 else p;
    var j := if MergesAfter(free, lo, hi) then p + 1 else p;
    var b := FreeBlock(MergedStart(free, lo), MergedEnd(free, lo, hi));
    BytesReplace(free, i, j, [b]);
    BytesOne(b);
    FreeBytesRange(free, i, p);
    FreeBytesRange(free, p, j);
    BytesSplit(free, i, p, j);
  }

  lemma BytesSplit(free: seq<Block>, i: nat, p: nat, j: nat)
    requires i <= p <= j <= |free|
    ensures Bytes(free[i..j]) == Bytes(free[i..p]) + Bytes(free[p..j])
  {
    assert free[i..j] == free[i..p] + free[p..j];
    BytesConcat(free[i..p], free[p..j]);
  }

  lemma FreeBytesRange(free: seq<Block>, i: nat, j: nat)
    requires Canonical(free) && i <= j <= |free| && j <= i + 1
    ensures Bytes(free[i..j]) == if i == j then 0 else End(free[i]) - free[i].addr
  {
    if i < j {
      assert free[i..j] == [free[i]];
      BytesOne(free[i]);
      assert FreeOk(free[i]);
    }
  }

  lemma CarveBytes(free: seq<Block>, i: nat, mem: int, size: int, direction: Direction, useMargins: bool)
    requires Canonical(free) && i < |free| && FitsAt(free[i], mem, size)
    ensures Bytes(Carve(free, i, mem, size, direction, useMargins))
            == Bytes(free) - (size + HEADER + CarvedPadding(free[i], mem, direction, useMargins))
               - Dropped(free[i], mem, size, direction, useMargins)
  {
    var b := free[i];
    var front := if KeepsFront(FrontMargin(b, mem), direction, useMargins)
                 then [FreeBlock(b.addr, mem - HEADER)] else [];
    var back := if KeepsBack(BackMargin(b, mem, size), direction, useMargins)
                then [FreeBlock(mem + size, End(b))] else [];
    BytesReplace(free, i, i + 1, front + back);
    FreeBytesRange(free, i, i + 1);
    BytesConcat(front, back);
    BytesOne(FreeBlock(b.addr, mem - HEADER));
    BytesOne(FreeBlock(mem + size, End(b)));
  }

  /** A canonical list inside [lo, hi) owns at most hi - lo bytes, and all of them only when it
      is the single block that spans the range (or the range is empty). */
  lemma {:induction false} CanonicalBytes(free: seq<Block>, lo: int, hi: int)
    requires Canonical(free) && lo <= hi
    requires forall i | 0 <= i < |free| :: lo <= free[i].addr && End(free[i]) <= hi
    ensures 0 <= Bytes(free) <= hi - lo
    ensures Bytes(free) == hi - lo ==> free == if lo == hi then [] else [FreeBlock(lo, hi)]
  {
    if free != [] {
      var n := |free| - 1;
      assert FreeOk(free[n]);
      CanonicalPrefix(free, n);
      Around(free, n);
      CanonicalBytes(free[..n], lo, free[n].addr);
      if n > 0 {
        Around(free, n - 1);
        CanonicalBytes(free[..n], lo, End(free[n - 1]));
      }
      if Bytes(free) == hi - lo { assert free == [free[n]]; }
    }
  }
}
