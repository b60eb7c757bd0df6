/** The unit heap by unit numbers: which units are free, in the order of the free list. */
module UnitPool {

  datatype Pool = Pool(count: nat, free: seq<int>)

  /** Free units are in range and on the list once. */
  predicate PoolOk(p: Pool) {
    && (forall i | 0 <= i < |p.free| :: 0 <= p.free[i] < p.count)
    && (forall i, j | 0 <= i < j < |p.free| :: p.free[i] != p.free[j])
  }

  function Live(p: Pool): set<int> { set k | 0 <= k < p.count && k !in p.free }

  function Range(lo: int, hi: int): seq<int>
    requires lo <= hi
  {
    seq(hi - lo, k => lo + k)
  }

  // ----- Operations -----

  datatype Op = Allocate | Free(unit: int) | Extend(units: nat)

  /** Only live units are freed, and a heap grows by at least one unit. */
  predicate Legal(p: Pool, op: Op) {
    match op
    case Allocate => true
    case Free(k) => k in Live(p)
    case Extend(m) => m > 0
  }

  /** The unit the next allocation returns, or -1 for a null pointer. */
  function NextUnit(p: Pool): int { if p.free == [] then -1 else p.free[0] }

  function Apply(p: Pool, op: Op): Pool {
    match op
    case Allocate => if p.free == [] then p else p.(free := p.free[1..])
    case Free(k) => p.(free := [k] + p.free)
    case Extend(m) => Pool(p.count + m, p.free + Range(p.count, p.count + m))
  }

  // ----- Free and live units partition the units -----

  lemma {:induction false} ElementsCount(s: seq<int>)
    requires forall i, j | 0 <= i < j < |s| :: s[i] != s[j]
    ensures |set x | x in s| == |s|
  {
    if s != [] {
      var n := |s| - 1;
      ElementsCount(s[..n]);
      assert (set x | x in s) == (set x | x in s[..n]) + {s[n]};
    } else {
      assert (set x | x in s) == {};
    }
  }

  lemma CountsAddUp(p: Pool)
    requires PoolOk(p)
    ensures |p.free| + |Live(p)| == p.count
  {
    var all := Range(0, p.count);
    ElementsCount(p.free);
    ElementsCount(all);
    var free := set x | x in p.free;
    forall k ensures k in all <==> 0 <= k < p.count {
      if 0 <= k < p.count { assert all[k] == k; }
    }
    assert (set x | x in all) == free + Live(p);
    assert free !! Live(p);
  }

  lemma AllocateKeepsPool(p: Pool)
    requires PoolOk(p) && p.free != []
    ensures PoolOk(Apply(p, Allocate)) && NextUnit(p) !in Live(p)
    ensures Live(Apply(p, Allocate)) == Live(p) + {NextUnit(p)}
  {
    assert p.free == [p.free[0]] + p.free[1..];
    assert p.free[0] !in p.free[1..];
  }

  lemma FreeKeepsPool(p: Pool, k: int)
    requires PoolOk(p) && k in Live(p)
    ensures PoolOk(Apply(p, Free(k))) && Live(Apply(p, Free(k))) == Live(p) - {k}
  {
    var r := Apply(p, Free(k));
    assert forall j | 0 < j < |r.free| :: r.free[j] == p.free[j - 1];
  }

  lemma ExtendKeepsPool(p: Pool, m: nat)
    requires PoolOk(p)
    ensures PoolOk(Apply(p, Extend(m))) && Live(Apply(p, Extend(m))) == Live(p)
  {
    var r := Apply(p, Extend(m));
    assert forall j | 0 <= j < |p.free| :: r.free[j] == p.free[j];
    forall x ensures x in r.free <==> x in p.free || p.count <= x < p.count + m {
      if p.count <= x < p.count + m { assert r.free[|p.free| + x - p.count] == x; }
    }
  }

  /** One step: the invariant stays, the live units change by exactly the unit in question, and an
      allocation never returns a live unit; it fails only when all units are live. */
  lemma StepKeepsPool(p: Pool, op: Op)
    requires PoolOk(p) && Legal(p, op)
    ensures PoolOk(Apply(p, op))
    ensures match op
            case Allocate =>
              && (NextUnit(p) == -1 <==> |Live(p)| == p.count)
              && (NextUnit(p) != -1 ==> NextUnit(p) !in Live(p) && 0 <= NextUnit(p) < p.count)
              && Live(Apply(p, op)) == Live(p) + (if NextUnit(p) == -1 then {} else {NextUnit(p)})
            case Free(k) => Live(Apply(p, op)) == Live(p) - {k}
            case Extend(_) => Live(Apply(p, op)) == Live(p)
  {
    match op
    case Allocate =>
      CountsAddUp(p);
      if p.free != [] { AllocateKeepsPool(p); }
    case Free(k) => FreeKeepsPool(p, k);
    case Extend(m) => ExtendKeepsPool(p, m);
  }

  // ----- The list is a stack -----

  /** What was freed last is allocated next, and the two cancel. */
  lemma FreeThenAllocate(p: Pool, k: int)
    requires PoolOk(p) && k in Live(p)
    ensures NextUnit(Apply(p, Free(k))) == k && Apply(Apply(p, Free(k)), Allocate) == p
  {
    assert ([k] + p.free)[1..] == p.free;
  }

  lemma AllocateThenFree(p: Pool)
    requires PoolOk(p) && NextUnit(p) != -1
    ensures Apply(Apply(p, Allocate), Free(NextUnit(p))) == p
  {
    assert [p.free[0]] + p.free[1..] == p.free;
  }
}
