/** Which port manager gets a new session: the fold over the managers' session counters. */
module TipcSelection {

  function Sum(xs: seq<int>): int {
    if xs == [] then 0 else Sum(xs[..|xs| - 1]) + xs[|xs| - 1]
  }

  lemma {:induction false} SumConcat(a: seq<int>, b: seq<int>)
    ensures Sum(a + b) == Sum(a) + Sum(b)
  {
    if b == [] {
      assert a + b == a;
    } else {
      assert (a + b)[..|a + b| - 1] == a + b[..|b| - 1];
      SumConcat(a, b[..|b| - 1]);
    }
  }

  lemma SumUpdate(xs: seq<int>, i: nat, x: int)
    requires i < |xs|
    ensures Sum(xs[i := x]) == Sum(xs) - xs[i] + x
  {
    assert xs == xs[..i] + [xs[i]] + xs[i + 1..];
    assert xs[i := x] == xs[..i] + [x] + xs[i + 1..];
    SumConcat(xs[..i] + [xs[i]], xs[i + 1..]);
    SumConcat(xs[..i], [xs[i]]);
    SumConcat(xs[..i] + [x], xs[i + 1..]);
    SumConcat(xs[..i], [x]);
    SumOne(xs[i]);
    SumOne(x);
  }

  lemma SumOne(x: int)
    ensures Sum([x]) == x
  {
    assert [x][..0] == [];
  }

  lemma {:induction false} SumMonotone(xs: seq<int>, ys: seq<int>)
    requires |xs| == |ys| && forall i | 0 <= i < |xs| :: xs[i] <= ys[i]
    ensures Sum(xs) <= Sum(ys)
  {
    if xs != [] { SumMonotone(xs[..|xs| - 1], ys[..|ys| - 1]); }
  }

  // ----- Capacities -----

  /** `SessionsPerPortManager`: everybody gets the quotient, the last one also the remainder. */
  function Capacity(total: int, ports: int, i: int): int
    requires ports > 0
  {
    if i == ports - 1 then total / ports + total % ports else total / ports
  }

  /** The sessions each manager has room for: `quota`, and at least that for the last one. */
  predicate IsCapacities(caps: seq<int>, quota: int) {
    && caps != [] && quota >= 0 && caps[|caps| - 1] >= quota
    && forall i | 0 <= i < |caps| - 1 :: caps[i] == quota
  }

  lemma {:induction false} SumConstant(xs: seq<int>, q: int)
    requires forall i | 0 <= i < |xs| :: xs[i] == q
    ensures Sum(xs) == |xs| * q
  {
    if xs != [] { SumConstant(xs[..|xs| - 1], q); }
  }

  /** The capacities add up to the number of sessions of all ports. */
  lemma CapacitiesAddUp(total: int, ports: int, caps: seq<int>)
    requires total >= 0 && ports > 0 && |caps| == ports
    requires forall i | 0 <= i < ports :: caps[i] == Capacity(total, ports, i)
    ensures IsCapacities(caps, total / ports) && Sum(caps) == total
  {
    SumConstant(caps[..ports - 1], total / ports);
    assert total == total / ports * ports + total % ports;
    assert (ports - 1) * (total / ports) == total / ports * ports - total / ports;
  }

  // ----- The fold -----

  datatype Best = Best(index: int, sessions: int)

  /** `TrySelectBetterPort` for the manager at index `i`. */
  function Better(best: Best, i: int, sessions: int, quota: int): Best {
    if i == 0 || sessions < best.sessions || best.sessions >= quota then Best(i, sessions) else best
  }

  /** The best manager after the counters in `counts` have been looked at, in order. */
  function Fold(counts: seq<int>, quota: int): (b: Best)
    ensures counts != [] ==> 0 <= b.index < |counts|
  {
    if counts == [] then Best(0, -1)
    else Better(Fold(counts[..|counts| - 1], quota), |counts| - 1, counts[|counts| - 1], quota)
  }

  /** The selection as `TriggerAddSession` runs it, one manager after the other. */
  method SelectPort(counts: seq<int>, quota: int) returns (index: int, sessions: int)
    requires counts != []
    ensures Best(index, sessions) == Fold(counts, quota)
  {
    index, sessions := 0, -1;
    var i := 0;
    while i < |counts|
      invariant 0 <= i <= |counts| && Best(index, sessions) == Fold(counts[..i], quota)
    {
      assert counts[..i + 1][..i] == counts[..i];
      if i == 0 || counts[i] < sessions || sessions >= quota {
        index, sessions := i, counts[i];
      }
      i := i + 1;
    }
    assert counts[..i] == counts;
  }

  lemma {:induction false} FoldIsACount(counts: seq<int>, quota: int)
    requires counts != []
    ensures var b := Fold(counts, quota);
            && 0 <= b.index < |counts| && b.sessions == counts[b.index]
            && (b.sessions < quota ==> forall i | 0 <= i < |counts| :: b.sessions <= counts[i])
            && (b.sessions >= quota ==> b.index == |counts| - 1 && forall i | 0 <= i < |counts| - 1 ::
                counts[i] >= quota)
  {
    if |counts| > 1 {
      FoldIsACount(counts[..|counts| - 1], quota);
    }
  }

  /** The manager a new session should go to: while some manager counts fewer sessions than the quota,
      the first of the least loaded ones, and else the last one. */
  predicate Picked(counts: seq<int>, quota: int, b: int) {
    && 0 <= b < |counts|
    && ((exists i | 0 <= i < |counts| :: counts[i] < quota) ==>
          forall i | 0 <= i < |counts| :: if i < b then counts[b] < counts[i] else counts[b] <= counts[i])
    && ((forall i | 0 <= i < |counts| :: counts[i] >= quota) ==> b == |counts| - 1)
  }

  lemma {:induction false} FoldIsPicked(counts: seq<int>, quota: int)
    requires counts != []
    ensures Picked(counts, quota, Fold(counts, quota).index)
  {
    FoldIsACount(counts, quota);
    var n := |counts| - 1;
    if n > 0 {
      FoldIsPicked(counts[..n], quota);
      FoldIsACount(counts[..n], quota);
    }
  }

  /** The fold picks exactly that manager. */
  lemma PickedIff(counts: seq<int>, quota: int, b: int)
    requires counts != []
    ensures Picked(counts, quota, b) <==> b == Fold(counts, quota).index
  {
    FoldIsPicked(counts, quota);
  }

  /** The fold overfills no manager exactly when there is room: with every counter within capacity,
      the manager it picks has room if and only if the counters do not add up to the capacity yet.
      Whenever some manager is below the quota, it picks a least-loaded one. */
  lemma SelectionHasRoom(counts: seq<int>, caps: seq<int>, quota: int)
    requires IsCapacities(caps, quota) && |counts| == |caps|
    requires forall i | 0 <= i < |counts| :: counts[i] <= caps[i]
    ensures var b := Fold(counts, quota).index;
            && 0 <= b < |counts|
            && (counts[b] < caps[b] <==> Sum(counts) < Sum(caps))
            && ((exists i | 0 <= i < |counts| :: counts[i] < quota)
                ==> forall i | 0 <= i < |counts| :: counts[b] <= counts[i])
  {
    FoldIsACount(counts, quota);
    var n := |counts| - 1;
    var b := Fold(counts, quota);
    if b.sessions >= quota {
      SumMonotone(caps[..n], counts[..n]);
    }
    SumUpdate(counts, b.index, caps[b.index]);
    SumMonotone(counts[b.index := caps[b.index]], caps);
  }
}
