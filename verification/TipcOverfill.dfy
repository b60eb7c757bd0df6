/** When the server aborts. Some run ends in the abort of `AddObject` exactly when there are two ports
    or more: fill every manager, let one thread close a session and stop before it decrements its
    counter, and let another port accept the session the kernel then lets in. */
module TipcOverfill {
  import opened Division
  import opened TipcSelection
  import opened TipcTables
  import opened TipcModel
  import opened TipcStore
  import opened TipcServer

  // ----- Reachable states -----

  /** A set of sound states that no honest step leaves. */
  ghost predicate Closed(g: Config, all: iset<State>) {
    && (forall s {:trigger Shape(g, s)} :: s in all ==> Shape(g, s))
    && (forall s {:trigger Inv(g, s)} :: s in all ==> Inv(g, s))
    && (forall s, t, c {:trigger CanGo(g, s, t, c)} ::
          s in all && CanGo(g, s, t, c) && Honest(c) ==> Next(g, s, t, c) in all)
  }

  lemma Step(all: iset<State>, g: Config, s: State, t: int, c: Choice) returns (r: State)
    requires Closed(g, all) && s in all && CanGo(g, s, t, c) && Honest(c)
    ensures r == Next(g, s, t, c) && r in all
  {
    r := Next(g, s, t, c);
  }

  predicate Known(g: Config, s: State, t: int) {
    |s.managers| == |s.counts| == |s.slabs| == |g.max| && 0 <= t < |s.managers|
  }

  lemma Accept(all: iset<State>, g: Config, s: State, t: int, h: int) returns (r: State)
    requires Closed(g, all) && s in all && Known(g, s, t) && s.managers[t].pc.Wait?
    requires |g.max| < h < WORD_SHIFT && h !in s.sessions && s.counts[t] < g.max[t]
    ensures r == Accepts(s, t, h) && r in all
  {
    assert Shape(g, s);
    r := Step(all, g, s, t, Choice.Accept(h));
  }

  lemma Lock(all: iset<State>, g: Config, s: State, t: int) returns (r: State)
    requires Closed(g, all) && s in all && Known(g, s, t) && s.managers[t].pc.Accepted? && s.mutex == -1
    ensures r == At(s, t, Select(s.managers[t].pc.handle, Nums(s), [])).(mutex := t) && r in all
  {
    assert Shape(g, s);
    r := Step(all, g, s, t, Go);
  }

  lemma Look(all: iset<State>, g: Config, s: State, t: int) returns (r: State)
    requires Closed(g, all) && s in all && Known(g, s, t) && s.managers[t].pc.Select?
             && |s.managers[t].pc.seen| < |s.managers|
    ensures var pc := s.managers[t].pc; r == At(s, t, pc.(seen := pc.seen + [s.managers[|pc.seen|].num])) && r in all
  {
    assert Shape(g, s);
    r := Step(all, g, s, t, Go);
  }

  lemma Count(all: iset<State>, g: Config, s: State, t: int) returns (r: State)
    requires Closed(g, all) && s in all && Known(g, s, t) && s.managers[t].pc.Select?
    requires |s.managers[t].pc.seen| == |s.managers|
    ensures r == Counts(s, t, s.managers[t].pc.handle, Fold(s.managers[t].pc.seen, g.quota).index) && r in all
  {
    assert Shape(g, s);
    r := Step(all, g, s, t, Go);
  }

  lemma Send(all: iset<State>, g: Config, s: State, t: int) returns (r: State)
    requires Closed(g, all) && s in all && Known(g, s, t) && (s.managers[t].pc.Send1? || s.managers[t].pc.Send2?)
    requires var pc := s.managers[t].pc; 0 <= pc.best < |s.managers| && |s.managers[pc.best].queue| < Sum(g.max)
    ensures var pc := s.managers[t].pc;
            && r == At(Put(s, pc.best, Pushed(s.managers[pc.best], if pc.Send1? then TypeWord(pc.handle) else t)), t,
                       if pc.Send1? then Send2(pc.handle, pc.best) else Sent)
            && r in all
  {
    assert Shape(g, s);
    r := Step(all, g, s, t, Go);
  }

  lemma Unlock(all: iset<State>, g: Config, s: State, t: int) returns (r: State)
    requires Closed(g, all) && s in all && Known(g, s, t) && s.managers[t].pc.Sent?
    ensures r == At(s, t, Wait).(mutex := -1) && r in all
  {
    assert Shape(g, s);
    r := Step(all, g, s, t, Go);
  }

  lemma Take(all: iset<State>, g: Config, s: State, t: int) returns (r: State)
    requires Closed(g, all) && s in all && Known(g, s, t) && s.managers[t].queue != []
    requires s.managers[t].pc.Wait? || s.managers[t].pc.GotType?
    ensures var x := s.managers[t];
            && r == Put(s, t, Taken(x, if x.pc.Wait? then GotType(x.queue[0]) else GotBoth(x.pc.word, x.queue[0])))
            && r in all
  {
    assert Shape(g, s);
    r := Step(all, g, s, t, if s.managers[t].pc.Wait? then Message else Go);
  }

  lemma Build(all: iset<State>, g: Config, s: State, t: int, h: int, p: int) returns (r: State)
    requires Closed(g, all) && s in all && Known(g, s, t) && s.managers[t].pc == GotBoth(TypeWord(h), p)
             && 0 <= h < WORD_SHIFT
    ensures 0 <= p < |s.slabs| && 0 in s.slabs[p] && r == Allocates(s, t, h, p) && r in all
  {
    assert Shape(g, s);
    assert Inv(g, s);
    InvIsCore(g, s);
    InHandMessage(g, s, t);
    DecodeType(h);
    r := Step(all, g, s, t, Go);
  }

  lemma Enter(all: iset<State>, g: Config, s: State, t: int) returns (r: State)
    requires Closed(g, all) && s in all && Known(g, s, t) && s.managers[t].pc.Allocated?
    requires var b := s.managers[t].box; |b.handles| == |b.objects| && INVALID_HANDLE in b.handles && b.inflight != []
    ensures var pc := s.managers[t].pc; r == Enters(s, t, pc.handle, pc.port, pc.slot) && r in all
  {
    assert Shape(g, s);
    r := Step(all, g, s, t, Go);
  }

  // ----- A whole accept -----

  function Selected(s: State, t: int, h: int): State
    requires 0 <= t < |s.managers| == |s.counts|
  {
    At(s, t, Select(h, Nums(s), Nums(s)))
    .(mutex := t, counts := s.counts[t := s.counts[t] + 1], sessions := s.sessions[h := Session(t, InHand(t))])
  }

  /** Nothing else happens while the thread looks at the counters from `k` on. */
  lemma {:induction false} LookOn(all: iset<State>, g: Config, s: State, t: int, h: int, nums: seq<int>, k: nat)
    requires Closed(g, all) && s in all && Known(g, s, t) && nums == Nums(s) && k <= |nums|
    requires s.managers[t].pc == Select(h, nums, nums[..k])
    ensures At(s, t, Select(h, nums, nums)) in all
    decreases |nums| - k
  {
    if k < |nums| {
      var r := Look(all, g, s, t);
      assert nums[..k] + [nums[k]] == nums[..k + 1];
      assert Nums(r) == nums;
      LookOn(all, g, r, t, h, nums, k + 1);
      assert At(r, t, Select(h, nums, nums)).managers == At(s, t, Select(h, nums, nums)).managers;
    } else {
      assert nums[..k] == nums;
      assert At(s, t, Select(h, nums, nums)).managers == s.managers;
    }
  }

  lemma SelectAll(all: iset<State>, g: Config, s: State, t: int, h: int)
    requires Closed(g, all) && s in all && Known(g, s, t) && s.managers[t].pc.Wait? && s.mutex == -1
    requires |g.max| < h < WORD_SHIFT && h !in s.sessions && s.counts[t] < g.max[t]
    ensures Selected(s, t, h) in all
  {
    var s1 := Accept(all, g, s, t, h);
    var s2 := Lock(all, g, s1, t);
    assert Nums(s2) == Nums(s1) == Nums(s);
    LookOn(all, g, s2, t, h, Nums(s), 0);
    assert At(s2, t, Select(h, Nums(s), Nums(s))).managers == Selected(s, t, h).managers;
  }

  function Handed(s: State, t: int, b: int): State
    requires 0 <= t < |s.managers| && 0 <= b < |s.managers| && s.managers[t].pc.Select?
  {
    var h := s.managers[t].pc.handle;
    var y := s.(managers := s.managers[t := s.managers[t].(pc := Wait)]);
    var x := y.managers[b];
    Put(y, b, Counted(x, Msg(h, t)).(queue := [TypeWord(h), t]))
    .(mutex := -1, sessions := s.sessions[h := Session(t, Queued(b, x.box.received + |x.box.inflight|))])
  }

  lemma HandOver(all: iset<State>, g: Config, s: State, t: int, b: int)
    requires Closed(g, all) && s in all && Known(g, s, t) && 0 <= b < |s.managers| && s.managers[t].pc.Select?
    requires |s.managers[t].pc.seen| == |s.managers| && Fold(s.managers[t].pc.seen, g.quota).index == b
    requires s.managers[b].queue == [] && Sum(g.max) >= 2
    ensures Handed(s, t, b) in all
  {
    var s1 := Count(all, g, s, t);
    var s2 := Send(all, g, s1, t);
    var s3 := Send(all, g, s2, t);
    var s4 := Unlock(all, g, s3, t);
    var words := [TypeWord(s.managers[t].pc.handle), t];
    assert s.managers[b].queue + [words[0]] + [words[1]] == words;
    assert s4.managers == Handed(s, t, b).managers;
  }

  lemma TakeBoth(all: iset<State>, g: Config, s: State, t: int, h: int, p: int)
    requires Closed(g, all) && s in all && Known(g, s, t) && s.managers[t].pc.Wait?
    requires 0 <= h < WORD_SHIFT && s.managers[t].queue == [TypeWord(h), p]
    ensures 0 <= p < |s.slabs| && 0 in s.slabs[p]
    ensures var j := FindFirst(s.slabs[p], 0);
            Put(s, t, s.managers[t].(queue := [], pc := Allocated(h, p, j)))
            .(slabs := s.slabs[p := s.slabs[p][j := h]]) in all
  {
    var s1 := Take(all, g, s, t);
    var s2 := Take(all, g, s1, t);
    var s3 := Build(all, g, s2, t, h, p);
    var j := FindFirst(s.slabs[p], 0);
    assert s3.managers == Put(s, t, s.managers[t].(queue := [], pc := Allocated(h, p, j))).managers;
  }

  // ----- Accepting in a quiet server -----

  predicate QuietManager(x: Manager) { x.pc.Wait? && x.queue == [] && x.box.inflight == [] }

  predicate Quiet(s: State) {
    s.mutex == -1 && forall m | 0 <= m < |s.managers| :: QuietManager(s.managers[m])
  }

  /** A quiet server counts exactly the open sessions, and no manager more than it has entries for. */
  lemma QuietCounts(g: Config, s: State)
    requires Inv(g, s) && Quiet(s)
    ensures Sum(Nums(s)) == Sum(s.counts) && |Nums(s)| == |g.caps| == |s.managers|
    ensures forall m | 0 <= m < |s.managers| :: Nums(s)[m] <= g.caps[m]
    ensures forall m | 0 <= m < |s.managers| :: Nums(s)[m] < g.caps[m] <==> INVALID_HANDLE in s.managers[m].box.handles
  {
    QuietServer(g, s);
    forall m | 0 <= m < |s.managers|
      ensures Nums(s)[m] <= g.caps[m] && (Nums(s)[m] < g.caps[m] <==> INVALID_HANDLE in s.managers[m].box.handles)
    {
      assert BoxShape(g, m, s.managers[m].box);
      LiveRoom(s.managers[m].box.handles);
    }
  }

  /** Some port can accept exactly while fewer sessions are open than the ports may have. */
  lemma RoomAtPort(g: Config, s: State, t: int)
    requires Store(g, s) && Known(g, s, t) && s.counts[t] < g.max[t]
    ensures Sum(s.counts) < Sum(g.max)
  {
    forall p | 0 <= p < |s.counts| ensures s.counts[p] <= g.max[p] { assert PortOk(g, s, p); }
    SumUpdate(s.counts, t, s.counts[t] + 1);
    SumMonotone(s.counts[t := s.counts[t] + 1], g.max);
  }

  lemma QuietHanded(s: State, t: int, h: int, b: int)
    requires 0 <= t < |s.managers| == |s.counts| && 0 <= b < |s.managers|
    requires s.managers[t].pc.Wait? && QuietManager(s.managers[b])
    ensures var r := Handed(Selected(s, t, h), t, b);
            && r.managers == s.managers[b := Counted(s.managers[b], Msg(h, t)).(queue := [TypeWord(h), t])]
            && r.counts == s.counts[t := s.counts[t] + 1] && r.slabs == s.slabs && r.mutex == -1
            && r.sessions == s.sessions[h := Session(t, Queued(b, s.managers[b].box.received))]
  {
  }

  /** One accept while manager `b`, which the selection picks, is quiet, up to the thread of manager `b`
      that holds a new object. */
  lemma AcceptAndTake(all: iset<State>, g: Config, s: State, t: int, h: int, b: int) returns (r: State)
    requires Closed(g, all) && s in all && Known(g, s, t) && s.mutex == -1 && s.managers[t].pc.Wait? && Sum(g.max) >= 2
    requires |g.max| < h < WORD_SHIFT && h !in s.sessions && s.counts[t] < g.max[t]
    requires b == Fold(Nums(s), g.quota).index && 0 <= b < |s.managers| && QuietManager(s.managers[b])
    ensures |r.managers| == |s.managers| && r in all && r.mutex == -1 && r.counts == s.counts[t := s.counts[t] + 1]
    ensures r.managers == s.managers[b := r.managers[b]] && r.managers[b].queue == [] && r.managers[b].pc.Allocated?
    ensures r.managers[b].box == s.managers[b].box.(inflight := [Msg(h, t)])
    ensures r.managers[b].pc.handle == h && r.managers[b].pc.port == t
    ensures r.sessions == s.sessions[h := Session(t, Queued(b, s.managers[b].box.received))]
    ensures |r.slabs| == |s.slabs|
  {
    SelectAll(all, g, s, t, h);
    HandOver(all, g, Selected(s, t, h), t, b);
    QuietHanded(s, t, h, b);
    var handed := Handed(Selected(s, t, h), t, b);
    TakeBoth(all, g, handed, b, h, t);
    var j := FindFirst(handed.slabs[t], 0);
    r := Put(handed, b, handed.managers[b].(queue := [], pc := Allocated(h, t, j)))
         .(slabs := handed.slabs[t := handed.slabs[t][j := h]]);
    assert s.managers[b].box.inflight + [Msg(h, t)] == [Msg(h, t)];
  }

  /** A whole accept in a quiet server: afterwards it is quiet again, and the session is live. */
  lemma QuietAccept(all: iset<State>, g: Config, s: State, t: int, h: int) returns (b: int, i: int, r: State)
    requires Closed(g, all) && s in all && Known(g, s, t) && Quiet(s) && Sum(g.max) >= 2
    requires |g.max| < h < WORD_SHIFT && h !in s.sessions && s.counts[t] < g.max[t]
    ensures r in all && Quiet(r) && Known(g, r, t) && b == Fold(Nums(s), g.quota).index
    ensures r.counts == s.counts[t := s.counts[t] + 1] && r.sessions == s.sessions[h := Session(t, Live(b, i))]
  {
    assert Inv(g, s);
    b := Fold(Nums(s), g.quota).index;
    RoomAtPort(g, s, t);
    QuietCounts(g, s);
    SelectionHasRoom(Nums(s), g.caps, g.quota);
    assert QuietManager(s.managers[t]) && QuietManager(s.managers[b]);
    var taken := AcceptAndTake(all, g, s, t, h, b);
    assert BoxShape(g, b, s.managers[b].box);
    r := Enter(all, g, taken, b);
    i := FindFirst(taken.managers[b].box.handles, INVALID_HANDLE);
    forall m | 0 <= m < |r.managers| ensures QuietManager(r.managers[m]) {
      assert QuietManager(s.managers[m]);
    }
  }

  // ----- Filling the server -----

  /** A quiet server with `k` sessions open, among them the first, which came from port 1 and is with
      manager 0; their handles are the first ones. */
  predicate Filled(g: Config, s: State, k: int) {
    && |g.max| >= 2 && Known(g, s, 1) && Quiet(s) && Sum(s.counts) == k
    && (forall h | h in s.sessions :: |g.max| < h <= |g.max| + k)
    && var first := |g.max| + 1;
       first in s.sessions && s.sessions[first].port == 1 && s.sessions[first].place.Live?
           && s.sessions[first].place.manager == 0
  }

  lemma {:induction false} PortWithRoom(counts: seq<int>, max: seq<int>) returns (t: int)
    requires |counts| == |max| && Sum(counts) < Sum(max)
    ensures 0 <= t < |max| && counts[t] < max[t]
  {
    var n := |max| - 1;
    if counts[n] < max[n] { t := n; } else { t := PortWithRoom(counts[..n], max[..n]); }
  }

  lemma {:induction false} FillUp(all: iset<State>, g: Config, s: State, k: int) returns (r: State)
    requires Closed(g, all) && s in all && Filled(g, s, k) && k <= Sum(g.max)
    requires 2 <= Sum(g.max) && |g.max| + Sum(g.max) < WORD_SHIFT
    ensures r in all && Filled(g, r, Sum(g.max))
    decreases Sum(g.max) - k
  {
    if k == Sum(g.max) {
      r := s;
    } else {
      var t := PortWithRoom(s.counts, g.max);
      var h := |g.max| + k + 1;
      assert |g.max| + 1 in s.sessions;
      var b, i, next := QuietAccept(all, g, s, t, h);
      SumUpdate(s.counts, t, s.counts[t] + 1);
      r := FillUp(all, g, next, k + 1);
    }
  }

  lemma {:induction false} FoldZeros(counts: seq<int>, quota: int)
    requires counts != [] && quota > 0 && forall i | 0 <= i < |counts| :: counts[i] == 0
    ensures Fold(counts, quota) == Best(0, 0)
  {
    if |counts| > 1 { FoldZeros(counts[..|counts| - 1], quota); }
  }

  /** The first session comes from port 1 and goes to manager 0. */
  lemma AcceptFirst(all: iset<State>, g: Config) returns (r: State)
    requires ConfigOk(g) && Closed(g, all) && Initial(g) in all && g.quota > 0
    requires |g.max| >= 2 && g.max[1] > 0 && 2 <= Sum(g.max) && |g.max| + Sum(g.max) < WORD_SHIFT
    ensures r in all && Filled(g, r, 1)
  {
    var s := Initial(g);
    FoldZeros(Nums(s), g.quota);
    var b, i;
    b, i, r := QuietAccept(all, g, s, 1, |g.max| + 1);
    SumConstant(s.counts, 0);
    SumUpdate(s.counts, 1, 1);
  }

  lemma {:induction false} SumsAgree(xs: seq<int>, ys: seq<int>)
    requires |xs| == |ys| && (forall i | 0 <= i < |xs| :: xs[i] <= ys[i]) && Sum(xs) >= Sum(ys)
    ensures xs == ys
  {
    if xs != [] {
      var n := |xs| - 1;
      SumMonotone(xs[..n], ys[..n]);
      SumsAgree(xs[..n], ys[..n]);
      assert xs == xs[..n] + [xs[n]] && ys == ys[..n] + [ys[n]];
    }
  }

  /** With all sessions open, every manager is full, and a fold over the counters picks the last one. */
  lemma FullServer(g: Config, s: State)
    requires Inv(g, s) && Quiet(s) && Sum(s.counts) == Sum(g.max)
    ensures Nums(s) == g.caps && s.counts == g.max
    ensures Fold(g.caps, g.quota).index == |g.caps| - 1
    ensures forall m | 0 <= m < |s.managers| :: INVALID_HANDLE !in s.managers[m].box.handles
  {
    QuietCounts(g, s);
    SumsAgree(Nums(s), g.caps);
    forall p | 0 <= p < |s.counts| ensures s.counts[p] <= g.max[p] { assert PortOk(g, s, p); }
    SumsAgree(s.counts, g.max);
    FoldIsACount(g.caps, g.quota);
  }

  // ----- Closing a session and stopping -----

  lemma HangUp(all: iset<State>, g: Config, s: State, t: int, h: int) returns (r: State)
    requires Closed(g, all) && s in all && Known(g, s, t) && s.managers[t].pc.Wait?
    requires h in s.sessions && s.sessions[h].place.Live? && s.sessions[h].place.manager == t
    ensures r == At(s, t, Close(h)) && r in all
  {
    assert Shape(g, s);
    assert Inv(g, s);
    assert SessionOk(s, h);
    r := Step(all, g, s, t, Signal(s.sessions[h].place.entry, false));
  }

  lemma CloseEntry(all: iset<State>, g: Config, s: State, t: int, h: int) returns (r: State)
    requires Closed(g, all) && s in all && Known(g, s, t) && s.managers[t].pc == Close(h) && h in s.sessions
    ensures r in all && |r.managers| == |s.managers| && r.managers == s.managers[t := r.managers[t]]
    ensures r.managers[t].pc == CloseKernel(h) && r.managers[t].num == s.managers[t].num
    ensures r.mutex == s.mutex && |r.slabs| == |s.slabs| && r.counts == s.counts
    ensures h in r.sessions && r.sessions == s.sessions[h := r.sessions[h]] && r.sessions[h].port == s.sessions[h].port
  {
    assert Shape(g, s);
    assert Inv(g, s);
    InvIsCore(g, s);
    AbortsOnlyWhenFull(g, s, t);
    assert ThreadOk(s, t);
    CloseFinds(g, s, t, h);
    r := Step(all, g, s, t, Go);
  }

  lemma CloseHandle(all: iset<State>, g: Config, s: State, t: int, h: int) returns (r: State)
    requires Closed(g, all) && s in all && Known(g, s, t) && s.managers[t].pc == CloseKernel(h)
    ensures h in s.sessions && 0 <= s.sessions[h].port < |s.counts| && r == ClosesInKernel(s, t, h) && r in all
  {
    assert Shape(g, s);
    assert Inv(g, s);
    InvIsCore(g, s);
    AbortsOnlyWhenFull(g, s, t);
    r := Step(all, g, s, t, Go);
  }

  /** A thread closes a live session and stops before it decrements its counter. */
  lemma CloseAndStop(all: iset<State>, g: Config, s: State, t: int, h: int) returns (r: State)
    requires Closed(g, all) && s in all && Known(g, s, t) && s.managers[t].pc.Wait?
    requires h in s.sessions && s.sessions[h].place.Live? && s.sessions[h].place.manager == t
    ensures r in all && |r.managers| == |s.managers| && r.managers == s.managers[t := r.managers[t]]
    ensures r.managers[t].num == s.managers[t].num && r.mutex == s.mutex && |r.slabs| == |s.slabs|
    ensures var p := s.sessions[h].port; 0 <= p < |s.counts| && r.counts == s.counts[p := s.counts[p] - 1]
    ensures r.sessions == s.sessions - {h}
  {
    var s1 := HangUp(all, g, s, t, h);
    var s2 := CloseEntry(all, g, s1, t, h);
    r := CloseHandle(all, g, s2, t, h);
    assert s2.sessions - {h} == s.sessions - {h};
    assert r.managers == s.managers[t := r.managers[t]];
  }

  // ----- The abort -----

  ghost predicate AbortsAtEnd(g: Config, run: seq<State>) {
    run != [] && var s := run[|run| - 1]; Shape(g, s) && exists t :: 0 <= t < |s.managers| && Aborts(g, s, t)
  }

  /** From a full server: thread 0 closes the first session, port 1 accepts another one, and the last
      manager, which is full, is given it. */
  lemma Overfill(all: iset<State>, g: Config, s: State) returns (r: State)
    requires Closed(g, all) && s in all && Filled(g, s, Sum(g.max)) && Sum(g.max) >= 2
             && |g.max| + Sum(g.max) < WORD_SHIFT
    ensures r in all && Known(g, r, 1) && Shape(g, r) && Aborts(g, r, |r.managers| - 1)
  {
    var last, first := |s.managers| - 1, |g.max| + 1;
    assert Inv(g, s);
    FullServer(g, s);
    assert QuietManager(s.managers[0]) && QuietManager(s.managers[1]) && QuietManager(s.managers[last]);
    var s1 := CloseAndStop(all, g, s, 0, first);
    assert Nums(s1) == Nums(s);
    r := AcceptAndTake(all, g, s1, 1, first, last);
    assert Shape(g, r);
  }

  ghost predicate Reachable(g: Config, s: State) {
    exists run :: IsRun(g, run) && HonestRun(run) && run[|run| - 1] == s
  }

  lemma ExtendRun(g: Config, run: seq<State>, t: int, c: Choice)
    requires IsRun(g, run) && HonestRun(run) && CanGo(g, run[|run| - 1], t, c) && Honest(c)
    requires Inv(g, run[|run| - 1])
    ensures Reachable(g, Next(g, run[|run| - 1], t, c))
  {
    var s := run[|run| - 1];
    var r := Next(g, s, t, c);
    var longer := run + [r];
    if m :| Reported(s, r, m) {
      InvIsCore(g, s);
      ReportedIff(g, s, t, c, m);
    }
    forall i | 0 <= i < |longer| - 1 ensures IsStep(g, longer[i], longer[i + 1]) && !Reports(longer[i], longer[i + 1]) {
      if i < |run| - 1 { assert IsStep(g, run[i], run[i + 1]) && !Reports(run[i], run[i + 1]); }
    }
    assert IsRun(g, longer) && HonestRun(longer);
  }

  lemma ReachableIsClosed(g: Config, all: iset<State>)
    requires ConfigOk(g) && all == iset s | Reachable(g, s)
    ensures Closed(g, all) && Initial(g) in all
  {
    assert IsRun(g, [Initial(g)]) && HonestRun([Initial(g)]);
    forall s | s in all ensures Inv(g, s) && Shape(g, s) {
      var run :| IsRun(g, run) && HonestRun(run) && run[|run| - 1] == s;
      RunKeepsInv(g, run, |run| - 1);
    }
    forall s, t, c | s in all && CanGo(g, s, t, c) && Honest(c) ensures Next(g, s, t, c) in all {
      var run :| IsRun(g, run) && HonestRun(run) && run[|run| - 1] == s;
      RunKeepsInv(g, run, |run| - 1);
      ExtendRun(g, run, t, c);
    }
  }

  /** Every port may have a session, and there are handles for all ports and all sessions. */
  predicate RealPorts(max: seq<int>) {
    max != [] && (forall p | 0 <= p < |max| :: max[p] >= 1) && |max| + Sum(max) < WORD_SHIFT
  }

  lemma EnoughSessions(max: seq<int>)
    requires RealPorts(max)
    ensures ConfigOk(ConfigOf(max)) && Sum(max) >= |max| && ConfigOf(max).quota >= 1
  {
    ConfigOfOk(max);
    SumConstant(seq(|max|, _ => 1), 1);
    SumMonotone(seq(|max|, _ => 1), max);
    Quotient(Sum(max), |max|);
    if Sum(max) / |max| < 1 { MultiplesApart(Sum(max) / |max|, 1, |max|); }
  }

  lemma SomeRunAborts(max: seq<int>)
    requires RealPorts(max) && |max| >= 2
    ensures exists run :: IsRun(ConfigOf(max), run) && HonestRun(run) && AbortsAtEnd(ConfigOf(max), run)
  {
    var g := ConfigOf(max);
    EnoughSessions(max);
    var all := iset s | Reachable(g, s);
    ReachableIsClosed(g, all);
    var s := AcceptFirst(all, g);
    s := FillUp(all, g, s, 1);
    s := Overfill(all, g, s);
    var run :| IsRun(g, run) && HonestRun(run) && run[|run| - 1] == s;
    assert AbortsAtEnd(g, run);
  }

  // ----- One port -----

  /** With one port, nobody is closing while its only thread accepts: there is always room. */
  lemma OnePortHasRoom(g: Config, s: State, t: int)
    requires Inv(g, s) && |g.max| == 1 && 0 <= t < |s.managers|
    ensures TakesWithRoom(g, s, t)
  {
    if s.managers[t].pc.Accepted? {
      RoomIff(g, s);
      SumOne(1);
      SumOne(0);
      assert seq(|s.managers|, m requires 0 <= m < |s.managers| => InHandOf(s.managers[m].pc)) == [1];
      assert seq(|s.managers|, m requires 0 <= m < |s.managers| => DropOf(s.managers[m].pc)) == [0];
    }
  }

  lemma {:induction false} OnePortNeverAborts(g: Config, run: seq<State>, i: nat)
    requires IsRun(g, run) && HonestRun(run) && |g.max| == 1 && i < |run|
    ensures Inv(g, run[i]) && Roomy(g, run[i])
  {
    RunKeepsInv(g, run, i);
    if i > 0 {
      OnePortNeverAborts(g, run, i - 1);
      assert IsStep(g, run[i - 1], run[i]);
      var t, c :| CanGo(g, run[i - 1], t, c) && run[i] == Next(g, run[i - 1], t, c);
      OnePortHasRoom(g, run[i - 1], t);
      StepKeepsRoomy(g, run[i - 1], t, c);
    }
  }

  /** A server whose ports may all have sessions can abort if and only if it has two ports or more. */
  lemma AbortsIff(max: seq<int>)
    requires RealPorts(max)
    ensures (exists run :: IsRun(ConfigOf(max), run) && HonestRun(run) && AbortsAtEnd(ConfigOf(max), run))
            <==> |max| >= 2
  {
    var g := ConfigOf(max);
    if |max| >= 2 {
      SomeRunAborts(max);
    } else {
      forall run: seq<State> | IsRun(g, run) && HonestRun(run) ensures !AbortsAtEnd(g, run) {
        OnePortNeverAborts(g, run, |run| - 1);
        var s := run[|run| - 1];
        forall t | 0 <= t < |s.managers| ensures !Aborts(g, s, t) { RoomyNeverAborts(g, s, t); }
      }
    }
  }

  // ----- A service that reports its session as closed -----

  /** A thread receives a request of a live session. */
  lemma ReceiveRequest(all: iset<State>, g: Config, s: State, t: int, h: int) returns (r: State)
    requires Closed(g, all) && s in all && Known(g, s, t) && s.managers[t].pc.Wait?
    requires h in s.sessions && s.sessions[h].place.Live? && s.sessions[h].place.manager == t
    ensures r == At(s, t, Received(h)) && r in all
  {
    assert Shape(g, s);
    assert Inv(g, s);
    assert SessionOk(s, h);
    r := Step(all, g, s, t, Signal(s.sessions[h].place.entry, true));
  }

  lemma AppendStep(g: Config, run: seq<State>, r: State)
    requires IsRun(g, run) && IsStep(g, run[|run| - 1], r)
    ensures IsRun(g, run + [r])
  {
    var longer := run + [r];
    forall i | 0 <= i < |longer| - 1 ensures IsStep(g, longer[i], longer[i + 1]) {
      if i < |run| - 1 { assert IsStep(g, run[i], run[i + 1]); }
    }
  }

  function Miscounted(s: State, t: int): State
    requires 0 <= t < |s.managers|
  {
    Put(s, t, s.managers[t].(pc := Wait, num := s.managers[t].num - 1))
  }

  /** The report, and the decrement that follows it. */
  lemma ReportSteps(g: Config, s: State, t: int)
    requires Shape(g, s) && 0 <= t < |s.managers| && s.managers[t].pc.Received?
    ensures IsStep(g, s, At(s, t, Drop)) && IsStep(g, At(s, t, Drop), Miscounted(s, t))
  {
    var r := Next(g, s, t, Outcome(ReportsClosed));
    assert r == At(s, t, Drop) && CanGo(g, r, t, Go);
    assert Next(g, r, t, Go).managers == Miscounted(s, t).managers;
  }

  lemma RunReport(g: Config, s: State, t: int) returns (run: seq<State>)
    requires Reachable(g, s) && Shape(g, s) && 0 <= t < |s.managers| && s.managers[t].pc.Received?
    ensures IsRun(g, run) && run[|run| - 1] == Miscounted(s, t)
  {
    ReportSteps(g, s, t);
    run :| IsRun(g, run) && HonestRun(run) && run[|run| - 1] == s;
    AppendStep(g, run, At(s, t, Drop));
    run := run + [At(s, t, Drop)];
    AppendStep(g, run, Miscounted(s, t));
    run := run + [Miscounted(s, t)];
  }

  lemma MiscountedIsWrong(g: Config, s: State, t: int, h: int)
    requires Inv(g, s) && Quiet(s) && 0 <= t < |s.managers|
    ensures Quiet(Miscounted(At(s, t, Received(h)), t)) && !Accounted(Miscounted(At(s, t, Received(h)), t))
  {
    var r := Miscounted(At(s, t, Received(h)), t);
    assert ManagerOk(s, t) && !NumOk(r.managers[t]);
    forall m | 0 <= m < |r.managers| ensures QuietManager(r.managers[m]) { assert QuietManager(s.managers[m]); }
  }

  /** A session, live in a quiet server. */
  lemma OneSession(all: iset<State>, g: Config) returns (b: int, s: State)
    requires ConfigOk(g) && Closed(g, all) && Initial(g) in all && g.max != [] && g.max[0] > 0
    requires Sum(g.max) >= 2 && |g.max| + 1 < WORD_SHIFT
    ensures s in all && Quiet(s) && Known(g, s, 0) && 0 <= b < |s.managers|
    ensures var h := |g.max| + 1; h in s.sessions && s.sessions[h].place.Live? && s.sessions[h].place.manager == b
  {
    var i;
    b, i, s := QuietAccept(all, g, Initial(g), 0, |g.max| + 1);
    assert Inv(g, s);
    assert SessionOk(s, |g.max| + 1);
  }

  /** The accounting can go wrong for good: with room for two message words, some run with such a
      report ends in a quiet server that counts one session less than is live. */
  lemma SomeRunMiscounts(max: seq<int>)
    requires RealPorts(max) && Sum(max) >= 2
    ensures exists run :: IsRun(ConfigOf(max), run) && Quiet(run[|run| - 1]) && !Accounted(run[|run| - 1])
  {
    var g, h := ConfigOf(max), |max| + 1;
    EnoughSessions(max);
    var all := iset s | Reachable(g, s);
    ReachableIsClosed(g, all);
    var b, s := OneSession(all, g);
    assert Inv(g, s);
    assert QuietManager(s.managers[b]);
    var r := ReceiveRequest(all, g, s, b, h);
    assert Shape(g, r);
    var run := RunReport(g, r, b);
    MiscountedIsWrong(g, s, b, h);
  }
}
