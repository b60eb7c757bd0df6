/** What becomes of a session when the threads that deal with it are left alone: an accepted session
    ends up live, a handled request changes nothing, and a request that ends its session, like a
    receive that reports it gone, removes the session everywhere. */
module TipcLives {
  import opened TipcSelection
  import opened TipcTables
  import opened TipcModel
  import opened TipcStore
  import opened TipcServer

  // ----- A thread left alone -----

  /** Thread `t` alone takes `n` steps from `s` to `r`, none of which asks the environment anything. */
  ghost predicate Goes(g: Config, s: State, t: int, n: nat, r: State)
    decreases n
  {
    if n == 0 then r == s else CanGo(g, s, t, Go) && Goes(g, Next(g, s, t, Go), t, n - 1, r)
  }

  /** The environment chooses `c` for thread `t`, which then takes `n` steps alone. */
  ghost predicate Leads(g: Config, s: State, t: int, c: Choice, n: nat, r: State) {
    CanGo(g, s, t, c) && Goes(g, Next(g, s, t, c), t, n, r)
  }

  /** Where a thread can go on by itself, that is all it can do, and it leads to one state. */
  lemma {:induction false} OneWay(g: Config, s: State, t: int, n: nat, q: State, r: State)
    requires Goes(g, s, t, n, q) && Goes(g, s, t, n, r)
    ensures q == r && (n > 0 ==> forall c :: CanGo(g, s, t, c) ==> c == Go)
    decreases n
  {
    if n > 0 { OneWay(g, Next(g, s, t, Go), t, n - 1, q, r); }
  }

  lemma FirstStep(g: Config, s: State, t: int, next: State, n: nat, r: State)
    requires CanGo(g, s, t, Go) && next == Next(g, s, t, Go) && Goes(g, next, t, n, r)
    ensures Goes(g, s, t, n + 1, r)
  {
  }

  /** One step more: it keeps the invariant. */
  lemma Step(g: Config, s: State, t: int) returns (r: State)
    requires Core(g, s) && Enabled(g, s, t, Go)
    ensures CanGo(g, s, t, Go) && r == Next(g, s, t, Go) && Core(g, r)
  {
    EnabledCanGo(g, s, t, Go);
    StepKeepsCore(g, s, t, Go);
    r := Next(g, s, t, Go);
  }

  // ----- The end of a session -----

  /** From `s` to `r` manager `t` gives up session `h`, which was in its entry `i`: the entry is empty
      and its slot unused, the kernel has closed the handle, the manager and the session's port count
      one session less, and nothing else is different. */
  predicate GivesUp(s: State, r: State, t: int, i: int, h: int) {
    && InEntry(s, t, i, h) && |s.slabs| == |s.counts| && h in s.sessions
    && var x, o, p := s.managers[t], s.managers[t].box.objects[i], s.sessions[h].port;
    && o.Object? && o.port == p && 0 <= p < |s.slabs| && 0 <= o.slot < |s.slabs[p]|
    && r == State(s.managers[t := Manager(x.num - 1, x.queue, Wait,
                    Box(x.box.handles[i := INVALID_HANDLE], x.box.objects[i := NoObject], x.box.inflight,
                        x.box.received))],
                  s.slabs[p := s.slabs[p][o.slot := 0]], s.counts[p := s.counts[p] - 1],
                  map x | x in s.sessions && x != h :: s.sessions[x], s.mutex)
  }

  /** No entry, slot, message or thread has anything to do with `h` any more. */
  ghost predicate Forgotten(s: State, h: int) {
    && h !in s.sessions
    && (forall m, i :: !InEntry(s, m, i, h))
    && (forall p, j :: !InSlab(s, p, j, h))
    && (forall m, q, p :: !InQueue(s, m, q, h, p))
    && forall t :: !HeldBy(s, t, Carried(h)) && !HeldBy(s, t, Shut(h))
  }

  lemma ClosedIsForgotten(g: Config, s: State, h: int)
    requires Store(g, s) && h !in s.sessions && h != INVALID_HANDLE
    ensures Forgotten(s, h)
  {
    forall m, i ensures !InEntry(s, m, i, h) { assert EntryOk(s, m, i); }
    forall p, j ensures !InSlab(s, p, j, h) { assert SlotOk(s, p, j); }
    forall m, q, p ensures !InQueue(s, m, q, h, p) {
      assert 0 <= m < |s.managers| ==> MsgOk(s, m, q - s.managers[m].box.received);
    }
    forall t ensures !HeldBy(s, t, Carried(h)) && !HeldBy(s, t, Shut(h)) { assert HoldOk(s, t); }
  }

  lemma OwnEntry(g: Config, s: State, t: int, i: int, h: int)
    requires Core(g, s) && InEntry(s, t, i, h) && h != INVALID_HANDLE
    ensures h in s.sessions && s.sessions[h].place == Live(t, i) && FindFirst(s.managers[t].box.handles, h) == i
    ensures |s.managers| < h
    ensures var o := s.managers[t].box.objects[i];
            o.Object? && o.port == s.sessions[h].port && InSlab(s, o.port, o.slot, h) && o.port < |s.counts|
  {
    assert EntryOk(s, t, i);
    assert SessionOk(s, h);
    CloseFinds(g, s, t, h);
  }

  // The three steps of a close

  lemma EmptiesEntry(g: Config, s: State, t: int, i: int, h: int) returns (r: State)
    requires Core(g, s) && InEntry(s, t, i, h) && h != INVALID_HANDLE && s.managers[t].pc == Close(h)
    ensures CanGo(g, s, t, Go) && r == Next(g, s, t, Go) && Core(g, r)
    ensures h in s.sessions && s.managers[t].box.objects[i].Object?
    ensures var x, o := s.managers[t], s.managers[t].box.objects[i];
            && InSlab(s, o.port, o.slot, h) && o.port == s.sessions[h].port
            && r == State(s.managers[t := Manager(x.num, x.queue, CloseKernel(h),
                            Box(x.box.handles[i := INVALID_HANDLE], x.box.objects[i := NoObject], x.box.inflight,
                                x.box.received))],
                          s.slabs[o.port := s.slabs[o.port][o.slot := 0]], s.counts,
                          s.sessions[h := Session(o.port, Closing(t))], s.mutex)
  {
    OwnEntry(g, s, t, i, h);
    AbortsOnlyWhenFull(g, s, t);
    r := Step(g, s, t);
  }

  lemma ClosesHandle(g: Config, s: State, t: int, h: int, p: int) returns (r: State)
    requires Core(g, s) && 0 <= t < |s.managers| && s.managers[t].pc == CloseKernel(h) && Has(s, h, p, Closing(t))
    ensures CanGo(g, s, t, Go) && r == Next(g, s, t, Go) && Core(g, r)
    ensures 0 <= p < |s.counts| && |s.counts| == |s.slabs|
    ensures r == At(s, t, Drop).(counts := s.counts[p := s.counts[p] - 1], sessions := s.sessions - {h})
  {
    AbortsOnlyWhenFull(g, s, t);
    r := Step(g, s, t);
  }

  lemma Decrements(g: Config, s: State, t: int) returns (r: State)
    requires Core(g, s) && 0 <= t < |s.managers| && s.managers[t].pc.Drop?
    ensures CanGo(g, s, t, Go) && r == Next(g, s, t, Go) && Core(g, r)
    ensures r == Put(s, t, s.managers[t].(num := s.managers[t].num - 1, pc := Wait))
  {
    r := Step(g, s, t);
  }

  lemma ThreeSteps(g: Config, s: State, t: int, s1: State, s2: State, r: State)
    requires CanGo(g, s, t, Go) && s1 == Next(g, s, t, Go)
    requires CanGo(g, s1, t, Go) && s2 == Next(g, s1, t, Go)
    requires CanGo(g, s2, t, Go) && r == Next(g, s2, t, Go)
    ensures Goes(g, s, t, 3, r)
  {
    FirstStep(g, s2, t, r, 0, r);
    FirstStep(g, s1, t, s2, 1, r);
    FirstStep(g, s, t, s1, 2, r);
  }

  /** A thread that closes a session, left alone, is rid of it three steps later. */
  lemma CloseAlone(g: Config, s: State, t: int, i: int, h: int) returns (r: State)
    requires Core(g, s) && InEntry(s, t, i, h) && h != INVALID_HANDLE && s.managers[t].pc == Close(h)
    ensures Goes(g, s, t, 3, r) && Core(g, r) && GivesUp(s, r, t, i, h) && Forgotten(r, h)
  {
    var s1 := EmptiesEntry(g, s, t, i, h);
    var s2 := ClosesHandle(g, s1, t, h, s.sessions[h].port);
    r := Decrements(g, s2, t);
    ThreeSteps(g, s, t, s1, s2, r);
    ClosedIsForgotten(g, r, h);
    assert s1.managers[t := r.managers[t]] == s.managers[t := r.managers[t]];
    assert s1.sessions - {h} == map x | x in s.sessions && x != h :: s.sessions[x];
  }

  // ----- What a request or a hang-up comes to -----

  lemma LedBy(g: Config, s: State, t: int, c: Choice, q: State, n: nat, r: State)
    requires CanGo(g, s, t, c) && q == Next(g, s, t, c) && Goes(g, q, t, n, r)
    ensures Leads(g, s, t, c, n, r)
  {
  }

  /** A session in one of the manager's entries can send a request, or be gone. */
  lemma Signals(g: Config, s: State, t: int, i: int, h: int)
    requires Core(g, s) && InEntry(s, t, i, h) && h != INVALID_HANDLE && s.managers[t].pc.Wait?
    ensures CanGo(g, s, t, Signal(i, true)) && Next(g, s, t, Signal(i, true)) == At(s, t, Received(h))
    ensures CanGo(g, s, t, Signal(i, false)) && Next(g, s, t, Signal(i, false)) == At(s, t, Close(h))
    ensures Core(g, At(s, t, Received(h))) && Core(g, At(s, t, Close(h)))
  {
    EnabledCanGo(g, s, t, Signal(i, true));
    EnabledCanGo(g, s, t, Signal(i, false));
    StepKeepsCore(g, s, t, Signal(i, true));
    StepKeepsCore(g, s, t, Signal(i, false));
  }

  /** The request being served came from a session in one of the manager's own entries. */
  lemma OwnRequest(g: Config, s: State, t: int, h: int) returns (i: int)
    requires Core(g, s) && 0 <= t < |s.managers| && s.managers[t].pc == Received(h)
    ensures InEntry(s, t, i, h) && h != INVALID_HANDLE
  {
    assert ThreadOk(s, t);
    CloseFinds(g, s, t, h);
    i := FindFirst(s.managers[t].box.handles, h);
  }

  lemma SameEnd(s: State, t: int, i: int, h: int, q: State, r: State)
    requires 0 <= t < |s.managers| && q == At(s, t, Close(h)) && GivesUp(q, r, t, i, h)
    ensures GivesUp(s, r, t, i, h)
  {
    assert r.managers == s.managers[t := r.managers[t]];
  }

  /** A request that ends its session: three steps later the session is gone everywhere. */
  lemma RequestEnds(g: Config, s: State, t: int, h: int) returns (i: int, r: State)
    requires Core(g, s) && 0 <= t < |s.managers| && s.managers[t].pc == Received(h)
    ensures Leads(g, s, t, Outcome(Ends), 3, r) && GivesUp(s, r, t, i, h) && Forgotten(r, h)
  {
    i := OwnRequest(g, s, t, h);
    var q := At(s, t, Close(h));
    EnabledCanGo(g, s, t, Outcome(Ends));
    StepKeepsCore(g, s, t, Outcome(Ends));
    r := CloseAlone(g, q, t, i, h);
    SameEnd(s, t, i, h, q, r);
    LedBy(g, s, t, Outcome(Ends), q, 3, r);
  }

  /** So is a session whose receive reports it gone. */
  lemma HangUpEnds(g: Config, s: State, t: int, i: int, h: int) returns (r: State)
    requires Core(g, s) && InEntry(s, t, i, h) && h != INVALID_HANDLE && s.managers[t].pc.Wait?
    ensures Leads(g, s, t, Signal(i, false), 3, r) && GivesUp(s, r, t, i, h) && Forgotten(r, h)
  {
    Signals(g, s, t, i, h);
    var q := At(s, t, Close(h));
    r := CloseAlone(g, q, t, i, h);
    SameEnd(s, t, i, h, q, r);
    LedBy(g, s, t, Signal(i, false), q, 3, r);
  }

  /** A request that is handled leaves everything as it was; one whose service reports the session
      closed makes the manager count one session less, and nothing else. */
  lemma RequestStays(g: Config, s: State, t: int, i: int, h: int)
    requires Core(g, s) && InEntry(s, t, i, h) && h != INVALID_HANDLE && s.managers[t].pc.Wait?
    ensures CanGo(g, s, t, Signal(i, true))
    ensures var q := Next(g, s, t, Signal(i, true));
            && q.managers[t].pc == Received(h)
            && Leads(g, q, t, Outcome(Handled), 0, s)
            && Leads(g, q, t, Outcome(ReportsClosed), 1,
                     s.(managers := s.managers[t := s.managers[t].(num := s.managers[t].num - 1)]))
  {
    Signals(g, s, t, i, h);
    var q := At(s, t, Received(h));
    EnabledCanGo(g, q, t, Outcome(Handled));
    assert At(q, t, Wait).managers == s.managers;
    LedBy(g, q, t, Outcome(Handled), s, 0, s);
    EnabledCanGo(g, q, t, Outcome(ReportsClosed));
    StepKeepsCore(g, q, t, Outcome(ReportsClosed));
    var left := At(q, t, Drop);
    var r := Decrements(g, left, t);
    assert r.managers == s.managers[t := s.managers[t].(num := s.managers[t].num - 1)];
    FirstStep(g, left, t, r, 0, r);
    LedBy(g, q, t, Outcome(ReportsClosed), left, 1, r);
  }

  // ----- From the kernel into a message -----

  /** Session `h` from port `t` becomes a message to manager `b`, which counts it; nothing else is
      different but that thread `t` is back in its loop and the mutex is free. */
  function Handed(s: State, t: int, h: int, b: int): State
    requires 0 <= t < |s.managers| && 0 <= b < |s.managers|
  {
    var y := s.managers[t := s.managers[t].(pc := Wait)];
    var x := y[b];
    State(y[b := Manager(x.num + 1, x.queue + [h * WORD_SHIFT, t], x.pc,
                         Box(x.box.handles, x.box.objects, x.box.inflight + [Msg(h, t)], x.box.received))],
          s.slabs, s.counts, s.sessions[h := Session(t, Queued(b, x.box.received + |x.box.inflight|))], -1)
  }

  predicate Known(g: Config, s: State, t: int, b: int) {
    Shape(g, s) && 0 <= t < |s.managers| && 0 <= b < |s.managers|
  }

  /** What is left to send once the session is counted. */
  function Told(s: State, t: int, b: int, words: seq<int>): State
    requires 0 <= t < |s.managers| && 0 <= b < |s.managers|
  {
    var y := s.managers[t := s.managers[t].(pc := Wait)];
    s.(managers := y[b := y[b].(queue := y[b].queue + words)], mutex := -1)
  }

  lemma Unlocks(g: Config, s: State, t: int, b: int)
    requires Known(g, s, t, b) && s.managers[t].pc.Sent?
    ensures Goes(g, s, t, 1, Told(s, t, b, []))
  {
    var r := At(s, t, Wait).(mutex := -1);
    assert r.managers[b].queue + [] == r.managers[b].queue;
    assert r.managers == Told(s, t, b, []).managers;
    FirstStep(g, s, t, r, 0, r);
  }

  lemma SendsData(g: Config, s: State, t: int, h: int, b: int)
    requires Known(g, s, t, b) && s.managers[t].pc == Send2(h, b) && |s.managers[b].queue| < Sum(g.max)
    ensures Goes(g, s, t, 2, Told(s, t, b, [t]))
  {
    var next := At(Put(s, b, Pushed(s.managers[b], t)), t, Sent);
    Unlocks(g, next, t, b);
    var r, q := Told(s, t, b, [t]), Told(next, t, b, []);
    assert q.managers[b].queue == r.managers[b].queue;
    assert q.managers == r.managers;
    FirstStep(g, s, t, next, 1, q);
  }

  lemma SendsBoth(g: Config, s: State, t: int, h: int, b: int)
    requires Known(g, s, t, b) && s.managers[t].pc == Send1(h, b) && |s.managers[b].queue| + 1 < Sum(g.max)
    ensures Goes(g, s, t, 3, Told(s, t, b, [h * WORD_SHIFT, t]))
  {
    var next := At(Put(s, b, Pushed(s.managers[b], TypeWord(h))), t, Send2(h, b));
    SendsData(g, next, t, h, b);
    var r, q := Told(s, t, b, [h * WORD_SHIFT, t]), Told(next, t, b, [t]);
    assert q.managers[b].queue == r.managers[b].queue;
    assert q.managers == r.managers;
    FirstStep(g, s, t, next, 2, q);
  }

  lemma CountsStep(g: Config, s: State, t: int, h: int, start: seq<int>, seen: seq<int>, b: int)
    requires Known(g, s, t, b) && s.managers[t].pc == Select(h, start, seen) && |seen| == |s.managers|
    requires Picked(seen, g.quota, b)
    ensures CanGo(g, s, t, Go) && Next(g, s, t, Go) == Counts(s, t, h, b) && Shape(g, Counts(s, t, h, b))
  {
    PickedIff(seen, g.quota, b);
  }

  lemma CountedAndTold(s: State, t: int, h: int, b: int)
    requires 0 <= t < |s.managers| && 0 <= b < |s.managers|
    ensures var q := Counts(s, t, h, b);
            && |q.managers| == |s.managers| && q.managers[t].pc == Send1(h, b)
            && q.managers[b].queue == s.managers[b].queue
    ensures Told(Counts(s, t, h, b), t, b, [h * WORD_SHIFT, t]) == Handed(s, t, h, b)
  {
    var r, q := Handed(s, t, h, b), Told(Counts(s, t, h, b), t, b, [h * WORD_SHIFT, t]);
    assert q.managers == r.managers;
  }

  lemma CountsAndSends(g: Config, s: State, t: int, h: int, start: seq<int>, seen: seq<int>, b: int)
    requires Known(g, s, t, b) && s.managers[t].pc == Select(h, start, seen) && |seen| == |s.managers|
    requires Picked(seen, g.quota, b) && |s.managers[b].queue| + 1 < Sum(g.max)
    ensures Goes(g, s, t, 4, Handed(s, t, h, b))
  {
    CountsStep(g, s, t, h, start, seen, b);
    CountedAndTold(s, t, h, b);
    SendsBoth(g, Counts(s, t, h, b), t, h, b);
    FirstStep(g, s, t, Counts(s, t, h, b), 3, Handed(s, t, h, b));
  }

  lemma HandedSame(s: State, q: State, t: int, h: int, b: int)
    requires 0 <= t < |s.managers| && 0 <= b < |s.managers| && |q.managers| == |s.managers|
    requires q.managers == s.managers[t := q.managers[t]] && q.managers[t] == s.managers[t].(pc := q.managers[t].pc)
    requires q.slabs == s.slabs && q.counts == s.counts
    requires q.sessions == s.sessions || q.sessions == s.sessions[h := Session(t, InHand(t))]
    ensures Handed(q, t, h, b) == Handed(s, t, h, b)
  {
    assert Handed(q, t, h, b).managers == Handed(s, t, h, b).managers;
  }

  /** With nobody else going on, the thread finds every counter as it was. */
  lemma {:induction false} LooksAndSends(g: Config, s: State, t: int, h: int, nums: seq<int>, k: nat, b: int)
    requires Known(g, s, t, b) && nums == Nums(s) && k <= |nums|
    requires s.managers[t].pc == Select(h, nums, nums[..k])
    requires Picked(nums, g.quota, b) && |s.managers[b].queue| + 1 < Sum(g.max)
    ensures Goes(g, s, t, |nums| - k + 4, Handed(s, t, h, b))
    decreases |nums| - k
  {
    if k < |nums| {
      var next := At(s, t, Select(h, nums, nums[..k + 1]));
      LooksStep(g, s, t, h, nums, k);
      LooksAndSends(g, next, t, h, nums, k + 1, b);
      HandedSame(s, next, t, h, b);
      FirstStep(g, s, t, next, |nums| - k + 3, Handed(s, t, h, b));
    } else {
      assert nums[..k] == nums;
      CountsAndSends(g, s, t, h, nums, nums, b);
    }
  }

  lemma LooksStep(g: Config, s: State, t: int, h: int, nums: seq<int>, k: nat)
    requires Shape(g, s) && 0 <= t < |s.managers| && nums == Nums(s) && k < |nums|
    requires s.managers[t].pc == Select(h, nums, nums[..k])
    ensures var r := At(s, t, Select(h, nums, nums[..k + 1]));
            CanGo(g, s, t, Go) && Next(g, s, t, Go) == r && Shape(g, r) && Nums(r) == nums
  {
    assert nums[..k] + [nums[k]] == nums[..k + 1];
  }

  lemma LocksStep(g: Config, s: State, t: int, h: int)
    requires Shape(g, s) && 0 <= t < |s.managers| && s.managers[t].pc == Accepted(h) && s.mutex == -1
    ensures var r := At(s, t, Select(h, Nums(s), [])).(mutex := t);
            CanGo(g, s, t, Go) && Next(g, s, t, Go) == r && Shape(g, r) && Nums(r) == Nums(s)
  {
  }

  lemma AcceptsStep(g: Config, s: State, t: int, h: int)
    requires Shape(g, s) && 0 <= t < |s.managers| && s.managers[t].pc.Wait?
    requires |g.max| < h < WORD_SHIFT && h !in s.sessions && s.counts[t] < g.max[t]
    ensures CanGo(g, s, t, Accept(h)) && Next(g, s, t, Accept(h)) == Accepts(s, t, h)
    ensures Shape(g, Accepts(s, t, h)) && Nums(Accepts(s, t, h)) == Nums(s)
  {
  }

  lemma LocksAndSends(g: Config, s: State, t: int, h: int, b: int)
    requires Known(g, s, t, b) && s.managers[t].pc == Accepted(h) && s.mutex == -1
    requires Picked(Nums(s), g.quota, b) && |s.managers[b].queue| + 1 < Sum(g.max)
    ensures Goes(g, s, t, |s.managers| + 5, Handed(s, t, h, b))
  {
    var locked := At(s, t, Select(h, Nums(s), [])).(mutex := t);
    LocksStep(g, s, t, h);
    LooksAndSends(g, locked, t, h, Nums(s), 0, b);
    HandedSame(s, locked, t, h, b);
    FirstStep(g, s, t, locked, |s.managers| + 4, Handed(s, t, h, b));
  }

  lemma HandedAccepted(s: State, t: int, h: int, b: int)
    requires 0 <= t < |s.managers| == |s.counts| && 0 <= b < |s.managers|
    ensures Handed(Accepts(s, t, h), t, h, b) == Handed(s, t, h, b).(counts := s.counts[t := s.counts[t] + 1])
  {
    HandedSame(s.(counts := s.counts[t := s.counts[t] + 1]), Accepts(s, t, h), t, h, b);
  }

  /** An accepted connection, once the mutex is free and the queue has room for two words, becomes a
      message to the manager that should get it. */
  lemma AcceptHandsOver(g: Config, s: State, t: int, h: int, b: int)
    requires Known(g, s, t, b) && s.managers[t].pc.Wait? && s.mutex == -1
    requires |g.max| < h < WORD_SHIFT && h !in s.sessions && s.counts[t] < g.max[t]
    requires Picked(Nums(s), g.quota, b) && |s.managers[b].queue| + 1 < Sum(g.max)
    ensures Leads(g, s, t, Accept(h), |s.managers| + 5,
                  Handed(s, t, h, b).(counts := s.counts[t := s.counts[t] + 1]))
  {
    var q := Accepts(s, t, h);
    AcceptsStep(g, s, t, h);
    LocksAndSends(g, q, t, h, b);
    HandedAccepted(s, t, h, b);
    LedBy(g, s, t, Accept(h), q, |s.managers| + 5, Handed(q, t, h, b));
  }

  // ----- From a message into an entry -----

  /** `i` is the first index from `from` on that holds `x`. */
  predicate IsFirst(xs: seq<int>, from: int, x: int, i: int) {
    0 <= from <= i < |xs| && xs[i] == x && forall k | from <= k < i :: xs[k] != x
  }

  /** From `s` to `r` manager `b` takes its first message off the queue, and its session becomes live:
      in the first empty entry `i`, with the first unused slot `j` of its port. */
  predicate TakesUp(s: State, r: State, b: int, i: int, j: int) {
    && 0 <= b < |s.managers| && s.managers[b].box.inflight != [] && |s.managers[b].queue| >= 2
    && |s.managers[b].box.handles| == |s.managers[b].box.objects|
    && var x := s.managers[b];
       var h, p := x.box.inflight[0].handle, x.box.inflight[0].port;
    && IsFirst(x.box.handles, 1, INVALID_HANDLE, i) && 0 <= p < |s.slabs| && IsFirst(s.slabs[p], 0, 0, j)
    && r == State(s.managers[b := Manager(x.num, x.queue[2..], Wait,
                    Box(x.box.handles[i := h], x.box.objects[i := Object(p, j)], x.box.inflight[1..],
                        x.box.received + 1))],
                  s.slabs[p := s.slabs[p][j := h]], s.counts, s.sessions[h := Session(p, Live(b, i))], s.mutex)
  }

  /** The next words in the queue are those of the first message. */
  lemma HeadWords(g: Config, s: State, b: int)
    requires Core(g, s) && 0 <= b < |s.managers| && s.managers[b].pc.Wait? && |s.managers[b].queue| >= 2
    ensures var x := s.managers[b];
            && x.box.inflight != [] && x.queue[0] == TypeWord(x.box.inflight[0].handle)
            && x.queue[1] == x.box.inflight[0].port
    ensures var m := s.managers[b].box.inflight[0];
            INVALID_HANDLE < m.handle < WORD_SHIFT && 0 <= m.port < |s.managers| == |s.slabs|
  {
    assert WordsOk(s, b) && MsgOk(s, b, 0);
    FirstWords(s.managers[b].box.inflight);
    assert SessionOk(s, s.managers[b].box.inflight[0].handle);
  }

  lemma TakesType(g: Config, s: State, b: int) returns (r: State)
    requires Core(g, s) && 0 <= b < |s.managers| && s.managers[b].pc.Wait? && s.managers[b].queue != []
    ensures CanGo(g, s, b, Message) && r == Next(g, s, b, Message) && Core(g, r)
    ensures r == Put(s, b, Taken(s.managers[b], GotType(s.managers[b].queue[0])))
  {
    EnabledCanGo(g, s, b, Message);
    StepKeepsCore(g, s, b, Message);
    r := Next(g, s, b, Message);
  }

  lemma TakesData(g: Config, s: State, b: int) returns (r: State)
    requires Core(g, s) && 0 <= b < |s.managers| && s.managers[b].pc.GotType? && s.managers[b].queue != []
    ensures CanGo(g, s, b, Go) && r == Next(g, s, b, Go) && Core(g, r)
    ensures r == Put(s, b, Taken(s.managers[b], GotBoth(s.managers[b].pc.word, s.managers[b].queue[0])))
  {
    r := Step(g, s, b);
  }

  lemma TakesSlot(g: Config, s: State, b: int, h: int, p: int) returns (j: int, r: State)
    requires Core(g, s) && 0 <= b < |s.managers| && s.managers[b].pc == GotBoth(TypeWord(h), p)
    requires 0 <= h < WORD_SHIFT
    ensures CanGo(g, s, b, Go) && r == Next(g, s, b, Go) && Core(g, r)
    ensures 0 <= p < |s.slabs| && IsFirst(s.slabs[p], 0, 0, j)
    ensures r == At(s, b, Allocated(h, p, j)).(slabs := s.slabs[p := s.slabs[p][j := h]])
  {
    DecodeType(h);
    InHandMessage(g, s, b);
    r := Step(g, s, b);
    j := FindFirst(s.slabs[p], 0);
  }

  lemma TakesEntry(g: Config, s: State, b: int) returns (i: int, r: State)
    requires Core(g, s) && 0 <= b < |s.managers| && s.managers[b].pc.Allocated?
    requires LiveCount(s.managers[b].box.handles) < g.caps[b]
    ensures CanGo(g, s, b, Go) && r == Next(g, s, b, Go) && Core(g, r)
    ensures s.managers[b].box.inflight != []
            && |s.managers[b].box.handles| == |s.managers[b].box.objects|
    ensures var x, pc := s.managers[b], s.managers[b].pc;
            && IsFirst(x.box.handles, 1, INVALID_HANDLE, i)
            && r == Put(s, b, Manager(x.num, x.queue, Wait,
                          Box(x.box.handles[i := pc.handle], x.box.objects[i := Object(pc.port, pc.slot)],
                              x.box.inflight[1..], x.box.received + 1)))
                    .(sessions := s.sessions[pc.handle := Session(pc.port, Live(b, i))])
  {
    AbortsOnlyWhenFull(g, s, b);
    var handles := s.managers[b].box.handles;
    LiveRoom(handles);
    i := FindFirst(handles, INVALID_HANDLE);
    assert BoxShape(g, b, s.managers[b].box);
    r := Step(g, s, b);
  }

  /** A whole message in the queue and an empty entry: four steps later the session is live. */
  lemma MessageIsTakenUp(g: Config, s: State, b: int) returns (i: int, j: int, r: State)
    requires Core(g, s) && 0 <= b < |s.managers| && s.managers[b].pc.Wait? && |s.managers[b].queue| >= 2
    requires LiveCount(s.managers[b].box.handles) < g.caps[b]
    ensures Leads(g, s, b, Message, 3, r) && TakesUp(s, r, b, i, j) && Core(g, r)
  {
    HeadWords(g, s, b);
    var x := s.managers[b];
    var m := x.box.inflight[0];
    var s1 := TakesType(g, s, b);
    var s2 := TakesData(g, s1, b);
    assert s2 == Put(s, b, x.(queue := x.queue[2..], pc := GotBoth(TypeWord(m.handle), m.port)));
    var s3;
    j, s3 := TakesSlot(g, s2, b, m.handle, m.port);
    i, r := TakesEntry(g, s3, b);
    ThreeSteps(g, s1, b, s2, s3, r);
    LedBy(g, s, b, Message, s1, 3, r);
    assert r.managers == s.managers[b := r.managers[b]];
  }

  // ----- From the kernel into an entry -----

  /** The thread of manager `b` alone takes up `n` messages. */
  ghost predicate TakesIn(g: Config, s: State, b: int, n: nat, r: State)
    decreases n
  {
    if n == 0 then r == s else exists q :: Leads(g, s, b, Message, 3, q) && TakesIn(g, q, b, n - 1, r)
  }

  /** From `s` to `r` every session queued for manager `b` becomes live with it; every other session
      stays where it is, and none comes or goes. */
  predicate Settles(s: State, r: State, b: int) {
    && r.sessions.Keys == s.sessions.Keys
    && forall h | h in s.sessions ::
         && r.sessions[h].port == s.sessions[h].port
         && if s.sessions[h].place.Queued? && s.sessions[h].place.manager == b
            then r.sessions[h].place.Live? && r.sessions[h].place.manager == b
            else r.sessions[h].place == s.sessions[h].place
  }

  /** From `s` to `r` only manager `b`, its sessions and the slabs change, it counts as before, and no
      session moves but from its queue into its entries. */
  predicate Forward(s: State, r: State, b: int) {
    && 0 <= b < |s.managers| == |r.managers| && r.managers == s.managers[b := r.managers[b]]
    && r.managers[b].num == s.managers[b].num && r.counts == s.counts && r.mutex == s.mutex
    && r.sessions.Keys == s.sessions.Keys && forall h | h in s.sessions :: Onward(s.sessions[h], r.sessions[h], b)
  }

  predicate Onward(x: Session, y: Session, b: int) {
    && y.port == x.port
    && (y.place == x.place || (x.place.Queued? && x.place.manager == b && y.place.Live? && y.place.manager == b))
  }

  lemma ForwardTwice(s: State, q: State, r: State, b: int)
    requires Forward(s, q, b) && Forward(q, r, b)
    ensures Forward(s, r, b)
  {
    forall h | h in s.sessions ensures Onward(s.sessions[h], r.sessions[h], b) {
      assert Onward(s.sessions[h], q.sessions[h], b) && Onward(q.sessions[h], r.sessions[h], b);
    }
  }

  lemma TakesUpForward(g: Config, s: State, q: State, b: int, i: int, j: int)
    requires Core(g, s) && TakesUp(s, q, b, i, j)
    ensures Forward(s, q, b)
  {
    assert MsgOk(s, b, 0);
  }

  /** Once no message is left, they have all become live. */
  lemma ForwardSettles(g: Config, s: State, r: State, b: int)
    requires Core(g, r) && Forward(s, r, b) && r.managers[b].box.inflight == []
    ensures Settles(s, r, b)
  {
    forall h | h in s.sessions
      ensures !(r.sessions[h].place.Queued? && r.sessions[h].place.manager == b)
              && Onward(s.sessions[h], r.sessions[h], b)
    {
      assert SessionOk(r, h);
    }
  }

  /** All words of the messages to manager `b` are sent, and it has an empty entry for each. */
  ghost predicate Ready(g: Config, s: State, b: int) {
    && Core(g, s) && 0 <= b < |s.managers| && s.managers[b].pc.Wait?
    && s.managers[b].queue == Words(s.managers[b].box.inflight)
    && LiveCount(s.managers[b].box.handles) + |s.managers[b].box.inflight| <= g.caps[b]
  }

  lemma FirstIsTakenUp(g: Config, s: State, b: int) returns (q: State)
    requires Ready(g, s, b) && s.managers[b].box.inflight != []
    ensures Leads(g, s, b, Message, 3, q) && Ready(g, q, b) && Forward(s, q, b)
    ensures |q.managers[b].box.inflight| == |s.managers[b].box.inflight| - 1
  {
    HeadWords(g, s, b);
    var i, j;
    i, j, q := MessageIsTakenUp(g, s, b);
    TakesUpForward(g, s, q, b, i, j);
    FirstWords(s.managers[b].box.inflight);
    LiveUpdate(s.managers[b].box.handles, i, s.managers[b].box.inflight[0].handle);
  }

  predicate NothingLeft(s: State, b: int) {
    0 <= b < |s.managers| && s.managers[b].pc.Wait? && s.managers[b].queue == [] && s.managers[b].box.inflight == []
  }

  /** It takes them all up. */
  ghost predicate TakesAll(g: Config, s: State, b: int, n: nat, r: State) {
    TakesIn(g, s, b, n, r) && Ready(g, r, b) && Forward(s, r, b) && NothingLeft(r, b)
  }

  lemma NobodyLeft(g: Config, s: State, b: int)
    requires Ready(g, s, b) && s.managers[b].box.inflight == []
    ensures TakesAll(g, s, b, 0, s)
  {
  }

  lemma OneMore(g: Config, s: State, b: int, q: State, n: nat, r: State)
    requires Leads(g, s, b, Message, 3, q) && Forward(s, q, b) && TakesAll(g, q, b, n, r)
    ensures TakesAll(g, s, b, n + 1, r)
  {
    TakesOneMore(g, s, b, q, n, r);
    ForwardTwice(s, q, r, b);
  }

  lemma {:induction false} AllAreTakenUp(g: Config, s: State, b: int, n: nat) returns (r: State)
    requires Ready(g, s, b) && n == |s.managers[b].box.inflight|
    ensures TakesAll(g, s, b, n, r)
    decreases n
  {
    if n == 0 {
      r := s;
      NobodyLeft(g, s, b);
    } else {
      var q := FirstIsTakenUp(g, s, b);
      r := AllAreTakenUp(g, q, b, n - 1);
      OneMore(g, s, b, q, n - 1, r);
    }
  }

  lemma TakesOneMore(g: Config, s: State, b: int, q: State, n: nat, r: State)
    requires Leads(g, s, b, Message, 3, q) && TakesIn(g, q, b, n, r)
    ensures TakesIn(g, s, b, n + 1, r)
  {
  }

  lemma {:induction false} GoesKeepsInv(g: Config, s: State, t: int, n: nat, r: State)
    requires Inv(g, s) && Goes(g, s, t, n, r)
    ensures Inv(g, r)
    decreases n
  {
    if n > 0 {
      StepKeepsInv(g, s, t, Go);
      GoesKeepsInv(g, Next(g, s, t, Go), t, n - 1, r);
    }
  }

  lemma HandedIsReady(g: Config, s: State, b: int)
    requires Inv(g, s) && 0 <= b < |s.managers| && s.managers[b].pc.Wait? && s.mutex == -1
    requires s.managers[b].num <= g.caps[b]
    ensures Ready(g, s, b)
  {
    InvIsCore(g, s);
    assert ManagerOk(s, b);
    var w := Words(s.managers[b].box.inflight);
    assert w[0..|w|] == w;
  }

  /** A connection that port `t` accepts while the mutex is free ends up live with the manager that
      should get it, if that one is back in its loop and has room: first thread `t` goes on alone, then
      the thread of that manager. */
  lemma AcceptedEndsLive(g: Config, s: State, t: int, h: int, b: int) returns (q: State, r: State)
    requires Inv(g, s) && 0 <= t < |s.managers| && s.managers[t].pc.Wait? && s.mutex == -1
    requires |g.max| < h < WORD_SHIFT && h !in s.sessions && s.counts[t] < g.max[t]
    requires Picked(Nums(s), g.quota, b) && s.managers[b].pc.Wait? && s.managers[b].num < g.caps[b]
    requires |s.managers[b].queue| + 1 < Sum(g.max)
    ensures Leads(g, s, t, Accept(h), |s.managers| + 5, q)
    ensures TakesIn(g, q, b, |s.managers[b].box.inflight| + 1, r)
    ensures Settles(q, r, b) && NothingLeft(r, b)
    ensures exists i :: InEntry(r, b, i, h) && Has(r, h, t, Live(b, i))
    ensures r.managers[b].num == s.managers[b].num + 1 && r.counts == s.counts[t := s.counts[t] + 1]
  {
    q := Handed(s, t, h, b).(counts := s.counts[t := s.counts[t] + 1]);
    AcceptHandsOver(g, s, t, h, b);
    LeadsKeepsInv(g, s, t, Accept(h), |s.managers| + 5, q);
    HandedIsReady(g, q, b);
    r := AllAreTakenUp(g, q, b, |s.managers[b].box.inflight| + 1);
    QueuedEndsLive(g, q, b, |s.managers[b].box.inflight| + 1, r, h, t);
  }

  lemma QueuedEndsLive(g: Config, s: State, b: int, n: nat, r: State, h: int, p: int)
    requires TakesAll(g, s, b, n, r)
    requires h in s.sessions && s.sessions[h].port == p && s.sessions[h].place.Queued?
             && s.sessions[h].place.manager == b
    ensures Settles(s, r, b) && exists i :: InEntry(r, b, i, h) && Has(r, h, p, Live(b, i))
  {
    ForwardSettles(g, s, r, b);
    assert SessionOk(r, h);
    assert InEntry(r, b, r.sessions[h].place.entry, h);
  }

  lemma LeadsKeepsInv(g: Config, s: State, t: int, c: Choice, n: nat, r: State)
    requires Inv(g, s) && Leads(g, s, t, c, n, r) && Honest(c)
    ensures Inv(g, r)
  {
    StepKeepsInv(g, s, t, c);
    GoesKeepsInv(g, Next(g, s, t, c), t, n, r);
  }
}
