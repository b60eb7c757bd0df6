/** What every run of the tipc server keeps: the session accounting, the pairing of message words,
    and, unless a manager is overfilled, freedom from the code's own aborts. */
module TipcServer {
  import opened TipcSelection
  import opened TipcTables
  import opened TipcModel
  import opened TipcStore

  // ----- The invariant -----

  /** The words of the first message that are already taken out of the queue. */
  function Consumed(pc: Pc): int { if pc.GotType? then 1 else if pc.GotBoth? || pc.Allocated? then 2 else 0 }

  /** The words of the last message of manager `m` that are not sent yet. */
  function UnsentBy(pc: Pc, m: int): int {
    match pc
    case Send1(_, b) => if b == m then 2 else 0
    case Send2(_, b) => if b == m then 1 else 0
    case _ => 0
  }

  function Unsent(s: State, m: int): int {
    if 0 <= s.mutex < |s.managers| then UnsentBy(s.managers[s.mutex].pc, m) else 0
  }

  /** A session taken out of its entry whose counter is still to be decremented. */
  function Leaving(pc: Pc): int { if pc.CloseKernel? || pc.Drop? then 1 else 0 }

  /** Session accounting: the counter is the live entries, plus the AddSession messages queued or in
      hand, plus the closes not yet decremented. */
  predicate NumOk(x: Manager) { Excess(x) == 0 }

  /** What the counter counts beyond that. */
  function Excess(x: Manager): int { x.num - LiveCount(x.box.handles) - |x.box.inflight| - Leaving(x.pc) }

  /** Message pairing: the queue holds exactly the remaining words of the messages, in order, and what
      was taken as a type or as data was sent as the type or the data of the first message. */
  predicate QueueOk(x: Manager, unsent: int) {
    var ms := x.box.inflight;
    && 0 <= unsent && Consumed(x.pc) + unsent <= 2 * |ms|
    && x.queue == Words(ms)[Consumed(x.pc)..2 * |ms| - unsent]
    && match x.pc
       case GotType(w) => w == TypeWord(ms[0].handle)
       case GotBoth(w, d) => w == TypeWord(ms[0].handle) && d == ms[0].port
       case _ => true
  }

  predicate ManagerOk(s: State, m: int) {
    0 <= m < |s.managers| ==> NumOk(s.managers[m]) && QueueOk(s.managers[m], Unsent(s, m))
  }

  predicate WordsOk(s: State, m: int) { 0 <= m < |s.managers| ==> QueueOk(s.managers[m], Unsent(s, m)) }

  predicate NeedsMutex(pc: Pc) { pc.Select? || pc.Send1? || pc.Send2? || pc.Sent? }

  predicate LastMsg(s: State, b: int, msg: Msg) {
    && 0 <= b < |s.managers|
    && var ms := s.managers[b].box.inflight; ms != [] && ms[|ms| - 1] == msg
  }

  predicate ThreadOk(s: State, t: int) {
    0 <= t < |s.managers| ==>
      && (NeedsMutex(s.managers[t].pc) <==> s.mutex == t)
      && match s.managers[t].pc
         case Send1(h, b) => LastMsg(s, b, Msg(h, t))
         case Send2(h, b) => LastMsg(s, b, Msg(h, t))
         case Received(h) => h in s.sessions && s.sessions[h].place.Live? && s.sessions[h].place.manager == t
         case Close(h) => h in s.sessions && s.sessions[h].place.Live? && s.sessions[h].place.manager == t
         case _ => true
  }

  /** While a thread selects, counters only go down: below what they were when it took the mutex, and
      below what it has seen. */
  predicate SelectOk(s: State) {
    0 <= s.mutex < |s.managers| && s.managers[s.mutex].pc.Select? ==>
      var start := s.managers[s.mutex].pc.start;
      var seen := s.managers[s.mutex].pc.seen;
      && |start| == |s.managers| && |seen| <= |s.managers|
      && (forall k | 0 <= k < |s.managers| :: s.managers[k].num <= start[k])
      && (forall k | 0 <= k < |seen| :: s.managers[k].num <= seen[k] <= start[k])
  }

  /** Open sessions a manager answers for: the ones it counts and the one its thread carries, less
      the one its thread has closed but not yet subtracted. */
  function Due(x: Manager): int { x.num + InHandOf(x.pc) - DropOf(x.pc) }

  function InHandOf(pc: Pc): int { if pc.Accepted? || pc.Select? then 1 else 0 }

  function DropOf(pc: Pc): int { if pc.Drop? then 1 else 0 }

  function Dues(ms: seq<Manager>): seq<int> { seq(|ms|, m requires 0 <= m < |ms| => Due(ms[m])) }

  predicate Balance(s: State) { Sum(s.counts) == Sum(Dues(s.managers)) }

  ghost predicate Control(s: State) {
    && -1 <= s.mutex < |s.managers|
    && (forall m :: ManagerOk(s, m))
    && (forall t :: ThreadOk(s, t))
    && SelectOk(s) && Balance(s)
  }

  ghost predicate Inv(g: Config, s: State) { ConfigOk(g) && Store(g, s) && Control(s) }

  /** The part of it that does not look at the counters: it holds whatever services answer. */
  ghost predicate Core(g: Config, s: State) {
    && ConfigOk(g) && Store(g, s) && -1 <= s.mutex < |s.managers|
    && (forall m :: WordsOk(s, m)) && (forall t :: ThreadOk(s, t))
  }

  lemma InvIsCore(g: Config, s: State)
    requires Inv(g, s)
    ensures Core(g, s)
  {
    forall m ensures WordsOk(s, m) { assert ManagerOk(s, m); }
  }

  /** From `s` to `r` the excess of manager `u` goes down by one, and no other one changes. */
  predicate Charged(s: State, r: State, u: int) {
    && |r.managers| == |s.managers|
    && forall m | 0 <= m < |s.managers| :: Excess(r.managers[m]) == Excess(s.managers[m]) - (if m == u then 1 else 0)
  }

  // ----- One manager at a time -----

  lemma TakeTypeKeeps(x: Manager, unsent: int)
    requires x.pc.Wait? && QueueOk(x, unsent) && x.queue != []
    ensures Excess(Taken(x, GotType(x.queue[0]))) == Excess(x) && QueueOk(Taken(x, GotType(x.queue[0])), unsent)
  {
    FirstWords(x.box.inflight);
  }

  lemma TakeDataKeeps(x: Manager, unsent: int)
    requires x.pc.GotType? && QueueOk(x, unsent) && x.queue != []
    ensures var y := Taken(x, GotBoth(x.pc.word, x.queue[0])); Excess(y) == Excess(x) && QueueOk(y, unsent)
  {
    FirstWords(x.box.inflight);
  }

  lemma EnterKeepsManager(x: Manager, unsent: int, i: int, h: int, o: Object)
    requires x.pc.Allocated? && QueueOk(x, unsent)
    requires 1 <= i < |x.box.handles| == |x.box.objects| && x.box.handles[i] == INVALID_HANDLE && h != INVALID_HANDLE
    requires x.box.inflight != []
    ensures var y := x.(pc := Wait, box := Popped(Entered(x.box, i, h, o)));
            Excess(y) == Excess(x) && QueueOk(y, unsent)
  {
    FirstWords(x.box.inflight);
    LiveUpdate(x.box.handles, i, h);
  }

  lemma CloseKeepsManager(x: Manager, unsent: int, i: int, h: int)
    requires x.pc.Close? && QueueOk(x, unsent)
    requires 1 <= i < |x.box.handles| == |x.box.objects| && x.box.handles[i] != INVALID_HANDLE
    ensures var y := x.(pc := CloseKernel(h), box := Entered(x.box, i, INVALID_HANDLE, NoObject));
            Excess(y) == Excess(x) && QueueOk(y, unsent)
  {
    LiveUpdate(x.box.handles, i, INVALID_HANDLE);
  }

  lemma CountKeepsManager(x: Manager, msg: Msg)
    requires QueueOk(x, 0)
    ensures Excess(Counted(x, msg)) == Excess(x) && QueueOk(Counted(x, msg), 2)
  {
    assert (x.box.inflight + [msg])[..|x.box.inflight|] == x.box.inflight;
  }

  lemma Send1KeepsManager(x: Manager)
    requires QueueOk(x, 2)
    ensures var y := Pushed(x, TypeWord(x.box.inflight[|x.box.inflight| - 1].handle));
            Excess(y) == Excess(x) && QueueOk(y, 1)
  {
  }

  lemma Send2KeepsManager(x: Manager)
    requires QueueOk(x, 1)
    ensures var y := Pushed(x, x.box.inflight[|x.box.inflight| - 1].port); Excess(y) == Excess(x) && QueueOk(y, 0)
  {
  }

  // ----- Threads can go on -----

  /** The message a manager is entering, and where it comes from. */
  lemma InHandMessage(g: Config, s: State, t: int)
    requires Core(g, s) && 0 <= t < |s.managers| && (s.managers[t].pc.GotBoth? || s.managers[t].pc.Allocated?)
    ensures s.managers[t].box.inflight != []
    ensures s.managers[t].pc.GotBoth? ==>
              var w, d := s.managers[t].pc.word, s.managers[t].pc.data;
              && TypeOf(w) == 0 && 0 <= d < |s.slabs| && 0 in s.slabs[d]
              && InQueue(s, t, s.managers[t].box.received, HandleOf(w), d)
  {
    assert WordsOk(s, t) && MsgOk(s, t, 0);
    var m := s.managers[t].box.inflight[0];
    assert SessionOk(s, m.handle);
    if s.managers[t].pc.GotBoth? {
      DecodeType(m.handle);
      SlabHasRoom(g, s, t, m.handle, m.port);
    }
  }

  /** The one check of the code that can fail is the search for an empty entry: the type byte and the
      port index of a message are good, the slab has room, the entry and the slot to close are there,
      and every handle is closed exactly once. */
  lemma AbortsOnlyWhenFull(g: Config, s: State, t: int)
    requires Core(g, s) && 0 <= t < |s.managers|
    ensures Aborts(g, s, t) <==> s.managers[t].pc.Allocated? && LiveCount(s.managers[t].box.handles) == g.caps[t]
    ensures s.managers[t].pc.Allocated? ==> s.managers[t].box.inflight != []
  {
    var x := s.managers[t];
    assert ThreadOk(s, t) && HoldOk(s, t) && BoxShape(g, t, x.box);
    LiveRoom(x.box.handles);
    match x.pc
    case GotBoth(w, d) => InHandMessage(g, s, t);
    case Allocated(h, p, j) => InHandMessage(g, s, t);
    case Close(h) => CloseFinds(g, s, t, h);
    case CloseKernel(h) => assert SessionOk(s, h);
    case _ =>
  }

  lemma EnabledCanGo(g: Config, s: State, t: int, c: Choice)
    requires Core(g, s) && Enabled(g, s, t, c)
    ensures CanGo(g, s, t, c)
  {
    AbortsOnlyWhenFull(g, s, t);
  }

  // ----- Every step keeps the invariant -----

  /** The steps that move a session, or a slot. */
  predicate Moves(s: State, t: int, c: Choice)
    requires 0 <= t < |s.managers|
  {
    var pc := s.managers[t].pc;
    || (pc.Wait? && c.Accept?) || (pc.Select? && |pc.seen| == |s.managers|)
    || pc.GotBoth? || pc.Allocated? || pc.Close? || pc.CloseKernel?
  }

  lemma WordsKeepPlaces(g: Config, s: State, t: int, c: Choice)
    requires CanGo(g, s, t, c) && (s.managers[t].pc.Send1? || s.managers[t].pc.Send2?)
    ensures SameStore(s, Next(g, s, t, c))
  {
  }

  lemma OthersKeepPlaces(g: Config, s: State, t: int, c: Choice)
    requires CanGo(g, s, t, c) && !Moves(s, t, c) && !s.managers[t].pc.Send1? && !s.managers[t].pc.Send2?
    ensures SameStore(s, Next(g, s, t, c))
  {
  }

  lemma StepKeepsStore(g: Config, s: State, t: int, c: Choice)
    requires Core(g, s) && CanGo(g, s, t, c)
    ensures Store(g, Next(g, s, t, c))
  {
    var x := s.managers[t];
    if !Moves(s, t, c) {
      if x.pc.Send1? || x.pc.Send2? { WordsKeepPlaces(g, s, t, c); } else { OthersKeepPlaces(g, s, t, c); }
      SameStoreKeeps(g, s, Next(g, s, t, c));
    } else {
      match x.pc
      case Wait => AcceptKeeps(g, s, t, c.handle);
      case Select(h, _, seen) => CountKeeps(g, s, t, h, Fold(seen, g.quota).index);
      case GotBoth(w, d) =>
        InHandMessage(g, s, t);
        AllocateKeeps(g, s, t, HandleOf(w), d);
      case Allocated(h, p, j) => EnterKeeps(g, s, t, h, p, j);
      case Close(h) =>
        assert ThreadOk(s, t);
        CloseKeeps(g, s, t, h);
      case CloseKernel(h) => CloseInKernelKeeps(g, s, t, h);
    }
  }

  // The managers

  /** A thread that neither holds the mutex to send nor starts to leaves what is unsent alone. */
  lemma UnsentSame(s: State, r: State, t: int)
    requires 0 <= t < |s.managers| == |r.managers| && ThreadOk(s, t)
    requires forall u | 0 <= u < |s.managers| && u != t :: r.managers[u].pc == s.managers[u].pc
    requires r.mutex == s.mutex || (s.mutex in {-1, t} && r.mutex in {-1, t})
    requires var p, q := s.managers[t].pc, r.managers[t].pc; !p.Send1? && !p.Send2? && !q.Send1? && !q.Send2?
    ensures forall m :: Unsent(r, m) == Unsent(s, m)
  {
  }

  lemma OwnStepKeepsWords(s: State, r: State, t: int, d: int)
    requires 0 <= t < |s.managers| && (forall m :: WordsOk(s, m))
    requires |r.managers| == |s.managers| && forall m | 0 <= m < |s.managers| && m != t ::
             r.managers[m] == s.managers[m]
    requires forall m :: Unsent(r, m) == Unsent(s, m)
    requires Excess(r.managers[t]) == Excess(s.managers[t]) - d && QueueOk(r.managers[t], Unsent(s, t))
    ensures (forall m :: WordsOk(r, m)) && (d == 0 ==> Charged(s, r, -1)) && (d == 1 ==> Charged(s, r, t))
  {
    forall m ensures WordsOk(r, m) { assert WordsOk(s, m); }
  }

  predicate Sends(pc: Pc, n: int) { (pc.Select? && |pc.seen| == n) || pc.Send1? || pc.Send2? }

  /** Steps of a thread that neither takes a word nor changes its entries. */
  predicate Plain(x: Manager, y: Manager, d: int) {
    && y == x.(num := y.num, pc := y.pc) && y.num - Leaving(y.pc) == x.num - Leaving(x.pc) - d
    && Consumed(y.pc) == Consumed(x.pc) && !y.pc.GotType? && !y.pc.GotBoth?
  }

  lemma PlainKeepsManager(x: Manager, y: Manager, unsent: int, d: int)
    requires Plain(x, y, d) && QueueOk(x, unsent)
    ensures Excess(y) == Excess(x) - d && QueueOk(y, unsent)
  {
  }

  /** A report skips the close and only decrements. */
  function Charge(c: Choice): int { if Honest(c) then 0 else 1 }

  lemma PlainSteps(g: Config, s: State, t: int, c: Choice)
    requires CanGo(g, s, t, c) && !Sends(s.managers[t].pc, |s.managers|)
    requires var pc := s.managers[t].pc; !(pc.Wait? && c.Message?) && !pc.GotType? && !pc.Allocated? && !pc.Close?
    ensures Plain(s.managers[t], Next(g, s, t, c).managers[t], Charge(c))
  {
  }

  lemma OwnStepKeepsNum(g: Config, s: State, t: int, c: Choice)
    requires Core(g, s) && CanGo(g, s, t, c) && !Sends(s.managers[t].pc, |s.managers|)
    ensures var y := Next(g, s, t, c).managers[t];
            Excess(y) == Excess(s.managers[t]) - Charge(c) && QueueOk(y, Unsent(s, t))
  {
    var x := s.managers[t];
    assert WordsOk(s, t);
    if x.pc.Wait? && c.Message? {
      TakeTypeKeeps(x, Unsent(s, t));
    } else if x.pc.GotType? {
      TakeDataKeeps(x, Unsent(s, t));
    } else if x.pc.Allocated? {
      EnterStepKeepsNum(g, s, t, x.pc.handle, x.pc.port, x.pc.slot);
    } else if x.pc.Close? {
      assert ThreadOk(s, t);
      CloseStepKeepsNum(g, s, t, x.pc.handle);
    } else {
      PlainSteps(g, s, t, c);
      PlainKeepsManager(x, Next(g, s, t, c).managers[t], Unsent(s, t), Charge(c));
    }
  }

  lemma EnterStepKeepsNum(g: Config, s: State, t: int, h: int, p: int, j: int)
    requires Store(g, s) && 0 <= t < |s.managers| && WordsOk(s, t) && s.managers[t].pc == Allocated(h, p, j)
    requires INVALID_HANDLE in s.managers[t].box.handles && s.managers[t].box.inflight != []
    ensures var y := Enters(s, t, h, p, j).managers[t]; Excess(y) == Excess(s.managers[t]) && QueueOk(y, Unsent(s, t))
  {
    var x := s.managers[t];
    assert BoxShape(g, t, x.box) && HoldOk(s, t);
    EnterKeepsManager(x, Unsent(s, t), FindFirst(x.box.handles, INVALID_HANDLE), h, Object(p, j));
  }

  lemma CloseStepKeepsNum(g: Config, s: State, t: int, h: int)
    requires Store(g, s) && 0 <= t < |s.managers| && WordsOk(s, t) && ThreadOk(s, t) && s.managers[t].pc == Close(h)
    requires !Aborts(g, s, t)
    ensures var y := Closes(s, t, h).managers[t]; Excess(y) == Excess(s.managers[t]) && QueueOk(y, Unsent(s, t))
  {
    var x := s.managers[t];
    CloseFinds(g, s, t, h);
    CloseKeepsManager(x, Unsent(s, t), FindFirst(x.box.handles, h), h);
  }

  lemma OwnStepOnlyOwn(g: Config, s: State, t: int, c: Choice)
    requires CanGo(g, s, t, c) && !Sends(s.managers[t].pc, |s.managers|) && ThreadOk(s, t)
    ensures var r := Next(g, s, t, c);
            && |r.managers| == |s.managers|
                && (forall m | 0 <= m < |s.managers| && m != t :: r.managers[m] == s.managers[m])
            && (r.mutex == s.mutex || (s.mutex in {-1, t} && r.mutex in {-1, t}))
            && !r.managers[t].pc.Send1? && !r.managers[t].pc.Send2?
  {
  }

  lemma MutexStepKeepsManager(x: Manager, pc: Pc, unsent: int)
    requires NeedsMutex(x.pc) && NeedsMutex(pc) && QueueOk(x, unsent)
    ensures Excess(x.(pc := pc)) == Excess(x) && QueueOk(x.(pc := pc), unsent)
  {
  }

  /** The thread that holds the mutex changes manager `b` to `y` and goes on to `pc`. */
  lemma SendStepKeepsWords(s: State, r: State, t: int, b: int, y: Manager, pc: Pc)
    requires 0 <= t < |s.managers| && 0 <= b < |s.managers| && (forall m :: WordsOk(s, m))
    requires s.mutex == t == r.mutex && NeedsMutex(s.managers[t].pc) && NeedsMutex(pc)
    requires forall m | m != b :: UnsentBy(s.managers[t].pc, m) == 0 == UnsentBy(pc, m)
    requires y.pc == s.managers[b].pc && Excess(y) == Excess(s.managers[b]) && QueueOk(y, UnsentBy(pc, b))
    requires r.managers == s.managers[b := y][t := s.managers[b := y][t].(pc := pc)]
    ensures (forall m :: WordsOk(r, m)) && Charged(s, r, -1)
  {
    forall m ensures WordsOk(r, m) {
      assert WordsOk(s, m);
      if m == t { MutexStepKeepsManager(s.managers[b := y][t], pc, Unsent(r, t)); }
    }
  }

  lemma CountKeepsWords(s: State, t: int, h: int, b: int)
    requires 0 <= t < |s.managers| && 0 <= b < |s.managers| && (forall m :: WordsOk(s, m))
    requires s.mutex == t && s.managers[t].pc.Select?
    ensures (forall m :: WordsOk(Counts(s, t, h, b), m)) && Charged(s, Counts(s, t, h, b), -1)
  {
    assert WordsOk(s, b);
    CountKeepsManager(s.managers[b], Msg(h, t));
    SendStepKeepsWords(s, Counts(s, t, h, b), t, b, Counted(s.managers[b], Msg(h, t)), Send1(h, b));
  }

  lemma Send1KeepsWords(s: State, r: State, t: int, h: int, b: int)
    requires 0 <= t < |s.managers| && (forall m :: WordsOk(s, m)) && LastMsg(s, b, Msg(h, t))
    requires s.mutex == t && s.managers[t].pc == Send1(h, b)
    requires r == At(Put(s, b, Pushed(s.managers[b], TypeWord(h))), t, Send2(h, b))
    ensures (forall m :: WordsOk(r, m)) && Charged(s, r, -1)
  {
    assert WordsOk(s, b);
    Send1KeepsManager(s.managers[b]);
    SendStepKeepsWords(s, r, t, b, Pushed(s.managers[b], TypeWord(h)), Send2(h, b));
  }

  lemma Send2KeepsWords(s: State, r: State, t: int, h: int, b: int)
    requires 0 <= t < |s.managers| && (forall m :: WordsOk(s, m)) && LastMsg(s, b, Msg(h, t))
    requires s.mutex == t && s.managers[t].pc == Send2(h, b)
    requires r == At(Put(s, b, Pushed(s.managers[b], t)), t, Sent)
    ensures (forall m :: WordsOk(r, m)) && Charged(s, r, -1)
  {
    assert WordsOk(s, b);
    Send2KeepsManager(s.managers[b]);
    SendStepKeepsWords(s, r, t, b, Pushed(s.managers[b], t), Sent);
  }

  lemma SendKeepsWords(g: Config, s: State, t: int, c: Choice)
    requires Core(g, s) && CanGo(g, s, t, c) && Sends(s.managers[t].pc, |s.managers|)
    ensures (forall m :: WordsOk(Next(g, s, t, c), m)) && Charged(s, Next(g, s, t, c), -1) && Honest(c)
  {
    assert ThreadOk(s, t);
    match s.managers[t].pc {
      case Select(h, _, seen) => CountKeepsWords(s, t, h, Fold(seen, g.quota).index);
      case Send1(h, b) => Send1KeepsWords(s, Next(g, s, t, c), t, h, b);
      case Send2(h, b) => Send2KeepsWords(s, Next(g, s, t, c), t, h, b);
    }
  }

  /** Every step keeps the message pairing, and a counter comes away from what it should count only by
      a report, and then by one. */
  lemma StepKeepsWords(g: Config, s: State, t: int, c: Choice)
    requires Core(g, s) && CanGo(g, s, t, c)
    ensures forall m :: WordsOk(Next(g, s, t, c), m)
    ensures Charged(s, Next(g, s, t, c), if Honest(c) then -1 else t)
  {
    if Sends(s.managers[t].pc, |s.managers|) {
      SendKeepsWords(g, s, t, c);
    } else {
      assert ThreadOk(s, t);
      OwnStepOnlyOwn(g, s, t, c);
      UnsentSame(s, Next(g, s, t, c), t);
      OwnStepKeepsNum(g, s, t, c);
      OwnStepKeepsWords(s, Next(g, s, t, c), t, Charge(c));
    }
  }

  lemma StepKeepsManagers(g: Config, s: State, t: int, c: Choice)
    requires Inv(g, s) && CanGo(g, s, t, c) && Honest(c)
    ensures forall m :: ManagerOk(Next(g, s, t, c), m)
  {
    InvIsCore(g, s);
    StepKeepsWords(g, s, t, c);
    var r := Next(g, s, t, c);
    forall m ensures ManagerOk(r, m) {
      assert ManagerOk(s, m) && WordsOk(r, m);
    }
  }

  // The threads

  /** The message another thread is sending stays the last one of its manager. */
  lemma LastMsgStays(g: Config, s: State, t: int, c: Choice, b: int, msg: Msg)
    requires Core(g, s) && CanGo(g, s, t, c) && LastMsg(s, b, msg) && s.mutex != t
    requires Unsent(s, b) > 0
    ensures LastMsg(Next(g, s, t, c), b, msg)
  {
    assert WordsOk(s, b) && ThreadOk(s, t);
  }

  lemma OthersKeepPc(g: Config, s: State, t: int, c: Choice, u: int)
    requires CanGo(g, s, t, c) && ThreadOk(s, t) && u != t
    ensures var r := Next(g, s, t, c);
            && |r.managers| == |s.managers|
            && (0 <= u < |s.managers| ==> r.managers[u].pc == s.managers[u].pc && (r.mutex == u <==> s.mutex == u))
  {
  }

  /** A step changes what another thread relies on only in its favour. */
  lemma StepKeepsOthers(g: Config, s: State, t: int, c: Choice, u: int)
    requires Core(g, s) && CanGo(g, s, t, c) && 0 <= u < |s.managers| && u != t
    ensures ThreadOk(Next(g, s, t, c), u)
  {
    assert ThreadOk(s, u) && ThreadOk(s, t);
    OthersKeepPc(g, s, t, c, u);
    match s.managers[u].pc
    case Send1(h, b) => LastMsgStays(g, s, t, c, b, Msg(h, u));
    case Send2(h, b) => LastMsgStays(g, s, t, c, b, Msg(h, u));
    case Received(h) => OwnSession(g, s, t, c, h);
    case Close(h) => OwnSession(g, s, t, c, h);
    case _ =>
  }

  /** A step never moves a session that is live with another manager. */
  lemma OwnSession(g: Config, s: State, t: int, c: Choice, h: int)
    requires Core(g, s) && CanGo(g, s, t, c)
    requires h in s.sessions && s.sessions[h].place.Live? && s.sessions[h].place.manager != t
    ensures var r := Next(g, s, t, c); h in r.sessions && r.sessions[h] == s.sessions[h]
  {
    assert ThreadOk(s, t) && HoldOk(s, t);
    if s.managers[t].pc.Allocated? { assert MsgOk(s, t, 0); }
  }

  lemma SignalKeepsOwn(g: Config, s: State, t: int, c: Choice)
    requires CanGo(g, s, t, c) && ThreadOk(s, t) && s.managers[t].pc.Wait? && c.Signal? && EntryOk(s, t, c.entry)
    ensures ThreadOk(Next(g, s, t, c), t)
  {
  }

  lemma SendKeepsOwn(g: Config, s: State, t: int, c: Choice)
    requires CanGo(g, s, t, c) && ThreadOk(s, t) && Sends(s.managers[t].pc, |s.managers|)
    ensures ThreadOk(Next(g, s, t, c), t)
  {
  }

  lemma OtherKeepsOwn(g: Config, s: State, t: int, c: Choice)
    requires CanGo(g, s, t, c) && ThreadOk(s, t) && !Sends(s.managers[t].pc, |s.managers|)
             && !(s.managers[t].pc.Wait? && c.Signal?)
    ensures ThreadOk(Next(g, s, t, c), t)
  {
  }

  lemma StepKeepsOwn(g: Config, s: State, t: int, c: Choice)
    requires Core(g, s) && CanGo(g, s, t, c)
    ensures ThreadOk(Next(g, s, t, c), t)
  {
    assert ThreadOk(s, t);
    if s.managers[t].pc.Wait? && c.Signal? {
      assert EntryOk(s, t, c.entry);
      SignalKeepsOwn(g, s, t, c);
    } else if Sends(s.managers[t].pc, |s.managers|) {
      SendKeepsOwn(g, s, t, c);
    } else {
      OtherKeepsOwn(g, s, t, c);
    }
  }

  lemma StepKeepsThreads(g: Config, s: State, t: int, c: Choice)
    requires Core(g, s) && CanGo(g, s, t, c)
    ensures forall u :: ThreadOk(Next(g, s, t, c), u)
  {
    StepKeepsOwn(g, s, t, c);
    CountersGoDown(g, s, t, c);
    forall u | u != t ensures ThreadOk(Next(g, s, t, c), u) {
      if 0 <= u < |s.managers| { StepKeepsOthers(g, s, t, c, u); }
    }
  }

  // The selection

  /** Counters only go down, except for the increment that ends the selection. */
  lemma CountersGoDown(g: Config, s: State, t: int, c: Choice)
    requires CanGo(g, s, t, c)
    ensures var r := Next(g, s, t, c);
            |r.managers| == |s.managers|
            && forall k | 0 <= k < |s.managers|
                && !(s.managers[t].pc.Select? && |s.managers[t].pc.seen| == |s.managers|) ::
                 r.managers[k].num <= s.managers[k].num
  {
  }

  lemma TakesMutexSelect(g: Config, s: State, t: int, c: Choice)
    requires CanGo(g, s, t, c) && s.managers[t].pc.Accepted?
    ensures SelectOk(Next(g, s, t, c)) && Next(g, s, t, c).mutex == t
  {
  }

  lemma LooksSelect(g: Config, s: State, t: int, c: Choice)
    requires CanGo(g, s, t, c) && s.managers[t].pc.Select? && s.mutex == t && SelectOk(s)
    ensures SelectOk(Next(g, s, t, c)) && Next(g, s, t, c).mutex == t
  {
  }

  lemma OthersSelect(g: Config, s: State, t: int, c: Choice)
    requires CanGo(g, s, t, c) && !s.managers[t].pc.Accepted? && !s.managers[t].pc.Select?
    requires ThreadOk(s, t) && SelectOk(s)
    ensures SelectOk(Next(g, s, t, c)) && Next(g, s, t, c).mutex in {s.mutex, -1}
  {
    CountersGoDown(g, s, t, c);
    if 0 <= s.mutex < |s.managers| && s.mutex != t { OthersKeepPc(g, s, t, c, s.mutex); }
  }

  lemma StepKeepsSelect(g: Config, s: State, t: int, c: Choice)
    requires Control(s) && CanGo(g, s, t, c)
    ensures SelectOk(Next(g, s, t, c)) && -1 <= Next(g, s, t, c).mutex < |s.managers|
  {
    assert ThreadOk(s, t);
    if s.managers[t].pc.Accepted? { TakesMutexSelect(g, s, t, c); }
    else if s.managers[t].pc.Select? { LooksSelect(g, s, t, c); }
    else { OthersSelect(g, s, t, c); }
  }

  // The balance with the kernel

  lemma DuesUpdate(ms: seq<Manager>, t: int, x: Manager)
    requires 0 <= t < |ms|
    ensures Sum(Dues(ms[t := x])) == Sum(Dues(ms)) - Due(ms[t]) + Due(x)
  {
    assert Dues(ms[t := x]) == Dues(ms)[t := Due(x)];
    SumUpdate(Dues(ms), t, Due(x));
  }

  lemma SendKeepsBalance(g: Config, s: State, t: int, c: Choice)
    requires CanGo(g, s, t, c) && Balance(s) && Sends(s.managers[t].pc, |s.managers|)
    ensures Balance(Next(g, s, t, c))
  {
    var r := Next(g, s, t, c);
    var pc := s.managers[t].pc;
    var b := if pc.Select? then Fold(pc.seen, g.quota).index else pc.best;
    var y := if pc.Select? then Counted(s.managers[b], Msg(pc.handle, t))
             else Pushed(s.managers[b], if pc.Send1? then TypeWord(pc.handle) else t);
    var ms := s.managers[b := y];
    DuesUpdate(s.managers, b, y);
    DuesUpdate(ms, t, r.managers[t]);
    assert r.managers == ms[t := r.managers[t]];
  }

  /** The other steps: an accept is one more open session, a close in the kernel one less. */
  lemma OwnStepDue(g: Config, s: State, t: int, c: Choice)
    requires CanGo(g, s, t, c) && Honest(c) && !Sends(s.managers[t].pc, |s.managers|)
    ensures var r := Next(g, s, t, c);
            |r.managers| == |s.managers| && Sum(r.counts) - Sum(s.counts) == Due(r.managers[t]) - Due(s.managers[t])
  {
    var pc := s.managers[t].pc;
    if pc.Wait? && c.Accept? {
      SumUpdate(s.counts, t, s.counts[t] + 1);
    } else if pc.CloseKernel? {
      var p := s.sessions[pc.handle].port;
      SumUpdate(s.counts, p, s.counts[p] - 1);
    }
  }

  lemma StepKeepsBalance(g: Config, s: State, t: int, c: Choice)
    requires CanGo(g, s, t, c) && Honest(c) && Balance(s) && ThreadOk(s, t)
    ensures Balance(Next(g, s, t, c))
  {
    if Sends(s.managers[t].pc, |s.managers|) {
      SendKeepsBalance(g, s, t, c);
    } else {
      var r := Next(g, s, t, c);
      OwnStepOnlyOwn(g, s, t, c);
      OwnStepDue(g, s, t, c);
      assert r.managers == s.managers[t := r.managers[t]];
      DuesUpdate(s.managers, t, r.managers[t]);
    }
  }

  lemma StepKeepsInv(g: Config, s: State, t: int, c: Choice)
    requires Inv(g, s) && Enabled(g, s, t, c) && Honest(c)
    ensures CanGo(g, s, t, c) && Inv(g, Next(g, s, t, c))
  {
    InvIsCore(g, s);
    EnabledCanGo(g, s, t, c);
    StepKeepsStore(g, s, t, c);
    StepKeepsManagers(g, s, t, c);
    StepKeepsThreads(g, s, t, c);
    StepKeepsSelect(g, s, t, c);
    assert ThreadOk(s, t);
    StepKeepsBalance(g, s, t, c);
    CountersGoDown(g, s, t, c);
  }

  /** Whatever services answer, every step keeps the rest. */
  lemma StepKeepsCore(g: Config, s: State, t: int, c: Choice)
    requires Core(g, s) && CanGo(g, s, t, c)
    ensures Core(g, Next(g, s, t, c))
  {
    StepKeepsStore(g, s, t, c);
    StepKeepsWords(g, s, t, c);
    StepKeepsThreads(g, s, t, c);
    StepKeepsMutex(g, s, t, c);
  }

  lemma StepKeepsMutex(g: Config, s: State, t: int, c: Choice)
    requires CanGo(g, s, t, c) && -1 <= s.mutex < |s.managers|
    ensures var r := Next(g, s, t, c); |r.managers| == |s.managers| && -1 <= r.mutex < |r.managers|
  {
  }

  // ----- The beginning -----

  lemma {:induction false} NothingLive(handles: seq<int>)
    requires forall i | 1 <= i < |handles| :: handles[i] == INVALID_HANDLE
    ensures LiveCount(handles) == 0
  {
    if |handles| > 1 { NothingLive(handles[..|handles| - 1]); }
  }

  lemma InitialStore(g: Config)
    requires ConfigOk(g)
    ensures Store(g, Initial(g))
  {
    var s := Initial(g);
    forall p ensures PortOk(g, s, p) { assert OpenOf(s.sessions, p) == {}; }
  }

  lemma InitialInv(g: Config)
    requires ConfigOk(g)
    ensures Inv(g, Initial(g))
  {
    var s := Initial(g);
    InitialStore(g);
    forall m ensures ManagerOk(s, m) {
      if 0 <= m < |s.managers| { NothingLive(s.managers[m].box.handles); }
    }
    SumConstant(s.counts, 0);
    SumConstant(Dues(s.managers), 0);
  }

  // ----- Overfilling -----

  /** No manager counts more sessions than it has entries for, and a thread that selects started from
      counters with room. */
  ghost predicate Roomy(g: Config, s: State) {
    && |s.managers| == |g.caps|
    && (forall m | 0 <= m < |s.managers| :: s.managers[m].num <= g.caps[m])
    && (0 <= s.mutex < |s.managers| && s.managers[s.mutex].pc.Select? ==>
          Sum(s.managers[s.mutex].pc.start) < Sum(g.caps)
          && |s.managers[s.mutex].pc.start| == |g.caps| && forall m | 0 <= m < |g.caps| ::
              s.managers[s.mutex].pc.start[m] <= g.caps[m])
  }

  /** When a thread takes the server mutex, the counters leave room for its session. */
  predicate TakesWithRoom(g: Config, s: State, t: int)
    requires 0 <= t < |s.managers|
  {
    s.managers[t].pc.Accepted? ==> Sum(Nums(s)) < Sum(g.max)
  }

  /** The manager a complete selection picks has room at this moment. */
  lemma PicksWithRoom(g: Config, s: State, t: int)
    requires Inv(g, s) && Roomy(g, s) && 0 <= t < |s.managers|
    requires s.managers[t].pc.Select? && |s.managers[t].pc.seen| == |s.managers|
    ensures var b := Fold(s.managers[t].pc.seen, g.quota).index; s.managers[b].num < g.caps[b]
  {
    assert ThreadOk(s, t);
    var pc := s.managers[t].pc;
    SumMonotone(pc.seen, pc.start);
    SelectionHasRoom(pc.seen, g.caps, g.quota);
  }

  /** A counter that did not grow, and a selection that did not start: nothing to do. */
  lemma QuietStepKeepsRoomy(g: Config, s: State, r: State)
    requires Roomy(g, s) && |r.managers| == |s.managers|
    requires forall k | 0 <= k < |s.managers| :: r.managers[k].num <= s.managers[k].num
    requires 0 <= r.mutex < |r.managers| && r.managers[r.mutex].pc.Select? ==>
               r.mutex == s.mutex && s.managers[s.mutex].pc.Select?
                   && r.managers[r.mutex].pc.start == s.managers[s.mutex].pc.start
    ensures Roomy(g, r)
  {
  }

  lemma LockKeepsRoomy(g: Config, s: State, t: int, c: Choice)
    requires ConfigOk(g) && CanGo(g, s, t, c) && Roomy(g, s) && TakesWithRoom(g, s, t) && s.managers[t].pc.Accepted?
    ensures Roomy(g, Next(g, s, t, c))
  {
  }

  lemma CountKeepsRoomy(g: Config, s: State, t: int, c: Choice)
    requires Inv(g, s) && CanGo(g, s, t, c) && Roomy(g, s)
    requires s.managers[t].pc.Select? && |s.managers[t].pc.seen| == |s.managers|
    ensures Roomy(g, Next(g, s, t, c))
  {
    assert ThreadOk(s, t);
    PicksWithRoom(g, s, t);
  }

  lemma SelectionGoesOn(g: Config, s: State, t: int, c: Choice)
    requires CanGo(g, s, t, c) && ThreadOk(s, t) && !s.managers[t].pc.Accepted?
    requires !(s.managers[t].pc.Select? && |s.managers[t].pc.seen| == |s.managers|)
    ensures var r := Next(g, s, t, c);
            0 <= r.mutex < |r.managers| && r.managers[r.mutex].pc.Select? ==>
              r.mutex == s.mutex && s.managers[s.mutex].pc.Select?
                  && r.managers[r.mutex].pc.start == s.managers[s.mutex].pc.start
  {
  }

  lemma StepKeepsRoomy(g: Config, s: State, t: int, c: Choice)
    requires Inv(g, s) && CanGo(g, s, t, c) && Roomy(g, s) && TakesWithRoom(g, s, t)
    ensures Roomy(g, Next(g, s, t, c))
  {
    assert ThreadOk(s, t);
    if s.managers[t].pc.Accepted? {
      LockKeepsRoomy(g, s, t, c);
    } else if s.managers[t].pc.Select? && |s.managers[t].pc.seen| == |s.managers| {
      CountKeepsRoomy(g, s, t, c);
    } else {
      CountersGoDown(g, s, t, c);
      SelectionGoesOn(g, s, t, c);
      QuietStepKeepsRoomy(g, s, Next(g, s, t, c));
    }
  }

  /** While nobody is overfilled, no thread aborts: `AddObject` always finds an empty entry. */
  lemma RoomyNeverAborts(g: Config, s: State, t: int)
    requires Inv(g, s) && Roomy(g, s) && 0 <= t < |s.managers|
    ensures !Aborts(g, s, t)
  {
    InvIsCore(g, s);
    AbortsOnlyWhenFull(g, s, t);
    assert ManagerOk(s, t);
  }

  // ----- When there is room -----

  function Hands(s: State): int {
    Sum(seq(|s.managers|, m requires 0 <= m < |s.managers| => InHandOf(s.managers[m].pc)))
  }

  function Drops(s: State): int { Sum(seq(|s.managers|, m requires 0 <= m < |s.managers| => DropOf(s.managers[m].pc))) }

  lemma {:induction false} SumCombine(xs: seq<int>, ys: seq<int>, zs: seq<int>, ws: seq<int>)
    requires |xs| == |ys| == |zs| == |ws| && forall i | 0 <= i < |xs| :: ws[i] == xs[i] + ys[i] - zs[i]
    ensures Sum(ws) == Sum(xs) + Sum(ys) - Sum(zs)
  {
    var n := |xs| - 1;
    if xs != [] { SumCombine(xs[..n], ys[..n], zs[..n], ws[..n]); }
  }

  /** The counters leave room for the session a thread carries exactly as long as the sessions open in
      the kernel and the ones closed but not yet subtracted are fewer than the maximum and the sessions
      carried. So a thread that takes the mutex can only find them full while some other thread is
      between closing a handle and decrementing its counter. */
  lemma RoomIff(g: Config, s: State)
    requires Inv(g, s)
    ensures Sum(s.counts) <= Sum(g.max)
    ensures Sum(Nums(s)) < Sum(g.max) <==> Sum(s.counts) + Drops(s) < Sum(g.max) + Hands(s)
    ensures Drops(s) < Hands(s) ==> Sum(Nums(s)) < Sum(g.max)
  {
    forall p | 0 <= p < |s.counts| ensures s.counts[p] <= g.max[p] { assert PortOk(g, s, p); }
    SumMonotone(s.counts, g.max);
    SumCombine(Nums(s), seq(|s.managers|, m requires 0 <= m < |s.managers| => InHandOf(s.managers[m].pc)),
               seq(|s.managers|, m requires 0 <= m < |s.managers| => DropOf(s.managers[m].pc)), Dues(s.managers));
  }

  // ----- Runs -----

  ghost predicate IsStep(g: Config, s: State, r: State) {
    exists t, c :: CanGo(g, s, t, c) && r == Next(g, s, t, c)
  }

  ghost predicate IsRun(g: Config, run: seq<State>) {
    && ConfigOk(g) && run != [] && run[0] == Initial(g)
    && forall i | 0 <= i < |run| - 1 :: IsStep(g, run[i], run[i + 1])
  }

  /** In the step from `s` to `r` the service of manager `m` reports its session as closed. */
  predicate Reported(s: State, r: State, m: int) {
    0 <= m < |s.managers| && s.managers[m].pc.Received? && r == At(s, m, Drop)
  }

  ghost predicate Reports(s: State, r: State) { exists m :: Reported(s, r, m) }

  /** No service does so in the first `n` steps. */
  ghost predicate HonestFor(run: seq<State>, n: int) {
    forall i | 0 <= i < n && i < |run| - 1 :: !Reports(run[i], run[i + 1])
  }

  ghost predicate HonestRun(run: seq<State>) { HonestFor(run, |run|) }

  lemma HonestStep(g: Config, s: State, r: State) returns (t: int, c: Choice)
    requires IsStep(g, s, r) && !Reports(s, r)
    ensures CanGo(g, s, t, c) && Honest(c) && r == Next(g, s, t, c)
  {
    t, c :| CanGo(g, s, t, c) && r == Next(g, s, t, c);
    if !Honest(c) { DishonestReports(g, s, t, c); }
  }

  lemma DishonestReports(g: Config, s: State, t: int, c: Choice)
    requires CanGo(g, s, t, c) && !Honest(c)
    ensures Reports(s, Next(g, s, t, c))
  {
    assert Reported(s, Next(g, s, t, c), t);
  }

  /** As long as services behave, every run keeps the accounting, the message pairing, and the places
      of all sessions. */
  lemma {:induction false} RunKeepsInv(g: Config, run: seq<State>, i: nat)
    requires IsRun(g, run) && i < |run| && HonestFor(run, i)
    ensures Inv(g, run[i])
  {
    if i == 0 {
      InitialInv(g);
    } else {
      RunKeepsInv(g, run, i - 1);
      assert IsStep(g, run[i - 1], run[i]);
      var t, c := HonestStep(g, run[i - 1], run[i]);
      StepKeepsInv(g, run[i - 1], t, c);
    }
  }

  /** In this run, whenever the server mutex is taken, the counters add up to less than the maximum. */
  ghost predicate AlwaysRoom(g: Config, run: seq<State>) {
    forall i | 0 <= i < |run| - 1 :: run[i].mutex == -1 && run[i + 1].mutex >= 0 ==> Sum(Nums(run[i])) < Sum(g.max)
  }

  /** In such a run no manager is ever overfilled and no thread ever aborts. */
  lemma {:induction false} RunNeverAborts(g: Config, run: seq<State>, i: nat)
    requires IsRun(g, run) && HonestRun(run) && AlwaysRoom(g, run) && i < |run|
    ensures Inv(g, run[i]) && Roomy(g, run[i])
    ensures forall t | 0 <= t < |run[i].managers| :: !Aborts(g, run[i], t)
  {
    RunKeepsInv(g, run, i);
    if i > 0 {
      RunNeverAborts(g, run, i - 1);
      assert IsStep(g, run[i - 1], run[i]);
      var t, c :| CanGo(g, run[i - 1], t, c) && run[i] == Next(g, run[i - 1], t, c);
      StepKeepsRoomy(g, run[i - 1], t, c);
    }
    forall t | 0 <= t < |run[i].managers| ensures !Aborts(g, run[i], t) { RoomyNeverAborts(g, run[i], t); }
  }

  // ----- Services that report a closed session -----

  ghost predicate Accounted(s: State) { forall m | 0 <= m < |s.managers| :: NumOk(s.managers[m]) }

  /** How many reports there were by the service of manager `m` in the first `n` steps of a run. */
  function ReportsBy(run: seq<State>, m: int, n: nat): nat
    requires n < |run|
  {
    if n == 0 then 0 else ReportsBy(run, m, n - 1) + (if Reported(run[n - 1], run[n], m) then 1 else 0)
  }

  /** Only a report looks like one. */
  lemma ReportedIff(g: Config, s: State, t: int, c: Choice, m: int)
    requires CanGo(g, s, t, c) && ThreadOk(s, t)
    ensures Reported(s, Next(g, s, t, c), m) <==> m == t && !Honest(c)
  {
    if m != t {
      OthersKeepPc(g, s, t, c, m);
    } else if Honest(c) && s.managers[t].pc.Received? {
      assert !Next(g, s, t, c).managers[t].pc.Drop?;
    }
  }

  lemma {:induction false} RunKeepsCore(g: Config, run: seq<State>, i: nat)
    requires IsRun(g, run) && i < |run|
    ensures Core(g, run[i]) && |run[i].managers| == |g.max|
  {
    if i == 0 {
      InitialInv(g);
      InvIsCore(g, run[0]);
    } else {
      RunKeepsCore(g, run, i - 1);
      assert IsStep(g, run[i - 1], run[i]);
      var t, c :| CanGo(g, run[i - 1], t, c) && run[i] == Next(g, run[i - 1], t, c);
      StepKeepsCore(g, run[i - 1], t, c);
    }
  }

  /** In every run, whatever services answer: a counter is short of what it should count by the number
      of reports so far. */
  lemma {:induction false} ExcessIsReports(g: Config, run: seq<State>, i: nat, m: int)
    requires IsRun(g, run) && i < |run| && 0 <= m < |g.max|
    ensures |run[i].managers| == |g.max| && Excess(run[i].managers[m]) + ReportsBy(run, m, i) == 0
  {
    RunKeepsCore(g, run, i);
    if i == 0 {
      InitialInv(g);
      assert ManagerOk(run[0], m);
    } else {
      ExcessIsReports(g, run, i - 1, m);
      RunKeepsCore(g, run, i - 1);
      assert IsStep(g, run[i - 1], run[i]);
      var t, c :| CanGo(g, run[i - 1], t, c) && run[i] == Next(g, run[i - 1], t, c);
      assert ThreadOk(run[i - 1], t);
      StepKeepsWords(g, run[i - 1], t, c);
      ReportedIff(g, run[i - 1], t, c, m);
    }
  }

  lemma {:induction false} NoReports(run: seq<State>, n: nat)
    requires n < |run|
    ensures HonestFor(run, n) ==> forall m :: ReportsBy(run, m, n) == 0
    ensures !HonestFor(run, n) ==> exists m :: ReportsBy(run, m, n) > 0
  {
    if n > 0 {
      NoReports(run, n - 1);
      assert HonestFor(run, n) <==> HonestFor(run, n - 1) && !Reports(run[n - 1], run[n]);
      if !HonestFor(run, n - 1) {
        var m :| ReportsBy(run, m, n - 1) > 0;
        assert ReportsBy(run, m, n) > 0;
      } else if Reports(run[n - 1], run[n]) {
        var m :| Reported(run[n - 1], run[n], m);
        assert ReportsBy(run, m, n) > 0;
      } else {
        forall m ensures ReportsBy(run, m, n) == 0 { assert ReportsBy(run, m, n - 1) == 0; }
      }
    }
  }

  /** So the accounting of all managers is right at any moment of a run if and only if no service has
      reported its session as closed so far: what a report spoils stays spoilt. */
  lemma AccountedIff(g: Config, run: seq<State>, i: nat)
    requires IsRun(g, run) && i < |run|
    ensures Accounted(run[i]) <==> HonestFor(run, i)
  {
    RunKeepsCore(g, run, i);
    forall m ensures ReportsBy(run, m, i) == 0 <==> (0 <= m < |g.max| ==> NumOk(run[i].managers[m])) {
      if 0 <= m < |g.max| { ExcessIsReports(g, run, i, m); } else { NoManagerNoReports(g, run, m, i); }
    }
    NoReports(run, i);
    if HonestFor(run, i) {
      forall m | 0 <= m < |g.max| ensures NumOk(run[i].managers[m]) { assert ReportsBy(run, m, i) == 0; }
    } else {
      var m :| ReportsBy(run, m, i) > 0;
      assert !NumOk(run[i].managers[m]);
    }
  }

  lemma {:induction false} NoManagerNoReports(g: Config, run: seq<State>, m: int, n: nat)
    requires IsRun(g, run) && n < |run| && !(0 <= m < |g.max|)
    ensures ReportsBy(run, m, n) == 0
  {
    if n > 0 {
      NoManagerNoReports(g, run, m, n - 1);
      RunKeepsCore(g, run, n - 1);
    }
  }

  /** The session accounting holds all through a run if and only if no service ever reports its session
      as closed. */
  lemma AccountingIff(g: Config, run: seq<State>)
    requires IsRun(g, run)
    ensures (forall i | 0 <= i < |run| :: Accounted(run[i])) <==> HonestRun(run)
  {
    forall i | 0 <= i < |run| ensures Accounted(run[i]) <==> HonestFor(run, i) { AccountedIff(g, run, i); }
  }

  // ----- What the invariant means -----

  /** Once every thread is back in its loop and every queue is empty, each counter is the number of
      the manager's live entries, together they are the open sessions, and each open session is in an
      entry. */
  lemma QuietServer(g: Config, s: State)
    requires Inv(g, s) && forall m | 0 <= m < |s.managers| :: s.managers[m].pc.Wait? && s.managers[m].queue == []
    ensures forall m | 0 <= m < |s.managers| :: s.managers[m].num == LiveCount(s.managers[m].box.handles)
    ensures Sum(Nums(s)) == Sum(s.counts)
    ensures forall h | h in s.sessions :: s.sessions[h].place.Live?
  {
    forall m | 0 <= m < |s.managers|
      ensures s.managers[m].box.inflight == [] && s.managers[m].num == LiveCount(s.managers[m].box.handles)
    {
      assert ManagerOk(s, m);
      NothingUnsentWhenWaiting(s, m);
    }
    forall h | h in s.sessions ensures s.sessions[h].place.Live? { assert SessionOk(s, h); }
    assert Nums(s) == Dues(s.managers);
  }

  lemma NothingUnsentWhenWaiting(s: State, m: int)
    requires forall t | 0 <= t < |s.managers| :: s.managers[t].pc.Wait?
    ensures Unsent(s, m) == 0
  {
  }

  /** Entry `i` of manager `m` serves session `h` with an object of port `p`. */
  predicate Serves(s: State, m: int, i: int, h: int, p: int) {
    InEntry(s, m, i, h) && s.managers[m].box.objects[i].Object? && s.managers[m].box.objects[i].port == p
  }

  /** The slab of a port and the entries describe the same sessions: once no thread is entering one,
      the used slots of port `p` and the entries served from that port match one to one. */
  lemma SlabMatchesEntries(g: Config, s: State, p: int, h: int)
    requires Inv(g, s) && 0 <= p < |s.slabs| && h != 0
    requires forall m | 0 <= m < |s.managers| :: !s.managers[m].pc.Allocated?
    ensures (exists j :: InSlab(s, p, j, h)) <==> (exists m, i :: Serves(s, m, i, h, p))
    ensures forall j, k :: InSlab(s, p, j, h) && InSlab(s, p, k, h) ==> j == k
    ensures forall m, i, n, k :: Serves(s, m, i, h, p) && Serves(s, n, k, h, p) ==> m == n && i == k
  {
    forall j, k | InSlab(s, p, j, h) && InSlab(s, p, k, h) ensures j == k {
      assert SlotOk(s, p, j) && SlotOk(s, p, k);
      if j != k { SlotsDistinct(s, p, j, k); }
    }
    forall m, i, n, k | Serves(s, m, i, h, p) && Serves(s, n, k, h, p) ensures m == n && i == k {
      assert EntryOk(s, m, i) && EntryOk(s, n, k);
    }
    if j :| InSlab(s, p, j, h) {
      assert SlotOk(s, p, j);
      assert Serves(s, s.sessions[h].place.manager, s.sessions[h].place.entry, h, p);
    }
    if m, i :| Serves(s, m, i, h, p) {
      assert EntryOk(s, m, i);
      assert InSlab(s, p, s.managers[m].box.objects[i].slot, h);
    }
  }
}
